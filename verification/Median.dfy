/** Progress as the median of the rates between consecutive events. */
module Median {
  import opened Sorting
  import opened EventBase

  const NANO: real := 0.000000001

  ghost predicate DistinctTimes(es: seq<Event>) {
    forall i :: 0 <= i < |es| - 1 ==> Apart(es, i)
  }

  predicate Apart(es: seq<Event>, i: nat)
    requires i + 1 < |es|
  {
    es[i].time != es[i + 1].time
  }

  /** The rate between event i and the next. */
  function Rate(es: seq<Event>, i: nat): real
    requires i + 1 < |es| && Apart(es, i)
  {
    es[i + 1].value / ((es[i + 1].time - es[i].time) as real * NANO)
  }

  function Rates(es: seq<Event>): seq<real>
    requires |es| >= 1 && DistinctTimes(es)
  {
    seq(|es| - 1, i requires 0 <= i < |es| - 1 && DistinctTimes(es) => assert Apart(es, i); Rate(es, i))
  }

  /** The middle of a sorted vector, or the mean of the two middle elements. */
  function Middle(s: seq<real>): real
    requires s != []
  {
    if |s| % 2 == 1 then s[|s| / 2] else (s[|s| / 2 - 1] + s[|s| / 2]) / 2.0
  }

  function MedianOf(s: seq<real>): real
    requires s != []
  {
    SortSorts(s);
    Middle(Sort(s))
  }

  /** nrm_control_europar21_events2progress. */
  method Events2Progress(events: seq<Event>) returns (median: real)
    requires |events| >= 2 && DistinctTimes(events)
    ensures median == MedianOf(Rates(events))
  {
    var diffs: seq<real> := [];
    var prev := events[0];
    for i := 1 to |events|
      invariant prev == events[i - 1]
      invariant diffs == Rates(events)[..i - 1]
    {
      var e := events[i];
      assert Apart(events, i - 1);
      var delta := e.time - prev.time;
      var nv := e.value / (delta as real * NANO);
      assert nv == Rates(events)[i - 1];
      diffs := diffs + [nv];
      prev := e;
    }
    assert diffs == Rates(events);
    SortSorts(diffs);
    diffs := Sort(diffs);
    var n := |events| - 1;
    if n % 2 == 1 {
      median := diffs[n / 2];
    } else {
      median := (diffs[n / 2 - 1] + diffs[n / 2]) / 2.0;
    }
  }

  // ---------- it is a median ----------

  function CountLe(s: seq<real>, m: real): nat {
    if s == [] then 0 else (if s[0] <= m then 1 else 0) + CountLe(s[1..], m)
  }

  function CountGe(s: seq<real>, m: real): nat {
    if s == [] then 0 else (if s[0] >= m then 1 else 0) + CountGe(s[1..], m)
  }

  lemma {:induction false} CountInsert(s: seq<real>, x: real, m: real)
    ensures CountLe(Insert(s, x), m) == CountLe(s, m) + (if x <= m then 1 else 0)
    ensures CountGe(Insert(s, x), m) == CountGe(s, m) + (if x >= m then 1 else 0)
  {
    if s == [] {
      assert [x][1..] == [];
    } else if x <= s[0] {
      assert ([x] + s)[1..] == s;
    } else {
      CountInsert(s[1..], x, m);
      assert ([s[0]] + Insert(s[1..], x))[1..] == Insert(s[1..], x);
    }
  }

  lemma {:induction false} CountSort(s: seq<real>, m: real)
    ensures CountLe(Sort(s), m) == CountLe(s, m) && CountGe(Sort(s), m) == CountGe(s, m)
  {
    if s != [] {
      CountSort(s[1..], m);
      CountInsert(Sort(s[1..]), s[0], m);
    }
  }

  lemma {:induction false} CountLePrefix(s: seq<real>, k: nat, m: real)
    requires k <= |s| && forall i :: 0 <= i < k ==> s[i] <= m
    ensures CountLe(s, m) >= k
  {
    if k > 0 { CountLePrefix(s[1..], k - 1, m); }
  }

  lemma {:induction false} CountGeSuffix(s: seq<real>, k: nat, m: real)
    requires k <= |s| && forall i :: k <= i < |s| ==> s[i] >= m
    ensures CountGe(s, m) >= |s| - k
  {
    if s != [] {
      CountGeSuffix(s[1..], if k > 0 then k - 1 else 0, m);
    }
  }

  /** At least half of the rates are at most the median, and at least half are at least the median. */
  lemma MedianSplits(s: seq<real>)
    requires s != []
    ensures 2 * CountLe(s, MedianOf(s)) >= |s| && 2 * CountGe(s, MedianOf(s)) >= |s|
  {
    var o, m := Sort(s), MedianOf(s);
    SortSorts(s);
    CountSort(s, m);
    var h := |o| / 2;
    CountLePrefix(o, if |o| % 2 == 1 then h + 1 else h, m);
    CountGeSuffix(o, h, m);
  }

  /** The median depends on the rates only, not on their order. */
  lemma MedianOrderFree(s: seq<real>, s': seq<real>)
    requires s != [] && multiset(s) == multiset(s')
    ensures s' != [] && MedianOf(s) == MedianOf(s')
  {
    assert s[0] in multiset(s');
    SortSorts(s);
    SortSorts(s');
    SortedUnique(Sort(s), Sort(s'));
  }

  /** For any sorted vector of the same elements, the median is the middle one, or the mean of the middle two. */
  lemma MedianOfSorted(s: seq<real>, o: seq<real>)
    requires s != [] && Sorted(o) && multiset(o) == multiset(s)
    ensures |o| == |s|
    ensures |s| % 2 == 1 ==> MedianOf(s) == o[|s| / 2]
    ensures |s| % 2 == 0 ==> 2.0 * MedianOf(s) == o[|s| / 2 - 1] + o[|s| / 2]
  {
    SortSorts(s);
    SortedUnique(Sort(s), o);
  }

  // ---------- what a rate is ----------

  /** One rate for each event but the first: its value, per second since the event before. */
  lemma RatesMeaning(es: seq<Event>, i: nat)
    requires i + 1 < |es| && DistinctTimes(es)
    ensures |Rates(es)| == |es| - 1
    ensures Rates(es)[i] * (es[i + 1].time - es[i].time) as real == es[i + 1].value * 1000000000.0
  {
    assert Apart(es, i);
    QuotientOfNano(es[i + 1].value, (es[i + 1].time - es[i].time) as real);
  }

  lemma QuotientOfNano(v: real, d: real)
    requires d != 0.0
    ensures v / (d * NANO) * d == v * 1000000000.0
  {
    var q := v / (d * NANO);
    assert q * (d * NANO) == v;
    assert q * (d * NANO) == (q * d) * NANO;
  }

  lemma Cancel(x: real, y: real, d: real)
    requires d != 0.0 && x * d == y * d
    ensures x == y
  {
    assert (x - y) * d == 0.0;
  }

  lemma {:induction false} SameRates(es: seq<Event>, fs: seq<Event>)
    requires |es| == |fs| >= 2 && DistinctTimes(es)
    requires forall i :: 0 <= i < |es| ==> es[i].time == fs[i].time
    requires forall i :: 1 <= i < |es| ==> es[i].value == fs[i].value
    ensures DistinctTimes(fs) && Rates(es) == Rates(fs)
  {
    forall i | 0 <= i < |fs| - 1
      ensures Apart(fs, i)
    {
      assert Apart(es, i);
    }
    forall i | 0 <= i < |es| - 1
      ensures Rates(es)[i] == Rates(fs)[i]
    {
      RatesMeaning(es, i);
      RatesMeaning(fs, i);
      assert Apart(es, i);
      Cancel(Rates(es)[i], Rates(fs)[i], (es[i + 1].time - es[i].time) as real);
    }
  }

  /** Progress does not depend on the value of the first event: it only opens the window. */
  lemma FirstValueIsUnused(es: seq<Event>, v: real)
    requires |es| >= 2 && DistinctTimes(es)
    ensures var fs := es[0 := Event(es[0].time, v)];
      DistinctTimes(fs) && MedianOf(Rates(fs)) == MedianOf(Rates(es))
  {
    SameRates(es, es[0 := Event(es[0].time, v)]);
  }

  /** Every event but the first has value v and comes d nanoseconds after the one before. */
  ghost predicate Steady(es: seq<Event>, v: real, d: int) {
    forall i :: 0 <= i < |es| - 1 ==> Follows(es, v, d, i)
  }

  predicate Follows(es: seq<Event>, v: real, d: int, i: nat)
    requires i + 1 < |es|
  {
    es[i + 1].value == v && es[i + 1].time == es[i].time + d
  }

  lemma SteadyRate(es: seq<Event>, v: real, d: int, i: nat)
    requires i + 1 < |es| && DistinctTimes(es) && Follows(es, v, d, i)
    ensures |Rates(es)| == |es| - 1 && Rates(es)[i] * d as real == v * 1000000000.0
  {
    RatesMeaning(es, i);
  }

  lemma ConstantMedian(s: seq<real>, r: real)
    requires s != [] && forall i :: 0 <= i < |s| ==> s[i] == r
    ensures MedianOf(s) == r
  {
    MedianOfSorted(s, s);
  }

  /** Events of value v that follow each other every d nanoseconds make a progress of v per d nanoseconds. */
  lemma SteadyProgress(es: seq<Event>, v: real, d: int)
    requires |es| >= 2 && d != 0 && Steady(es, v, d)
    ensures DistinctTimes(es) && MedianOf(Rates(es)) * d as real == v * 1000000000.0
  {
    forall i | 0 <= i < |es| - 1
      ensures Apart(es, i)
    {
      assert Follows(es, v, d, i);
    }
    var rs := Rates(es);
    assert Follows(es, v, d, 0);
    SteadyRate(es, v, d, 0);
    forall i | 0 <= i < |rs|
      ensures rs[i] == rs[0]
    {
      assert Follows(es, v, d, i);
      SteadyRate(es, v, d, i);
      Cancel(rs[i], rs[0], d as real);
    }
    ConstantMedian(rs, rs[0]);
  }
}
