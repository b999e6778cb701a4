/** The event base: events kept in slices of TIMESLICE_PERIOD nanoseconds, per sensor and scope, and the flat
    log of pushes it stands for. */
module EventBase {
  import opened OrderedMap

  const TIMESLICE_PERIOD: int := 1000

  datatype Event = Event(time: int, value: real)

  /** The remainder of C, which has the sign of the dividend. */
  function CRem(a: int, b: int): int
    requires b > 0
  {
    if a >= 0 then a % b else -((-a) % b)
  }

  /** nrm_eb_time2key. */
  function Time2Key(t: int): int {
    t - CRem(t, TIMESLICE_PERIOD)
  }

  type Slices = seq<Entry<int, seq<Event>>>
  type Scopes = seq<Entry<string, Slices>>
  type Sensors = seq<Entry<string, Scopes>>

  datatype LogEntry = LogEntry(sensor: string, scope: string, event: Event)

  // ---------- what the structure stands for ----------

  function Lookup<V>(m: seq<Entry<string, seq<V>>>, k: string): seq<V> {
    match Find(m, k)
    case None => []
    case Some(v) => v
  }

  /** Find-or-add in one step. */
  function Put<K(==), V>(m: seq<Entry<K, V>>, k: K, v: V): seq<Entry<K, V>> {
    if Find(m, k).Some? then Update(m, k, v) else m + [Entry(k, v)]
  }

  lemma PutLaws<K, V>(m: seq<Entry<K, V>>, k: K, v: V, other: K)
    ensures Find(Put(m, k, v), k) == Some(v)
    ensures other != k ==> Find(Put(m, k, v), other) == Find(m, other)
  {
    UpdateLaws(m, k, v, other);
    FindAppend(m, Entry(k, v), k);
    FindAppend(m, Entry(k, v), other);
  }

  /** One event into its slice. */
  function PushSlice(sl: Slices, e: Event): Slices {
    var key := Time2Key(e.time);
    match Find(sl, key)
    case None => sl + [Entry(key, [e])]
    case Some(es) => Update(sl, key, es + [e])
  }

  /** The slices of a stream of events. */
  function SlicesOf(es: seq<Event>): Slices {
    if es == [] then [] else PushSlice(SlicesOf(es[..|es| - 1]), es[|es| - 1])
  }

  /** The events of one sensor and scope, in push order. */
  function Stream(log: seq<LogEntry>, sensor: string, scope: string): seq<Event> {
    if log == [] then []
    else
      var l := log[|log| - 1];
      Stream(log[..|log| - 1], sensor, scope) + if l.sensor == sensor && l.scope == scope then [l.event] else []
  }

  class Timeserie {
    var events: seq<Event>
    var start: int

    /** nrm_timeserie_create. */
    constructor ()
      ensures events == [] && start == 0
    {
      events, start := [], 0;
    }

    /** nrm_timeserie_add_event: `start` is the latest time so far. */
    method AddEvent(e: Event)
      modifies this
      ensures events == old(events) + [e] && start == if old(start) < e.time then e.time else old(start)
    {
      events := events + [e];
      if start < e.time {
        start := e.time;
      }
    }

    /** nrm_timeserie_add_events. */
    method AddEvents(es: seq<Event>)
      requires start == Latest(events)
      modifies this
      ensures events == old(events) + es && start == Latest(events)
    {
      for i := 0 to |es|
        invariant events == old(events) + es[..i] && start == Latest(events)
      {
        LatestSnoc(events, es[i]);
        AddEvent(es[i]);
      }
    }
  }

  /** The latest time of a timeserie, or 0. */
  function Latest(es: seq<Event>): int {
    if es == [] then 0
    else var m := Latest(es[..|es| - 1]); if m < es[|es| - 1].time then es[|es| - 1].time else m
  }

  lemma LatestSnoc(es: seq<Event>, e: Event)
    ensures Latest(es + [e]) == if Latest(es) < e.time then e.time else Latest(es)
  {
    assert (es + [e])[..|es|] == es;
  }

  lemma {:induction false} LatestIsMax(es: seq<Event>)
    ensures Latest(es) >= 0 && forall i :: 0 <= i < |es| ==> es[i].time <= Latest(es)
    ensures Latest(es) == 0 || exists i :: 0 <= i < |es| && es[i].time == Latest(es)
  {
    if es != [] {
      var front := es[..|es| - 1];
      LatestIsMax(front);
      assert forall i :: 0 <= i < |front| ==> es[i] == front[i];
    }
  }

  /** The start of a timeserie is the time of its first event if and only if no event is later and it is not before the
      epoch. */
  lemma StartIsFirst(es: seq<Event>)
    requires es != []
    ensures Latest(es) == es[0].time <==> 0 <= es[0].time && forall i :: 0 <= i < |es| ==> es[i].time <= es[0].time
  {
    LatestIsMax(es);
  }

  /** Two events a nanosecond apart: the timeserie starts with the second. */
  lemma StartIsNotFirst()
    ensures Latest([Event(1, 0.0), Event(2, 0.0)]) == 2
  {
    LatestSnoc([], Event(1, 0.0));
    assert [Event(1, 0.0)] + [Event(2, 0.0)] == [Event(1, 0.0), Event(2, 0.0)];
    assert [] + [Event(1, 0.0)] == [Event(1, 0.0)];
    LatestSnoc([Event(1, 0.0)], Event(2, 0.0));
  }

  class Base {
    var sensors: Sensors
    ghost var log: seq<LogEntry>

    ghost predicate Valid()
      reads this
    {
      forall a, b :: Lookup(Lookup(sensors, a), b) == SlicesOf(Stream(log, a, b))
    }

    /** nrm_eventbase_create. */
    constructor ()
      ensures Valid() && log == []
    {
      sensors, log := [], [];
    }

    /** nrm_eventbase_push_event. */
    method PushEvent(sensor: string, scope: string, time: int, value: real)
      requires Valid()
      modifies this
      ensures Valid() && log == old(log) + [LogEntry(sensor, scope, Event(time, value))]
    {
      var e := Event(time, value);
      var sb: Scopes := [];
      var found := Find(sensors, sensor);
      if found.Some? {
        sb := found.value;
      }
      var sc: Slices := [];
      var foundScope := Find(sb, scope);
      if foundScope.Some? {
        sc := foundScope.value;
      }
      var key := time - CRem(time, TIMESLICE_PERIOD);
      var ts := Find(sc, key);
      if ts.None? {
        sc := sc + [Entry(key, [e])];
      } else {
        sc := Update(sc, key, ts.value + [e]);
      }
      ghost var was := sensors;
      sensors := Put(sensors, sensor, Put(sb, scope, sc));
      log := log + [LogEntry(sensor, scope, e)];
      forall a, b
        ensures Lookup(Lookup(sensors, a), b) == SlicesOf(Stream(log, a, b))
      {
        assert Lookup(Lookup(was, a), b) == SlicesOf(Stream(old(log), a, b));
        PushedLookup(was, sc, old(log), LogEntry(sensor, scope, e), a, b);
      }
    }

    /** nrm_eventbase_pull_timeserie; `now` is the clock it reads. */
    method PullTimeserie(sensor: string, scope: string, since: int, now: int) returns (ts: Timeserie)
      requires Valid()
      ensures fresh(ts) && ts.start == Latest(ts.events)
      ensures ts.events == Pull(SlicesOf(Stream(log, sensor, scope)), Time2Key(since), Time2Key(now))
      ensures multiset(ts.events) == multiset(Window(Stream(log, sensor, scope), Time2Key(since), Time2Key(now)))
      ensures TimeOrdered(Stream(log, sensor, scope)) ==>
        ts.events == Window(Stream(log, sensor, scope), Time2Key(since), Time2Key(now))
    {
      ghost var es := Stream(log, sensor, scope);
      PullIsWindow(es, Time2Key(since), Time2Key(now));
      if TimeOrdered(es) { PullInOrder(es, Time2Key(since), Time2Key(now)); }
      ts := Collect(Lookup(Lookup(sensors, sensor), scope), Time2Key(since), Time2Key(now));
    }
  }

  lemma PushedLookup(was: Sensors, sc: Slices, log: seq<LogEntry>, l: LogEntry, a: string, b: string)
    requires sc == PushSlice(Lookup(Lookup(was, l.sensor), l.scope), l.event)
    requires Lookup(Lookup(was, a), b) == SlicesOf(Stream(log, a, b))
    ensures var sensors := Put(was, l.sensor, Put(Lookup(was, l.sensor), l.scope, sc));
      Lookup(Lookup(sensors, a), b) == SlicesOf(Stream(log + [l], a, b))
  {
    var sb := Lookup(was, l.sensor);
    PutLaws(was, l.sensor, Put(sb, l.scope, sc), a);
    PutLaws(sb, l.scope, sc, b);
    StreamSnoc(log, l, a, b);
  }

  /** The loop of nrm_eventbase_pull_timeserie over the slices in insertion order. */
  method Collect(sc: Slices, ksince: int, know: int) returns (ts: Timeserie)
    ensures fresh(ts) && ts.events == Pull(sc, ksince, know) && ts.start == Latest(ts.events)
  {
    ts := new Timeserie();
    for i := 0 to |sc|
      invariant ts.events + Pull(sc[i..], ksince, know) == Pull(sc, ksince, know)
      invariant ts.start == Latest(ts.events)
    {
      assert sc[i..][1..] == sc[i + 1..];
      if sc[i].key >= ksince && sc[i].key < know {
        ts.AddEvents(sc[i].value);
      }
    }
  }

  lemma StreamSnoc(log: seq<LogEntry>, l: LogEntry, a: string, b: string)
    ensures var s := Stream(log, a, b); var s' := Stream(log + [l], a, b);
      if l.sensor == a && l.scope == b then s' == s + [l.event] && SlicesOf(s') == PushSlice(SlicesOf(s), l.event)
      else s' == s
  {
    assert (log + [l])[..|log|] == log;
    var s := Stream(log, a, b);
    assert (s + [l.event])[..|s|] == s;
  }

  /** The events of the slices whose key is in the window, slice after slice. */
  function Pull(sl: Slices, ksince: int, know: int): seq<Event> {
    if sl == [] then []
    else (if ksince <= sl[0].key < know then sl[0].value else []) + Pull(sl[1..], ksince, know)
  }

  // ---------- pulling refines the flat log ----------

  predicate InWindow(e: Event, ksince: int, know: int) {
    ksince <= Time2Key(e.time) < know
  }

  /** The events of the window, in push order. */
  function Window(es: seq<Event>, ksince: int, know: int): seq<Event> {
    if es == [] then []
    else
      var e := es[|es| - 1];
      Window(es[..|es| - 1], ksince, know) + if InWindow(e, ksince, know) then [e] else []
  }

  /** Selecting by key is selecting by time. */
  predicate SameWindow(t: int, ksince: int, know: int) {
    ksince <= Time2Key(t) < know <==> ksince <= t < know
  }

  predicate IsKey(k: int) {
    k % TIMESLICE_PERIOD == 0
  }

  /** A key is a multiple of the period. It is the start of the slice its time lies in if and only if the time is not
      before the epoch, or is a key itself: earlier times are rounded up. */
  lemma KeyOfTime(t: int)
    ensures IsKey(Time2Key(t))
    ensures Time2Key(t) <= t < Time2Key(t) + TIMESLICE_PERIOD <==> t >= 0 || IsKey(t)
    ensures t < 0 ==> Time2Key(t) - TIMESLICE_PERIOD < t <= Time2Key(t) <= 0
  {
  }

  /** Under the same condition, every window on keys is a window on times. */
  lemma WindowOnTimes(t: int)
    ensures (forall lo, hi :: IsKey(lo) && IsKey(hi) ==> SameWindow(t, lo, hi)) <==> t >= 0 || IsKey(t)
  {
    KeyOfTime(t);
    var k := Time2Key(t);
    if t < 0 && !IsKey(t) {
      assert IsKey(k + TIMESLICE_PERIOD) && !SameWindow(t, k, k + TIMESLICE_PERIOD);
    } else {
      forall lo, hi | IsKey(lo) && IsKey(hi)
        ensures SameWindow(t, lo, hi)
      {
        KeysBound(t, lo);
        KeysBound(t, hi);
      }
    }
  }

  lemma KeysBound(t: int, k: int)
    requires IsKey(k) && (t >= 0 || IsKey(t))
    ensures k <= t <==> k <= Time2Key(t)
  {
  }

  /** So the slice of key 0 is almost two periods wide. */
  lemma SliceZeroIsWide(t: int)
    ensures Time2Key(t) == 0 <==> -TIMESLICE_PERIOD < t < TIMESLICE_PERIOD
  {
  }

  lemma {:induction false} PullUpdate(sl: Slices, e: Event, lo: int, hi: int)
    requires Find(sl, Time2Key(e.time)).Some?
    ensures var k := Time2Key(e.time);
      multiset(Pull(Update(sl, k, Find(sl, k).value + [e]), lo, hi)) ==
      multiset(Pull(sl, lo, hi)) + if lo <= k < hi then multiset{e} else multiset{}
  {
    var k := Time2Key(e.time);
    var es := Find(sl, k).value;
    var u := Update(sl, k, es + [e]);
    if sl[0].key == k {
      assert u[1..] == sl[1..];
    } else {
      assert u[1..] == Update(sl[1..], k, es + [e]);
      PullUpdate(sl[1..], e, lo, hi);
    }
  }

  lemma {:induction false} PullAppend(sl: Slices, x: Entry<int, seq<Event>>, lo: int, hi: int)
    ensures Pull(sl + [x], lo, hi) == Pull(sl, lo, hi) + if lo <= x.key < hi then x.value else []
  {
    if sl == [] {
      assert ([] + [x])[1..] == [];
      assert Pull([x], lo, hi) == (if lo <= x.key < hi then x.value else []) + Pull([], lo, hi);
    } else {
      assert (sl + [x])[1..] == sl[1..] + [x];
      PullAppend(sl[1..], x, lo, hi);
    }
  }

  /** A pull returns exactly the logged events of the window, each as often as it was pushed. */
  lemma {:induction false} PullIsWindow(es: seq<Event>, lo: int, hi: int)
    ensures multiset(Pull(SlicesOf(es), lo, hi)) == multiset(Window(es, lo, hi))
  {
    if es != [] {
      var front, e := es[..|es| - 1], es[|es| - 1];
      PullIsWindow(front, lo, hi);
      var sl, k := SlicesOf(front), Time2Key(e.time);
      if Find(sl, k).Some? {
        PullUpdate(sl, e, lo, hi);
      } else {
        PullAppend(sl, Entry(k, [e]), lo, hi);
      }
    }
  }

  ghost predicate TimeOrdered(es: seq<Event>) {
    forall i, j :: 0 <= i <= j < |es| ==> 0 <= es[i].time <= es[j].time
  }

  /** The keys of the slices increase, up to `k`. */
  ghost predicate KeysRise(sl: Slices, k: int) {
    && (forall i, j :: 0 <= i < j < |sl| ==> sl[i].key < sl[j].key)
    && (forall i :: 0 <= i < |sl| ==> sl[i].key <= k)
  }

  lemma {:induction false} PushInOrder(sl: Slices, e: Event, lo: int, hi: int)
    requires KeysRise(sl, Time2Key(e.time))
    ensures KeysRise(PushSlice(sl, e), Time2Key(e.time))
    ensures Pull(PushSlice(sl, e), lo, hi) == Pull(sl, lo, hi) + if InWindow(e, lo, hi) then [e] else []
  {
    var k := Time2Key(e.time);
    FindAt(sl, k);
    if Find(sl, k).None? {
      PullAppend(sl, Entry(k, [e]), lo, hi);
    } else {
      var es := Find(sl, k).value;
      UpdateLaws(sl, k, es + [e], k);
      UpdateLast(sl, e, lo, hi);
    }
  }

  lemma LoneHead(sl: Slices, k: int)
    requires KeysRise(sl, k) && sl != [] && sl[0].key == k
    ensures |sl| == 1
  {
    assert sl[|sl| - 1].key <= k;
  }

  lemma {:induction false} UpdateLast(sl: Slices, e: Event, lo: int, hi: int)
    requires KeysRise(sl, Time2Key(e.time)) && Find(sl, Time2Key(e.time)).Some?
    ensures var k := Time2Key(e.time);
      Pull(Update(sl, k, Find(sl, k).value + [e]), lo, hi) == Pull(sl, lo, hi) + if lo <= k < hi then [e] else []
  {
    var k := Time2Key(e.time);
    var es := Find(sl, k).value;
    var u := Update(sl, k, es + [e]);
    if sl[0].key == k {
      LoneHead(sl, k);
      assert sl == [Entry(k, es)];
      assert u == [Entry(k, es + [e])] && u[1..] == [] && sl[1..] == [];
    } else {
      assert u[1..] == Update(sl[1..], k, es + [e]);
      UpdateLast(sl[1..], e, lo, hi);
    }
  }

  /** When events are pushed in the order of their times, a pull returns the window in exact push order. */
  lemma {:induction false} PullInOrder(es: seq<Event>, lo: int, hi: int)
    requires TimeOrdered(es)
    ensures Pull(SlicesOf(es), lo, hi) == Window(es, lo, hi)
    ensures es != [] ==> KeysRise(SlicesOf(es), Time2Key(es[|es| - 1].time))
  {
    if es != [] {
      var front, e := es[..|es| - 1], es[|es| - 1];
      PullInOrder(front, lo, hi);
      if front != [] {
        var f := front[|front| - 1];
        assert es[|es| - 2] == f;
        KeysMonotone(f.time, e.time);
      }
      PushInOrder(SlicesOf(front), e, lo, hi);
    }
  }

  lemma KeysMonotone(t1: int, t2: int)
    requires 0 <= t1 <= t2
    ensures Time2Key(t1) <= Time2Key(t2)
  {
  }
}
