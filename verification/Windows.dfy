/** Which pushed events successive control ticks see. Each tick pulls the window from the last action to the
    clock it reads while pulling; a tick with more than one event acts, and reads the clock again. */
module Windows {
  import opened EventBase

  /** One step of the daemon, for one control input: an event is pushed, or a control tick reads the clock at
      `pull`, and once more at `act` if it acts. */
  datatype Step = Push(e: Event) | Tick(pull: int, act: int)

  /** The span of an acting tick: it used the events keyed from lo up to mid, and the next tick starts at hi. */
  datatype Span = Span(lo: int, mid: int, hi: int)

  /** The pushed events, the time of the last action, and three histories of the acting ticks: the log positions each
      progress computation used, the spans, and how many events had been pushed. */
  datatype Loop = Loop(log: seq<Event>, last: int, used: seq<set<nat>>, spans: seq<Span>, pushed: seq<nat>)

  /** The log positions a tick pulls. */
  function Pulled(log: seq<Event>, lo: int, hi: int): set<nat> {
    set i: nat | i < |log| && InWindow(log[i], lo, hi)
  }

  function TickFn(s: Loop, pull: int, act: int): Loop {
    var lo, mid := Time2Key(s.last), Time2Key(pull);
    var seen := Pulled(s.log, lo, mid);
    if |seen| <= 1 then s
    else s.(last := act, used := s.used + [seen], spans := s.spans + [Span(lo, mid, Time2Key(act))],
            pushed := s.pushed + [|s.log|])
  }

  function StepFn(s: Loop, a: Step): Loop {
    match a
    case Push(e) => s.(log := s.log + [e])
    case Tick(pull, act) => TickFn(s, pull, act)
  }

  function Run(s: Loop, steps: seq<Step>): Loop
    decreases |steps|
  {
    if steps == [] then s else Run(StepFn(s, steps[0]), steps[1..])
  }

  lemma {:induction false} RunSnoc(s: Loop, steps: seq<Step>, a: Step)
    ensures Run(s, steps + [a]) == StepFn(Run(s, steps), a)
    decreases |steps|
  {
    if steps == [] {
      assert steps + [a] == [a] && [a][1..] == [];
      assert Run(StepFn(s, a), []) == StepFn(s, a);
    } else {
      assert (steps + [a])[1..] == steps[1..] + [a];
      RunSnoc(StepFn(s, steps[0]), steps[1..], a);
    }
  }

  /** The clock readings of a run never go back. */
  ghost predicate ClockRises(from: int, steps: seq<Step>)
    decreases |steps|
  {
    if steps == [] then true
    else match steps[0]
      case Push(_) => ClockRises(from, steps[1..])
      case Tick(pull, act) => 0 <= from <= pull <= act && ClockRises(act, steps[1..])
  }

  /** How many events a tick sees is what the event base returns. */
  lemma {:induction false} PulledCount(log: seq<Event>, lo: int, hi: int)
    ensures |Pulled(log, lo, hi)| == |Window(log, lo, hi)|
  {
    if log != [] {
      var front, n := log[..|log| - 1], |log| - 1;
      PulledCount(front, lo, hi);
      assert Pulled(log, lo, hi) == Pulled(front, lo, hi) + if InWindow(log[n], lo, hi) then {n} else {};
    }
  }

  ghost predicate Adjacent(spans: seq<Span>, i: nat)
    requires i < |spans| - 1
  {
    spans[i].hi == spans[i + 1].lo
  }

  predicate Ordered(sp: Span) {
    sp.lo <= sp.mid <= sp.hi
  }

  /** The positions used are exactly those pushed by then that hold events of the first part of the span. */
  ghost predicate UsedFrom(log: seq<Event>, used: set<nat>, sp: Span, pushed: nat) {
    pushed <= |log| && forall p: nat :: p in used <==> p < pushed && InWindow(log[p], sp.lo, sp.mid)
  }

  /** The spans tile the time line from the start to the last action, and each computation used the events of
      the first part of its span pushed before it. */
  ghost predicate SpansOk(s: Loop, start: int) {
    && |s.used| == |s.spans| == |s.pushed|
    && (forall i :: 0 <= i < |s.spans| ==> Ordered(s.spans[i]))
    && (forall i :: 0 <= i < |s.spans| - 1 ==> Adjacent(s.spans, i))
    && (if s.spans == [] then Time2Key(s.last) == start
        else s.spans[0].lo == start && s.spans[|s.spans| - 1].hi == Time2Key(s.last))
    && (forall i :: 0 <= i < |s.used| ==> UsedFrom(s.log, s.used[i], s.spans[i], s.pushed[i]))
  }

  lemma StepKeepsSpans(s: Loop, a: Step, start: int)
    requires SpansOk(s, start) && 0 <= s.last
    requires a.Tick? ==> s.last <= a.pull <= a.act
    ensures SpansOk(StepFn(s, a), start)
  {
    var s' := StepFn(s, a);
    if a.Tick? {
      KeysMonotone(s.last, a.pull);
      KeysMonotone(a.pull, a.act);
    }
    forall i | 0 <= i < |s'.spans| - 1
      ensures Adjacent(s'.spans, i)
    {
      if i < |s.spans| - 1 { assert Adjacent(s.spans, i); }
    }
    forall i | 0 <= i < |s'.used|
      ensures UsedFrom(s'.log, s'.used[i], s'.spans[i], s'.pushed[i])
    {
      if i < |s.used| { assert UsedFrom(s.log, s.used[i], s.spans[i], s.pushed[i]); }
    }
  }

  lemma {:induction false} RunKeepsSpans(s: Loop, steps: seq<Step>, start: int, clock: int)
    requires SpansOk(s, start) && 0 <= s.last <= clock && ClockRises(clock, steps)
    ensures SpansOk(Run(s, steps), start) && s.last <= Run(s, steps).last
    decreases |steps|
  {
    if steps != [] {
      StepKeepsSpans(s, steps[0], start);
      var s' := StepFn(s, steps[0]);
      match steps[0]
      case Push(_) => RunKeepsSpans(s', steps[1..], start, clock);
      case Tick(_, act) => RunKeepsSpans(s', steps[1..], start, act);
    }
  }

  /** A controller made at time t, when `log` has already been pushed. */
  function Start(log: seq<Event>, t: int): Loop {
    Loop(log, t, [], [], [])
  }

  lemma {:induction false} SpansRise(s: Loop, start: int, i: nat, j: nat)
    requires SpansOk(s, start) && i < j < |s.spans|
    ensures s.spans[i].hi <= s.spans[j].lo
  {
    assert Adjacent(s.spans, j - 1);
    assert s.spans[j - 1].hi == s.spans[j].lo;
    if i + 1 < j {
      SpansRise(s, start, i, j - 1);
      assert Ordered(s.spans[j - 1]);
    }
  }

  /** Over every run with a clock that never goes back, each pushed event is used in at most one progress
      computation. */
  lemma EventsUsedAtMostOnce(log: seq<Event>, t: int, steps: seq<Step>, i: nat, j: nat)
    requires 0 <= t && ClockRises(t, steps) && i < j < |Run(Start(log, t), steps).used|
    ensures Run(Start(log, t), steps).used[i] !! Run(Start(log, t), steps).used[j]
  {
    var s := Run(Start(log, t), steps);
    RunKeepsSpans(Start(log, t), steps, Time2Key(t), t);
    SpansRise(s, Time2Key(t), i, j);
    assert Ordered(s.spans[i]) && Ordered(s.spans[j]);
    assert UsedFrom(s.log, s.used[i], s.spans[i], s.pushed[i]) && UsedFrom(s.log, s.used[j], s.spans[j], s.pushed[j]);
  }

  /** The key is in the window of acting tick i. */
  ghost predicate InUsedPartOf(s: Loop, k: int, i: nat)
    requires i < |s.spans|
  {
    s.spans[i].lo <= k < s.spans[i].mid
  }

  ghost predicate InUsedPart(s: Loop, k: int) {
    exists i :: 0 <= i < |s.spans| && InUsedPartOf(s, k, i)
  }

  /** The key is at or after that of the first clock reading of an acting tick, and before that of the second. */
  ghost predicate InGap(s: Loop, k: int) {
    exists i :: 0 <= i < |s.spans| && s.spans[i].mid <= k < s.spans[i].hi
  }

  /** Up to the last action, every key is either in the window of exactly one computation or in a gap that no
      computation looks at. */
  lemma WindowsAndGapsPartition(log: seq<Event>, t: int, steps: seq<Step>, k: int)
    requires 0 <= t && ClockRises(t, steps)
    ensures var s := Run(Start(log, t), steps);
      Time2Key(t) <= k < Time2Key(s.last) <==> (InUsedPart(s, k) || InGap(s, k))
    ensures !(InUsedPart(Run(Start(log, t), steps), k) && InGap(Run(Start(log, t), steps), k))
  {
    var s, start := Run(Start(log, t), steps), Time2Key(t);
    RunKeepsSpans(Start(log, t), steps, start, t);
    if s.spans != [] && start <= k < Time2Key(s.last) {
      var i := FindSpan(s, start, k, |s.spans| - 1);
      assert k < s.spans[i].mid ==> InUsedPartOf(s, k, i);
    }
    forall i | 0 <= i < |s.spans| && s.spans[i].lo <= k < s.spans[i].hi
      ensures start <= k < Time2Key(s.last)
    {
      SpanInside(s, start, i);
    }
    forall i | 0 <= i < |s.spans|
      ensures Ordered(s.spans[i])
    {
    }
    if InUsedPart(s, k) && InGap(s, k) {
      var i :| 0 <= i < |s.spans| && InUsedPartOf(s, k, i);
      var j :| 0 <= j < |s.spans| && s.spans[j].mid <= k < s.spans[j].hi;
      assert Ordered(s.spans[i]) && Ordered(s.spans[j]);
      if i < j { SpansRise(s, start, i, j); }
      if j < i { SpansRise(s, start, j, i); }
    }
  }

  lemma {:induction false} FindSpan(s: Loop, start: int, k: int, n: nat) returns (i: nat)
    requires SpansOk(s, start) && n < |s.spans| && start <= k < s.spans[n].hi
    ensures i < |s.spans| && s.spans[i].lo <= k < s.spans[i].hi
  {
    if s.spans[n].lo <= k {
      i := n;
    } else {
      assert n > 0 && Adjacent(s.spans, n - 1);
      i := FindSpan(s, start, k, n - 1);
    }
  }

  lemma SpanInside(s: Loop, start: int, i: nat)
    requires SpansOk(s, start) && i < |s.spans|
    ensures start <= s.spans[i].lo && s.spans[i].hi <= Time2Key(s.last)
  {
    if i > 0 { SpansRise(s, start, 0, i); }
    if i < |s.spans| - 1 { SpansRise(s, start, i, |s.spans| - 1); }
  }

  /** An event whose key falls between those of the two clock readings of an acting tick is never used, whenever it
      is pushed and however the run goes on. */
  lemma GapEventsNeverUsed(log: seq<Event>, t: int, steps: seq<Step>, p: nat, i: nat)
    requires 0 <= t && ClockRises(t, steps)
    requires var s := Run(Start(log, t), steps); i < |s.used| && p < |s.log| && InGap(s, Time2Key(s.log[p].time))
    ensures p !in Run(Start(log, t), steps).used[i]
  {
    var s := Run(Start(log, t), steps);
    RunKeepsSpans(Start(log, t), steps, Time2Key(t), t);
    var k := Time2Key(s.log[p].time);
    assert UsedFrom(s.log, s.used[i], s.spans[i], s.pushed[i]);
    assert p in s.used[i] ==> InUsedPartOf(s, k, i);
    WindowsAndGapsPartition(log, t, steps, k);
  }

  // ---------- which events are used ----------

  /** Some progress computation used the event at position p of the log. */
  ghost predicate UsedSome(s: Loop, p: nat) {
    exists i :: 0 <= i < |s.used| && p in s.used[i]
  }

  /** The event was pushed when the acting tick that looked at its key had pulled already. */
  ghost predicate TooLate(s: Loop, k: int, p: nat)
    requires |s.spans| == |s.pushed|
  {
    exists i :: 0 <= i < |s.spans| && InUsedPartOf(s, k, i) && s.pushed[i] <= p
  }

  /** An event keyed between the start and the last action is used by some computation if and only if its key is in
      no gap and it was not pushed too late. */
  lemma EventFate(log: seq<Event>, t: int, steps: seq<Step>, p: nat)
    requires 0 <= t && ClockRises(t, steps) && p < |Run(Start(log, t), steps).log|
    requires var s := Run(Start(log, t), steps); Time2Key(t) <= Time2Key(s.log[p].time) < Time2Key(s.last)
    ensures var s := Run(Start(log, t), steps); var k := Time2Key(s.log[p].time);
      |s.spans| == |s.pushed| && (UsedSome(s, p) <==> !InGap(s, k) && !TooLate(s, k, p))
  {
    var s, start := Run(Start(log, t), steps), Time2Key(t);
    var k := Time2Key(s.log[p].time);
    RunKeepsSpans(Start(log, t), steps, start, t);
    WindowsAndGapsPartition(log, t, steps, k);
    if i :| 0 <= i < |s.spans| && InUsedPartOf(s, k, i) {
      assert UsedFrom(s.log, s.used[i], s.spans[i], s.pushed[i]);
      forall j | 0 <= j < |s.spans| && j != i
        ensures !InUsedPartOf(s, k, j) && p !in s.used[j]
      {
        SpansApart(s, start, i, j, k);
        assert UsedFrom(s.log, s.used[j], s.spans[j], s.pushed[j]);
      }
    } else {
      assert !InUsedPart(s, k);
      forall j | 0 <= j < |s.spans|
        ensures p !in s.used[j]
      {
        assert UsedFrom(s.log, s.used[j], s.spans[j], s.pushed[j]) && !InUsedPartOf(s, k, j);
      }
    }
  }

  lemma SpansApart(s: Loop, start: int, i: nat, j: nat, k: int)
    requires SpansOk(s, start) && i < |s.spans| && j < |s.spans| && i != j && InUsedPartOf(s, k, i)
    ensures !InUsedPartOf(s, k, j)
  {
    assert Ordered(s.spans[i]) && Ordered(s.spans[j]);
    if i < j { SpansRise(s, start, i, j); } else { SpansRise(s, start, j, i); }
  }

  lemma {:induction false} HistoryGrows(s: Loop, steps: seq<Step>)
    ensures var s' := Run(s, steps); s.log <= s'.log && s.used <= s'.used && s.spans <= s'.spans
    decreases |steps|
  {
    if steps != [] { HistoryGrows(StepFn(s, steps[0]), steps[1..]); }
  }

  /** The fate of an event keyed before the last action is settled: it is used in some continuation of the run if and
      only if it has been used. */
  lemma FateIsSettled(s: Loop, start: int, more: seq<Step>, p: nat)
    requires SpansOk(s, start) && 0 <= s.last && ClockRises(s.last, more)
    requires p < |s.log| && Time2Key(s.log[p].time) < Time2Key(s.last)
    ensures UsedSome(Run(s, more), p) <==> UsedSome(s, p)
  {
    var s', k := Run(s, more), Time2Key(s.log[p].time);
    HistoryGrows(s, more);
    RunKeepsSpans(s, more, start, s.last);
    forall i | |s.used| <= i < |s'.used|
      ensures p !in s'.used[i]
    {
      LaterSpan(s, s', start, i);
      assert UsedFrom(s'.log, s'.used[i], s'.spans[i], s'.pushed[i]);
    }
    if UsedSome(s, p) {
      var i :| 0 <= i < |s.used| && p in s.used[i];
      assert p in s'.used[i];
    }
  }

  lemma LaterSpan(s: Loop, s': Loop, start: int, i: nat)
    requires SpansOk(s, start) && SpansOk(s', start) && s.spans <= s'.spans && |s.spans| <= i < |s'.spans|
    ensures Time2Key(s.last) <= s'.spans[i].lo
  {
    var n := |s.spans|;
    if n > 0 {
      assert s'.spans[n - 1] == s.spans[n - 1] && Adjacent(s'.spans, n - 1);
    }
    if n < i {
      SpansRise(s', start, n, i);
      assert Ordered(s'.spans[n]);
    }
  }

  function EventAt(time: int): Event {
    Event(time, 1.0)
  }

  const LOSING_RUN: seq<Step> := [Push(EventAt(10))] + ([Push(EventAt(20))] + ([Push(EventAt(1400))] +
    ([Tick(1500, 2999)] + ([Push(EventAt(2500))] + ([Push(EventAt(2600))] + ([Tick(5000, 5000)] + []))))))

  lemma RunCons(s: Loop, a: Step, rest: seq<Step>)
    ensures Run(s, [a] + rest) == Run(StepFn(s, a), rest)
    ensures forall t :: ClockRises(t, [a] + rest) <==>
      if a.Push? then ClockRises(t, rest) else 0 <= t <= a.pull <= a.act && ClockRises(a.act, rest)
  {
    assert ([a] + rest)[1..] == rest;
  }

  /** A run that loses an event. The one timed 1400 is pushed before the tick that pulls at 1500, but its slice is not
      over yet; and as that tick acts at 2999, the next one starts at 2000. The events timed 2500 and 2600, which lie
      between the two readings too, are used. */
  lemma LostEvent()
    ensures ClockRises(0, LOSING_RUN) && Run(Start([], 0), LOSING_RUN).used == [{0, 1}, {3, 4}]
    ensures Run(Start([], 0), LOSING_RUN).log == [EventAt(10), EventAt(20), EventAt(1400), EventAt(2500), EventAt(2600)]
  {
    var end: seq<Step> := [Push(EventAt(2500))] + ([Push(EventAt(2600))] + ([Tick(5000, 5000)] + []));
    var s3 := Start([EventAt(10), EventAt(20), EventAt(1400)], 0);
    ThreePushes([Tick(1500, 2999)] + end);
    RunCons(s3, Tick(1500, 2999), end);
    FirstTick(s3);
    LosingEnd(TickFn(s3, 1500, 2999));
  }

  lemma ThreePushes(rest: seq<Step>)
    ensures var steps := [Push(EventAt(10))] + ([Push(EventAt(20))] + ([Push(EventAt(1400))] + rest));
      && Run(Start([], 0), steps) == Run(Start([EventAt(10), EventAt(20), EventAt(1400)], 0), rest)
      && (ClockRises(0, steps) <==> ClockRises(0, rest))
  {
    var s0, s1, s2 := Start([], 0), Start([EventAt(10)], 0), Start([EventAt(10), EventAt(20)], 0);
    RunCons(s0, Push(EventAt(10)), [Push(EventAt(20))] + ([Push(EventAt(1400))] + rest));
    RunCons(s1, Push(EventAt(20)), [Push(EventAt(1400))] + rest);
    RunCons(s2, Push(EventAt(1400)), rest);
    assert StepFn(s0, Push(EventAt(10))) == s1 && StepFn(s1, Push(EventAt(20))) == s2;
    assert StepFn(s2, Push(EventAt(1400))) == Start([EventAt(10), EventAt(20), EventAt(1400)], 0);
  }

  lemma LosingEnd(s: Loop)
    requires s.log == [EventAt(10), EventAt(20), EventAt(1400)] && s.last == 2999 && s.used == [{0, 1}]
    ensures var end := [Push(EventAt(2500))] + ([Push(EventAt(2600))] + ([Tick(5000, 5000)] + []));
      && ClockRises(2999, end) && Run(s, end).used == [{0, 1}, {3, 4}]
      && Run(s, end).log == s.log + [EventAt(2500), EventAt(2600)]
  {
    var s5 := StepFn(s, Push(EventAt(2500)));
    var s6 := StepFn(s5, Push(EventAt(2600)));
    RunCons(s, Push(EventAt(2500)), [Push(EventAt(2600))] + ([Tick(5000, 5000)] + []));
    RunCons(s5, Push(EventAt(2600)), [Tick(5000, 5000)] + []);
    RunCons(s6, Tick(5000, 5000), []);
    assert s6.log == [EventAt(10), EventAt(20), EventAt(1400), EventAt(2500), EventAt(2600)];
    SecondTick(s6);
  }

  lemma FirstTick(s: Loop)
    requires s.log == [EventAt(10), EventAt(20), EventAt(1400)] && s.last == 0 && s.used == []
    ensures var s' := TickFn(s, 1500, 2999); s'.log == s.log && s'.last == 2999 && s'.used == [{0, 1}]
  {
    assert Time2Key(10) == Time2Key(20) == 0 && Time2Key(1400) == Time2Key(1500) == 1000;
    assert Pulled(s.log, 0, 1000) == {0, 1};
  }

  lemma SecondTick(s: Loop)
    requires s.log == [EventAt(10), EventAt(20), EventAt(1400), EventAt(2500), EventAt(2600)]
    requires s.last == 2999 && s.used == [{0, 1}]
    ensures var s' := TickFn(s, 5000, 5000); s'.log == s.log && s'.used == [{0, 1}, {3, 4}]
  {
    assert Time2Key(10) == Time2Key(20) == 0 && Time2Key(1400) == 1000;
    assert Time2Key(2500) == Time2Key(2600) == Time2Key(2999) == 2000 && Time2Key(5000) == 5000;
    assert Pulled(s.log, 2000, 5000) == {3, 4};
  }

  /** A tick skipped for too few events leaves everything as it was, and the next tick's window contains its
      window. */
  lemma SkippedWindowIsKept(s: Loop, pull: int, act: int, pushes: seq<Event>, next: int)
    requires 0 <= s.last <= pull <= next && |Pulled(s.log, Time2Key(s.last), Time2Key(pull))| <= 1
    ensures TickFn(s, pull, act) == s
    ensures Pulled(s.log, Time2Key(s.last), Time2Key(pull)) <= Pulled(s.log + pushes, Time2Key(s.last), Time2Key(next))
  {
    KeysMonotone(pull, next);
  }
}
