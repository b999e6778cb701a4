/** The daemon's runs as runs of the window loop of one sensor and scope, so that what is proved of windows is proved
    of the daemon. */
module DaemonWindows {
  import opened EventBase
  import opened Median
  import opened Control
  import opened ControlLoop
  import Windows

  /** The events of a log that one control input listens to. */
  ghost function Heard(p: Plant, log: seq<LogEntry>): seq<Event> {
    Stream(log, p.sensor, p.scope)
  }

  /** What a run of the daemon is to the windows: the pushes of its sensor and scope, and the ticks. */
  ghost function Project(p: Plant, turns: seq<Turn>): seq<Windows.Step> {
    if turns == [] then []
    else Project(p, turns[..|turns| - 1]) + Steps(p, turns[|turns| - 1])
  }

  ghost function Steps(p: Plant, t: Turn): seq<Windows.Step> {
    match t
    case Pushed(l) => if l.sensor == p.sensor && l.scope == p.scope then [Windows.Push(l.event)] else []
    case Actuated(_) => []
    case Ticked(pull, act) => [Windows.Tick(pull, act)]
  }

  ghost function LoopOf(p: Plant, log: seq<LogEntry>, s: Ctl, turns: seq<Turn>): Windows.Loop {
    Windows.Run(Windows.Start(Heard(p, log), s.lastAction), Project(p, turns))
  }

  /** The positions, among the events heard, of those each acting tick computes its progress from. */
  ghost function UsedBy(p: Plant, log: seq<LogEntry>, s: Ctl, turns: seq<Turn>): seq<set<nat>>
    requires Runnable(p, log, s, turns)
  {
    if turns == [] then []
    else
      var front, t := turns[..|turns| - 1], turns[|turns| - 1];
      if !t.Ticked? then UsedBy(p, log, s, front)
      else
        var log1, last := LogAfter(log, front), TurnRun(p, log, s, front).lastAction;
        UsedBy(p, log, s, front) +
        if |p.Seen(log1, last, t.pull)| <= 1 then []
        else [Windows.Pulled(Heard(p, log1), Time2Key(last), Time2Key(t.pull))]
  }

  /** What a tick sees are the events at the positions it pulls. */
  lemma SeenIsPulled(p: Plant, log: seq<LogEntry>, last: int, pull: int)
    ensures var es := Heard(p, log); var lo, hi := Time2Key(last), Time2Key(pull);
      && |p.Seen(log, last, pull)| == |Windows.Pulled(es, lo, hi)|
      && multiset(p.Seen(log, last, pull)) == multiset(Window(es, lo, hi))
  {
    var es := Heard(p, log);
    var lo, hi := Time2Key(last), Time2Key(pull);
    PullIsWindow(es, lo, hi);
    Windows.PulledCount(es, lo, hi);
    assert |p.Seen(log, last, pull)| == |multiset(p.Seen(log, last, pull))|;
    assert |Window(es, lo, hi)| == |multiset(Window(es, lo, hi))|;
  }

  /** The run of windows has the daemon's events, its last action, and uses what its ticks use, one set for each
      progress they compute. */
  lemma {:induction false} DaemonFollowsWindows(p: Plant, log: seq<LogEntry>, s: Ctl, turns: seq<Turn>)
    requires Runnable(p, log, s, turns)
    ensures var w := LoopOf(p, log, s, turns);
      && w.log == Heard(p, LogAfter(log, turns))
      && w.last == TurnRun(p, log, s, turns).lastAction
      && w.used == UsedBy(p, log, s, turns)
    ensures |UsedBy(p, log, s, turns)| == |Progresses(p, log, s, turns)|
  {
    if turns != [] {
      var front, t := turns[..|turns| - 1], turns[|turns| - 1];
      DaemonFollowsWindows(p, log, s, front);
      LoopStep(p, log, s, turns);
      var log1 := LogAfter(log, front);
      match t
      case Pushed(l) => StreamSnoc(log1, l, p.sensor, p.scope);
      case Actuated(_) => assert LogAfter(log, turns) == log1;
      case Ticked(pull, _) =>
        assert LogAfter(log, turns) == log1;
        SeenIsPulled(p, log1, TurnRun(p, log, s, front).lastAction, pull);
    }
  }

  lemma LoopStep(p: Plant, log: seq<LogEntry>, s: Ctl, turns: seq<Turn>)
    requires turns != []
    ensures var w := LoopOf(p, log, s, turns[..|turns| - 1]); var a := Steps(p, turns[|turns| - 1]);
      LoopOf(p, log, s, turns) == if a == [] then w else Windows.StepFn(w, a[0])
  {
    var front, a := Project(p, turns[..|turns| - 1]), Steps(p, turns[|turns| - 1]);
    if a == [] {
      assert front + a == front;
    } else {
      assert a == [a[0]];
      Windows.RunSnoc(Windows.Start(Heard(p, log), s.lastAction), front, a[0]);
    }
  }

  /** The clock readings of a run of the daemon never go back. */
  ghost predicate ClockRises(p: Plant, s: Ctl, turns: seq<Turn>) {
    0 <= s.lastAction && Windows.ClockRises(s.lastAction, Project(p, turns))
  }

  /** Over every run of the daemon with such a clock, no event is used in two progress computations. */
  lemma DaemonUsesEventsOnce(p: Plant, log: seq<LogEntry>, s: Ctl, turns: seq<Turn>, i: nat, j: nat)
    requires Runnable(p, log, s, turns) && ClockRises(p, s, turns) && i < j < |UsedBy(p, log, s, turns)|
    ensures UsedBy(p, log, s, turns)[i] !! UsedBy(p, log, s, turns)[j]
  {
    DaemonFollowsWindows(p, log, s, turns);
    Windows.EventsUsedAtMostOnce(Heard(p, log), s.lastAction, Project(p, turns), i, j);
  }

  /** And an event keyed between the start and the last action is used by one of them if and only if its key is in no
      gap between the readings of an acting tick and it was not pushed too late. */
  lemma DaemonEventFate(p: Plant, log: seq<LogEntry>, s: Ctl, turns: seq<Turn>, q: nat)
    requires Runnable(p, log, s, turns) && ClockRises(p, s, turns) && q < |Heard(p, LogAfter(log, turns))|
    requires var k := Time2Key(Heard(p, LogAfter(log, turns))[q].time);
      Time2Key(s.lastAction) <= k < Time2Key(TurnRun(p, log, s, turns).lastAction)
    ensures var w := LoopOf(p, log, s, turns); var k := Time2Key(Heard(p, LogAfter(log, turns))[q].time);
      && |w.spans| == |w.pushed|
      && ((exists i :: 0 <= i < |UsedBy(p, log, s, turns)| && q in UsedBy(p, log, s, turns)[i])
          <==> !Windows.InGap(w, k) && !Windows.TooLate(w, k, q))
  {
    DaemonFollowsWindows(p, log, s, turns);
    Windows.EventFate(Heard(p, log), s.lastAction, Project(p, turns), q);
    assert Windows.UsedSome(LoopOf(p, log, s, turns), q) <==>
      exists i :: 0 <= i < |UsedBy(p, log, s, turns)| && q in UsedBy(p, log, s, turns)[i];
  }

  ghost predicate NoTicks(turns: seq<Turn>) {
    forall i :: 0 <= i < |turns| ==> !turns[i].Ticked?
  }

  lemma {:induction false} NoTicksKeepWindow(p: Plant, log: seq<LogEntry>, s: Ctl, turns: seq<Turn>)
    requires Runnable(p, log, s, turns) && NoTicks(turns)
    ensures var s' := TurnRun(p, log, s, turns); s'.lastAction == s.lastAction && s'.prevE == s.prevE
    ensures Heard(p, log) <= Heard(p, LogAfter(log, turns))
  {
    if turns != [] {
      var front, t := turns[..|turns| - 1], turns[|turns| - 1];
      NoTicksKeepWindow(p, log, s, front);
      var log1 := LogAfter(log, front);
      match t
      case Pushed(l) => StreamSnoc(log1, l, p.sensor, p.scope);
      case Actuated(_) => assert LogAfter(log, turns) == log1;
    }
  }

  /** A tick of the daemon that sees too few events changes no memory, and whatever happens until the next tick, that
      one's window contains its window. */
  lemma DaemonKeepsSkippedWindow(p: Plant, log: seq<LogEntry>, s: Ctl, pull: int, act: int, more: seq<Turn>, next: int)
    requires Runnable(p, log, s, [Ticked(pull, act)] + more) && NoTicks(more)
    requires 0 <= pull <= next && |p.Seen(log, s.lastAction, pull)| <= 1
    ensures var turns := [Ticked(pull, act)] + more; var s' := TurnRun(p, log, s, turns);
      && s'.lastAction == s.lastAction && s'.prevE == s.prevE
      && Windows.Pulled(Heard(p, log), Time2Key(s.lastAction), Time2Key(pull)) <=
         Windows.Pulled(Heard(p, LogAfter(log, turns)), Time2Key(s'.lastAction), Time2Key(next))
  {
    var tick := [Ticked(pull, act)];
    TurnRunConcat(p, log, s, tick, more);
    assert tick[..0] == [] && LogAfter(log, tick[..0]) == log && LogAfter(log, tick) == log;
    assert TurnRun(p, log, s, tick[..0]) == s;
    var s1 := TurnRun(p, log, s, tick);
    assert s1 == Tick(p, log, s, pull, act);
    NoTicksKeepWindow(p, log, s1, more);
    KeysMonotone(pull, next);
  }
}
