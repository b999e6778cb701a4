/** The daemon's control loop. One tick pulls the window since the last action, reads the cap back from the actuator,
    runs the controller and actuates; between ticks events arrive. */
module ControlLoop {
  import opened EventBase
  import opened Median
  import opened Actuators
  import opened Sorting
  import opened Control

  class Nrmd {
    const events: Base
    const control: EuroPar21
    const actuator: Actuator
    const sensor: string
    const scope: string

    constructor (events: Base, control: EuroPar21, actuator: Actuator, sensor: string, scope: string)
      ensures this.events == events && this.control == control && this.actuator == actuator
      ensures this.sensor == sensor && this.scope == scope
    {
      this.events, this.control, this.actuator, this.sensor, this.scope := events, control, actuator, sensor, scope;
    }

    /** What the controller remembers, with the cap as the actuator holds it. */
    ghost function State(): Ctl
      reads control, actuator
    {
      control.State(actuator.value)
    }

    /** What the turns of this daemon depend on and do not change. */
    ghost function Setting(): Plant
      reads actuator
    {
      Plant(control.exp, control.log, control.g, actuator.kind, sensor, scope)
    }

    /** nrmd_control_tick; the clock reads `pull` in the event base and `act` in the controller. */
    method ControlTick(pull: int, act: int)
      requires events.Valid() && control.Valid()
      requires DistinctTimes(Setting().Seen(events.log, control.lastAction, pull))
      modifies control, actuator
      ensures Setting() == old(Setting()) && State() == Tick(Setting(), events.log, old(State()), pull, act)
    {
      var since := control.lastAction;
      var timeserie := events.PullTimeserie(sensor, scope, since, pull);
      var value := actuator.value;
      var out := control.Action(timeserie.events, value, act);
      var _, corrected := actuator.CorrectedValue(out);
      actuator.value := corrected;
    }

    /** nrmd_actuate_callback allows every request of a client, which nrm_server_actuate_callback then corrects and
        stores, whatever range the controller is configured with. */
    method ClientActuate(value: real)
      modifies actuator
      ensures Setting() == old(Setting()) && State() == old(State()).(cap := Corrected(actuator.kind, value))
    {
      var _, corrected := actuator.CorrectedValue(value);
      actuator.value := corrected;
    }

    /** Any run of event callbacks, client actuations and ticks. */
    method Turns(turns: seq<Turn>)
      requires events.Valid() && control.Valid() && Runnable(Setting(), events.log, State(), turns)
      modifies events, control, actuator
      ensures events.Valid() && events.log == LogAfter(old(events.log), turns)
      ensures Setting() == old(Setting()) && State() == TurnRun(Setting(), old(events.log), old(State()), turns)
    {
      ghost var p, log, s := Setting(), events.log, State();
      assert turns[..0] == [];
      for i := 0 to |turns|
        invariant events.Valid() && Setting() == p && events.log == LogAfter(log, turns[..i])
        invariant Runnable(p, log, s, turns[..i]) && State() == TurnRun(p, log, s, turns[..i])
      {
        assert turns[..i + 1][..i] == turns[..i];
        RunnablePrefix(p, log, s, turns, i + 1);
        match turns[i]
        case Pushed(l) => events.PushEvent(l.sensor, l.scope, l.event.time, l.event.value);
        case Actuated(value) => ClientActuate(value);
        case Ticked(pull, act) => ControlTick(pull, act);
      }
      assert turns[..|turns|] == turns;
    }
  }

  /** What happens to the daemon: an event arrives, a client actuates the actuator, or the daemon ticks and reads the
      clock twice. */
  datatype Turn = Pushed(entry: LogEntry) | Actuated(value: real) | Ticked(pull: int, act: int)

  datatype Plant = Plant(exp: RealFn, log: RealFn, g: Config, kind: Kind, sensor: string, scope: string) {
    /** The events a tick sees. */
    ghost function Seen(log: seq<LogEntry>, last: int, pull: int): seq<Event> {
      Pull(SlicesOf(Stream(log, sensor, scope)), Time2Key(last), Time2Key(pull))
    }
  }

  /** A tick that sees more than one event is a step of the closed loop; any other only corrects the cap again. */
  ghost function Tick(p: Plant, log: seq<LogEntry>, s: Ctl, pull: int, act: int): Ctl
    requires Usable(p.g) && DistinctTimes(p.Seen(log, s.lastAction, pull))
  {
    var seen := p.Seen(log, s.lastAction, pull);
    if |seen| <= 1 then s.(cap := Corrected(p.kind, s.cap))
    else ClosedStep(p.exp, p.log, p.g, p.kind, s, MedianOf(Rates(seen))).(lastAction := act)
  }

  ghost function LogAfter(log: seq<LogEntry>, turns: seq<Turn>): seq<LogEntry> {
    if turns == [] then log
    else LogAfter(log, turns[..|turns| - 1]) + if turns[|turns| - 1].Pushed? then [turns[|turns| - 1].entry] else []
  }

  /** Each tick sees events of distinct consecutive times, so that their rates are defined. */
  ghost predicate Runnable(p: Plant, log: seq<LogEntry>, s: Ctl, turns: seq<Turn>)
    decreases |turns|, 0
  {
    if turns == [] then Usable(p.g)
    else
      var front, t := turns[..|turns| - 1], turns[|turns| - 1];
      && Usable(p.g) && Runnable(p, log, s, front)
      && (t.Ticked? ==> DistinctTimes(p.Seen(LogAfter(log, front), TurnRun(p, log, s, front).lastAction, t.pull)))
  }

  ghost function TurnRun(p: Plant, log: seq<LogEntry>, s: Ctl, turns: seq<Turn>): Ctl
    requires Runnable(p, log, s, turns)
    decreases |turns|, 1
  {
    if turns == [] then s
    else
      var front, t := turns[..|turns| - 1], turns[|turns| - 1];
      var s1 := TurnRun(p, log, s, front);
      match t
      case Pushed(_) => s1
      case Actuated(v) => s1.(cap := Corrected(p.kind, v))
      case Ticked(pull, act) => Tick(p, LogAfter(log, front), s1, pull, act)
  }

  lemma {:induction false} RunnablePrefix(p: Plant, log: seq<LogEntry>, s: Ctl, turns: seq<Turn>, n: nat)
    requires Runnable(p, log, s, turns) && n <= |turns|
    ensures Runnable(p, log, s, turns[..n])
    decreases |turns|
  {
    if n == |turns| {
      assert turns[..n] == turns;
    } else {
      var front := turns[..|turns| - 1];
      assert front[..n] == turns[..n];
      RunnablePrefix(p, log, s, front, n);
    }
  }

  /** The progress each acting tick of a run computes: the median rate of the events it sees. */
  ghost function Progresses(p: Plant, log: seq<LogEntry>, s: Ctl, turns: seq<Turn>): seq<real>
    requires Runnable(p, log, s, turns)
  {
    if turns == [] then []
    else
      var front, t := turns[..|turns| - 1], turns[|turns| - 1];
      if !t.Ticked? then Progresses(p, log, s, front)
      else
        var seen := p.Seen(LogAfter(log, front), TurnRun(p, log, s, front).lastAction, t.pull);
        Progresses(p, log, s, front) + if |seen| <= 1 then [] else [MedianOf(Rates(seen))]
  }

  ghost predicate NoActuations(turns: seq<Turn>) {
    forall i :: 0 <= i < |turns| ==> !turns[i].Actuated?
  }

  /** As long as no client actuates, the daemon is the closed loop over the progress of its acting ticks. */
  lemma {:induction false} QuietIsClosedLoop(p: Plant, log: seq<LogEntry>, s: Ctl, turns: seq<Turn>)
    requires Runnable(p, log, s, turns) && Settled(p.kind, s.cap) && NoActuations(turns)
    ensures TurnRun(p, log, s, turns) == ClosedRun(p.exp, p.log, p.g, p.kind, s, Progresses(p, log, s, turns))
      .(lastAction := TurnRun(p, log, s, turns).lastAction)
    ensures Settled(p.kind, TurnRun(p, log, s, turns).cap)
  {
    if turns != [] {
      var front, t := turns[..|turns| - 1], turns[|turns| - 1];
      QuietIsClosedLoop(p, log, s, front);
      var s1 := TurnRun(p, log, s, front);
      if t.Ticked? {
        var seen := p.Seen(LogAfter(log, front), s1.lastAction, t.pull);
        if |seen| > 1 {
          var prog := MedianOf(Rates(seen));
          ClosedRunSnoc(p.exp, p.log, p.g, p.kind, s, Progresses(p, log, s, front), prog);
          StillSettled(p.kind, Law(p.exp, p.log, p.g, s1, prog).cap);
        } else {
          assert Progresses(p, log, s, turns) == Progresses(p, log, s, front);
        }
      }
    }
  }

  /** A run goes on from where its first part ended. */
  lemma {:induction false} TurnRunConcat(p: Plant, log: seq<LogEntry>, s: Ctl, pre: seq<Turn>, post: seq<Turn>)
    requires Runnable(p, log, s, pre + post)
    ensures Runnable(p, log, s, pre)
    ensures LogAfter(log, pre + post) == LogAfter(LogAfter(log, pre), post)
    ensures Runnable(p, LogAfter(log, pre), TurnRun(p, log, s, pre), post)
    ensures TurnRun(p, log, s, pre + post) == TurnRun(p, LogAfter(log, pre), TurnRun(p, log, s, pre), post)
    decreases |post|
  {
    if post == [] {
      assert pre + post == pre;
      assert Usable(p.g);
    } else {
      var front := post[..|post| - 1];
      assert (pre + post)[..|pre + post| - 1] == pre + front;
      TurnRunConcat(p, log, s, pre, front);
    }
  }

  /** Every turn leaves a value the correction would not change. */
  lemma {:induction false} TurnsSettle(p: Plant, log: seq<LogEntry>, s: Ctl, turns: seq<Turn>)
    requires Runnable(p, log, s, turns) && Settled(p.kind, s.cap)
    ensures Settled(p.kind, TurnRun(p, log, s, turns).cap)
  {
    if turns != [] {
      var front, t := turns[..|turns| - 1], turns[|turns| - 1];
      TurnsSettle(p, log, s, front);
      var s1 := TurnRun(p, log, s, front);
      match t
      case Pushed(_) =>
      case Actuated(v) => StillSettled(p.kind, v);
      case Ticked(pull, act) =>
        var seen := p.Seen(LogAfter(log, front), s1.lastAction, pull);
        if |seen| > 1 {
          StillSettled(p.kind, Law(p.exp, p.log, p.g, s1, MedianOf(Rates(seen))).cap);
        }
    }
  }

  /** Wherever in a run of the daemon a stretch without client actuations begins, that stretch is a run of the closed
      loop over the progress of its acting ticks; nothing else in it changes the cap or the controller's memory. */
  lemma DaemonIsClosedLoop(p: Plant, log: seq<LogEntry>, s: Ctl, pre: seq<Turn>, post: seq<Turn>)
    requires Runnable(p, log, s, pre + post) && Settled(p.kind, s.cap) && NoActuations(post)
    ensures Runnable(p, log, s, pre) && Runnable(p, LogAfter(log, pre), TurnRun(p, log, s, pre), post)
    ensures var s1 := TurnRun(p, log, s, pre);
      TurnRun(p, log, s, pre + post) ==
      ClosedRun(p.exp, p.log, p.g, p.kind, s1, Progresses(p, LogAfter(log, pre), s1, post))
        .(lastAction := TurnRun(p, log, s, pre + post).lastAction)
  {
    TurnRunConcat(p, log, s, pre, post);
    TurnsSettle(p, log, s, pre);
    QuietIsClosedLoop(p, LogAfter(log, pre), TurnRun(p, log, s, pre), post);
  }

  /** So in every such stretch whose steps are regular, the cap follows the positional PI law from where the stretch
      began, be that a client's doing. */
  lemma DaemonFollowsPositionalLaw(p: Plant, log: seq<LogEntry>, s: Ctl, pre: seq<Turn>, post: seq<Turn>)
    requires Runnable(p, log, s, pre + post) && NoActuations(post)
    requires ExpLog(p.exp, p.log) && p.g.active && p.g.alpha * p.g.a > 0.0 && Covers(p.kind, p.g)
    requires Settled(p.kind, s.cap)
    requires Runnable(p, log, s, pre) && Runnable(p, LogAfter(log, pre), TurnRun(p, log, s, pre), post)
    requires var s1 := TurnRun(p, log, s, pre);
      RegularRun(p.exp, p.log, p.g, p.kind, s1, Progresses(p, LogAfter(log, pre), s1, post))
    ensures var s1 := TurnRun(p, log, s, pre); var progs := Progresses(p, LogAfter(log, pre), s1, post);
      Linearize(p.exp, p.g, TurnRun(p, log, s, pre + post).cap) == Linearize(p.exp, p.g, s1.cap)
        + Drive(p.g, s1.prevE, LastError(p.exp, p.g, s1.prevE, progs), SumErrors(p.exp, p.g, progs))
  {
    var s1 := TurnRun(p, log, s, pre);
    DaemonIsClosedLoop(p, log, s, pre, post);
    PositionalLaw(p.exp, p.log, p.g, p.kind, s1, Progresses(p, LogAfter(log, pre), s1, post));
  }

  // ---------- when the cap is in the configured range ----------

  predicate InRange(g: Config, cap: real) {
    g.min <= cap <= g.max
  }

  /** The tick runs the controller. */
  ghost predicate Acts(p: Plant, log: seq<LogEntry>, last: int, pull: int) {
    p.g.active && |p.Seen(log, last, pull)| > 1
  }

  /** Who set the cap last: nobody, nobody but a tick corrected the first value, a client, or the controller. */
  datatype Setter = Nobody | Correction | Client(request: real) | Controller

  ghost function LastSetter(p: Plant, log: seq<LogEntry>, s: Ctl, turns: seq<Turn>): Setter
    requires Runnable(p, log, s, turns)
  {
    if turns == [] then Nobody
    else
      var front, t := turns[..|turns| - 1], turns[|turns| - 1];
      var before := LastSetter(p, log, s, front);
      match t
      case Pushed(_) => before
      case Actuated(v) => Client(v)
      case Ticked(pull, _) =>
        if Acts(p, LogAfter(log, front), TurnRun(p, log, s, front).lastAction, pull) then Controller
        else if before.Nobody? then Correction
        else before
  }

  /** What the last setter makes of the cap; nothing is said of the controller's value but its range. */
  ghost predicate SetBy(p: Plant, first: real, setter: Setter, cap: real) {
    match setter
    case Nobody => cap == first
    case Correction => cap == Corrected(p.kind, first)
    case Client(v) => cap == Corrected(p.kind, v)
    case Controller => InRange(p.g, cap)
  }

  lemma CoveredRange(k: Kind, g: Config, v: real)
    requires Covers(k, g)
    ensures InRange(g, v) ==> Corrected(k, v) == v
    ensures Corrected(k, Corrected(k, v)) == Corrected(k, v)
  {
  }

  /** After every tick that runs the controller the cap is in range, whatever clients did before. */
  lemma ActingTickBoundsCap(p: Plant, log: seq<LogEntry>, s: Ctl, pull: int, act: int)
    requires Usable(p.g) && DistinctTimes(p.Seen(log, s.lastAction, pull))
    requires ExpLog(p.exp, p.log) && Covers(p.kind, p.g) && Acts(p, log, s.lastAction, pull)
    ensures InRange(p.g, Tick(p, log, s, pull, act).cap)
  {
    var prog := MedianOf(Rates(p.Seen(log, s.lastAction, pull)));
    OutputWithinBounds(p.exp, p.log, p.g, s, prog);
    CoveredRange(p.kind, p.g, Law(p.exp, p.log, p.g, s, prog).cap);
  }

  lemma IdleTickCorrects(p: Plant, log: seq<LogEntry>, s: Ctl, pull: int, act: int)
    requires Usable(p.g) && DistinctTimes(p.Seen(log, s.lastAction, pull)) && !Acts(p, log, s.lastAction, pull)
    ensures Tick(p, log, s, pull, act).cap == Corrected(p.kind, s.cap)
  {
  }

  /** Over every run, the cap is what its last setter made it. */
  lemma {:induction false} CapIsAsSet(p: Plant, log: seq<LogEntry>, s: Ctl, turns: seq<Turn>)
    requires Runnable(p, log, s, turns) && ExpLog(p.exp, p.log) && Covers(p.kind, p.g)
    ensures SetBy(p, s.cap, LastSetter(p, log, s, turns), TurnRun(p, log, s, turns).cap)
  {
    if turns != [] {
      var front, t := turns[..|turns| - 1], turns[|turns| - 1];
      CapIsAsSet(p, log, s, front);
      if t.Ticked? {
        var log1, s1 := LogAfter(log, front), TurnRun(p, log, s, front);
        if Acts(p, log1, s1.lastAction, t.pull) {
          ActingTickBoundsCap(p, log1, s1, t.pull, t.act);
        } else {
          IdleTickCorrects(p, log1, s1, t.pull, t.act);
          IdleKeepsSetter(p, s.cap, LastSetter(p, log, s, front), s1.cap);
        }
      }
    }
  }

  lemma IdleKeepsSetter(p: Plant, first: real, setter: Setter, cap: real)
    requires Covers(p.kind, p.g) && SetBy(p, first, setter, cap)
    ensures SetBy(p, first, if setter.Nobody? then Correction else setter, Corrected(p.kind, cap))
  {
    CoveredRange(p.kind, p.g, first);
    CoveredRange(p.kind, p.g, cap);
    if setter.Client? { CoveredRange(p.kind, p.g, setter.request); }
  }

  /** Over every run of the daemon, the cap of a covering actuator ends in the configured range if and only if the
      controller set it last, or the last client's request was corrected into the range, or nobody set it and its
      first value is there. */
  lemma DaemonKeepsCap(p: Plant, log: seq<LogEntry>, s: Ctl, turns: seq<Turn>)
    requires Runnable(p, log, s, turns) && ExpLog(p.exp, p.log) && Covers(p.kind, p.g)
    ensures InRange(p.g, TurnRun(p, log, s, turns).cap) <==>
      match LastSetter(p, log, s, turns)
      case Nobody => InRange(p.g, s.cap)
      case Correction => InRange(p.g, Corrected(p.kind, s.cap))
      case Client(v) => InRange(p.g, Corrected(p.kind, v))
      case Controller => true
  {
    CapIsAsSet(p, log, s, turns);
  }

  /** A client can take the cap out of the range: with limits [0, 200] and a range of [40, 120], a request of 200. */
  lemma ClientLeavesRange(p: Plant, log: seq<LogEntry>, s: Ctl)
    requires Usable(p.g) && p.kind == Continuous(0.0, 200.0) && p.g.min == 40.0 && p.g.max == 120.0
    ensures var turns := [Actuated(200.0)]; Runnable(p, log, s, turns) && TurnRun(p, log, s, turns).cap == 200.0
    ensures !InRange(p.g, 200.0)
  {
    var turns := [Actuated(200.0)];
    assert turns[..0] == [];
    assert Runnable(p, log, s, turns[..0]);
    assert TurnRun(p, log, s, turns[..0]) == s;
  }

  /** The correction leaves the value alone, and its limits or choices are in order. */
  ghost predicate Settled(k: Kind, v: real) {
    (if k.Discrete? then Sorted(k.choices) else k.lo <= k.hi) && Corrected(k, v) == v
  }

  lemma StillSettled(k: Kind, v: real)
    requires if k.Discrete? then Sorted(k.choices) else k.lo <= k.hi
    ensures Settled(k, Corrected(k, v))
  {
    CorrectionIdempotent(k, v);
  }

  lemma {:induction false} ClosedRunSnoc(exp: RealFn, log: RealFn, g: Config, k: Kind, s: Ctl, progs: seq<real>,
                                         prog: real)
    requires Usable(g)
    ensures ClosedRun(exp, log, g, k, s, progs + [prog]) ==
      ClosedStep(exp, log, g, k, ClosedRun(exp, log, g, k, s, progs), prog)
    decreases |progs|
  {
    if progs == [] {
      assert progs + [prog] == [prog] && [prog][1..] == [];
      var s' := ClosedStep(exp, log, g, k, s, prog);
      assert ClosedRun(exp, log, g, k, s', []) == s';
    } else {
      assert (progs + [prog])[1..] == progs[1..] + [prog];
      ClosedRunSnoc(exp, log, g, k, ClosedStep(exp, log, g, k, s, progs[0]), progs[1..], prog);
    }
  }
}
