/** What runs of the protocol do to the daemon's table: control ticks actuate, added objects are listed. */
module RegistrationTheorems {
  import opened OrderedMap
  import opened Actuators
  import opened Messages
  import opened Protocol
  import opened ProtocolTheorems

  // ---------- control ticks ----------

  /** A control tick of the daemon's own sends, for each output of a registered actuator and in order, its owner the
      corrected value, and stores the last one; nothing else changes. */
  lemma TimerActuates(s: State, outs: seq<Command>, u: string)
    requires s.running
    ensures var s' := Step(s, Timer(outs));
      && s'.sent == s.sent + Orders(s.table, outs) && s'.outbox == s.outbox + Orders(s.table, outs)
      && s'.clients == s.clients && s'.inbox == s.inbox && OnlyActuators(s.table, s'.table)
      && Find(s'.table.actuators, u) == After(Find(s.table.actuators, u), LastValue(outs, u))
  {
    ActuateAllSets(s.table, outs, u);
    ActuateAllSends(s.table, outs);
  }

  /** So does one asked for by a client, which is acknowledged after the commands. */
  lemma TickActuates(s: State, env: Env, u: string)
    requires s.running && s.inbox != [] && s.inbox[0].msg.Tick?
    ensures var s' := Step(s, Handle(env)); var ps := Orders(s.table, env.outs) + [Packet(s.inbox[0].peer, Ack)];
      && s'.sent == s.sent + ps && s'.outbox == s.outbox + ps
      && s'.clients == s.clients && s'.inbox == s.inbox[1..] && OnlyActuators(s.table, s'.table)
      && Find(s'.table.actuators, u) == After(Find(s.table.actuators, u), LastValue(env.outs, u))
  {
    ActuateAllSets(s.table, env.outs, u);
    ActuateAllSends(s.table, env.outs);
  }

  // ---------- added objects are listed ----------

  /** The daemon is about to handle c's request to add o. */
  ghost predicate AboutToAdd(s: State, c: Peer, o: Obj) {
    s.running && s.inbox != [] && s.inbox[0] == Packet(c, Msg.Add(o))
  }

  /** An added actuator whose name was free is shown, until it is removed, to whoever reads a list of actuators: with
      its owner and kind, and until someone sets it with the value it was added with. */
  lemma ListSeesAddedActuator(n: nat, pre: seq<Action>, env: Env, mid: seq<Action>, env2: Env, post: seq<Action>,
                              c: Peer, d: Peer, o: Obj) returns (shown: Obj)
    requires d < n && o.ActuatorObj? && AboutToAdd(Reach(n, pre), c, o)
    requires Find(Reach(n, pre).table.actuators, o.uuid).None?
    requires NoDrops(Step(Reach(n, pre), Handle(env)), mid, o.uuid)
    requires AboutToList(Reach(n, pre + [Handle(env)] + mid), d, ActuatorT)
    requires !Reach(n, pre + [Handle(env)] + mid).clients[d].exited
    requires |Reach(n, pre + [Handle(env)] + mid + [Handle(env2)] + post).clients[d].read| >
             |Reach(n, pre + [Handle(env)] + mid).clients[d].read|
    ensures var k := |Reach(n, pre + [Handle(env)] + mid).clients[d].read|;
      ListShows(Reach(n, pre + [Handle(env)] + mid + [Handle(env2)] + post).clients[d].read[k], shown)
    ensures shown.ActuatorObj? && shown.uuid == o.uuid && shown.clientid == Some(c) && KindKept(o.kind, shown.kind)
    ensures NoSets(Step(Reach(n, pre), Handle(env)), mid, o.uuid) ==> shown.value == o.value
  {
    var all := pre + [Handle(env)] + mid;
    var s0, s2 := Reach(n, pre), Reach(n, all);
    RunThrough(n, pre, Handle(env), mid);
    AddRegistersActuator(s0.table, c, o, o.uuid);
    ActuatedValuesAreTold(n, pre);
    HandleKeepsTable(s0, env);
    RunKeepsActuator(Step(s0, Handle(env)), mid, o.uuid);
    ListingShows(s2.table, o.uuid);
    shown := ActObj(Entry(o.uuid, Find(s2.table.actuators, o.uuid).value));
    ReplyIsRead(n, all, env2, post, d, s2.inbox[0].msg);
  }

  /** The step removes the object named u of this kind. */
  predicate DropsObject(s: State, a: Action, target: Target, u: string) {
    a.Handle? && s.running && s.inbox != [] && a.env.drop && s.inbox[0].msg == Remove(target, u)
  }

  predicate NoObjectDrops(s: State, actions: seq<Action>, target: Target, u: string)
    decreases |actions|
  {
    actions == [] ||
    (!DropsObject(s, actions[0], target, u) && NoObjectDrops(Step(s, actions[0]), actions[1..], target, u))
  }

  /** A registered scope, sensor or slice stays as it is until it is removed. */
  lemma StepKeepsObject(s: State, a: Action, target: Target, u: string)
    requires Find(ObjectsOf(s.table, target), u).Some? && !DropsObject(s, a, target, u)
    ensures Find(ObjectsOf(Step(s, a).table, target), u) == Find(ObjectsOf(s.table, target), u)
  {
    var t := s.table;
    match a
    case Timer(outs) => ActuateAllSets(t, outs, u);
    case Handle(env) =>
      if s.running && s.inbox != [] {
        match s.inbox[0].msg {
          case Actuate(x, v) => ActuateSets(t, x, v, u);
          case Tick => ActuateAllSets(t, env.outs, u);
          case Add(o) =>
            if o.ActuatorObj? {
              AddRegistersActuator(t, s.inbox[0].peer, o, u);
            } else {
              AddRegistersObject(t, s.inbox[0].peer, o, target, u);
            }
          case Remove(other, x) =>
            if env.drop { RemoveUnregisters(t, other, x, target, u); }
          case _ =>
        }
      }
    case _ =>
  }

  lemma {:induction false} RunKeepsObject(s: State, actions: seq<Action>, target: Target, u: string)
    requires Find(ObjectsOf(s.table, target), u).Some? && NoObjectDrops(s, actions, target, u)
    ensures Find(ObjectsOf(Run(s, actions).table, target), u) == Find(ObjectsOf(s.table, target), u)
    decreases |actions|
  {
    if actions != [] {
      StepKeepsObject(s, actions[0], target, u);
      RunKeepsObject(Step(s, actions[0]), actions[1..], target, u);
    }
  }

  /** An added scope, sensor or slice whose name was free is shown, until it is removed, to whoever reads a list of its
      kind. */
  lemma ListSeesAddedObject(n: nat, pre: seq<Action>, env: Env, mid: seq<Action>, env2: Env, post: seq<Action>,
                            c: Peer, d: Peer, o: Obj)
    requires d < n && !o.ActuatorObj? && AboutToAdd(Reach(n, pre), c, o)
    requires Find(ObjectsOf(Reach(n, pre).table, TargetOf(o)), o.uuid).None?
    requires NoObjectDrops(Step(Reach(n, pre), Handle(env)), mid, TargetOf(o), o.uuid)
    requires AboutToList(Reach(n, pre + [Handle(env)] + mid), d, TargetOf(o))
    requires !Reach(n, pre + [Handle(env)] + mid).clients[d].exited
    requires |Reach(n, pre + [Handle(env)] + mid + [Handle(env2)] + post).clients[d].read| >
             |Reach(n, pre + [Handle(env)] + mid).clients[d].read|
    ensures var k := |Reach(n, pre + [Handle(env)] + mid).clients[d].read|;
      var rep := Reach(n, pre + [Handle(env)] + mid + [Handle(env2)] + post).clients[d].read[k];
      rep.List? && rep.target == TargetOf(o) && o in rep.objs
  {
    var all := pre + [Handle(env)] + mid;
    var s0, s2 := Reach(n, pre), Reach(n, all);
    RunThrough(n, pre, Handle(env), mid);
    AddRegistersObject(s0.table, c, o, TargetOf(o), o.uuid);
    RunKeepsObject(Step(s0, Handle(env)), mid, TargetOf(o), o.uuid);
    ListHasObject(s2.table, TargetOf(o), o.uuid);
    ReplyIsRead(n, all, env2, post, d, s2.inbox[0].msg);
  }
}
