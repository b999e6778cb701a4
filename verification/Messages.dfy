/** Messages, and the daemon's table of registered objects with the callbacks that change it. */
module Messages {
  import opened OrderedMap
  import opened Sorting
  import opened Actuators

  /** A peer identity; clients are numbered. */
  type Peer = nat

  datatype Target = ActuatorT | ScopeT | SensorT | SliceT

  datatype Obj =
    | ActuatorObj(uuid: string, clientid: Option<Peer>, value: real, kind: Kind)
    | ScopeObj(uuid: string)
    | SensorObj(uuid: string)
    | SliceObj(uuid: string)

  function TargetOf(o: Obj): Target {
    match o
    case ActuatorObj(_, _, _, _) => ActuatorT
    case ScopeObj(_) => ScopeT
    case SensorObj(_) => SensorT
    case SliceObj(_) => SliceT
  }

  datatype EventMsg = EventMsg(sensor: string, scope: string, time: int, value: real)

  datatype Msg =
    | Ack
    | Actuate(uuid: string, value: real)
    | Add(obj: Obj)
    | List(target: Target, objs: seq<Obj>)
    | Remove(rtarget: Target, ruuid: string)
    | Events(events: seq<EventMsg>)
    | Exit
    | Tick

  /** nrm_msg_is_reply. */
  predicate IsReply(m: Msg) {
    !m.Actuate? && !m.Tick?
  }

  /** The requests the daemon answers. */
  predicate NeedsReply(m: Msg) {
    !m.Ack? && !m.Events?
  }

  /** What the client functions assert of the reply to a request, and that it is about the same object. */
  predicate Answers(req: Msg, rep: Msg) {
    match req
    case Add(o) => rep.Add? && TargetOf(rep.obj) == TargetOf(o) && rep.obj.uuid == o.uuid
    case List(t, _) => rep.List? && rep.target == t
    case _ => rep.Ack?
  }

  // ---------- the daemon's state ----------

  /** A registered actuator. `actuated` records whether the daemon ever set its value. */
  datatype Act = Act(owner: Peer, kind: Kind, value: real, actuated: bool)

  datatype Table = Table(actuators: seq<Entry<string, Act>>, scopes: seq<Entry<string, Obj>>,
                         sensors: seq<Entry<string, Obj>>, slices: seq<Entry<string, Obj>>)

  const EMPTY_TABLE := Table([], [], [], [])

  datatype Packet = Packet(peer: Peer, msg: Msg)

  /** nrm_actuator_create_frommsg sorts the choices, and leaves none when none are given. */
  function KindFromMsg(k: Kind): Kind {
    match k
    case Discrete(choices) => Discrete(Sort(choices))
    case Continuous(_, _) => k
  }

  /** nrm_server_actuate: correct, store, and command the owner. */
  function ActuateFn(t: Table, u: string, v: real): (Table, seq<Packet>) {
    match Find(t.actuators, u)
    case None => (t, [])
    case Some(a) =>
      var w := Corrected(a.kind, v);
      (t.(actuators := Update(t.actuators, u, a.(value := w, actuated := true))), [Packet(a.owner, Actuate(u, w))])
  }

  datatype Command = Command(uuid: string, value: real)

  /** The actuations of one control tick. */
  function ActuateAll(t: Table, outs: seq<Command>): (Table, seq<Packet>)
    decreases |outs|
  {
    if outs == [] then (t, [])
    else
      var (t1, p1) := ActuateFn(t, outs[0].uuid, outs[0].value);
      var (t2, p2) := ActuateAll(t1, outs[1..]);
      (t2, p1 + p2)
  }

  function AddFn(t: Table, from: Peer, o: Obj): (Table, Msg) {
    match o
    case ActuatorObj(u, _, v, k) =>
      var k' := KindFromMsg(k);
      (t.(actuators := OrderedMap.Add(t.actuators, u, Act(from, k', v, false))),
       Msg.Add(ActuatorObj(u, Some(from), v, k')))
    case ScopeObj(u) => (t.(scopes := OrderedMap.Add(t.scopes, u, o)), Msg.Add(o))
    case SensorObj(u) => (t.(sensors := OrderedMap.Add(t.sensors, u, o)), Msg.Add(o))
    case SliceObj(u) => (t.(slices := OrderedMap.Add(t.slices, u, o)), Msg.Add(o))
  }

  function ActObj(e: Entry<string, Act>): Obj {
    ActuatorObj(e.key, Some(e.value.owner), e.value.value, e.value.kind)
  }

  function ListFn(t: Table, target: Target): seq<Obj> {
    match target
    case ActuatorT => seq(|t.actuators|, i requires 0 <= i < |t.actuators| => ActObj(t.actuators[i]))
    case ScopeT => seq(|t.scopes|, i requires 0 <= i < |t.scopes| => t.scopes[i].value)
    case SensorT => seq(|t.sensors|, i requires 0 <= i < |t.sensors| => t.sensors[i].value)
    case SliceT => seq(|t.slices|, i requires 0 <= i < |t.slices| => t.slices[i].value)
  }

  function RemoveFn(t: Table, target: Target, u: string): Table {
    match target
    case ActuatorT => t.(actuators := OrderedMap.Remove(t.actuators, u))
    case ScopeT => t.(scopes := OrderedMap.Remove(t.scopes, u))
    case SensorT => t.(sensors := OrderedMap.Remove(t.sensors, u))
    case SliceT => t.(slices := OrderedMap.Remove(t.slices, u))
  }

  /** What the daemon's environment decides while a message is handled: whether the actuate callback
      allows it, whether a removal takes effect, and what a control tick outputs. */
  datatype Env = Env(allow: bool, drop: bool, outs: seq<Command>)

  datatype Handled = Handled(table: Table, commands: seq<Packet>, reply: Option<Msg>)

  /** nrm_server_role_callback: the new table, the commands sent to actuator owners, and then the reply
      sent to the requester, if any. */
  function HandleFn(t: Table, from: Peer, m: Msg, env: Env): Handled {
    match m
    case Actuate(u, v) =>
      if env.allow then var (t', cs) := ActuateFn(t, u, v); Handled(t', cs, Some(Ack)) else Handled(t, [], Some(Ack))
    case List(target, _) => Handled(t, [], Some(List(target, ListFn(t, target))))
    case Add(o) => var (t', r) := AddFn(t, from, o); Handled(t', [], Some(r))
    case Events(_) => Handled(t, [], None)
    case Remove(target, u) => Handled(if env.drop then RemoveFn(t, target, u) else t, [], Some(Ack))
    case Exit => Handled(t, [], Some(Ack))
    case Tick => var (t', cs) := ActuateAll(t, env.outs); Handled(t', cs, Some(Ack))
    case Ack => Handled(t, [], None)
  }

  predicate AllCommands(ps: seq<Packet>) {
    forall i :: 0 <= i < |ps| ==> ps[i].msg.Actuate?
  }

  lemma {:induction false} ActuateAllSendsCommands(t: Table, outs: seq<Command>)
    ensures AllCommands(ActuateAll(t, outs).1)
    decreases |outs|
  {
    if outs != [] {
      var (t1, p1) := ActuateFn(t, outs[0].uuid, outs[0].value);
      ActuateAllSendsCommands(t1, outs[1..]);
    }
  }

  /** A request is answered once, with a reply of the type its caller asserts; EVENTS are not answered;
      everything else the daemon sends on the way is a command. */
  lemma HandleReplies(t: Table, from: Peer, m: Msg, env: Env)
    ensures var h := HandleFn(t, from, m, env);
      && AllCommands(h.commands)
      && (h.reply.Some? <==> NeedsReply(m))
      && (h.reply.Some? ==> IsReply(h.reply.value) && Answers(m, h.reply.value))
  {
    if m.Tick? { ActuateAllSendsCommands(t, env.outs); }
  }

  // ---------- what the callbacks do to the table ----------

  /** The value of the last command for u. */
  function LastValue(outs: seq<Command>, u: string): Option<real> {
    if outs == [] then None
    else
      var later := LastValue(outs[1..], u);
      if later.Some? then later else if outs[0].uuid == u then Some(outs[0].value) else None
  }

  /** An actuator after a request, if any: the corrected value is stored. */
  function After(found: Option<Act>, request: Option<real>): Option<Act> {
    if found.Some? && request.Some? then
      Some(Act(found.value.owner, found.value.kind, Corrected(found.value.kind, request.value), true))
    else found
  }

  ghost predicate OnlyActuators(t: Table, t': Table) {
    t'.scopes == t.scopes && t'.sensors == t.sensors && t'.slices == t.slices
  }

  lemma ActuateSets(t: Table, x: string, v: real, u: string)
    ensures var t' := ActuateFn(t, x, v).0;
      && OnlyActuators(t, t')
      && Find(t'.actuators, u) == After(Find(t.actuators, u), if x == u then Some(v) else None)
  {
    match Find(t.actuators, x)
    case None =>
    case Some(a) => UpdateLaws(t.actuators, x, a.(value := Corrected(a.kind, v), actuated := true), u);
  }

  /** The outputs of a control tick leave every actuator with the corrected value of the last command for it, and no
      trace on one without a command or on any other object. */
  lemma {:induction false} ActuateAllSets(t: Table, outs: seq<Command>, u: string)
    ensures var t' := ActuateAll(t, outs).0;
      OnlyActuators(t, t') && Find(t'.actuators, u) == After(Find(t.actuators, u), LastValue(outs, u))
    decreases |outs|
  {
    if outs != [] {
      ActuateSets(t, outs[0].uuid, outs[0].value, u);
      ActuateAllSets(ActuateFn(t, outs[0].uuid, outs[0].value).0, outs[1..], u);
    }
  }

  /** One command to its owner for each output whose name is registered, in order, with the corrected value. */
  function Orders(t: Table, outs: seq<Command>): seq<Packet> {
    if outs == [] then []
    else
      var rest := Orders(t, outs[1..]);
      match Find(t.actuators, outs[0].uuid)
      case None => rest
      case Some(a) => [Packet(a.owner, Actuate(outs[0].uuid, Corrected(a.kind, outs[0].value)))] + rest
  }

  ghost predicate SameOwners(t: Table, t': Table) {
    forall u :: SameOwner(Find(t.actuators, u), Find(t'.actuators, u))
  }

  predicate SameOwner(f: Option<Act>, f': Option<Act>) {
    f.Some? == f'.Some? && (f.Some? ==> f.value.owner == f'.value.owner && f.value.kind == f'.value.kind)
  }

  lemma {:induction false} SameOrders(t: Table, t': Table, outs: seq<Command>)
    requires SameOwners(t, t')
    ensures Orders(t, outs) == Orders(t', outs)
  {
    if outs != [] {
      SameOrders(t, t', outs[1..]);
      assert SameOwner(Find(t.actuators, outs[0].uuid), Find(t'.actuators, outs[0].uuid));
    }
  }

  /** What the outputs of a control tick send are these commands. */
  lemma {:induction false} ActuateAllSends(t: Table, outs: seq<Command>)
    ensures ActuateAll(t, outs).1 == Orders(t, outs)
    decreases |outs|
  {
    if outs != [] {
      var t1 := ActuateFn(t, outs[0].uuid, outs[0].value).0;
      ActuateAllSends(t1, outs[1..]);
      forall u
        ensures SameOwner(Find(t.actuators, u), Find(t1.actuators, u))
      {
        ActuateSets(t, outs[0].uuid, outs[0].value, u);
      }
      SameOrders(t, t1, outs[1..]);
    }
  }

  /** Limits as given, or a sorted permutation of the choices given. */
  ghost predicate KindKept(given: Kind, kept: Kind) {
    match given
    case Continuous(lo, hi) => kept.Continuous? && kept.lo == lo && kept.hi == hi
    case Discrete(choices) => kept.Discrete? && Sorted(kept.choices) && multiset(kept.choices) == multiset(choices)
  }

  lemma KindFromMsgKeeps(k: Kind)
    ensures KindKept(k, KindFromMsg(k))
  {
    if k.Discrete? { SortSorts(k.choices); }
  }

  /** The objects of one kind other than actuators. */
  function ObjectsOf(t: Table, target: Target): seq<Entry<string, Obj>> {
    match target
    case ActuatorT => []
    case ScopeT => t.scopes
    case SensorT => t.sensors
    case SliceT => t.slices
  }

  /** The actuator as it was sent, owned by the sender and not actuated. */
  ghost predicate RegisteredAs(found: Option<Act>, from: Peer, o: Obj)
    requires o.ActuatorObj?
  {
    && found.Some? && found.value.owner == from && found.value.value == o.value && !found.value.actuated
    && KindKept(o.kind, found.value.kind)
  }

  /** An actuator whose name is free is registered, with the sender as owner, as it was sent and not actuated; if the
      name is taken nothing changes. */
  lemma AddRegistersActuator(t: Table, from: Peer, o: Obj, u: string)
    requires o.ActuatorObj?
    ensures var (t', r) := AddFn(t, from, o);
      && OnlyActuators(t, t')
      && (Find(t.actuators, o.uuid).Some? ==> t' == t)
      && (u != o.uuid ==> Find(t'.actuators, u) == Find(t.actuators, u))
      && (Find(t.actuators, o.uuid).None? ==> RegisteredAs(Find(t'.actuators, o.uuid), from, o))
      && r.Add? && r.obj.ActuatorObj? && r.obj.uuid == o.uuid && r.obj.clientid == Some(from)
      && r.obj.value == o.value && KindKept(o.kind, r.obj.kind)
  {
    var a := Act(from, KindFromMsg(o.kind), o.value, false);
    KindFromMsgKeeps(o.kind);
    FindAppend(t.actuators, Entry(o.uuid, a), o.uuid);
    FindAppend(t.actuators, Entry(o.uuid, a), u);
  }

  /** So is any other object, in the table of its own kind, and it is sent back. */
  lemma AddRegistersObject(t: Table, from: Peer, o: Obj, target: Target, u: string)
    requires !o.ActuatorObj?
    ensures var (t', r) := AddFn(t, from, o);
      && r == Msg.Add(o) && t'.actuators == t.actuators
      && (Find(ObjectsOf(t, TargetOf(o)), o.uuid).Some? ==> t' == t)
      && (Find(ObjectsOf(t, TargetOf(o)), o.uuid).None? ==> Find(ObjectsOf(t', TargetOf(o)), o.uuid) == Some(o))
      && (target != TargetOf(o) || u != o.uuid ==> Find(ObjectsOf(t', target), u) == Find(ObjectsOf(t, target), u))
  {
    var m := ObjectsOf(t, TargetOf(o));
    FindAppend(m, Entry(o.uuid, o), o.uuid);
    FindAppend(m, Entry(o.uuid, o), u);
  }

  /** A removal that takes effect takes out no other name, and no name of another kind. */
  lemma RemoveUnregisters(t: Table, target: Target, x: string, other: Target, u: string)
    requires other != target || u != x
    ensures var t' := RemoveFn(t, target, x);
      && Find(ObjectsOf(t', other), u) == Find(ObjectsOf(t, other), u)
      && (other == ActuatorT ==> Find(t'.actuators, u) == Find(t.actuators, u))
  {
    if other == target {
      if target == ActuatorT { RemoveOther(t.actuators, x, u); } else { RemoveOther(ObjectsOf(t, target), x, u); }
    }
  }

  /** And it takes out the name, of which there is one. */
  lemma RemoveTakesOut(t: Table, target: Target, x: string)
    requires UniqueKeys(t.actuators) && UniqueKeys(ObjectsOf(t, target))
    ensures var t' := RemoveFn(t, target, x);
      Find(ObjectsOf(t', target), x).None? && (target == ActuatorT ==> Find(t'.actuators, x).None?)
  {
    if target == ActuatorT { RemoveGone(t.actuators, x); } else { RemoveGone(ObjectsOf(t, target), x); }
  }

  /** What a list shows of a registered object. */
  lemma ListHasObject(t: Table, target: Target, u: string)
    requires Find(ObjectsOf(t, target), u).Some?
    ensures Find(ObjectsOf(t, target), u).value in ListFn(t, target)
  {
    var m := ObjectsOf(t, target);
    FindOccurs(m, u);
    var i :| 0 <= i < |m| && m[i] == Entry(u, Find(m, u).value);
    assert ListFn(t, target)[i] == m[i].value;
  }
}
