/** The daemon's callbacks as they change its state and enqueue messages on its role, each proved to be the
    step the protocol takes. */
module Server {
  import opened OrderedMap
  import opened Sorting
  import opened Actuators
  import opened Messages

  class Daemon {
    var table: Table
    var role: seq<Packet>   // messages enqueued with nrm_role_send, in order

    constructor ()
      ensures table == EMPTY_TABLE && role == []
    {
      table, role := EMPTY_TABLE, [];
    }

    method Send(to: Peer, msg: Msg)
      modifies this`role
      ensures role == old(role) + [Packet(to, msg)]
    {
      role := role + [Packet(to, msg)];
    }

    /** nrm_server_actuate. */
    method ActuateOne(uuid: string, value: real)
      modifies this
      ensures var (t, ps) := ActuateFn(old(table), uuid, value); table == t && role == old(role) + ps
    {
      var found := Find(table.actuators, uuid);
      if found.Some? {
        var a := new Actuator(uuid, "", found.value.value, found.value.kind);
        var _, corrected := a.CorrectedValue(value);
        var stored := found.value.(value := corrected, actuated := true);
        table := table.(actuators := Update(table.actuators, uuid, stored));
        Send(found.value.owner, Actuate(uuid, corrected));
      } else {
        assert role == role + [];
      }
    }

    /** The output loop of nrmd_control_tick. */
    method ControlOutputs(outs: seq<Command>)
      modifies this
      ensures var (t, ps) := ActuateAll(old(table), outs); table == t && role == old(role) + ps
    {
      ghost var sent: seq<Packet> := [];
      assert role == old(role) + sent && outs[0..] == outs;
      assert sent + ActuateAll(table, outs).1 == ActuateAll(table, outs).1;
      for i := 0 to |outs|
        invariant role == old(role) + sent
        invariant var (t, ps) := ActuateAll(table, outs[i..]); ActuateAll(old(table), outs) == (t, sent + ps)
      {
        assert outs[i..][1..] == outs[i + 1..];
        ghost var (t1, p1) := ActuateFn(table, outs[i].uuid, outs[i].value);
        ghost var p2 := ActuateAll(t1, outs[i + 1..]).1;
        assert sent + (p1 + p2) == (sent + p1) + p2;
        assert old(role) + (sent + p1) == (old(role) + sent) + p1;
        ActuateOne(outs[i].uuid, outs[i].value);
        sent := sent + p1;
      }
      assert sent + [] == sent;
    }

    /** nrm_server_list_actuators, with the loop of nrm_state_list_actuators. */
    method ListActuators() returns (vec: seq<Obj>)
      ensures vec == ListFn(table, ActuatorT)
    {
      vec := [];
      for i := 0 to |table.actuators|
        invariant vec == ListFn(table, ActuatorT)[..i]
      {
        vec := vec + [ActObj(table.actuators[i])];
      }
    }

    /** nrm_server_list_callback. */
    method ListObjects(target: Target) returns (vec: seq<Obj>)
      ensures vec == ListFn(table, target)
    {
      match target
      case ActuatorT => vec := ListActuators();
      case ScopeT => vec := ListEntries(table.scopes);
      case SensorT => vec := ListEntries(table.sensors);
      case SliceT => vec := ListEntries(table.slices);
    }

    /** nrm_server_add_callback: the object is registered unless its name is taken, and sent back either way. */
    method AddObject(from: Peer, obj: Obj) returns (reply: Msg)
      modifies this`table
      ensures (table, reply) == AddFn(old(table), from, obj)
    {
      match obj
      case ActuatorObj(u, _, v, k) =>
        var kind := KindOf(k);
        if Find(table.actuators, u).None? {
          table := table.(actuators := table.actuators + [Entry(u, Act(from, kind, v, false))]);
        }
        reply := Msg.Add(ActuatorObj(u, Some(from), v, kind));
      case ScopeObj(u) =>
        if Find(table.scopes, u).None? {
          table := table.(scopes := table.scopes + [Entry(u, obj)]);
        }
        reply := Msg.Add(obj);
      case SensorObj(u) =>
        if Find(table.sensors, u).None? {
          table := table.(sensors := table.sensors + [Entry(u, obj)]);
        }
        reply := Msg.Add(obj);
      case SliceObj(u) =>
        if Find(table.slices, u).None? {
          table := table.(slices := table.slices + [Entry(u, obj)]);
        }
        reply := Msg.Add(obj);
    }

    /** A removal that takes effect. */
    method RemoveObject(target: Target, uuid: string)
      modifies this`table
      ensures table == RemoveFn(old(table), target, uuid)
    {
      match target
      case ActuatorT =>
        var m := RemoveEntry(table.actuators, uuid);
        table := table.(actuators := m);
      case ScopeT =>
        var m := RemoveEntry(table.scopes, uuid);
        table := table.(scopes := m);
      case SensorT =>
        var m := RemoveEntry(table.sensors, uuid);
        table := table.(sensors := m);
      case SliceT =>
        var m := RemoveEntry(table.slices, uuid);
        table := table.(slices := m);
    }

    /** nrm_server_role_callback. */
    method RoleCallback(from: Peer, msg: Msg, env: Env) returns (err: int)
      modifies this
      ensures var h := HandleFn(old(table), from, msg, env);
        && table == h.table
        && role == old(role) + h.commands + (if h.reply.Some? then [Packet(from, h.reply.value)] else [])
      ensures err == -1 <==> msg.Exit?
    {
      err := 0;
      assert role + [] == role && role + [] + [] == role;
      match msg
      case Actuate(uuid, value) =>
        if env.allow {
          ActuateOne(uuid, value);
        }
        Send(from, Ack);
      case List(target, _) =>
        var objs := ListObjects(target);
        Send(from, List(target, objs));
      case Add(obj) =>
        var reply := AddObject(from, obj);
        Send(from, reply);
      case Remove(target, uuid) =>
        if env.drop {
          RemoveObject(target, uuid);
        }
        Send(from, Ack);
      case Exit =>
        Send(from, Ack);
        err := -1;
      case Tick =>
        ControlOutputs(env.outs);
        Send(from, Ack);
      case Events(_) =>
      case Ack =>
        err := -3;
    }
  }

  /** The loops of nrm_state_list_scopes, nrm_state_list_sensors and nrm_state_list_slices. */
  method ListEntries(m: seq<Entry<string, Obj>>) returns (vec: seq<Obj>)
    ensures |vec| == |m| && forall i :: 0 <= i < |m| ==> vec[i] == m[i].value
  {
    vec := [];
    for i := 0 to |m|
      invariant |vec| == i && forall j :: 0 <= j < i ==> vec[j] == m[j].value
    {
      vec := vec + [m[i].value];
    }
  }

  /** nrm_actuator_create_frommsg: a discrete actuator starts without choices and is given those of the message. */
  method KindOf(k: Kind) returns (r: Kind)
    ensures r == KindFromMsg(k)
  {
    match k
    case Continuous(_, _) => r := k;
    case Discrete(choices) =>
      var a := new Actuator("", "", 0.0, Discrete([]));
      var _ := a.SetChoices(choices);
      r := a.kind;
      if choices != [] {
        SortSorts(choices);
        SortedUnique(r.choices, Sort(choices));
      }
  }

  /** The entry of a name taken out. */
  method RemoveEntry<V>(m: seq<Entry<string, V>>, u: string) returns (r: seq<Entry<string, V>>)
    ensures r == OrderedMap.Remove(m, u)
  {
    var i := 0;
    while i < |m| && m[i].key != u
      invariant i <= |m| && forall j :: 0 <= j < i ==> m[j].key != u
    {
      i := i + 1;
    }
    if i < |m| {
      RemoveFirst(m, i);
      r := m[..i] + m[i + 1..];
    } else {
      FindAt(m, u);
      RemoveAbsent(m, u);
      r := m;
    }
  }
}
