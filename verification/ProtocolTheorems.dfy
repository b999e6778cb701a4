/** What every run of the protocol guarantees to clients and to actuator owners. */
module ProtocolTheorems {
  import opened OrderedMap
  import opened Sorting
  import opened Actuators
  import opened Messages
  import opened Protocol

  /** The state a run of n clients and the daemon reaches. */
  ghost function Reach(n: nat, actions: seq<Action>): (s: State)
    ensures |s.clients| == n && Inv(s)
  {
    InvInit(n);
    InvRun(Init(n), actions);
    Run(Init(n), actions)
  }

  lemma {:induction false} RunConcat(s: State, a: seq<Action>, b: seq<Action>)
    ensures Run(s, a + b) == Run(Run(s, a), b)
    decreases |a|
  {
    if a == [] { assert a + b == b; } else {
      assert (a + b)[1..] == a[1..] + b;
      RunConcat(Step(s, a[0]), a[1..], b);
    }
  }

  // ---------- replies ----------

  lemma {:induction false} RepMembers(s: seq<Msg>)
    ensures forall i :: 0 <= i < |Rep(s)| ==> IsReply(Rep(s)[i])
    ensures forall i :: 0 <= i < |Cmds(s)| ==> !IsReply(Cmds(s)[i])
  {
    if s != [] { RepMembers(s[1..]); }
  }

  /** The requests whose callers assert an ACK. */
  predicate AcceptsAck(req: Msg) {
    !req.Add? && !req.List?
  }

  /** The reply a blocked caller reads answers its client's oldest unanswered request. It is what the caller
      asserts, unless the client has asked the daemon to exit before and the caller asserts something else
      than an ACK; then it never is. */
  ghost predicate ReplyOk(cl: Client) {
    cl.waiting.Some? && cl.replies != [] ==>
      && cl.pending != [] && Answers(cl.pending[0], cl.replies[0])
      && (!cl.exited ==> cl.pending == [cl.waiting.value])
      && (Answers(cl.waiting.value, cl.replies[0]) <==> !cl.exited || AcceptsAck(cl.waiting.value))
  }

  /** In every interleaving, for every client. */
  lemma RepliesAnswerRequests(n: nat, actions: seq<Action>, c: Peer)
    requires c < n
    ensures ReplyOk(Reach(n, actions).clients[c])
  {
    var s := Reach(n, actions);
    var cl, v := s.clients[c], ViewOf(s, c);
    if cl.waiting.Some? && cl.replies != [] {
      assert ViewOk(v);
      assert Replying(v)[0] == cl.replies[0];
    }
  }

  /** Replies and commands are told apart. */
  ghost predicate Demultiplexed(cl: Client) {
    && (forall i :: 0 <= i < |cl.replies| ==> IsReply(cl.replies[i]))
    && (forall i :: 0 <= i < |cl.read| ==> IsReply(cl.read[i]))
    && (forall i :: 0 <= i < |cl.commands| ==> !IsReply(cl.commands[i]))
  }

  /** Actuation commands never enter the reply pipe, and only they reach the command callback. */
  lemma CommandsStayOutOfReplies(n: nat, actions: seq<Action>, c: Peer)
    requires c < n
    ensures Demultiplexed(Reach(n, actions).clients[c])
  {
    var s := Reach(n, actions);
    var cl := s.clients[c];
    assert ViewOk(ViewOf(s, c));
    RepMembers(cl.seen);
    AllReplies(cl.read, cl.replies, Rep(cl.seen));
  }

  lemma AllReplies(read: seq<Msg>, replies: seq<Msg>, all: seq<Msg>)
    requires read + replies == all && forall i :: 0 <= i < |all| ==> IsReply(all[i])
    ensures forall i :: 0 <= i < |replies| ==> IsReply(replies[i])
    ensures forall i :: 0 <= i < |read| ==> IsReply(read[i])
  {
    assert forall i :: 0 <= i < |read| ==> read[i] == all[i];
    assert forall i :: 0 <= i < |replies| ==> replies[i] == all[|read| + i];
  }

  lemma RunCons(s: State, a: Action, rest: seq<Action>)
    ensures Run(s, [a] + rest) == Run(Step(s, a), rest)
  {
    assert ([a] + rest)[1..] == rest;
  }

  const EXIT_RUN: seq<Action> := [Call(0, Exit)] + ([BrokerUp(0)] + ([DaemonIn(0)] + ([Handle(Env(true, true, []))] +
      ([DaemonOut] + ([BrokerDown(0)] + ([Call(0, List(ScopeT, []))] + []))))))

  /** A client that lists after asking the daemon to exit reads the acknowledgement of the exit, and its
      assertion fails. */
  lemma ExitThenListFails()
    ensures var cl := Reach(1, EXIT_RUN).clients[0];
      cl.waiting == Some(List(ScopeT, [])) && cl.replies == [Ack] && !Answers(cl.waiting.value, cl.replies[0])
  {
    var s3 := SentExit();
    var s6 := ExitAcknowledged(s3);
    var list := Call(0, List(ScopeT, []));
    var r7: seq<Action> := [];
    var r6, s7 := [list] + r7, Step(s6, list);
    RunCons(s6, list, r7);
    RunCons(Step(Step(s3, Handle(Env(true, true, []))), DaemonOut), BrokerDown(0), r6);
    RunCons(Step(s3, Handle(Env(true, true, []))), DaemonOut, [BrokerDown(0)] + r6);
    RunCons(s3, Handle(Env(true, true, [])), [DaemonOut] + ([BrokerDown(0)] + r6));
    var r3 := [Handle(Env(true, true, []))] + ([DaemonOut] + ([BrokerDown(0)] + r6));
    RunCons(Step(Step(Init(1), Call(0, Exit)), BrokerUp(0)), DaemonIn(0), r3);
    RunCons(Step(Init(1), Call(0, Exit)), BrokerUp(0), [DaemonIn(0)] + r3);
    RunCons(Init(1), Call(0, Exit), [BrokerUp(0)] + ([DaemonIn(0)] + r3));
    assert Run(Init(1), EXIT_RUN) == Run(s7, []) == s7;
  }

  const EXIT_SENT: State :=
    State([FRESH_CLIENT.(pending := [Exit], exited := true)], [Packet(0, Exit)], [], EMPTY_TABLE, true, [])

  lemma SentExit() returns (s: State)
    ensures s == Step(Step(Step(Init(1), Call(0, Exit)), BrokerUp(0)), DaemonIn(0))
    ensures s == EXIT_SENT
  {
    var s1 := Step(Init(1), Call(0, Exit));
    assert s1.clients[0] == FRESH_CLIENT.(toBroker := [Exit], pending := [Exit], exited := true);
    var s2 := Step(s1, BrokerUp(0));
    assert s2.clients[0] == FRESH_CLIENT.(up := [Exit], pending := [Exit], exited := true);
    s := Step(s2, DaemonIn(0));
    assert s.clients == [FRESH_CLIENT.(pending := [Exit], exited := true)];
  }

  lemma ExitAcknowledged(s: State) returns (s6: State)
    requires s == EXIT_SENT
    ensures s6 == Step(Step(Step(s, Handle(Env(true, true, []))), DaemonOut), BrokerDown(0))
    ensures |s6.clients| == 1 && s6.clients[0].waiting == None && s6.clients[0].replies == [Ack]
  {
    var s4 := Step(s, Handle(Env(true, true, [])));
    assert s4.outbox == [Packet(0, Ack)] && s4.clients == s.clients;
    var s5 := Step(s4, DaemonOut);
    assert s5.clients[0].down == [Ack] && s5.clients[0].replies == [];
    s6 := Step(s5, BrokerDown(0));
  }

  // ---------- the command callback runs before the call returns ----------

  lemma SentGrows(s: State, a: Action)
    ensures s.sent <= Step(s, a).sent
  {
  }

  lemma {:induction false} SentOnlyGrows(s: State, actions: seq<Action>)
    ensures s.sent <= Run(s, actions).sent
    decreases |actions|
  {
    if actions != [] {
      SentGrows(s, actions[0]);
      SentOnlyGrows(Step(s, actions[0]), actions[1..]);
    }
  }

  lemma ForPrefix(a: seq<Packet>, b: seq<Packet>, c: Peer)
    requires a <= b
    ensures For(a, c) <= For(b, c)
  {
    ForConcat(a, b[|a|..], c);
    assert a + b[|a|..] == b;
  }

  /** If a broker has seen more replies than `before` held, it has seen everything up to the next reply,
      the command `cmd` included. */
  lemma SeenPastCommand(before: seq<Msg>, cmd: Msg, all: seq<Msg>, seen: seq<Msg>)
    requires !IsReply(cmd) && before + [cmd] <= all && seen <= all && |Rep(seen)| > |Rep(before)|
    ensures |Cmds(before)| < |Cmds(seen)| && Cmds(seen)[|Cmds(before)|] == cmd
  {
    var p := before + [cmd];
    RepCons(cmd, []);
    NilRight([cmd]);
    RepConcat(before, [cmd]);
    CmdsConcat(before, [cmd]);
    if |seen| < |p| {
      assert seen + p[|seen|..] == p;
      RepConcat(seen, p[|seen|..]);
      assert false;
    }
    var rest := seen[|p|..];
    assert p + rest == seen;
    CmdsConcat(p, rest);
    assert Cmds(seen) == (Cmds(before) + [cmd]) + Cmds(rest);
  }

  /** A waiting caller whose request is next at the daemon has no reply under way. */
  lemma NothingUnderWay(s: State, c: Peer, m: Msg)
    requires Inv(s) && c < |s.clients| && !s.clients[c].exited
    requires s.inbox != [] && s.inbox[0] == Packet(c, m) && NeedsReply(m)
    ensures Rep(For(s.sent, c)) == s.clients[c].read
  {
    var v := ViewOf(s, c);
    assert ViewOk(v);
    TakeView(s, c);
    assert |v.asking| >= 1;
    assert Replying(v) == [];
    RepConcat(v.seen, v.downward);
    assert v.replies == [] && Rep(v.downward) == [];
    NilRight(v.read);
    NilRight(Rep(v.seen));
  }

  /** The daemon is about to handle c's actuation of u, and will allow it. */
  ghost predicate AboutToActuate(s: State, env: Env, c: Peer, u: string, v: real) {
    && s.running && s.inbox != [] && s.inbox[0] == Packet(c, Actuate(u, v)) && env.allow
    && Find(s.table.actuators, u).Some?
  }

  /** When a client actuates an actuator it owns and the daemon allows it, the callback is given the corrected value,
      after all it had been given before, and by the time the call returns. */
  lemma CallbackBeforeReturn(n: nat, pre: seq<Action>, env: Env, post: seq<Action>, c: Peer, u: string, v: real)
    requires c < n && AboutToActuate(Reach(n, pre), env, c, u, v) && !Reach(n, pre).clients[c].exited
    requires Find(Reach(n, pre).table.actuators, u).value.owner == c
    requires |Reach(n, pre + [Handle(env)] + post).clients[c].read| > |Reach(n, pre).clients[c].read|
    ensures var commands := Reach(n, pre + [Handle(env)] + post).clients[c].commands;
      var k := |Cmds(For(Reach(n, pre).sent, c))|;
      && |Reach(n, pre).clients[c].commands| <= k < |commands|
      && commands[k] == Actuate(u, Corrected(Find(Reach(n, pre).table.actuators, u).value.kind, v))
  {
    var s0, s2 := Reach(n, pre), Reach(n, pre + [Handle(env)] + post);
    var cmd := Actuate(u, Corrected(Find(s0.table.actuators, u).value.kind, v));
    var s1 := Step(s0, Handle(env));
    RunThrough(n, pre, Handle(env), post);
    NothingUnderWay(s0, c, Actuate(u, v));
    var ps := [Packet(c, cmd), Packet(c, Ack)];
    assert s1.sent == s0.sent + ps;
    ForConcat(s0.sent, ps, c);
    ForCons(ps, c);
    SentOnlyGrows(s1, post);
    ForPrefix(s1.sent, s2.sent, c);
    assert For(s0.sent, c) + [cmd] <= For(s2.sent, c);
    assert ViewOk(ViewOf(s0, c)) && ViewOk(ViewOf(s2, c));
    CmdsConcat(s0.clients[c].seen, Downward(s0, c));
    SeenPastCommand(For(s0.sent, c), cmd, For(s2.sent, c), s2.clients[c].seen);
  }

  lemma RunThrough(n: nat, pre: seq<Action>, a: Action, post: seq<Action>)
    ensures Reach(n, pre + [a] + post) == Run(Step(Reach(n, pre), a), post)
  {
    RunConcat(Init(n), pre + [a], post);
    RunConcat(Init(n), pre, [a]);
    RunCons(Run(Init(n), pre), a, []);
    assert [a] + [] == [a];
  }

  // ---------- the reply read is the reply to the request ----------

  /** The first reply after `before` is rep: whoever has seen more replies than before held has rep next. */
  lemma SeenReply(before: seq<Msg>, cmds: seq<Msg>, rep: Msg, all: seq<Msg>, seen: seq<Msg>)
    requires Rep(cmds) == [] && IsReply(rep) && before + (cmds + [rep]) <= all && seen <= all
    requires |Rep(seen)| > |Rep(before)|
    ensures Rep(seen)[|Rep(before)|] == rep
  {
    RepOfAnswer(before, cmds, rep);
    RepPrefix(before + (cmds + [rep]), all);
    RepPrefix(seen, all);
    assert Rep(all)[|Rep(before)|] == rep;
  }

  lemma RepOfAnswer(before: seq<Msg>, cmds: seq<Msg>, rep: Msg)
    requires Rep(cmds) == [] && IsReply(rep)
    ensures Rep(before + (cmds + [rep])) == Rep(before) + [rep]
  {
    RepCons(rep, []);
    NilRight([rep]);
    NilLeft([rep]);
    RepConcat(cmds, [rep]);
    RepConcat(before, cmds + [rep]);
  }

  lemma RepPrefix(a: seq<Msg>, b: seq<Msg>)
    requires a <= b
    ensures Rep(a) <= Rep(b)
  {
    RepConcat(a, b[|a|..]);
    assert a + b[|a|..] == b;
  }

  /** When the daemon handles a request of a client that never asked it to exit, the next reply that client reads is
      the daemon's reply to that request. */
  lemma ReplyIsRead(n: nat, pre: seq<Action>, env: Env, post: seq<Action>, c: Peer, m: Msg)
    requires c < n && Reach(n, pre).running && !Reach(n, pre).clients[c].exited && NeedsReply(m)
    requires Reach(n, pre).inbox != [] && Reach(n, pre).inbox[0] == Packet(c, m)
    requires |Reach(n, pre + [Handle(env)] + post).clients[c].read| > |Reach(n, pre).clients[c].read|
    ensures var k := |Reach(n, pre).clients[c].read|; var h := HandleFn(Reach(n, pre).table, c, m, env);
      h.reply == Some(Reach(n, pre + [Handle(env)] + post).clients[c].read[k])
  {
    var s0, s2 := Reach(n, pre), Reach(n, pre + [Handle(env)] + post);
    var s1, h := Step(s0, Handle(env)), HandleFn(s0.table, c, m, env);
    RunThrough(n, pre, Handle(env), post);
    NothingUnderWay(s0, c, m);
    HandleReplies(s0.table, c, m, env);
    var rep := h.reply.value;
    assert s1.sent == s0.sent + (h.commands + [Packet(c, rep)]);
    ForConcat(s0.sent, h.commands + [Packet(c, rep)], c);
    ForConcat(h.commands, [Packet(c, rep)], c);
    ForOne(Packet(c, rep), c);
    CommandsHaveNoReplies(h.commands, c);
    SentOnlyGrows(s1, post);
    ForPrefix(s1.sent, s2.sent, c);
    assert ViewOk(ViewOf(s2, c));
    var cl := s2.clients[c];
    SeenReply(For(s0.sent, c), For(h.commands, c), rep, For(s2.sent, c), cl.seen);
    assert (cl.read + cl.replies)[|s0.clients[c].read|] == cl.read[|s0.clients[c].read|];
  }

  // ---------- the daemon's table ----------

  /** The last actuation command for a name. */
  function LastCommand(sent: seq<Packet>, u: string): Option<Packet> {
    if sent == [] then None
    else
      var p := sent[|sent| - 1];
      if p.msg.Actuate? && p.msg.uuid == u then Some(p) else LastCommand(sent[..|sent| - 1], u)
  }

  /** An actuated entry holds the value its owner was last told, which is admissible whenever the actuator
      has admissible values to correct to. */
  ghost predicate EntryOk(e: Entry<string, Act>, sent: seq<Packet>) {
    && (e.value.kind.Discrete? ==> Sorted(e.value.kind.choices))
    && (e.value.actuated ==>
          && LastCommand(sent, e.key) == Some(Packet(e.value.owner, Actuate(e.key, e.value.value)))
          && (WellFormed(e.value.kind) ==> Admissible(e.value.kind, e.value.value)))
  }

  ghost predicate TableOk(t: Table, sent: seq<Packet>) {
    && UniqueKeys(t.actuators)
    && forall i :: 0 <= i < |t.actuators| ==> EntryOk(t.actuators[i], sent)
  }

  lemma {:induction false} UpdateEntry<V>(m: seq<Entry<string, V>>, u: string, v: V, i: nat)
    requires i < |m| && UniqueKeys(m)
    ensures |Update(m, u, v)| == |m| && Update(m, u, v)[i] == if m[i].key == u then Entry(u, v) else m[i]
  {
    UpdateLaws(m, u, v, u);
    if m[0].key != u {
      if i > 0 {
        UpdateEntry(m[1..], u, v, i - 1);
        assert Update(m, u, v)[i] == Update(m[1..], u, v)[i - 1];
      }
    }
  }

  lemma ActuateKeepsTable(t: Table, sent: seq<Packet>, u: string, v: real)
    requires TableOk(t, sent)
    ensures var (t', ps) := ActuateFn(t, u, v); TableOk(t', sent + ps)
  {
    var (t', ps) := ActuateFn(t, u, v);
    match Find(t.actuators, u)
    case None => assert sent + [] == sent;
    case Some(a) =>
      var w := Corrected(a.kind, v);
      var a' := a.(value := w, actuated := true);
      assert ps == [Packet(a.owner, Actuate(u, w))] && (sent + ps)[..|sent|] == sent;
      UpdateLaws(t.actuators, u, a', u);
      FindOccurs(t.actuators, u);
      CorrectionAdmissibleFor(t.actuators, sent, u, a, v);
      forall i | 0 <= i < |t'.actuators|
        ensures EntryOk(t'.actuators[i], sent + ps)
      {
        UpdateEntry(t.actuators, u, a', i);
        assert EntryOk(t.actuators[i], sent);
      }
  }

  lemma CorrectionAdmissibleFor(m: seq<Entry<string, Act>>, sent: seq<Packet>, u: string, a: Act, v: real)
    requires Entry(u, a) in m && forall i :: 0 <= i < |m| ==> EntryOk(m[i], sent)
    ensures a.kind.Discrete? ==> Sorted(a.kind.choices)
    ensures WellFormed(a.kind) ==> Admissible(a.kind, Corrected(a.kind, v))
  {
    var i :| 0 <= i < |m| && m[i] == Entry(u, a);
    assert EntryOk(m[i], sent);
    CorrectionAdmissible(a.kind);
  }

  lemma {:induction false} ActuateAllKeepsTable(t: Table, sent: seq<Packet>, outs: seq<Command>)
    requires TableOk(t, sent)
    ensures var (t', ps) := ActuateAll(t, outs); TableOk(t', sent + ps)
    decreases |outs|
  {
    if outs == [] {
      assert sent + [] == sent;
    } else {
      var (t1, p1) := ActuateFn(t, outs[0].uuid, outs[0].value);
      ActuateKeepsTable(t, sent, outs[0].uuid, outs[0].value);
      ActuateAllKeepsTable(t1, sent + p1, outs[1..]);
      var p2 := ActuateAll(t1, outs[1..]).1;
      assert sent + p1 + p2 == sent + (p1 + p2);
    }
  }

  lemma AddKeepsTable(t: Table, sent: seq<Packet>, from: Peer, o: Obj)
    requires TableOk(t, sent)
    ensures TableOk(AddFn(t, from, o).0, sent)
  {
    if o.ActuatorObj? {
      var k := KindFromMsg(o.kind);
      var a := Act(from, k, o.value, false);
      AddLaws(t.actuators, o.uuid, a, o.uuid);
      if o.kind.Discrete? { SortSorts(o.kind.choices); }
      var m := AddFn(t, from, o).0.actuators;
      assert forall i :: 0 <= i < |m| ==> m[i] == if i < |t.actuators| then t.actuators[i] else Entry(o.uuid, a);
    }
  }

  lemma EntriesStayOk(m: seq<Entry<string, Act>>, i: nat, sent: seq<Packet>)
    requires i < |m| && forall j :: 0 <= j < |m| ==> EntryOk(m[j], sent)
    ensures var r := m[..i] + m[i + 1..]; forall j :: 0 <= j < |r| ==> EntryOk(r[j], sent)
  {
    var r := m[..i] + m[i + 1..];
    assert forall j :: 0 <= j < |r| ==> r[j] == if j < i then m[j] else m[j + 1];
  }

  lemma RemoveKeepsTable(t: Table, sent: seq<Packet>, target: Target, u: string)
    requires TableOk(t, sent)
    ensures TableOk(RemoveFn(t, target, u), sent)
  {
    if target.ActuatorT? {
      var m := t.actuators;
      FindAt(m, u);
      if i :| 0 <= i < |m| && m[i].key == u {
        RemoveAt(m, i);
        RemovedKeyIsGone(m, i);
        EntriesStayOk(m, i, sent);
      } else {
        RemoveAbsent(m, u);
      }
    }
  }

  lemma ReplyKeepsTable(t: Table, sent: seq<Packet>, p: Packet)
    requires TableOk(t, sent) && !p.msg.Actuate?
    ensures TableOk(t, sent + [p])
  {
    assert (sent + [p])[..|sent|] == sent;
    forall i | 0 <= i < |t.actuators|
      ensures EntryOk(t.actuators[i], sent + [p])
    {
      assert EntryOk(t.actuators[i], sent);
    }
  }

  lemma HandleKeepsTable(s: State, env: Env)
    requires TableOk(s.table, s.sent)
    ensures TableOk(HandleStep(s, env).table, HandleStep(s, env).sent)
  {
    if s.running && s.inbox != [] {
      var p, t := s.inbox[0], s.table;
      var h := HandleFn(t, p.peer, p.msg, env);
      assert s.sent + [] == s.sent;
      match p.msg {
        case Actuate(u, v) => ActuateKeepsTable(t, s.sent, u, v);
        case Add(o) => AddKeepsTable(t, s.sent, p.peer, o);
        case Remove(target, u) => RemoveKeepsTable(t, s.sent, target, u);
        case Tick => ActuateAllKeepsTable(t, s.sent, env.outs);
        case _ =>
      }
      assert TableOk(h.table, s.sent + h.commands);
      HandleReplies(t, p.peer, p.msg, env);
      if h.reply.Some? {
        ReplyKeepsTable(h.table, s.sent + h.commands, Packet(p.peer, h.reply.value));
        Reassoc(s.sent, h.commands, [Packet(p.peer, h.reply.value)]);
      } else {
        assert h.commands + [] == h.commands;
      }
    }
  }

  lemma {:induction false} RunKeepsTable(s: State, actions: seq<Action>)
    requires TableOk(s.table, s.sent)
    ensures TableOk(Run(s, actions).table, Run(s, actions).sent)
    decreases |actions|
  {
    if actions != [] {
      var s' := Step(s, actions[0]);
      match actions[0] {
        case Handle(env) => HandleKeepsTable(s, env);
        case Timer(outs) => ActuateAllKeepsTable(s.table, s.sent, outs);
        case _ => assert s'.table == s.table && s'.sent == s.sent;
      }
      RunKeepsTable(s', actions[1..]);
    }
  }

  /** In every run, each actuated actuator holds the value of the last command sent to its owner, and that
      value is admissible. */
  lemma ActuatedValuesAreTold(n: nat, actions: seq<Action>)
    ensures TableOk(Reach(n, actions).table, Reach(n, actions).sent)
  {
    RunKeepsTable(Init(n), actions);
  }

  // ---------- identity, and reading one's writes ----------

  /** The step removes the actuator named u. */
  predicate Drops(s: State, a: Action, u: string) {
    a.Handle? && s.running && s.inbox != [] && a.env.drop && s.inbox[0].msg == Remove(ActuatorT, u)
  }

  predicate Mentions(outs: seq<Command>, u: string) {
    exists i :: 0 <= i < |outs| && outs[i].uuid == u
  }

  /** The step actuates the actuator named u. */
  predicate Sets(s: State, a: Action, u: string) {
    || (a.Handle? && s.running && s.inbox != [] && s.inbox[0].msg.Actuate? && s.inbox[0].msg.uuid == u && a.env.allow)
    || (a.Handle? && s.running && s.inbox != [] && s.inbox[0].msg.Tick? && Mentions(a.env.outs, u))
    || (a.Timer? && Mentions(a.outs, u))
  }

  lemma {:induction false} ActuateAllFind(t: Table, outs: seq<Command>, u: string)
    ensures var t' := ActuateAll(t, outs).0;
      && KeepsActuator(Find(t.actuators, u), Find(t'.actuators, u))
      && (!Mentions(outs, u) ==> Find(t'.actuators, u) == Find(t.actuators, u))
    decreases |outs|
  {
    if outs != [] {
      var (t1, _) := ActuateFn(t, outs[0].uuid, outs[0].value);
      ActuateFind(t, outs[0].uuid, outs[0].value, u);
      ActuateAllFind(t1, outs[1..], u);
      assert forall i :: 0 <= i < |outs| - 1 ==> outs[1..][i] == outs[i + 1];
      assert !Mentions(outs, u) ==> outs[0].uuid != u && !Mentions(outs[1..], u);
    }
  }

  predicate KeepsActuator(f: Option<Act>, f': Option<Act>) {
    f.Some? ==> f'.Some? && SameActuator(f.value, f'.value)
  }

  predicate SameActuator(a: Act, b: Act) {
    a.owner == b.owner && a.kind == b.kind
  }

  lemma ActuateFind(t: Table, x: string, v: real, u: string)
    ensures var t' := ActuateFn(t, x, v).0;
      && KeepsActuator(Find(t.actuators, u), Find(t'.actuators, u))
      && (x != u ==> Find(t'.actuators, u) == Find(t.actuators, u))
      && (x == u && Find(t.actuators, u).Some? ==>
            Find(t'.actuators, u).value.value == Corrected(Find(t.actuators, u).value.kind, v))
  {
    match Find(t.actuators, x)
    case None =>
    case Some(a) => UpdateLaws(t.actuators, x, a.(value := Corrected(a.kind, v), actuated := true), u);
  }

  /** A registered actuator keeps its owner, choices and limits until it is removed, whoever adds the name
      again; and its value until it is actuated. */
  lemma StepKeepsActuator(s: State, a: Action, u: string)
    requires UniqueKeys(s.table.actuators) && Find(s.table.actuators, u).Some? && !Drops(s, a, u)
    ensures var f, f' := Find(s.table.actuators, u), Find(Step(s, a).table.actuators, u);
      f'.Some? && SameActuator(f.value, f'.value) && (!Sets(s, a, u) ==> f' == f)
  {
    var t := s.table;
    match a
    case Timer(outs) => ActuateAllFind(t, outs, u);
    case Handle(env) =>
      if s.running && s.inbox != [] {
        match s.inbox[0].msg {
          case Actuate(x, v) => ActuateFind(t, x, v, u);
          case Tick => ActuateAllFind(t, env.outs, u);
          case Add(o) =>
            if o.ActuatorObj? {
              AddLaws(t.actuators, o.uuid, Act(s.inbox[0].peer, KindFromMsg(o.kind), o.value, false), u);
            }
          case Remove(target, x) =>
            if target.ActuatorT? && env.drop { RemoveLaws(t.actuators, x, Find(t.actuators, u).value, u); }
          case _ =>
        }
      }
    case _ =>
  }

  predicate NoDrops(s: State, actions: seq<Action>, u: string)
    decreases |actions|
  {
    actions == [] || (!Drops(s, actions[0], u) && NoDrops(Step(s, actions[0]), actions[1..], u))
  }

  predicate NoSets(s: State, actions: seq<Action>, u: string)
    decreases |actions|
  {
    actions == [] || (!Sets(s, actions[0], u) && NoSets(Step(s, actions[0]), actions[1..], u))
  }

  lemma {:induction false} RunKeepsActuator(s: State, actions: seq<Action>, u: string)
    requires TableOk(s.table, s.sent) && Find(s.table.actuators, u).Some? && NoDrops(s, actions, u)
    ensures var f, f' := Find(s.table.actuators, u), Find(Run(s, actions).table.actuators, u);
      f'.Some? && SameActuator(f.value, f'.value) && (NoSets(s, actions, u) ==> f' == f)
    decreases |actions|
  {
    if actions != [] {
      StepKeepsActuator(s, actions[0], u);
      RunKeepsTable(s, [actions[0]]);
      assert Run(s, [actions[0]]) == Run(Step(s, actions[0]), []);
      RunKeepsActuator(Step(s, actions[0]), actions[1..], u);
    }
  }

  /** The reply is a list of actuators that shows this one. */
  predicate ListShows(rep: Msg, o: Obj) {
    rep.List? && rep.target == ActuatorT && o in rep.objs
  }

  /** The daemon is about to handle d's request for a list. */
  ghost predicate AboutToList(s: State, d: Peer, target: Target) {
    s.running && s.inbox != [] && s.inbox[0].peer == d && s.inbox[0].msg.List? && s.inbox[0].msg.target == target
  }

  /** What the daemon knows of an actuator is what its listing shows. */
  lemma ListingShows(t: Table, u: string)
    requires Find(t.actuators, u).Some?
    ensures ListShows(List(ActuatorT, ListFn(t, ActuatorT)), ActObj(Entry(u, Find(t.actuators, u).value)))
  {
    var a := Find(t.actuators, u).value;
    FindOccurs(t.actuators, u);
    var i :| 0 <= i < |t.actuators| && t.actuators[i] == Entry(u, a);
    assert ListFn(t, ActuatorT)[i] == ActObj(t.actuators[i]);
  }

  /** An allowed actuation is in the daemon's table until someone sets or removes the actuator again. */
  lemma ActuationStays(n: nat, pre: seq<Action>, env: Env, post: seq<Action>, c: Peer, u: string, v: real)
    requires AboutToActuate(Reach(n, pre), env, c, u, v)
    requires NoDrops(Step(Reach(n, pre), Handle(env)), post, u) && NoSets(Step(Reach(n, pre), Handle(env)), post, u)
    ensures var f := Find(Reach(n, pre).table.actuators, u);
      var f' := Find(Reach(n, pre + [Handle(env)] + post).table.actuators, u);
      f'.Some? && SameActuator(f.value, f'.value) && f'.value.value == Corrected(f.value.kind, v)
  {
    var s0 := Reach(n, pre);
    RunThrough(n, pre, Handle(env), post);
    ActuatedValuesAreTold(n, pre);
    HandleKeepsTable(s0, env);
    ActuateFind(s0.table, u, v, u);
    RunKeepsActuator(Step(s0, Handle(env)), post, u);
  }

  /** After an allowed actuation of u, a client whose request for the list of actuators is handled before anyone sets or
      removes u reads a list that shows the corrected value. `pre` ends with the actuation at the head of the daemon's
      inbox, `mid` with the request for the list there, and by the end of `post` the client has read one reply more. */
  lemma ListSeesActuation(n: nat, pre: seq<Action>, env: Env, mid: seq<Action>, env2: Env, post: seq<Action>,
                          c: Peer, d: Peer, u: string, v: real)
    requires d < n && AboutToActuate(Reach(n, pre), env, c, u, v)
    requires NoDrops(Step(Reach(n, pre), Handle(env)), mid, u) && NoSets(Step(Reach(n, pre), Handle(env)), mid, u)
    requires AboutToList(Reach(n, pre + [Handle(env)] + mid), d, ActuatorT)
    requires !Reach(n, pre + [Handle(env)] + mid).clients[d].exited
    requires |Reach(n, pre + [Handle(env)] + mid + [Handle(env2)] + post).clients[d].read| >
             |Reach(n, pre + [Handle(env)] + mid).clients[d].read|
    ensures var a := Find(Reach(n, pre).table.actuators, u).value;
      var k := |Reach(n, pre + [Handle(env)] + mid).clients[d].read|;
      ListShows(Reach(n, pre + [Handle(env)] + mid + [Handle(env2)] + post).clients[d].read[k],
                ActuatorObj(u, Some(a.owner), Corrected(a.kind, v), a.kind))
  {
    var mid2 := pre + [Handle(env)] + mid;
    var s := Reach(n, mid2);
    ActuationStays(n, pre, env, mid, c, u, v);
    ListingShows(s.table, u);
    ReplyIsRead(n, mid2, env2, post, d, s.inbox[0].msg);
  }
}
