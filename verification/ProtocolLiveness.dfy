/** When a blocked caller can still be answered. */
module ProtocolLiveness {
  import opened OrderedMap
  import opened Actuators
  import opened Messages
  import opened Protocol
  import opened ProtocolTheorems

  /** A call puts its request at the end of what the client has on its way to the daemon, and blocks the caller unless
      the request is one whose answer nobody waits for. */
  lemma CallIsSent(s: State, c: Peer, req: Msg)
    requires c < |s.clients| && s.clients[c].waiting.None? && !req.Ack?
    ensures var s' := Step(s, Call(c, req));
      && |s'.clients| == |s.clients| && Upward(s', c) == Upward(s, c) + [req]
      && s'.clients[c].waiting == if req.Events? || req.Exit? then None else Some(req)
  {
    var cl := s.clients[c];
    Reassoc(cl.up, cl.toBroker, [req]);
    Reassoc(For(s.inbox, c), cl.up + cl.toBroker, [req]);
  }

  /** No EXIT is ahead of the client's next request in the daemon's inbox. */
  predicate Clear(inbox: seq<Packet>, c: Peer) {
    || inbox == []
    || (inbox[0].peer == c && NeedsReply(inbox[0].msg))
    || (!inbox[0].msg.Exit? && Clear(inbox[1..], c))
  }

  /** A reply is on its way to the caller, or the daemon runs and will come to its request. */
  ghost predicate Answerable(s: State, c: Peer)
    requires c < |s.clients|
  {
    Replying(ViewOf(s, c)) != [] || (s.running && Clear(s.inbox, c))
  }

  ghost predicate Waits(s: State, c: Peer) {
    Inv(s) && c < |s.clients| && s.clients[c].waiting.Some?
  }

  lemma InvStep(s: State, a: Action)
    requires Inv(s)
    ensures Inv(Step(s, a)) && |Step(s, a).clients| == |s.clients|
  {
    StepKeepsClients(s, a);
    forall c | 0 <= c < |s.clients|
      ensures ViewOk(ViewOf(Step(s, a), c))
    {
      StepKeeps(s, a, c);
    }
  }

  /** The run returns the call of client c. */
  ghost predicate Returns(s: State, more: seq<Action>, c: Peer) {
    && c < |s.clients| && c < |Run(s, more).clients|
    && |Run(s, more).clients[c].read| > |s.clients[c].read|
  }

  /** A step that reads nothing, followed by a run that returns. */
  lemma ReturnsAfter(s: State, a: Action, rest: seq<Action>, c: Peer)
    requires c < |s.clients| && c < |Step(s, a).clients| && Step(s, a).clients[c].read == s.clients[c].read
    requires Returns(Step(s, a), rest, c)
    ensures Returns(s, [a] + rest, c)
  {
    RunCons(s, a, rest);
  }

  // ---------- an answerable call can return ----------

  /** A reply in the pipe is read. */
  lemma ReadReply(s: State, c: Peer)
    requires Waits(s, c) && s.clients[c].replies != []
    ensures Returns(s, [Return(c)], c)
  {
    PendingWithReply(ViewOf(s, c));
    var s' := Step(s, Return(c));
    assert s' == With(s, c, ReturnFn(s.clients[c]));
    RunCons(s, Return(c), []);
    NilRight([Return(c)]);
    assert Run(s', []) == s';
  }

  lemma PendingWithReply(v: View)
    requires ViewOk(v) && v.replies != []
    ensures v.pending != []
  {
    assert |Replying(v)| >= 1;
  }

  /** A reply on its way can be brought to the caller. */
  lemma {:induction false} ReplyArrives(s: State, c: Peer) returns (more: seq<Action>)
    requires Waits(s, c) && Replying(ViewOf(s, c)) != []
    ensures Returns(s, more, c)
    decreases 2 * |s.outbox| + |s.clients[c].down|
  {
    var cl := s.clients[c];
    if cl.replies != [] {
      ReadReply(s, c);
      more := [Return(c)];
    } else {
      var a := if cl.down != [] then BrokerDown(c) else DaemonOut;
      BringCloser(s, c);
      var rest := ReplyArrives(Step(s, a), c);
      ReturnsAfter(s, a, rest, c);
      more := [a] + rest;
    }
  }

  lemma BringCloser(s: State, c: Peer)
    requires Waits(s, c) && Replying(ViewOf(s, c)) != [] && s.clients[c].replies == []
    ensures var s' := Step(s, if s.clients[c].down != [] then BrokerDown(c) else DaemonOut);
      && Waits(s', c) && Replying(ViewOf(s', c)) != [] && s'.clients[c].read == s.clients[c].read
      && 2 * |s'.outbox| + |s'.clients[c].down| < 2 * |s.outbox| + |s.clients[c].down|
  {
    var cl := s.clients[c];
    if cl.down != [] {
      InvStep(s, BrokerDown(c));
      BrokerDownOwn(s, c);
    } else {
      InvStep(s, DaemonOut);
      OutboxCloser(s, c);
    }
  }

  lemma OutboxCloser(s: State, c: Peer)
    requires c < |s.clients| && Replying(ViewOf(s, c)) != [] && s.clients[c].replies == [] && s.clients[c].down == []
    ensures var s' := Step(s, DaemonOut);
      && |s'.clients| == |s.clients| && Replying(ViewOf(s', c)) == Replying(ViewOf(s, c))
      && s'.clients[c].waiting == s.clients[c].waiting && s'.clients[c].read == s.clients[c].read
      && |s'.outbox| < |s.outbox| && |s'.clients[c].down| <= 1
  {
    NilLeft(Rep(Downward(s, c)));
    assert s.outbox != [];
    RelayView(s, DaemonOut, c);
  }

  const QUIET := Env(false, false, [])

  /** Handling what is at the head of the inbox answers the client, or brings its request forward. */
  lemma HandleAdvances(s: State, c: Peer)
    requires Waits(s, c) && s.running && s.inbox != [] && Clear(s.inbox, c)
    ensures var s' := Step(s, Handle(QUIET));
      && Waits(s', c) && Answerable(s', c) && s'.clients == s.clients && s'.inbox == s.inbox[1..]
  {
    var p := s.inbox[0];
    var h := HandleFn(s.table, p.peer, p.msg, QUIET);
    InvStep(s, Handle(QUIET));
    HandleView(s, QUIET, c);
    HandleReplies(s.table, p.peer, p.msg, QUIET);
    if p.peer == c && NeedsReply(p.msg) {
      var v := Commanded(ViewOf(s, c), For(h.commands, c));
      RepConcat(v.downward, [h.reply.value]);
      RepCons(h.reply.value, []);
      NilRight([h.reply.value]);
    }
  }

  /** With an empty inbox, the client's own links hold its request. */
  lemma RequestOnLinks(s: State, c: Peer)
    requires Waits(s, c) && s.running && s.inbox == [] && Replying(ViewOf(s, c)) == []
    ensures s.clients[c].up != [] || s.clients[c].toBroker != []
  {
    var v := ViewOf(s, c);
    assert ViewOk(v);
    assert v.asking != [];
  }

  lemma LinksAdvance(s: State, c: Peer)
    requires Waits(s, c) && s.running && s.inbox == [] && Replying(ViewOf(s, c)) == []
    ensures var cl := s.clients[c]; var s' := Step(s, if cl.up != [] then DaemonIn(c) else BrokerUp(c));
      && Waits(s', c) && Answerable(s', c) && s'.clients[c].read == cl.read
      && |s'.inbox| + 2 * |s'.clients[c].up| + 3 * |s'.clients[c].toBroker| < 2 * |cl.up| + 3 * |cl.toBroker|
  {
    RequestOnLinks(s, c);
    var cl := s.clients[c];
    var a := if cl.up != [] then DaemonIn(c) else BrokerUp(c);
    InvStep(s, a);
    if cl.up != [] {
      assert Step(s, a).inbox == [Packet(c, cl.up[0])];
      assert [Packet(c, cl.up[0])][1..] == [];
    }
  }

  /** An answerable call can be made to return. */
  lemma {:induction false} CallReturns(s: State, c: Peer) returns (more: seq<Action>)
    requires Waits(s, c) && Answerable(s, c)
    ensures Returns(s, more, c)
    decreases |s.inbox| + 2 * |s.clients[c].up| + 3 * |s.clients[c].toBroker|
  {
    if Replying(ViewOf(s, c)) != [] {
      more := ReplyArrives(s, c);
    } else {
      var a;
      if s.inbox != [] {
        a := Handle(QUIET);
        HandleAdvances(s, c);
      } else {
        a := if s.clients[c].up != [] then DaemonIn(c) else BrokerUp(c);
        LinksAdvance(s, c);
      }
      var rest := CallReturns(Step(s, a), c);
      ReturnsAfter(s, a, rest, c);
      more := [a] + rest;
    }
  }

  // ---------- any other never does ----------

  ghost predicate Stuck(s: State, c: Peer) {
    Waits(s, c) && !Answerable(s, c)
  }

  lemma {:induction false} ClearAppend(a: seq<Packet>, b: seq<Packet>, c: Peer)
    requires !Clear(a, c)
    ensures !Clear(a + b, c)
  {
    assert (a + b)[0] == a[0];
    if !a[0].msg.Exit? {
      ClearAppend(a[1..], b, c);
      assert (a + b)[1..] == a[1..] + b;
    }
  }

  lemma HandleKeepsStuck(s: State, env: Env, c: Peer)
    requires Stuck(s, c) && s.running && s.inbox != []
    ensures Stuck(Step(s, Handle(env)), c) && Step(s, Handle(env)).clients == s.clients
  {
    var p := s.inbox[0];
    var h := HandleFn(s.table, p.peer, p.msg, env);
    InvStep(s, Handle(env));
    HandleView(s, env, c);
    HandleReplies(s.table, p.peer, p.msg, env);
    CommandsHaveNoReplies(h.commands, c);
    assert ViewOk(ViewOf(s, c));
    CommandedOk(ViewOf(s, c), For(h.commands, c));
  }

  lemma TimerKeepsStuck(s: State, outs: seq<Command>, c: Peer)
    requires Stuck(s, c) && s.running
    ensures Stuck(Step(s, Timer(outs)), c) && Step(s, Timer(outs)).clients == s.clients
  {
    var (t, ps) := ActuateAll(s.table, outs);
    InvStep(s, Timer(outs));
    ActuateAllSendsCommands(s.table, outs);
    CommandsHaveNoReplies(ps, c);
    assert Step(s, Timer(outs)) == Send(s.(table := t), ps);
    SentOnlyView(s, t, ps, c);
    assert ViewOk(ViewOf(s, c));
    CommandedOk(ViewOf(s, c), For(ps, c));
  }

  lemma RelayKeepsStuck(s: State, a: Action, c: Peer)
    requires Stuck(s, c) && (a.BrokerUp? || a.DaemonIn? || a.DaemonOut?)
    ensures Stuck(Step(s, a), c) && Step(s, a).clients[c].read == s.clients[c].read
  {
    InvStep(s, a);
    RelayView(s, a, c);
    if a.DaemonIn? && s.running && a.c < |s.clients| && s.clients[a.c].up != [] {
      ClearAppend(s.inbox, [Packet(a.c, s.clients[a.c].up[0])], c);
    }
  }

  lemma CallKeepsStuck(s: State, x: Peer, req: Msg, c: Peer)
    requires Stuck(s, c)
    ensures Stuck(Step(s, Call(x, req)), c) && Step(s, Call(x, req)).clients[c].read == s.clients[c].read
  {
    InvStep(s, Call(x, req));
    CallView(s, x, req, c);
  }

  lemma ReturnKeepsStuck(s: State, x: Peer, c: Peer)
    requires Stuck(s, c)
    ensures Stuck(Step(s, Return(x)), c) && Step(s, Return(x)).clients[c].read == s.clients[c].read
  {
    InvStep(s, Return(x));
    if x == c {
      assert s.clients[c].replies == [];
      assert Step(s, Return(x)) == s;
    } else {
      ReturnView(s, x, c);
      assert Step(s, Return(x)).clients[c] == s.clients[c];
    }
  }

  lemma BrokerDownKeepsStuck(s: State, x: Peer, c: Peer)
    requires Stuck(s, c)
    ensures Stuck(Step(s, BrokerDown(x)), c) && Step(s, BrokerDown(x)).clients[c].read == s.clients[c].read
  {
    InvStep(s, BrokerDown(x));
    if x == c {
      BrokerDownOwn(s, c);
    } else {
      BrokerDownView(s, x, c);
    }
  }

  lemma BrokerDownOwn(s: State, c: Peer)
    requires c < |s.clients|
    ensures var s' := Step(s, BrokerDown(c));
      && |s'.clients| == |s.clients| && Replying(ViewOf(s', c)) == Replying(ViewOf(s, c))
      && s'.clients[c].waiting == s.clients[c].waiting && s'.clients[c].read == s.clients[c].read
      && s'.inbox == s.inbox && s'.running == s.running && s'.outbox == s.outbox
      && (s.clients[c].down != [] ==> |s'.clients[c].down| < |s.clients[c].down|)
  {
    if s.clients[c].down == [] {
      assert Step(s, BrokerDown(c)) == s;
    } else {
      BrokerDownView(s, c, c);
      TakenReplying(ViewOf(s, c));
    }
  }

  lemma StepKeepsStuck(s: State, a: Action, c: Peer)
    requires Stuck(s, c)
    ensures Stuck(Step(s, a), c) && Step(s, a).clients[c].read == s.clients[c].read
  {
    match a
    case Handle(env) => if s.running && s.inbox != [] { HandleKeepsStuck(s, env, c); }
    case Timer(outs) => if s.running { TimerKeepsStuck(s, outs, c); }
    case Call(x, req) => CallKeepsStuck(s, x, req, c);
    case Return(x) => ReturnKeepsStuck(s, x, c);
    case BrokerDown(x) => BrokerDownKeepsStuck(s, x, c);
    case _ => RelayKeepsStuck(s, a, c);
  }

  lemma {:induction false} RunKeepsStuck(s: State, actions: seq<Action>, c: Peer)
    requires Stuck(s, c)
    ensures !Returns(s, actions, c)
    decreases |actions|
  {
    if actions != [] {
      StepKeepsStuck(s, actions[0], c);
      RunKeepsStuck(Step(s, actions[0]), actions[1..], c);
    }
  }

  /** In every reachable state, a blocked caller can still get a reply if and only if one is on its way, or the daemon
      runs and has no EXIT ahead of its request. */
  lemma BlockedCallerIsAnswerable(n: nat, actions: seq<Action>, c: Peer)
    requires c < n && Reach(n, actions).clients[c].waiting.Some?
    ensures (exists more :: Returns(Reach(n, actions), more, c)) <==> Answerable(Reach(n, actions), c)
  {
    var s := Reach(n, actions);
    if Answerable(s, c) {
      var more := CallReturns(s, c);
    } else {
      forall more
        ensures !Returns(s, more, c)
      {
        RunKeepsStuck(s, more, c);
      }
    }
  }
}
