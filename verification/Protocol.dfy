/** The clients, their broker threads, the daemon's broker thread and the daemon, as one state machine
    over FIFO links. A run is any sequence of actions; an action that is not enabled does nothing. */
module Protocol {
  import opened OrderedMap
  import opened Actuators
  import opened Messages

  /** One client process. The last four fields are history. */
  datatype Client = Client(
    waiting: Option<Msg>,   // the request whose caller is blocked in nrm_role_recv
    toBroker: seq<Msg>,     // pipe, caller to broker
    up: seq<Msg>,           // rpc socket, towards the daemon
    down: seq<Msg>,         // rpc socket, from the daemon
    replies: seq<Msg>,      // pipe, broker to caller
    commands: seq<Msg>,     // messages given to the command callback
    read: seq<Msg>,         // replies its caller has read
    seen: seq<Msg>,         // messages its broker has taken off the socket
    pending: seq<Msg>,      // requests sent that the daemon answers, less one per reply read
    exited: bool)           // nrm_client_send_exit has been called

  datatype State = State(
    clients: seq<Client>,
    inbox: seq<Packet>,     // pipe, daemon's broker to daemon
    outbox: seq<Packet>,    // pipe, daemon to its broker
    table: Table,
    running: bool,
    sent: seq<Packet>)      // history: everything the daemon has sent

  const FRESH_CLIENT := Client(None, [], [], [], [], [], [], [], [], false)

  function Init(n: nat): State {
    State(seq(n, _ => FRESH_CLIENT), [], [], EMPTY_TABLE, true, [])
  }

  datatype Action =
    | Call(c: Peer, req: Msg)   // a client function sends its request
    | BrokerUp(c: Peer)         // client broker: pipe to socket
    | DaemonIn(c: Peer)         // daemon broker: socket to pipe
    | Handle(env: Env)          // daemon: one message
    | Timer(outs: seq<Command>) // daemon: a control tick of its own
    | DaemonOut                 // daemon broker: pipe to socket
    | BrokerDown(c: Peer)       // client broker: socket to reply pipe or command callback
    | Return(c: Peer)           // the blocked caller reads its reply

  function CallFn(cl: Client, req: Msg): Client {
    if cl.waiting.Some? || req.Ack? then cl
    else
      var cl := cl.(toBroker := cl.toBroker + [req]);
      match req
      case Events(_) => cl
      case Exit => cl.(pending := cl.pending + [req], exited := true)
      case _ => cl.(pending := cl.pending + [req], waiting := Some(req))
  }

  /** nrm_client_broker_rpc_handler. */
  function BrokerDownFn(cl: Client): Client {
    if cl.down == [] then cl
    else
      var m := cl.down[0];
      var cl := cl.(down := cl.down[1..], seen := cl.seen + [m]);
      if IsReply(m) then cl.(replies := cl.replies + [m]) else cl.(commands := cl.commands + [m])
  }

  function ReturnFn(cl: Client): Client {
    if cl.waiting.None? || cl.replies == [] || cl.pending == [] then cl
    else cl.(waiting := None, replies := cl.replies[1..], read := cl.read + [cl.replies[0]], pending := cl.pending[1..])
  }

  function With(s: State, c: Peer, cl: Client): State
    requires c < |s.clients|
  {
    s.(clients := s.clients[c := cl])
  }

  function Send(s: State, ps: seq<Packet>): State {
    s.(outbox := s.outbox + ps, sent := s.sent + ps)
  }

  function HandleStep(s: State, env: Env): State {
    if !s.running || s.inbox == [] then s
    else
      var p := s.inbox[0];
      var h := HandleFn(s.table, p.peer, p.msg, env);
      var reply := if h.reply.Some? then [Packet(p.peer, h.reply.value)] else [];
      Send(s.(inbox := s.inbox[1..], table := h.table, running := !p.msg.Exit?), h.commands + reply)
  }

  function DaemonOutStep(s: State): State {
    if s.outbox == [] then s
    else Deliver(s.(outbox := s.outbox[1..]), s.outbox[0])
  }

  function Deliver(s: State, p: Packet): State {
    if p.peer < |s.clients| then With(s, p.peer, s.clients[p.peer].(down := s.clients[p.peer].down + [p.msg])) else s
  }

  function Step(s: State, a: Action): State {
    match a
    case Call(c, req) => if c < |s.clients| then With(s, c, CallFn(s.clients[c], req)) else s
    case BrokerUp(c) =>
      if c < |s.clients| && s.clients[c].toBroker != [] then
        var cl := s.clients[c];
        With(s, c, cl.(toBroker := cl.toBroker[1..], up := cl.up + [cl.toBroker[0]]))
      else s
    case DaemonIn(c) =>
      if c < |s.clients| && s.clients[c].up != [] then
        var cl := s.clients[c];
        With(s, c, cl.(up := cl.up[1..])).(inbox := s.inbox + [Packet(c, cl.up[0])])
      else s
    case Handle(env) => HandleStep(s, env)
    case Timer(outs) =>
      if !s.running then s
      else var (t, ps) := ActuateAll(s.table, outs); Send(s.(table := t), ps)
    case DaemonOut => DaemonOutStep(s)
    case BrokerDown(c) => if c < |s.clients| then With(s, c, BrokerDownFn(s.clients[c])) else s
    case Return(c) => if c < |s.clients| then With(s, c, ReturnFn(s.clients[c])) else s
  }

  function Run(s: State, actions: seq<Action>): State
    decreases |actions|
  {
    if actions == [] then s else Run(Step(s, actions[0]), actions[1..])
  }

  // ---------- what a client's links hold ----------

  function Need(s: seq<Msg>): seq<Msg> {
    if s == [] then [] else (if NeedsReply(s[0]) then [s[0]] else []) + Need(s[1..])
  }

  function Rep(s: seq<Msg>): seq<Msg> {
    if s == [] then [] else (if IsReply(s[0]) then [s[0]] else []) + Rep(s[1..])
  }

  function Cmds(s: seq<Msg>): seq<Msg> {
    if s == [] then [] else (if IsReply(s[0]) then [] else [s[0]]) + Cmds(s[1..])
  }

  /** The messages of one peer, in order. */
  function For(ps: seq<Packet>, c: Peer): seq<Msg> {
    if ps == [] then [] else (if ps[0].peer == c then [ps[0].msg] else []) + For(ps[1..], c)
  }

  lemma {:induction false} NeedConcat(a: seq<Msg>, b: seq<Msg>)
    ensures Need(a + b) == Need(a) + Need(b)
  {
    if a == [] { assert a + b == b; } else {
      assert (a + b)[1..] == a[1..] + b;
      NeedConcat(a[1..], b);
      Reassoc(if NeedsReply(a[0]) then [a[0]] else [], Need(a[1..]), Need(b));
    }
  }

  lemma {:induction false} RepConcat(a: seq<Msg>, b: seq<Msg>)
    ensures Rep(a + b) == Rep(a) + Rep(b)
  {
    if a == [] { assert a + b == b; } else {
      assert (a + b)[1..] == a[1..] + b;
      RepConcat(a[1..], b);
      Reassoc(if IsReply(a[0]) then [a[0]] else [], Rep(a[1..]), Rep(b));
    }
  }

  lemma {:induction false} CmdsConcat(a: seq<Msg>, b: seq<Msg>)
    ensures Cmds(a + b) == Cmds(a) + Cmds(b)
  {
    if a == [] { assert a + b == b; } else {
      assert (a + b)[1..] == a[1..] + b;
      CmdsConcat(a[1..], b);
      Reassoc(if IsReply(a[0]) then [] else [a[0]], Cmds(a[1..]), Cmds(b));
    }
  }

  lemma {:induction false} ForConcat(a: seq<Packet>, b: seq<Packet>, c: Peer)
    ensures For(a + b, c) == For(a, c) + For(b, c)
  {
    if a == [] { assert a + b == b; } else {
      assert (a + b)[1..] == a[1..] + b;
      ForConcat(a[1..], b, c);
      Reassoc(if a[0].peer == c then [a[0].msg] else [], For(a[1..], c), For(b, c));
    }
  }

  lemma NeedCons(m: Msg, s: seq<Msg>)
    ensures Need([m] + s) == (if NeedsReply(m) then [m] else []) + Need(s)
  {
    assert ([m] + s)[1..] == s;
  }

  lemma RepCons(m: Msg, s: seq<Msg>)
    ensures Rep([m] + s) == (if IsReply(m) then [m] else []) + Rep(s)
    ensures Cmds([m] + s) == (if IsReply(m) then [] else [m]) + Cmds(s)
  {
    assert ([m] + s)[1..] == s;
  }

  lemma ForCons(ps: seq<Packet>, c: Peer)
    requires ps != []
    ensures For(ps, c) == if ps[0].peer == c then [ps[0].msg] + For(ps[1..], c) else For(ps[1..], c)
  {
  }

  lemma {:induction false} CommandsHaveNoReplies(ps: seq<Packet>, c: Peer)
    requires AllCommands(ps)
    ensures Rep(For(ps, c)) == []
  {
    if ps != [] {
      CommandsHaveNoReplies(ps[1..], c);
      ForCons(ps, c);
      RepCons(ps[0].msg, For(ps[1..], c));
    }
  }

  /** What a client has sent and the daemon has not taken yet, oldest first. */
  function Upward(s: State, c: Peer): seq<Msg>
    requires c < |s.clients|
  {
    For(s.inbox, c) + (s.clients[c].up + s.clients[c].toBroker)
  }

  /** What the daemon has sent a client and its broker has not taken yet, oldest first. */
  function Downward(s: State, c: Peer): seq<Msg>
    requires c < |s.clients|
  {
    s.clients[c].down + For(s.outbox, c)
  }

  /** Everything about one client that the invariant speaks of. */
  datatype View = View(
    waiting: Option<Msg>, exited: bool, pending: seq<Msg>, asking: seq<Msg>,
    replies: seq<Msg>, read: seq<Msg>, commands: seq<Msg>, seen: seq<Msg>,
    downward: seq<Msg>, sent: seq<Msg>, running: bool)

  function ViewOf(s: State, c: Peer): View
    requires c < |s.clients|
  {
    var cl := s.clients[c];
    View(cl.waiting, cl.exited, cl.pending, Need(Upward(s, c)), cl.replies, cl.read, cl.commands, cl.seen,
         Downward(s, c), For(s.sent, c), s.running)
  }

  /** The replies on their way to the caller, oldest first. */
  function Replying(v: View): seq<Msg> {
    v.replies + Rep(v.downward)
  }

  /** The oldest pending requests have their replies in flight, in order; the others are in flight
      themselves. */
  ghost predicate Matched(pending: seq<Msg>, replying: seq<Msg>, asking: seq<Msg>) {
    && |pending| == |replying| + |asking|
    && pending[|replying|..] == asking
    && forall i :: 0 <= i < |replying| ==> Answers(pending[i], replying[i])
  }

  /** The caller of a client that never asked the daemon to exit has at most one request out; after an
      exit at most its acknowledgement comes back. */
  ghost predicate CallerOk(v: View) {
    if !v.exited then v.pending == if v.waiting.Some? then [v.waiting.value] else []
    else if v.running then Replying(v) == [] && v.pending != [] && v.pending[0].Exit?
    else Replying(v) == [] || (Replying(v) == [Ack] && v.pending != [] && v.pending[0].Exit?)
  }

  /** What the daemon sent a client is what its broker has seen, then what is on the way; replies and
      commands were told apart. */
  ghost predicate LinkOk(v: View) {
    && v.sent == v.seen + v.downward
    && v.commands == Cmds(v.seen)
    && v.read + v.replies == Rep(v.seen)
  }

  ghost predicate ViewOk(v: View) {
    Matched(v.pending, Replying(v), v.asking) && CallerOk(v) && LinkOk(v)
  }

  ghost predicate Inv(s: State) {
    forall c :: 0 <= c < |s.clients| ==> ViewOk(ViewOf(s, c))
  }

  // ---------- how each event changes a view, and that it keeps it good ----------

  function Asked(v: View, req: Msg): View {
    if v.waiting.Some? || req.Ack? || req.Events? then v
    else v.(asking := v.asking + [req], pending := v.pending + [req],
            waiting := if req.Exit? then None else Some(req), exited := v.exited || req.Exit?)
  }

  lemma AskedOk(v: View, req: Msg)
    requires ViewOk(v)
    ensures ViewOk(Asked(v, req))
  {
    assert (v.pending + [req])[|Replying(v)|..] == v.pending[|Replying(v)|..] + [req];
  }

  /** The broker takes the next message off the socket. */
  function Taken(v: View): View {
    if v.downward == [] then v
    else
      var m := v.downward[0];
      var v := v.(downward := v.downward[1..], seen := v.seen + [m]);
      if IsReply(m) then v.(replies := v.replies + [m]) else v.(commands := v.commands + [m])
  }

  lemma TakenOk(v: View)
    requires ViewOk(v)
    ensures ViewOk(Taken(v))
  {
    if v.downward != [] {
      TakenReplying(v);
      TakenLink(v);
    }
  }

  lemma TakenReplying(v: View)
    requires v.downward != []
    ensures Replying(Taken(v)) == Replying(v)
  {
    var m := v.downward[0];
    RepCons(m, v.downward[1..]);
    assert [m] + v.downward[1..] == v.downward;
    Reassoc(v.replies, [m], Rep(v.downward[1..]));
    NilLeft(Rep(v.downward[1..]));
  }

  lemma TakenLink(v: View)
    requires v.downward != [] && LinkOk(v)
    ensures LinkOk(Taken(v))
  {
    var m := v.downward[0];
    RepConcat(v.seen, [m]);
    CmdsConcat(v.seen, [m]);
    RepCons(m, []);
    NilRight([m]);
    NilRight(Rep(v.seen));
    NilRight(Cmds(v.seen));
    Reassoc(v.read, v.replies, [m]);
    Reassoc(v.seen, [m], v.downward[1..]);
    assert [m] + v.downward[1..] == v.downward;
  }

  function Read(v: View): View {
    if v.waiting.None? || v.replies == [] || v.pending == [] then v
    else v.(waiting := None, replies := v.replies[1..], read := v.read + [v.replies[0]], pending := v.pending[1..])
  }

  lemma MatchedRest(pending: seq<Msg>, replying: seq<Msg>, asking: seq<Msg>)
    requires Matched(pending, replying, asking) && replying != []
    ensures Matched(pending[1..], replying[1..], asking)
  {
    assert pending[1..][|replying| - 1..] == pending[|replying|..];
  }

  lemma ReadReplying(v: View)
    requires v.waiting.Some? && v.replies != [] && v.pending != []
    ensures Replying(Read(v)) == Replying(v)[1..]
  {
    assert (v.replies + Rep(v.downward))[1..] == v.replies[1..] + Rep(v.downward);
  }

  lemma ReadLink(v: View)
    requires LinkOk(v)
    ensures LinkOk(Read(v))
  {
    if v.replies != [] {
      assert [v.replies[0]] + v.replies[1..] == v.replies;
      Reassoc(v.read, [v.replies[0]], v.replies[1..]);
    }
  }

  lemma ReadOk(v: View)
    requires ViewOk(v)
    ensures ViewOk(Read(v))
  {
    ReadLink(v);
    if v.waiting.Some? && v.replies != [] && v.pending != [] {
      ReadReplying(v);
      MatchedRest(v.pending, Replying(v), v.asking);
    }
  }

  /** The daemon sends commands to the client. */
  function Commanded(v: View, cmds: seq<Msg>): View {
    v.(downward := v.downward + cmds, sent := v.sent + cmds)
  }

  lemma CommandedOk(v: View, cmds: seq<Msg>)
    requires ViewOk(v) && Rep(cmds) == []
    ensures ViewOk(Commanded(v, cmds)) && Replying(Commanded(v, cmds)) == Replying(v)
  {
    RepConcat(v.downward, cmds);
    NilRight(Rep(v.downward));
    Reassoc(v.seen, v.downward, cmds);
  }

  /** The daemon takes the client's oldest request and, after commands if any, answers it. */
  function Answered(v: View, rep: Msg): View
    requires v.asking != []
  {
    v.(asking := v.asking[1..], downward := v.downward + [rep], sent := v.sent + [rep],
       running := v.running && !v.asking[0].Exit?)
  }

  lemma AnsweredOk(v: View, rep: Msg)
    requires ViewOk(v) && v.asking != [] && v.running && IsReply(rep) && Answers(v.asking[0], rep)
    ensures ViewOk(Answered(v, rep))
  {
    var r := Replying(v);
    RepConcat(v.downward, [rep]);
    RepCons(rep, []);
    NilRight([rep]);
    Reassoc(v.replies, Rep(v.downward), [rep]);
    Reassoc(v.seen, v.downward, [rep]);
    assert Replying(Answered(v, rep)) == r + [rep];
    assert v.pending[|r|..][0] == v.asking[0];
    assert v.pending[|r| + 1..] == v.pending[|r|..][1..];
  }

  /** Another client's exit stops the daemon. */
  lemma StoppedOk(v: View)
    requires ViewOk(v)
    ensures ViewOk(v.(running := false))
  {
  }

  lemma NilRight<T>(a: seq<T>)
    ensures a + [] == a
  {
  }

  lemma NilLeft<T>(a: seq<T>)
    ensures [] + a == a
  {
  }

  lemma Reassoc<T>(a: seq<T>, b: seq<T>, c: seq<T>)
    ensures a + (b + c) == (a + b) + c
  {
  }

  lemma Shift<T>(a: seq<T>, b: seq<T>)
    requires b != []
    ensures (a + [b[0]]) + b[1..] == a + b
  {
  }

  // ---------- how each action changes a view ----------

  lemma CallView(s: State, x: Peer, req: Msg, c: Peer)
    requires c < |s.clients|
    ensures ViewOf(Step(s, Call(x, req)), c) == if x == c then Asked(ViewOf(s, c), req) else ViewOf(s, c)
  {
    if x == c {
      CallOwnView(s, req, c);
    } else {
      assert x < |s.clients| ==> Step(s, Call(x, req)) == With(s, x, CallFn(s.clients[x], req));
    }
  }

  lemma CallOwnView(s: State, req: Msg, c: Peer)
    requires c < |s.clients|
    ensures ViewOf(Step(s, Call(c, req)), c) == Asked(ViewOf(s, c), req)
  {
    var s', cl := Step(s, Call(c, req)), s.clients[c];
    assert s' == With(s, c, CallFn(cl, req));
    if cl.waiting.Some? || req.Ack? {
      assert s' == s;
    } else {
      SentUp(s.inbox, cl, req, c);
      assert Upward(s', c) == For(s.inbox, c) + (cl.up + (cl.toBroker + [req]));
      assert Downward(s', c) == Downward(s, c);
    }
  }

  /** A request joins the end of what is on its way up. */
  lemma SentUp(inbox: seq<Packet>, cl: Client, req: Msg, c: Peer)
    ensures var up := For(inbox, c) + (cl.up + cl.toBroker);
      Need(For(inbox, c) + (cl.up + (cl.toBroker + [req]))) == if NeedsReply(req) then Need(up) + [req] else Need(up)
  {
    Reassoc(cl.up, cl.toBroker, [req]);
    Reassoc(For(inbox, c), cl.up + cl.toBroker, [req]);
    NeedConcat(For(inbox, c) + (cl.up + cl.toBroker), [req]);
    NeedCons(req, []);
    NilRight([req]);
    NilRight(Need(For(inbox, c) + (cl.up + cl.toBroker)));
  }

  /** Moving a message along a link changes neither what is on its way up nor what is on its way down. */
  lemma RelayView(s: State, a: Action, c: Peer)
    requires (a.BrokerUp? || a.DaemonIn? || a.DaemonOut?) && c < |s.clients|
    ensures var s' := Step(s, a); |s'.clients| == |s.clients| && ViewOf(s', c) == ViewOf(s, c)
  {
    match a
    case BrokerUp(x) => BrokerUpLines(s, x, c);
    case DaemonIn(x) => DaemonInLines(s, x, c);
    case DaemonOut => DaemonOutLines(s, c);
  }

  lemma BrokerUpLines(s: State, x: Peer, c: Peer)
    requires c < |s.clients|
    ensures Upward(Step(s, BrokerUp(x)), c) == Upward(s, c)
  {
    var cl := s.clients[c];
    if x == c && cl.toBroker != [] { Shift(cl.up, cl.toBroker); }
  }

  lemma DaemonInLines(s: State, x: Peer, c: Peer)
    requires c < |s.clients|
    ensures Upward(Step(s, DaemonIn(x)), c) == Upward(s, c)
  {
    var s', cl := Step(s, DaemonIn(x)), s.clients[c];
    if x < |s.clients| && s.clients[x].up != [] {
      var p := Packet(x, s.clients[x].up[0]);
      ForConcat(s.inbox, [p], c);
      ForCons([p], c);
      if x == c {
        Shift(For(s.inbox, c), cl.up);
        Reassoc(For(s.inbox, c), cl.up, cl.toBroker);
        Reassoc(For(s'.inbox, c), cl.up[1..], cl.toBroker);
      } else {
        NilRight(For(s.inbox, c));
      }
    }
  }

  lemma DaemonOutLines(s: State, c: Peer)
    requires c < |s.clients|
    ensures Downward(DaemonOutStep(s), c) == Downward(s, c)
  {
    if s.outbox != [] {
      ForCons(s.outbox, c);
      if s.outbox[0].peer == c { Shift(s.clients[c].down, For(s.outbox, c)); }
    }
  }

  lemma BrokerDownView(s: State, x: Peer, c: Peer)
    requires c < |s.clients| && (x == c ==> s.clients[c].down != [])
    ensures ViewOf(Step(s, BrokerDown(x)), c) == if x == c then Taken(ViewOf(s, c)) else ViewOf(s, c)
  {
    var cl := s.clients[c];
    if x == c {
      assert Downward(s, c)[0] == cl.down[0];
      assert Downward(s, c)[1..] == cl.down[1..] + For(s.outbox, c);
    }
  }

  lemma ReturnView(s: State, x: Peer, c: Peer)
    requires c < |s.clients|
    ensures ViewOf(Step(s, Return(x)), c) == if x == c then Read(ViewOf(s, c)) else ViewOf(s, c)
  {
  }

  lemma SendView(s: State, ps: seq<Packet>, c: Peer)
    requires c < |s.clients|
    ensures ViewOf(Send(s, ps), c) == Commanded(ViewOf(s, c), For(ps, c))
  {
    ForConcat(s.outbox, ps, c);
    ForConcat(s.sent, ps, c);
    Reassoc(s.clients[c].down, For(s.outbox, c), For(ps, c));
  }

  /** The daemon takes the head of its inbox. */
  lemma TakeView(s: State, c: Peer)
    requires s.inbox != [] && c < |s.clients|
    ensures var p := s.inbox[0]; var s' := s.(inbox := s.inbox[1..]);
      Need(Upward(s, c)) == (if p.peer == c && NeedsReply(p.msg) then [p.msg] else []) + Need(Upward(s', c))
  {
    var p, rest := s.inbox[0], s.clients[c].up + s.clients[c].toBroker;
    ForCons(s.inbox, c);
    if p.peer == c {
      Reassoc([p.msg], For(s.inbox[1..], c), rest);
      NeedCons(p.msg, For(s.inbox[1..], c) + rest);
    } else {
      NilLeft(Need(Upward(s, c)));
    }
  }

  lemma CommandedTwice(v: View, cmds: seq<Msg>, more: seq<Msg>)
    ensures Commanded(v, cmds + more) == Commanded(Commanded(v, cmds), more)
  {
    Reassoc(v.downward, cmds, more);
    Reassoc(v.sent, cmds, more);
  }

  lemma CommandedNone(v: View)
    ensures Commanded(v, []) == v
  {
    NilRight(v.downward);
    NilRight(v.sent);
  }

  lemma ForOne(p: Packet, c: Peer)
    ensures For([p], c) == if p.peer == c then [p.msg] else []
  {
    ForCons([p], c);
  }

  /** A Handle step as one client sees it: some of its requests taken, then commands, then the answer if any. */
  lemma HandleParts(s: State, env: Env, c: Peer, asking: seq<Msg>)
    requires s.running && s.inbox != [] && c < |s.clients| && asking == Need(Upward(s.(inbox := s.inbox[1..]), c))
    ensures var p := s.inbox[0]; var h := HandleFn(s.table, p.peer, p.msg, env);
      var v := Commanded(ViewOf(s, c), For(h.commands, c)).(asking := asking, running := !p.msg.Exit?);
      ViewOf(HandleStep(s, env), c) == if p.peer == c && h.reply.Some? then Commanded(v, [h.reply.value]) else v
  {
    var p := s.inbox[0];
    var h := HandleFn(s.table, p.peer, p.msg, env);
    var reply := if h.reply.Some? then [Packet(p.peer, h.reply.value)] else [];
    var s1 := s.(inbox := s.inbox[1..], table := h.table, running := !p.msg.Exit?);
    assert ViewOf(s1, c) == ViewOf(s, c).(asking := asking, running := !p.msg.Exit?);
    SendView(s1, h.commands + reply, c);
    ForConcat(h.commands, reply, c);
    CommandedTwice(ViewOf(s1, c), For(h.commands, c), For(reply, c));
    if h.reply.Some? { ForOne(Packet(p.peer, h.reply.value), c); }
    CommandedNone(Commanded(ViewOf(s1, c), For(h.commands, c)));
  }

  /** A Handle step, seen from one client: commands, then the answer if the request was its own. */
  lemma HandleView(s: State, env: Env, c: Peer)
    requires s.running && s.inbox != [] && c < |s.clients|
    ensures var p := s.inbox[0]; var h := HandleFn(s.table, p.peer, p.msg, env);
      var v := Commanded(ViewOf(s, c), For(h.commands, c)); var v' := ViewOf(HandleStep(s, env), c);
      if p.peer == c && h.reply.Some? then v.asking != [] && v.asking[0] == p.msg && v' == Answered(v, h.reply.value)
      else v' == v.(running := !p.msg.Exit?)
  {
    var p := s.inbox[0];
    var asking := Need(Upward(s.(inbox := s.inbox[1..]), c));
    HandleReplies(s.table, p.peer, p.msg, env);
    TakeView(s, c);
    HandleParts(s, env, c, asking);
    NilLeft(asking);
  }

  // ---------- every run keeps the invariant ----------

  lemma InvInit(n: nat)
    ensures Inv(Init(n))
  {
  }

  lemma HandleKeeps(s: State, env: Env, c: Peer)
    requires Inv(s) && s.running && s.inbox != [] && c < |s.clients|
    ensures ViewOk(ViewOf(HandleStep(s, env), c))
  {
    var p := s.inbox[0];
    var h := HandleFn(s.table, p.peer, p.msg, env);
    HandleReplies(s.table, p.peer, p.msg, env);
    CommandsHaveNoReplies(h.commands, c);
    HandleView(s, env, c);
    var v := Commanded(ViewOf(s, c), For(h.commands, c));
    CommandedOk(ViewOf(s, c), For(h.commands, c));
    if p.peer == c && h.reply.Some? {
      AnsweredOk(v, h.reply.value);
    } else {
      StoppedOk(v);
    }
  }

  lemma TimerKeeps(s: State, outs: seq<Command>, c: Peer)
    requires c < |s.clients| && ViewOk(ViewOf(s, c)) && s.running
    ensures ViewOk(ViewOf(Step(s, Timer(outs)), c))
  {
    var (t, ps) := ActuateAll(s.table, outs);
    ActuateAllSendsCommands(s.table, outs);
    CommandsHaveNoReplies(ps, c);
    assert Step(s, Timer(outs)) == Send(s.(table := t), ps);
    SentOnlyView(s, t, ps, c);
    CommandedOk(ViewOf(s, c), For(ps, c));
  }

  lemma SentOnlyView(s: State, t: Table, ps: seq<Packet>, c: Peer)
    requires c < |s.clients|
    ensures ViewOf(Send(s.(table := t), ps), c) == Commanded(ViewOf(s, c), For(ps, c))
  {
    var s1 := s.(table := t);
    assert Upward(s1, c) == Upward(s, c) && Downward(s1, c) == Downward(s, c);
    SendView(s1, ps, c);
  }

  lemma CallKeeps(s: State, x: Peer, req: Msg, c: Peer)
    requires c < |s.clients| && ViewOk(ViewOf(s, c))
    ensures ViewOk(ViewOf(Step(s, Call(x, req)), c))
  {
    CallView(s, x, req, c);
    AskedOk(ViewOf(s, c), req);
  }

  lemma BrokerDownKeeps(s: State, x: Peer, c: Peer)
    requires c < |s.clients| && ViewOk(ViewOf(s, c))
    ensures ViewOk(ViewOf(Step(s, BrokerDown(x)), c))
  {
    if x == c && s.clients[c].down == [] {
      assert Step(s, BrokerDown(x)) == s;
    } else {
      BrokerDownView(s, x, c);
      TakenOk(ViewOf(s, c));
    }
  }

  lemma ReturnKeeps(s: State, x: Peer, c: Peer)
    requires c < |s.clients| && ViewOk(ViewOf(s, c))
    ensures ViewOk(ViewOf(Step(s, Return(x)), c))
  {
    ReturnView(s, x, c);
    ReadOk(ViewOf(s, c));
  }

  lemma StepKeepsClients(s: State, a: Action)
    ensures |Step(s, a).clients| == |s.clients|
  {
  }

  lemma StepKeeps(s: State, a: Action, c: Peer)
    requires Inv(s) && c < |s.clients|
    ensures |Step(s, a).clients| == |s.clients| && ViewOk(ViewOf(Step(s, a), c))
  {
    StepKeepsClients(s, a);
    assert ViewOk(ViewOf(s, c));
    match a
    case Call(x, req) => CallKeeps(s, x, req, c);
    case BrokerDown(x) => BrokerDownKeeps(s, x, c);
    case Return(x) => ReturnKeeps(s, x, c);
    case Handle(env) => if s.running && s.inbox != [] { HandleKeeps(s, env, c); }
    case Timer(outs) => if s.running { TimerKeeps(s, outs, c); }
    case _ => RelayView(s, a, c);
  }

  lemma {:induction false} InvRun(s: State, actions: seq<Action>)
    requires Inv(s)
    ensures Inv(Run(s, actions)) && |Run(s, actions).clients| == |s.clients|
    decreases |actions|
  {
    if actions != [] {
      var s' := Step(s, actions[0]);
      assert |s'.clients| == |s.clients|;
      forall c | 0 <= c < |s'.clients|
        ensures ViewOk(ViewOf(s', c))
      {
        StepKeeps(s, actions[0], c);
      }
      InvRun(s', actions[1..]);
    }
  }
}
