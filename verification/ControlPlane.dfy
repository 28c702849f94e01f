/**
 * The control plane's end of the node channel (app/server/services/media-node-ws.ts): the registry
 * of connections together with the RPCs to nodes, each of which settles by its response, by its
 * timer, or by the close of its connection.
 */
module ControlPlane {
  import opened Bytes
  import R = Registry

  type Peer = R.Peer
  type Node = R.Node
  type Seq = nat

  datatype Body = Value(text: string) | ErrorBody(message: string) | Missing

  datatype Settlement = Resolved(body: Body) | Refused(message: string) | TimedOut | ConnectionClosed

  /** An RPC: the connection it went out on, and every settlement of its promise. */
  datatype Call = Call(peer: Peer, settlements: seq<Settlement>)

  /** `pending` belongs to the connections, closed ones included; `timers` holds the timers still running. */
  datatype Rpc = Rpc(pending: map<Peer, set<Seq>>, calls: map<Seq, Call>, timers: set<Seq>, nextSeq: Seq)

  datatype State = State(reg: R.State, rpc: Rpc)

  const IDLE := State(R.NOBODY, Rpc(map[], map[], {}, 1))

  function Answered(body: Body): Settlement {
    match body
    case Value(_) => Resolved(body)
    case ErrorBody(message) => Refused(message)
    case Missing => Resolved(ErrorBody("empty response"))
  }

  function SettleAll(calls: map<Seq, Call>, seqs: set<Seq>, how: Settlement): map<Seq, Call> {
    map q | q in calls :: if q in seqs then calls[q].(settlements := calls[q].settlements + [how]) else calls[q]
  }

  /** One pending call of a connection settles. */
  function Settle(r: Rpc, p: Peer, q: Seq, how: Settlement): Rpc
    requires p in r.pending
  {
    r.(pending := r.pending[p := r.pending[p] - {q}], calls := SettleAll(r.calls, {q}, how), timers := r.timers - {q})
  }

  datatype Event =
    | Reg(e: R.Event)
    | CallNode(n: Node)
    | Response(p: Peer, q: Seq, body: Body)
    | Timeout(q: Seq)

  function NextRpc(s: State, e: Event): Rpc {
    var r := s.rpc;
    match e
    case Reg(Opened(p)) => r.(pending := r.pending[p := {}])
    case Reg(Closed(p)) =>
      if p in s.reg.conns && p in r.pending then
        r.(pending := r.pending[p := {}], calls := SettleAll(r.calls, r.pending[p], ConnectionClosed),
           timers := r.timers - r.pending[p])
      else r
    case Reg(_) => r
    case CallNode(n) =>
      if n in s.reg.byNode && s.reg.byNode[n] in r.pending then
        var p := s.reg.byNode[n];
        Rpc(r.pending[p := r.pending[p] + {r.nextSeq}], r.calls[r.nextSeq := Call(p, [])],
            r.timers + {r.nextSeq}, r.nextSeq + 1)
      else r
    case Response(p, q, body) =>
      if p in s.reg.conns && p in r.pending && q in r.pending[p] then Settle(r, p, q, Answered(body)) else r
    case Timeout(q) =>
      if q in r.calls && r.calls[q].peer in r.pending then Settle(r, r.calls[q].peer, q, TimedOut) else r
  }

  function Next(s: State, e: Event): State {
    State(if e.Reg? then R.Next(s.reg, e.e) else s.reg, NextRpc(s, e))
  }

  predicate Enabled(s: State, e: Event) {
    match e
    case Reg(e) => R.Enabled(s.reg, e)
    case Timeout(q) => q in s.rpc.timers
    case _ => true
  }

  predicate Named(e: Event) {
    e.Reg? ==> R.Named(e.e)
  }

  // ---- invariant ----

  /** Unsettled, pending on its own connection, and timed: all three or none. */
  ghost predicate CallSane(r: Rpc, q: Seq) {
    q in r.calls ==>
      var c := r.calls[q];
      && q < r.nextSeq && c.peer in r.pending && |c.settlements| <= 1
      && (c.settlements == [] <==> q in r.pending[c.peer])
      && (c.settlements == [] <==> q in r.timers)
  }

  ghost predicate ConnSane(s: State, p: Peer) {
    && (p in s.reg.ids <==> p in s.rpc.pending)
    && (p in s.rpc.pending ==> forall q | q in s.rpc.pending[p] :: q in s.rpc.calls && s.rpc.calls[q].peer == p)
    && (p in s.rpc.pending && p !in s.reg.conns ==> s.rpc.pending[p] == {})
  }

  ghost predicate Sane(s: State) {
    && R.Coherent(s.reg)
    && s.rpc.timers <= s.rpc.calls.Keys
    && (forall q :: CallSane(s.rpc, q))
    && (forall p :: ConnSane(s, p))
  }

  lemma ListedIsOpen(s: State, n: Node)
    requires Sane(s) && n in s.reg.byNode
    ensures var p := s.reg.byNode[n]; p in s.reg.conns && p in s.rpc.pending
  {
    var p := s.reg.byNode[n];
    assert R.NodeCoherent(s.reg, n) && ConnSane(s, p);
  }

  lemma OpenKeeps(s: State, p: Peer)
    requires Sane(s) && p !in s.reg.ids
    ensures Sane(Next(s, Reg(R.Opened(p))))
  {
    var s' := Next(s, Reg(R.Opened(p)));
    R.OpenKeeps(s.reg, p);
    assert ConnSane(s, p);
    forall q ensures CallSane(s'.rpc, q) { assert CallSane(s.rpc, q); }
    forall k ensures ConnSane(s', k) { assert ConnSane(s, k); }
  }

  lemma CloseKeeps(s: State, p: Peer)
    requires Sane(s)
    ensures Sane(Next(s, Reg(R.Closed(p))))
  {
    var s' := Next(s, Reg(R.Closed(p)));
    R.CloseKeeps(s.reg, p);
    assert ConnSane(s, p) && R.PeerCoherent(s.reg, p);
    forall q ensures CallSane(s'.rpc, q) { assert CallSane(s.rpc, q); }
    forall k ensures ConnSane(s', k) { assert ConnSane(s, k); }
  }

  lemma OtherRegKeeps(s: State, e: R.Event)
    requires Sane(s) && R.Enabled(s.reg, e) && R.Named(e) && (e.Greeted? || e.Disconnected?)
    ensures Sane(Next(s, Reg(e)))
  {
    var s' := Next(s, Reg(e));
    R.NextKeeps(s.reg, e);
    assert ConnSane(s, e.p) && R.PeerCoherent(s.reg, e.p);
    forall k ensures ConnSane(s', k) { assert ConnSane(s, k); }
  }

  lemma CallKeeps(s: State, n: Node)
    requires Sane(s)
    ensures Sane(Next(s, CallNode(n)))
  {
    var s' := Next(s, CallNode(n));
    if n in s.reg.byNode {
      ListedIsOpen(s, n);
    }
    assert CallSane(s.rpc, s.rpc.nextSeq);
    forall q ensures CallSane(s'.rpc, q) { assert CallSane(s.rpc, q); }
    forall k ensures ConnSane(s', k) { assert ConnSane(s, k); }
  }

  lemma SettleKeeps(s: State, p: Peer, q: Seq, how: Settlement)
    requires Sane(s) && p in s.rpc.pending && q in s.rpc.pending[p]
    ensures Sane(s.(rpc := Settle(s.rpc, p, q, how)))
  {
    var s' := s.(rpc := Settle(s.rpc, p, q, how));
    assert ConnSane(s, p);
    forall k ensures CallSane(s'.rpc, k) { assert CallSane(s.rpc, k); }
    forall k ensures ConnSane(s', k) { assert ConnSane(s, k); }
  }

  lemma NextKeeps(s: State, e: Event)
    requires Sane(s) && Enabled(s, e) && Named(e)
    ensures Sane(Next(s, e))
  {
    match e {
      case Reg(Opened(p)) => OpenKeeps(s, p);
      case Reg(Closed(p)) => CloseKeeps(s, p);
      case Reg(r) => OtherRegKeeps(s, r);
      case CallNode(n) => CallKeeps(s, n);
      case Response(p, q, body) =>
        if p in s.reg.conns && p in s.rpc.pending && q in s.rpc.pending[p] {
          SettleKeeps(s, p, q, Answered(body));
        }
      case Timeout(q) =>
        assert CallSane(s.rpc, q);
        SettleKeeps(s, s.rpc.calls[q].peer, q, TimedOut);
    }
  }

  // ---- whole runs ----

  ghost predicate Reaches(s: State, run: seq<Event>, t: State)
    decreases |run|
  {
    if run == [] then t == s else Enabled(s, run[0]) && Reaches(Next(s, run[0]), run[1..], t)
  }

  lemma {:induction false} ReachesSane(s: State, run: seq<Event>, t: State)
    requires Sane(s) && Reaches(s, run, t) && forall e | e in run :: Named(e)
    ensures Sane(t)
    decreases |run|
  {
    if run != [] {
      assert run[0] in run;
      NextKeeps(s, run[0]);
      forall e | e in run[1..] ensures Named(e) { assert e in run; }
      ReachesSane(Next(s, run[0]), run[1..], t);
    }
  }

  lemma IdleIsSane()
    ensures Sane(IDLE)
  {
    assert forall n :: R.NodeCoherent(IDLE.reg, n);
    assert forall p :: R.PeerCoherent(IDLE.reg, p);
  }

  /**
   * In every run: no promise is settled twice, each connection's pending set holds exactly its
   * unsettled calls, and a closed connection has none.
   */
  lemma PendingIsUnsettled(run: seq<Event>, s: State, p: Peer)
    requires Reaches(IDLE, run, s) && (forall e | e in run :: Named(e)) && p in s.rpc.pending
    ensures forall q :: q in s.rpc.pending[p] <==>
                        q in s.rpc.calls && s.rpc.calls[q].peer == p && s.rpc.calls[q].settlements == []
    ensures forall q | q in s.rpc.calls :: |s.rpc.calls[q].settlements| <= 1
    ensures p !in s.reg.conns ==> s.rpc.pending[p] == {}
  {
    IdleIsSane();
    ReachesSane(IDLE, run, s);
    assert ConnSane(s, p);
    forall q
      ensures q in s.rpc.pending[p] <==>
              q in s.rpc.calls && s.rpc.calls[q].peer == p && s.rpc.calls[q].settlements == []
      ensures q in s.rpc.calls ==> |s.rpc.calls[q].settlements| <= 1
    {
      assert CallSane(s.rpc, q);
    }
  }

  // ---- what decides a call ----

  /** The settlement a single event brings to call q on connection p, if any. */
  function Decides(e: Event, q: Seq, p: Peer): Option<Settlement> {
    match e
    case Response(p', q', body) =>
      if p' != p || q' != q then None
      else Some(match body
                case Value(text) => Resolved(Value(text))
                case ErrorBody(message) => Refused(message)
                case Missing => Resolved(ErrorBody("empty response")))
    case Timeout(q') => if q' == q then Some(TimedOut) else None
    case Reg(Closed(p')) => if p' == p then Some(ConnectionClosed) else None
    case _ => None
  }

  function FirstDecision(run: seq<Event>, q: Seq, p: Peer): seq<Settlement> {
    if run == [] then []
    else if Decides(run[0], q, p).Some? then [Decides(run[0], q, p).value]
    else FirstDecision(run[1..], q, p)
  }

  lemma StepDecides(s: State, e: Event, q: Seq)
    requires Sane(s) && Enabled(s, e) && q in s.rpc.calls && s.rpc.calls[q].settlements == []
    ensures q in Next(s, e).rpc.calls
    ensures var c, d := s.rpc.calls[q], Decides(e, q, s.rpc.calls[q].peer);
            Next(s, e).rpc.calls[q] == if d.Some? then Call(c.peer, [d.value]) else c
  {
    assert CallSane(s.rpc, q);
    assert ConnSane(s, s.rpc.calls[q].peer);
    match e {
      case Reg(Closed(p)) => assert ConnSane(s, p);
      case Response(p, q', body) => assert ConnSane(s, p);
      case Timeout(q') => assert CallSane(s.rpc, q');
      case CallNode(_) => assert CallSane(s.rpc, s.rpc.nextSeq);
      case _ =>
    }
  }

  lemma StepKeepsSettled(s: State, e: Event, q: Seq)
    requires Sane(s) && Enabled(s, e) && q in s.rpc.calls && s.rpc.calls[q].settlements != []
    ensures q in Next(s, e).rpc.calls && Next(s, e).rpc.calls[q] == s.rpc.calls[q]
  {
    assert CallSane(s.rpc, q);
    match e {
      case Reg(Closed(p)) => assert ConnSane(s, p);
      case Response(p, q', body) => assert ConnSane(s, p);
      case Timeout(q') => assert CallSane(s.rpc, q');
      case CallNode(_) => assert CallSane(s.rpc, s.rpc.nextSeq);
      case _ =>
    }
  }

  lemma {:induction false} SettledStays(s: State, run: seq<Event>, t: State, q: Seq)
    requires Sane(s) && Reaches(s, run, t) && (forall e | e in run :: Named(e))
    requires q in s.rpc.calls && s.rpc.calls[q].settlements != []
    ensures q in t.rpc.calls && t.rpc.calls[q] == s.rpc.calls[q]
    decreases |run|
  {
    if run != [] {
      assert run[0] in run;
      NextKeeps(s, run[0]);
      StepKeepsSettled(s, run[0], q);
      forall e | e in run[1..] ensures Named(e) { assert e in run; }
      SettledStays(Next(s, run[0]), run[1..], t, q);
    }
  }

  /**
   * The fate of a call: whichever comes first of a response with its number on its own connection,
   * its timer, and the close of that connection decides it, and nothing else ever does.
   */
  lemma {:induction false} FirstDecisionWins(s: State, run: seq<Event>, t: State, q: Seq)
    requires Sane(s) && Reaches(s, run, t) && (forall e | e in run :: Named(e))
    requires q in s.rpc.calls && s.rpc.calls[q].settlements == []
    ensures q in t.rpc.calls
    ensures t.rpc.calls[q] == Call(s.rpc.calls[q].peer, FirstDecision(run, q, s.rpc.calls[q].peer))
    decreases |run|
  {
    if run != [] {
      var e := run[0];
      assert e in run;
      NextKeeps(s, e);
      StepDecides(s, e, q);
      forall x | x in run[1..] ensures Named(x) { assert x in run; }
      if Decides(e, q, s.rpc.calls[q].peer).Some? {
        SettledStays(Next(s, e), run[1..], t, q);
      } else {
        FirstDecisionWins(Next(s, e), run[1..], t, q);
      }
    }
  }

  // ---- the module's own state ----

  class Channel {
    var conns: set<Peer>
    var ids: map<Peer, Option<Node>>
    var byNode: map<Node, Peer>
    var nodes: map<Node, Peer>
    var socketToNode: map<Peer, Node>
    var deferred: set<Peer>
    ghost var greeted: map<Node, Peer>
    var pending: map<Peer, set<Seq>>
    var calls: map<Seq, Call>
    var timers: set<Seq>
    var nextSeq: Seq

    ghost function Abs(): State
      reads this
    {
      State(R.State(conns, ids, byNode, nodes, socketToNode, deferred, greeted), Rpc(pending, calls, timers, nextSeq))
    }

    constructor ()
      ensures Abs() == IDLE
    {
      conns, ids, byNode, nodes, socketToNode, deferred := {}, map[], map[], map[], map[], {};
      greeted := map[];
      pending, calls, timers, nextSeq := map[], map[], {}, 1;
    }

    method OnOpen(p: Peer)
      requires Sane(Abs()) && p !in ids
      modifies this
      ensures Abs() == Next(old(Abs()), Reg(R.Opened(p)))
    {
      ids, pending := ids[p := None], pending[p := {}];
      conns := conns + {p};
    }

    /** Registers the node; a new registration replaces an older connection's. */
    method Register(p: Peer, identifier: string, hostname: string) returns (n: Node)
      modifies this`nodes, this`socketToNode
      ensures n == R.NodeOf(identifier, hostname)
      ensures nodes == old(nodes)[n := p] && socketToNode == old(socketToNode)[p := n]
    {
      n := R.DeriveNodeId(if identifier != "" then identifier else hostname);
      nodes := nodes[n := p];
      socketToNode := socketToNode[p := n];
    }

    /** `superseded` is the connection asked to close in favour of this one. */
    method OnHello(p: Peer, identifier: string, hostname: string, tokenOk: bool) returns (superseded: Option<Peer>)
      requires Sane(Abs())
      modifies this
      ensures Abs() == Next(old(Abs()), Reg(R.Greeted(p, identifier, hostname, tokenOk)))
      ensures var n := R.NodeOf(identifier, hostname);
              superseded == if R.HelloAccepted(old(Abs()).reg, p, tokenOk) && n in old(byNode) && old(byNode)[n] != p
                            then Some(old(byNode)[n]) else None
    {
      superseded := None;
      assert ConnSane(Abs(), p) && R.PeerCoherent(Abs().reg, p);
      if p !in conns || (ids[p].Some? && ids[p].value != "") || !tokenOk { return; }
      var n := Register(p, identifier, hostname);
      ids := ids[p := Some(n)];
      if n in byNode && byNode[n] != p {
        superseded := Some(byNode[n]);
      }
      byNode := byNode[n := p];
      greeted := greeted[n := p];
    }

    method SettleCall(q: Seq, how: Settlement)
      requires q in calls
      modifies this`calls, this`timers
      ensures calls == old(calls)[q := old(calls)[q].(settlements := old(calls)[q].settlements + [how])]
      ensures timers == old(timers) - {q}
    {
      timers := timers - {q};
      calls := calls[q := calls[q].(settlements := calls[q].settlements + [how])];
    }

    method DropPending(p: Peer, how: Settlement)
      requires p in pending && pending[p] <= calls.Keys
      modifies this`calls, this`timers, this`pending
      ensures pending == old(pending)[p := {}] && timers == old(timers) - old(pending)[p]
      ensures calls == SettleAll(old(calls), old(pending)[p], how)
    {
      var todo := pending[p];
      while todo != {}
        invariant todo <= old(pending)[p] && pending == old(pending) && calls.Keys == old(calls).Keys
        invariant calls == SettleAll(old(calls), old(pending)[p] - todo, how)
        invariant timers == old(timers) - (old(pending)[p] - todo)
        decreases todo
      {
        var q :| q in todo;
        SettleCall(q, how);
        todo := todo - {q};
      }
      pending := pending[p := {}];
      assert old(pending)[p] - {} == old(pending)[p];
    }

    method OnClose(p: Peer)
      requires Sane(Abs())
      modifies this
      ensures Abs() == Next(old(Abs()), Reg(R.Closed(p)))
    {
      assert ConnSane(Abs(), p) && R.PeerCoherent(Abs().reg, p);
      if p !in conns { return; }
      conns := conns - {p};
      DropPending(p, ConnectionClosed);
      if ids[p].Some? && ids[p].value != "" {
        var n := ids[p].value;
        if n in byNode && byNode[n] == p {
          byNode := byNode - {n};
          deferred := deferred + {p};
        }
      }
    }

    /** The registry's own disconnect, which runs in a later turn than the close. */
    method Disconnect(p: Peer)
      requires Sane(Abs()) && p in deferred
      modifies this
      ensures Abs() == Next(old(Abs()), Reg(R.Disconnected(p)))
    {
      deferred := deferred - {p};
      if p !in socketToNode || socketToNode[p] == "" { return; }
      var n := socketToNode[p];
      socketToNode := socketToNode - {p};
      if n in nodes && nodes[n] == p {
        nodes := nodes - {n};
      }
    }

    /** None when the node is not connected. */
    method RpcCall(n: Node) returns (number: Option<Seq>)
      requires Sane(Abs())
      modifies this
      ensures Abs() == Next(old(Abs()), CallNode(n))
      ensures number == if n in old(byNode) then Some(old(nextSeq)) else None
    {
      if n !in byNode { return None; }
      ListedIsOpen(Abs(), n);
      var p, q := byNode[n], nextSeq;
      nextSeq := nextSeq + 1;
      calls, timers := calls[q := Call(p, [])], timers + {q};
      pending := pending[p := pending[p] + {q}];
      number := Some(q);
    }

    method OnRpcResponse(p: Peer, q: Seq, body: Body)
      requires Sane(Abs())
      modifies this
      ensures Abs() == Next(old(Abs()), Response(p, q, body))
    {
      assert ConnSane(Abs(), p) && R.PeerCoherent(Abs().reg, p);
      if p !in conns { return; }
      if q in pending[p] {
        pending := pending[p := pending[p] - {q}];
        SettleCall(q, Answered(body));
      }
    }

    method OnTimeout(q: Seq)
      requires Sane(Abs()) && q in timers
      modifies this
      ensures Abs() == Next(old(Abs()), Timeout(q))
    {
      assert CallSane(Abs().rpc, q);
      var p := calls[q].peer;
      pending := pending[p := pending[p] - {q}];
      SettleCall(q, TimedOut);
    }
  }
}
