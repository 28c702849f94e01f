/**
 * Connections of media nodes and the registry of nodes (app/server/services/media-node-ws.ts and
 * media-node-registry.ts). A connection is known by the id of its peer, which is never reused; the
 * registry hears of a close only in a later turn.
 */
module Registry {
  import opened Bytes

  type Peer = nat
  type Node = string

  // ---- node ids ----

  predicate LineEnd(c: char) {
    c == '\n' || c == '\r' || c == '\U{2028}' || c == '\U{2029}'
  }

  function SkipScheme(s: string): string {
    if |s| >= 7 && s[..7] == "http://" then s[7..]
    else if |s| >= 8 && s[..8] == "https://" then s[8..]
    else s
  }

  /** Drops a port or path: from the first ':' or '/' after which the line does not end. */
  function DropRest(s: string): string {
    if s == "" then ""
    else if (s[0] == ':' || s[0] == '/') && forall i | 0 <= i < |s| :: !LineEnd(s[i]) then ""
    else [s[0]] + DropRest(s[1..])
  }

  function IdChar(c: char): char {
    if 'A' <= c <= 'Z' then (c as int - 'A' as int + 'a' as int) as char
    else if 'a' <= c <= 'z' || '0' <= c <= '9' || c == '-' then c
    else '-'
  }

  function DeriveNodeId(origin: string): Node {
    var s := DropRest(SkipScheme(origin));
    seq(|s|, i requires 0 <= i < |s| => IdChar(s[i]))
  }

  /** The id is empty exactly when nothing but a port or a path follows the scheme. */
  lemma EmptyIdExactly(origin: string)
    ensures var s := SkipScheme(origin);
            DeriveNodeId(origin) == "" <==>
              s == "" || ((s[0] == ':' || s[0] == '/') && forall i | 0 <= i < |s| :: !LineEnd(s[i]))
  {
    var s := SkipScheme(origin);
    if s != "" && !((s[0] == ':' || s[0] == '/') && forall i | 0 <= i < |s| :: !LineEnd(s[i])) {
      assert |DropRest(s)| == 1 + |DropRest(s[1..])|;
    }
  }

  // ---- what an id looks like ----

  /** A character of a host name, and what becomes of it. */
  predicate HostChar(c: char) {
    c != ':' && c != '/' && !LineEnd(c)
  }

  predicate IdAlphabet(c: char) {
    'a' <= c <= 'z' || '0' <= c <= '9' || c == '-'
  }

  /** Lower case; what is neither letter, digit nor hyphen is a hyphen. */
  predicate BecomesInId(c: char, d: char) {
    && IdAlphabet(d)
    && (IdAlphabet(c) ==> d == c)
    && ('A' <= c <= 'Z' ==> d as int == c as int + 32)
    && (!IdAlphabet(c) && !('A' <= c <= 'Z') ==> d == '-')
  }

  lemma IdCharBecomes(c: char)
    ensures BecomesInId(c, IdChar(c))
  {
  }

  lemma {:induction false} DropRestKeepsHost(host: string, rest: string)
    requires forall i | 0 <= i < |host| :: HostChar(host[i])
    requires rest == "" || rest[0] == ':' || rest[0] == '/'
    requires forall i | 0 <= i < |rest| :: !LineEnd(rest[i])
    ensures DropRest(host + rest) == host
  {
    if host == "" {
      assert "" + rest == rest;
    } else {
      assert (host + rest)[0] == host[0] && (host + rest)[1..] == host[1..] + rest;
      DropRestKeepsHost(host[1..], rest);
      assert host == [host[0]] + host[1..];
    }
  }

  lemma SchemeIsSkipped(scheme: string, s: string)
    requires scheme == "http://" || scheme == "https://"
    ensures SkipScheme(scheme + s) == s
  {
    assert scheme == "http://" ==> (scheme + s)[..7] == "http://" && (scheme + s)[7..] == s;
    assert scheme == "https://" ==> (scheme + s)[..7] == "https:/" && (scheme + s)[..8] == "https://" && (scheme + s)[8..] == s;
    assert "https:/"[4] != "http://"[4];
  }

  /**
   * The id of a node is its host, character by character in lower case with hyphens for anything odd,
   * whatever scheme stands before it and whatever port or path behind.
   */
  lemma IdIsCleanHost(scheme: string, host: string, rest: string)
    requires scheme == "http://" || scheme == "https://"
    requires forall i | 0 <= i < |host| :: HostChar(host[i])
    requires rest == "" || rest[0] == ':' || rest[0] == '/'
    requires forall i | 0 <= i < |rest| :: !LineEnd(rest[i])
    ensures var id := DeriveNodeId(scheme + (host + rest));
            |id| == |host| && forall i | 0 <= i < |host| :: BecomesInId(host[i], id[i])
  {
    SchemeIsSkipped(scheme, host + rest);
    DropRestKeepsHost(host, rest);
    forall i | 0 <= i < |host| ensures BecomesInId(host[i], IdChar(host[i])) {
      IdCharBecomes(host[i]);
    }
  }

  // ---- state ----

  /**
   * `ids` holds the node id of every connection ever opened, None before its hello; `nodes` the
   * connection each registered node is on; `deferred` the disconnects that are still to run;
   * `greeted` is history: who said hello last as each node.
   */
  datatype State = State(
    conns: set<Peer>, ids: map<Peer, Option<Node>>, byNode: map<Node, Peer>,
    nodes: map<Node, Peer>, socketToNode: map<Peer, Node>,
    deferred: set<Peer>, greeted: map<Node, Peer>)

  const NOBODY := State({}, map[], map[], map[], map[], {}, map[])

  function Open(s: State, p: Peer): State {
    s.(conns := s.conns + {p}, ids := s.ids[p := None])
  }

  /** An absent or an empty id: both are false in the source. */
  predicate Unnamed(id: Option<Node>) {
    id.None? || id.value == ""
  }

  predicate HelloAccepted(s: State, p: Peer, tokenOk: bool) {
    p in s.conns && p in s.ids && Unnamed(s.ids[p]) && tokenOk
  }

  function Hello(s: State, p: Peer, n: Node, tokenOk: bool): State {
    if !HelloAccepted(s, p, tokenOk) then s
    else
      s.(ids := s.ids[p := Some(n)], byNode := s.byNode[n := p], nodes := s.nodes[n := p],
         socketToNode := s.socketToNode[p := n], greeted := s.greeted[n := p])
  }

  predicate Serving(s: State, p: Peer) {
    p in s.ids && !Unnamed(s.ids[p]) && s.ids[p].value in s.byNode && s.byNode[s.ids[p].value] == p
  }

  function Close(s: State, p: Peer): State {
    if p !in s.conns then s
    else if Serving(s, p) then
      s.(conns := s.conns - {p}, byNode := s.byNode - {s.ids[p].value}, deferred := s.deferred + {p})
    else s.(conns := s.conns - {p})
  }

  function Disconnect(s: State, p: Peer): State {
    var s' := s.(deferred := s.deferred - {p});
    if p !in s.socketToNode || s.socketToNode[p] == "" then s'
    else
      var n := s.socketToNode[p];
      s'.(socketToNode := s.socketToNode - {p},
          nodes := if n in s.nodes && s.nodes[n] == p then s.nodes - {n} else s.nodes)
  }

  datatype Event =
    | Opened(p: Peer)
    | Greeted(p: Peer, identifier: string, hostname: string, tokenOk: bool)
    | Closed(p: Peer)
    | Disconnected(p: Peer)

  predicate Enabled(s: State, e: Event) {
    match e
    case Opened(p) => p !in s.ids
    case Disconnected(p) => p in s.deferred
    case _ => true
  }

  function NodeOf(identifier: string, hostname: string): Node {
    DeriveNodeId(if identifier != "" then identifier else hostname)
  }

  function Next(s: State, e: Event): State {
    match e
    case Opened(p) => Open(s, p)
    case Greeted(p, identifier, hostname, tokenOk) => Hello(s, p, NodeOf(identifier, hostname), tokenOk)
    case Closed(p) => Close(s, p)
    case Disconnected(p) => Disconnect(s, p)
  }

  // ---- coherence ----

  /** The connection listed for a node is open, bears its name, and is the one registered. */
  ghost predicate Listed(s: State, n: Node) {
    && n in s.byNode
    && var c := s.byNode[n];
       && c in s.conns && c in s.ids && s.ids[c] == Some(n)
       && n in s.nodes && s.nodes[n] == c
  }

  ghost predicate NodeCoherent(s: State, n: Node) {
    && (n in s.byNode ==> Listed(s, n))
    // a registered node without a connection has the disconnect of its last one pending
    && (n in s.nodes && n !in s.byNode ==> s.nodes[n] in s.deferred)
    && (n in s.nodes ==> s.nodes[n] in s.socketToNode && s.socketToNode[s.nodes[n]] == n)
    // the last to say hello is the one listed, while it is open
    && (n in s.byNode <==> n in s.greeted && s.greeted[n] in s.conns)
    && (n in s.greeted ==> s.greeted[n] in s.ids && s.ids[s.greeted[n]] == Some(n))
    && (n in s.byNode ==> s.greeted[n] == s.byNode[n])
  }

  ghost predicate PeerCoherent(s: State, p: Peer) {
    && (p in s.socketToNode ==> p in s.ids && s.ids[p] == Some(s.socketToNode[p]))
    && (p in s.ids ==> s.ids[p] != Some(""))
    && (p in s.conns ==> p in s.ids && p !in s.deferred)
    && (p in s.deferred ==> p in s.ids)
  }

  ghost predicate Coherent(s: State) {
    (forall n :: NodeCoherent(s, n)) && (forall p :: PeerCoherent(s, p))
  }

  predicate Named(e: Event) {
    e.Greeted? ==> NodeOf(e.identifier, e.hostname) != ""
  }

  lemma OpenKeeps(s: State, p: Peer)
    requires Coherent(s) && p !in s.ids
    ensures Coherent(Open(s, p))
  {
    assert PeerCoherent(s, p);
    forall m ensures NodeCoherent(Open(s, p), m) { assert NodeCoherent(s, m); }
    forall q ensures PeerCoherent(Open(s, p), q) { assert PeerCoherent(s, q); }
  }

  lemma HelloKeeps(s: State, p: Peer, n: Node, tokenOk: bool)
    requires Coherent(s) && n != ""
    ensures Coherent(Hello(s, p, n, tokenOk))
  {
    assert PeerCoherent(s, p);
    forall m ensures NodeCoherent(Hello(s, p, n, tokenOk), m) { assert NodeCoherent(s, m); }
    forall q ensures PeerCoherent(Hello(s, p, n, tokenOk), q) { assert PeerCoherent(s, q); }
  }

  lemma CloseKeeps(s: State, p: Peer)
    requires Coherent(s)
    ensures Coherent(Close(s, p))
  {
    assert PeerCoherent(s, p);
    forall m ensures NodeCoherent(Close(s, p), m) { assert NodeCoherent(s, m); }
    forall q ensures PeerCoherent(Close(s, p), q) { assert PeerCoherent(s, q); }
  }

  lemma DisconnectKeeps(s: State, p: Peer)
    requires Coherent(s) && p in s.deferred
    ensures Coherent(Disconnect(s, p))
  {
    assert PeerCoherent(s, p);
    forall m ensures NodeCoherent(Disconnect(s, p), m) { assert NodeCoherent(s, m); }
    forall q ensures PeerCoherent(Disconnect(s, p), q) { assert PeerCoherent(s, q); }
  }

  lemma NextKeeps(s: State, e: Event)
    requires Coherent(s) && Enabled(s, e) && Named(e)
    ensures Coherent(Next(s, e))
  {
    match e {
      case Opened(p) => OpenKeeps(s, p);
      case Greeted(p, identifier, hostname, tokenOk) => HelloKeeps(s, p, NodeOf(identifier, hostname), tokenOk);
      case Closed(p) => CloseKeeps(s, p);
      case Disconnected(p) => DisconnectKeeps(s, p);
    }
  }

  ghost predicate Reaches(s: State, run: seq<Event>, t: State)
    decreases |run|
  {
    if run == [] then t == s else Enabled(s, run[0]) && Reaches(Next(s, run[0]), run[1..], t)
  }

  lemma {:induction false} ReachesCoherent(s: State, run: seq<Event>, t: State)
    requires Coherent(s) && Reaches(s, run, t) && forall e | e in run :: Named(e)
    ensures Coherent(t)
    decreases |run|
  {
    if run != [] {
      assert run[0] in run;
      NextKeeps(s, run[0]);
      forall e | e in run[1..] ensures Named(e) { assert e in run; }
      ReachesCoherent(Next(s, run[0]), run[1..], t);
    }
  }

  /**
   * Over every interleaving of opens, hellos, supersedes, closes and late disconnects: a node is
   * listed exactly while the connection that last said hello as it is open, and then on that
   * connection; and a node that is registered but not listed has exactly that disconnect pending.
   */
  lemma RegistryFollowsLastHello(run: seq<Event>, s: State, n: Node)
    requires Reaches(NOBODY, run, s) && forall e | e in run :: Named(e)
    ensures n in s.byNode <==> n in s.greeted && s.greeted[n] in s.conns
    ensures n in s.byNode ==> s.byNode[n] == s.greeted[n] && Listed(s, n)
    ensures n in s.nodes && n !in s.byNode ==> s.nodes[n] in s.deferred
    ensures s.deferred == {} ==> (n in s.nodes <==> n in s.byNode)
  {
    ReachesCoherent(NOBODY, run, s);
    assert NodeCoherent(s, n);
  }

  /** However late it runs, a disconnect never touches the registration of a listed node. */
  lemma LateDisconnectHarmless(run: seq<Event>, s: State, p: Peer, n: Node)
    requires Reaches(NOBODY, run, s) && (forall e | e in run :: Named(e)) && p in s.deferred && n in s.byNode
    ensures var s' := Disconnect(s, p); n in s'.nodes && s'.nodes[n] == s.nodes[n] && s'.byNode == s.byNode
  {
    ReachesCoherent(NOBODY, run, s);
    assert NodeCoherent(s, n) && PeerCoherent(s, p);
  }

  /**
   * An empty node id is the exact way to break this: after the hello and the close of a connection,
   * no node is listed on a closed connection exactly when the id is not empty.
   */
  lemma CoherentAfterCloseExactlyWhenNamed(s: State, p: Peer, n: Node)
    requires Coherent(s) && HelloAccepted(s, p, true)
    ensures var s' := Close(Hello(s, p, n, true), p);
            (forall m | m in s'.byNode :: s'.byNode[m] in s'.conns) <==> n != ""
  {
    var s1 := Hello(s, p, n, true);
    var s2 := Close(s1, p);
    if n != "" {
      HelloKeeps(s, p, n, true);
      CloseKeeps(s1, p);
      forall m | m in s2.byNode ensures s2.byNode[m] in s2.conns { assert NodeCoherent(s2, m); }
    } else {
      assert s2.byNode[""] == p && p !in s2.conns;
    }
  }

  lemma ReachesStep(s: State, e: Event, run: seq<Event>, t: State)
    requires Enabled(s, e) && Reaches(Next(s, e), run, t)
    ensures Reaches(s, [e] + run, t)
  {
    assert ([e] + run)[1..] == run;
  }

  /** A reachable case: an identifier that is only a port. Its connection stays listed after it closed. */
  lemma PortOnlyIdentifierStaysListed() returns (s: State)
    ensures Reaches(NOBODY, [Opened(1)] + ([Greeted(1, ":80", "host", true)] + ([Closed(1)] + [])), s)
    ensures "" in s.byNode && s.byNode[""] == 1 && 1 !in s.conns && s.deferred == {}
  {
    var e1, e2, e3 := Opened(1), Greeted(1, ":80", "host", true), Closed(1);
    EmptyIdExactly(":80");
    assert NodeOf(":80", "host") == "";
    var s1 := Next(NOBODY, e1);
    var s2 := Next(s1, e2);
    s := Next(s2, e3);
    assert s2.byNode[""] == 1 && s2.ids[1] == Some("");
    ReachesStep(s2, e3, [], s);
    ReachesStep(s1, e2, [e3] + [], s);
    ReachesStep(NOBODY, e1, [e2] + ([e3] + []), s);
  }

  // ---- tokens ----

  predicate IsGoodHello(e: Event, p: Peer, n: Node) {
    e.Greeted? && e.p == p && e.tokenOk && NodeOf(e.identifier, e.hostname) == n
  }

  /** The state ties a connection to a node: listed, registered, remembered, or by the id the connection bears. */
  predicate Ties(s: State, p: Peer, n: Node) {
    || (n in s.byNode && s.byNode[n] == p)
    || (n in s.nodes && s.nodes[n] == p)
    || (n in s.greeted && s.greeted[n] == p)
    || (p in s.ids && s.ids[p] == Some(n))
    || (p in s.socketToNode && s.socketToNode[p] == n)
  }

  /** Without a good token nothing happens. */
  lemma BadTokenChangesNothing(s: State, p: Peer, identifier: string, hostname: string)
    ensures Next(s, Greeted(p, identifier, hostname, false)) == s
  {
  }

  lemma NewTieNeedsHello(s: State, e: Event, p: Peer, n: Node)
    requires Ties(Next(s, e), p, n) && !Ties(s, p, n)
    ensures IsGoodHello(e, p, n)
  {
  }

  lemma {:induction false} TieNeedsHello(s: State, run: seq<Event>, t: State, p: Peer, n: Node) returns (e: Event)
    requires Reaches(s, run, t) && Ties(t, p, n) && !Ties(s, p, n)
    ensures e in run && IsGoodHello(e, p, n)
    decreases |run|
  {
    assert run != [];
    if Ties(Next(s, run[0]), p, n) {
      NewTieNeedsHello(s, run[0], p, n);
      e := run[0];
    } else {
      e := TieNeedsHello(Next(s, run[0]), run[1..], t, p, n);
      assert e in run[1..];
    }
  }

  /**
   * In every run, whichever connection is listed, registered or remembered for a node, or bears its
   * id, has said hello as that node with a good token.
   */
  lemma NobodyWithoutToken(run: seq<Event>, s: State, p: Peer, n: Node) returns (e: Event)
    requires Reaches(NOBODY, run, s) && Ties(s, p, n)
    ensures e in run && e.Greeted? && e.p == p && e.tokenOk && NodeOf(e.identifier, e.hostname) == n
  {
    e := TieNeedsHello(NOBODY, run, s, p, n);
  }
}
