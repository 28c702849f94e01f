/**
 * What all connections of a node share: the session manager (node/media/session.go) and the table
 * of live relays that a kick goes through (node/rtmp/server.go). A connection is granted a session,
 * may bring its relay up, and ends the session once.
 */
module LiveStreams {
  import opened Bytes

  type Conn = nat
  type Sid = int
  type Name = string

  datatype Session = Session(id: Sid, eventKey: string)

  /** What a connection holds between its grant and its unpublish. */
  datatype Hold = Hold(name: Name, session: Session, up: bool)

  /** `held` is known to no one in the node; it is what the handlers have been granted. */
  datatype State = State(
    sessions: map<Name, Session>, relays: map<Name, Conn>, closed: set<Conn>, reports: seq<Sid>,
    held: map<Conn, Hold>, granted: set<Sid>)

  const QUIET := State(map[], map[], {}, [], map[], {})

  // ---- the manager ----

  function StartSession(m: map<Name, Session>, name: Name, s: Session): map<Name, Session> {
    if name in m then m else m[name := s]
  }

  function EndReports(m: map<Name, Session>, name: Name): seq<Sid> {
    if name in m then [m[name].id] else []
  }

  function LookupIn(m: map<Name, Session>, name: Name): Option<Sid> {
    if name in m then Some(m[name].id) else None
  }

  /** The application of a stream; empty when it is not active. */
  function EventKeyIn(m: map<Name, Session>, name: Name): string {
    if name in m then m[name].eventKey else ""
  }

  class Manager {
    var sessions: map<Name, Session>
    var reports: seq<Sid>  // the session ends reported so far

    constructor ()
      ensures sessions == map[] && reports == []
    {
      sessions, reports := map[], [];
    }

    method Start(name: Name, id: Sid, eventKey: string)
      modifies this`sessions
      ensures sessions == StartSession(old(sessions), name, Session(id, eventKey))
    {
      if name in sessions { return; }
      sessions := sessions[name := Session(id, eventKey)];
    }

    method End(name: Name)
      modifies this
      ensures sessions == old(sessions) - {name} && reports == old(reports) + EndReports(old(sessions), name)
    {
      if name !in sessions {
        assert sessions - {name} == sessions && reports + [] == reports;
        return;
      }
      var s := sessions[name];
      sessions := sessions - {name};
      reports := reports + [s.id];
    }

    method Lookup(name: Name) returns (id: Option<Sid>)
      ensures id == LookupIn(sessions, name)
    {
      if name !in sessions { return None; }
      return Some(sessions[name].id);
    }

    method EventKeyOf(name: Name) returns (key: string)
      ensures key == EventKeyIn(sessions, name)
    {
      if name in sessions { return sessions[name].eventKey; }
      return "";
    }
  }

  class RelayTable {
    var relays: map<Name, Conn>
    var closed: set<Conn>

    constructor ()
      ensures relays == map[] && closed == {}
    {
      relays, closed := map[], {};
    }

    /** Closes the relay and the connection of a live stream; false when there is none. */
    method KillStream(name: Name) returns (ok: bool)
      modifies this
      ensures ok == (name in old(relays)) && relays == old(relays) - {name}
      ensures closed == if ok then old(closed) + {old(relays)[name]} else old(closed)
    {
      if name !in relays {
        assert relays - {name} == relays;
        return false;
      }
      var h := relays[name];
      relays := relays - {name};
      closed := closed + {h};
      return true;
    }
  }

  // ---- all connections ----

  datatype Event =
    | Grant(c: Conn, name: Name, s: Session)  // the gate allows: the manager starts the session
    | Fail(c: Conn)                           // dial or publish fails: the session is ended at once
    | Up(c: Conn)                             // the relay is registered
    | Kill(name: Name)
    | Leave(c: Conn)                          // the deferred cleanup

  predicate Enabled(s: State, e: Event) {
    match e
    case Grant(c, _, t) => c !in s.held && t.id !in s.granted
    case Fail(c) => c in s.held && !s.held[c].up
    case Up(c) => c in s.held && !s.held[c].up
    case Kill(_) => true
    case Leave(c) => c in s.held && s.held[c].up
  }

  function EndOf(s: State, c: Conn): State
    requires c in s.held
  {
    var name := s.held[c].name;
    s.(sessions := s.sessions - {name}, reports := s.reports + EndReports(s.sessions, name), held := s.held - {c})
  }

  function Next(s: State, e: Event): State
    requires Enabled(s, e)
  {
    match e
    case Grant(c, name, t) =>
      s.(sessions := StartSession(s.sessions, name, t), held := s.held[c := Hold(name, t, false)],
         granted := s.granted + {t.id})
    case Fail(c) => EndOf(s, c)
    case Up(c) => s.(relays := s.relays[s.held[c].name := c], held := s.held[c := s.held[c].(up := true)])
    case Kill(name) =>
      if name in s.relays then s.(relays := s.relays - {name}, closed := s.closed + {s.relays[name]}) else s
    case Leave(c) => EndOf(s.(relays := s.relays - {s.held[c].name}), c)
  }

  /** The name is not live on another connection. */
  ghost predicate NameFree(s: State, name: Name) {
    forall c | c in s.held :: s.held[c].name != name
  }

  // ---- invariant ----

  function Reported(reports: seq<Sid>, id: Sid): nat {
    multiset(reports)[id]
  }

  ghost predicate HoldSane(s: State, c: Conn) {
    c in s.held ==>
      var h := s.held[c];
      && h.name in s.sessions && s.sessions[h.name] == h.session && h.session.id in s.granted
      && Reported(s.reports, h.session.id) == 0
  }

  ghost predicate NameSane(s: State, name: Name) {
    && (name in s.sessions ==> exists c :: Holds(s, c, name))
    && (name in s.relays ==> Holds(s, s.relays[name], name) && s.held[s.relays[name]].up)
  }

  ghost predicate Holds(s: State, c: Conn, name: Name) {
    c in s.held && s.held[c].name == name
  }

  ghost predicate SidSane(s: State, id: Sid) {
    Reported(s.reports, id) == if id in s.granted && !Outstanding(s, id) then 1 else 0
  }

  ghost predicate Outstanding(s: State, id: Sid) {
    exists c :: HasSid(s, c, id)
  }

  ghost predicate HasSid(s: State, c: Conn, id: Sid) {
    c in s.held && s.held[c].session.id == id
  }

  ghost predicate Apart(s: State, c: Conn, d: Conn) {
    c in s.held && d in s.held && c != d ==> s.held[c].name != s.held[d].name && s.held[c].session.id != s.held[d].session.id
  }

  ghost predicate Sane(s: State) {
    && (forall c :: HoldSane(s, c))
    && (forall name :: NameSane(s, name))
    && (forall id :: SidSane(s, id))
    && (forall c, d :: Apart(s, c, d))
  }

  lemma GrantKeeps(s: State, c: Conn, name: Name, t: Session)
    requires Sane(s) && Enabled(s, Grant(c, name, t)) && NameFree(s, name)
    ensures Sane(Next(s, Grant(c, name, t)))
  {
    var s' := Next(s, Grant(c, name, t));
    assert NameSane(s, name);
    assert name !in s.sessions;
    forall d ensures HoldSane(s', d) { assert HoldSane(s, d) && SidSane(s, t.id); }
    forall d, e ensures Apart(s', d, e) { assert Apart(s, d, e) && HoldSane(s, d) && HoldSane(s, e); }
    forall m ensures NameSane(s', m) {
      assert NameSane(s, m);
      if m == name {
        assert Holds(s', c, m);
      } else if m in s.sessions {
        var d :| Holds(s, d, m);
        assert Holds(s', d, m);
      }
    }
    forall id ensures SidSane(s', id) {
      assert SidSane(s, id);
      if id == t.id {
        assert HasSid(s', c, id);
      } else {
        assert forall d :: HasSid(s', d, id) <==> HasSid(s, d, id);
      }
    }
  }

  lemma EndKeeps(s: State, c: Conn)
    requires Sane(s) && c in s.held && s.held[c].name !in s.relays
    ensures Sane(EndOf(s, c))
  {
    var s', h := EndOf(s, c), s.held[c];
    assert HoldSane(s, c);
    assert s'.reports == s.reports + [h.session.id];
    forall d ensures HoldSane(s', d) { assert HoldSane(s, d) && Apart(s, c, d); }
    forall d, e ensures Apart(s', d, e) { assert Apart(s, d, e); }
    forall m ensures NameSane(s', m) {
      assert NameSane(s, m);
      if m in s'.sessions {
        var d :| Holds(s, d, m);
        assert Holds(s', d, m);
      }
      if m in s.relays { assert Apart(s, c, s.relays[m]); }
    }
    forall id ensures SidSane(s', id) {
      assert SidSane(s, id);
      if id == h.session.id {
        assert HasSid(s, c, id);
        forall d ensures !HasSid(s', d, id) { assert Apart(s, c, d); }
      } else {
        assert forall d :: HasSid(s', d, id) <==> HasSid(s, d, id);
      }
    }
  }

  lemma RelaysKeep(s: State, relays: map<Name, Conn>, closed: set<Conn>)
    requires Sane(s) && forall n | n in relays :: n in s.relays && relays[n] == s.relays[n]
    ensures Sane(s.(relays := relays, closed := closed))
  {
    var s' := s.(relays := relays, closed := closed);
    forall d ensures HoldSane(s', d) { assert HoldSane(s, d); }
    forall d, e ensures Apart(s', d, e) { assert Apart(s, d, e); }
    forall m ensures NameSane(s', m) {
      assert NameSane(s, m);
      if m in s.sessions {
        var d :| Holds(s, d, m);
        assert Holds(s', d, m);
      }
      if m in relays { assert Holds(s, s.relays[m], m); }
    }
    forall id ensures SidSane(s', id) {
      assert SidSane(s, id);
      assert forall d :: HasSid(s', d, id) <==> HasSid(s, d, id);
    }
  }

  lemma UpKeeps(s: State, c: Conn)
    requires Sane(s) && Enabled(s, Up(c))
    ensures Sane(Next(s, Up(c)))
  {
    var s' := Next(s, Up(c));
    assert HoldSane(s, c);
    forall d ensures HoldSane(s', d) { assert HoldSane(s, d); }
    forall d, e ensures Apart(s', d, e) { assert Apart(s, d, e); }
    forall m ensures NameSane(s', m) {
      assert NameSane(s, m);
      if m in s.sessions {
        var d :| Holds(s, d, m);
        assert Holds(s', d, m);
      }
      if m in s'.relays && m != s.held[c].name {
        assert Holds(s, s.relays[m], m) && Holds(s', s.relays[m], m);
      } else if m in s'.relays {
        assert Holds(s', c, m);
      }
    }
    forall id ensures SidSane(s', id) {
      assert SidSane(s, id);
      assert forall d :: HasSid(s', d, id) <==> HasSid(s, d, id);
    }
  }

  lemma FailingIsUnregistered(s: State, c: Conn)
    requires Sane(s) && Enabled(s, Fail(c))
    ensures s.held[c].name !in s.relays
  {
    var n := s.held[c].name;
    assert NameSane(s, n);
    assert n in s.relays ==> Apart(s, c, s.relays[n]);
  }

  lemma NextKeeps(s: State, e: Event)
    requires Sane(s) && Enabled(s, e) && (e.Grant? ==> NameFree(s, e.name))
    ensures Sane(Next(s, e))
  {
    match e {
      case Grant(c, name, t) => GrantKeeps(s, c, name, t);
      case Fail(c) =>
        FailingIsUnregistered(s, c);
        EndKeeps(s, c);
      case Up(c) => UpKeeps(s, c);
      case Kill(name) =>
        if name in s.relays { RelaysKeep(s, s.relays - {name}, s.closed + {s.relays[name]}); }
      case Leave(c) =>
        RelaysKeep(s, s.relays - {s.held[c].name}, s.closed);
        EndKeeps(s.(relays := s.relays - {s.held[c].name}), c);
    }
  }

  // ---- whole runs ----

  /** Live names are pairwise distinct throughout. */
  ghost predicate Reaches(s: State, run: seq<Event>, t: State)
    decreases |run|
  {
    if run == [] then t == s
    else
      && Enabled(s, run[0]) && (run[0].Grant? ==> NameFree(s, run[0].name))
      && Reaches(Next(s, run[0]), run[1..], t)
  }

  lemma {:induction false} ReachesSane(s: State, run: seq<Event>, t: State)
    requires Sane(s) && Reaches(s, run, t)
    ensures Sane(t)
    decreases |run|
  {
    if run != [] {
      NextKeeps(s, run[0]);
      ReachesSane(Next(s, run[0]), run[1..], t);
    }
  }

  /**
   * Whatever kills come in between: every granted session is reported ended exactly once, and that
   * when its connection ends it; and the manager tracks exactly the sessions still held.
   */
  lemma OneEndReportPerSession(run: seq<Event>, s: State, id: Sid)
    requires Reaches(QUIET, run, s) && id in s.granted
    ensures Reported(s.reports, id) == if Outstanding(s, id) then 0 else 1
    ensures s.held == map[] ==> s.sessions == map[] && s.relays == map[]
  {
    ReachesSane(QUIET, run, s);
    assert SidSane(s, id);
    if s.held == map[] {
      forall n ensures n !in s.sessions && n !in s.relays { assert NameSane(s, n); }
    }
  }

  /** A kick closes the connection that is live under the name, and no other. */
  lemma KillClosesItsOwn(run: seq<Event>, s: State, name: Name)
    requires Reaches(QUIET, run, s) && name in s.relays
    ensures var c := s.relays[name];
            && Next(s, Kill(name)).closed == s.closed + {c}
            && c in s.held && s.held[c].name == name && s.held[c].up
            && forall d | d in s.held && s.held[d].name == name :: d == c
  {
    ReachesSane(QUIET, run, s);
    assert NameSane(s, name);
    forall d | d in s.held && s.held[d].name == name ensures d == s.relays[name] {
      assert Apart(s, d, s.relays[name]);
    }
  }

  /** While names are distinct, asking for a name finds what its connection was granted, and nothing when nobody holds it. */
  lemma LookupFindsTheGrant(run: seq<Event>, s: State, name: Name)
    requires Reaches(QUIET, run, s)
    ensures forall c | Holds(s, c, name) ::
              LookupIn(s.sessions, name) == Some(s.held[c].session.id)
              && EventKeyIn(s.sessions, name) == s.held[c].session.eventKey
    ensures NameFree(s, name) ==> LookupIn(s.sessions, name) == None
  {
    ReachesSane(QUIET, run, s);
    assert NameSane(s, name);
    forall c | Holds(s, c, name)
      ensures LookupIn(s.sessions, name) == Some(s.held[c].session.id)
      ensures EventKeyIn(s.sessions, name) == s.held[c].session.eventKey
    {
      assert HoldSane(s, c);
    }
    if NameFree(s, name) { assert forall c :: !Holds(s, c, name); }
  }

  // ---- names that are live twice ----

  /** A session granted under a name that is live already is never tracked. */
  lemma TrackedExactlyWhenNameFree(s: State, c: Conn, name: Name, t: Session)
    requires Sane(s) && Enabled(s, Grant(c, name, t))
    ensures var s' := Next(s, Grant(c, name, t));
            (exists n :: n in s'.sessions && s'.sessions[n].id == t.id) <==> NameFree(s, name)
  {
    var s' := Next(s, Grant(c, name, t));
    assert NameSane(s, name);
    if NameFree(s, name) {
      assert forall d :: !Holds(s, d, name);
      assert s'.sessions[name].id == t.id;
    } else {
      var d :| d in s.held && s.held[d].name == name;
      assert HoldSane(s, d);
      forall n | n in s.sessions ensures s.sessions[n].id != t.id {
        assert NameSane(s, n);
        var e :| Holds(s, e, n);
        assert HoldSane(s, e);
      }
    }
  }

  /**
   * And when it ends, whether its relay came up or not, it is the live session that is reported
   * ended, while its connection still holds it; its own end never is. If the relay came up, the
   * live connection is also no longer in the table, and a kick of the name closes nothing.
   */
  lemma UntrackedEndReportsTheLive(s: State, c: Conn, d: Conn, t: Session, up: bool)
    requires Sane(s) && d in s.held && Enabled(s, Grant(c, s.held[d].name, t))
    ensures var s1 := Next(s, Grant(c, s.held[d].name, t));
            var s2 := if up then Next(Next(s1, Up(c)), Leave(c)) else Next(s1, Fail(c));
            && s2.reports == s.reports + [s.held[d].session.id]
            && d in s2.held && s2.held[d] == s.held[d]
            && LookupIn(s2.sessions, s.held[d].name) == None
            && Reported(s2.reports, t.id) == 0
            && (up ==> s.held[d].name !in s2.relays && Next(s2, Kill(s.held[d].name)).closed == s2.closed)
  {
    assert HoldSane(s, d) && SidSane(s, t.id);
    assert forall e :: e in s.held ==> HoldSane(s, e) && s.held[e].session.id != t.id;
  }

  /** It takes two grants under one name. */
  lemma TwoGrantsUnderOneName()
    ensures var first, second := Grant(1, "a", Session(1, "e")), Grant(2, "a", Session(2, "e"));
            var s1 := Next(QUIET, first);
            && Enabled(QUIET, first) && Enabled(s1, second) && !NameFree(s1, "a")
            && Enabled(Next(s1, second), Fail(2))
            && var s3 := Next(Next(s1, second), Fail(2));
               s3.reports == [1] && 1 in s3.held && s3.sessions == map[]
  {
    var s1 := Next(QUIET, Grant(1, "a", Session(1, "e")));
    assert 1 in s1.held && s1.held[1].name == "a";
    var s3 := Next(Next(s1, Grant(2, "a", Session(2, "e"))), Fail(2));
    assert s3.reports == [] + [1];
  }
}
