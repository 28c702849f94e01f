/**
 * All connections of a node together: every gateway handler drives the session manager and the
 * relay table (node/rtmp/server.go, node/main.go) and shares the cooldown after rejected specs,
 * with kicks at any moment. The sessions are counted where each connection makes at most one
 * publish attempt and live names are distinct, the cooldown in every run.
 */
module NodeSessions {
  import opened Bytes
  import opened StreamNames
  import G = Gateway
  import L = LiveStreams

  type Conn = L.Conn

  /** `cool` are the names and users in cooldown. */
  datatype World = World(handlers: map<Conn, G.Handler>, live: L.State, cool: set<string>)

  const BOOT := World(map[], L.QUIET, {})

  datatype Event =
    | Accept(c: Conn, ip: string)
    | Turn(c: Conn, e: G.Event, s: L.Session)  // `s` is the session opened, if the gate grants one
    | Kick(name: string)
    | Expire(key: string)                      // the cooldown of a name or user is over

  /** The turn runs the deferred cleanup of a published stream. */
  predicate Leaves(h: G.Handler, e: G.Event)
    requires G.Enabled(h, e)
  {
    h.published > 0 && h.pc != G.Done && G.Next(h, e).pc == G.Done
  }

  /** What a turn means for the manager and the relay table. */
  function Effect(c: Conn, h: G.Handler, e: G.Event, s: L.Session): Option<L.Event>
    requires G.Enabled(h, e)
  {
    if e.GateReply? && e.allowed then Some(L.Grant(c, h.pc.final, s))
    else if e == G.DialReply(G.Failed) || e == G.PublishReply(G.Failed) then Some(L.Fail(c))
    else if e == G.PublishReply(G.Succeeded) then Some(L.Up(c))
    else if Leaves(h, e) then Some(L.Leave(c))
    else None
  }

  /** A rejected spec arms the cooldown for the stream name and the user. */
  function Arms(h: G.Handler, e: G.Event): set<string> {
    if e == G.SpecReply(false) then {h.name, h.user} - {""} else {}
  }

  predicate SeesCooldown(e: G.Event, cool: set<string>) {
    (e.Recv? ==> e.cool == cool) && (e.PolicyReply? ==> e.cool == cool)
  }

  predicate Possible(w: World, e: Event) {
    match e
    case Accept(c, _) => c !in w.handlers
    case Turn(c, e, _) => c in w.handlers && G.Enabled(w.handlers[c], e) && SeesCooldown(e, w.cool)
    case Kick(_) => true
    case Expire(_) => true
  }

  /** One publish a connection, fresh session ids, and no second live stream of one name. */
  ghost predicate WellBehaved(w: World, e: Event)
    requires Possible(w, e)
  {
    match e
    case Turn(c, Recv(Publish(_), _), _) => w.handlers[c].attempts == 0
    case Turn(c, GateReply(allowed), s) =>
      allowed ==> s.id !in w.live.granted && L.NameFree(w.live, w.handlers[c].pc.final)
    case _ => true
  }

  predicate Allowed(live: L.State, e: Option<L.Event>) {
    e.Some? ==> L.Enabled(live, e.value)
  }

  function Apply(live: L.State, e: Option<L.Event>): L.State {
    if e.Some? && Allowed(live, e) then L.Next(live, e.value) else live
  }

  function Kicked(w: World, name: string): World {
    var hit := name in w.live.relays && w.live.relays[name] in w.handlers;
    w.(handlers := if hit then
                     var c := w.live.relays[name];
                     w.handlers[c := G.Next(w.handlers[c], G.Killed)]
                   else w.handlers,
       live := Apply(w.live, Some(L.Kill(name))))
  }

  function Turned(w: World, c: Conn, e: G.Event, s: L.Session): World
    requires c in w.handlers && G.Enabled(w.handlers[c], e)
  {
    World(w.handlers[c := G.Next(w.handlers[c], e)], Apply(w.live, Effect(c, w.handlers[c], e, s)),
          w.cool + Arms(w.handlers[c], e))
  }

  function Next(w: World, e: Event): World
    requires Possible(w, e)
  {
    match e
    case Accept(c, ip) => w.(handlers := w.handlers[c := G.Start(ip)])
    case Turn(c, e, s) => Turned(w, c, e, s)
    case Kick(name) => Kicked(w, name)
    case Expire(key) => w.(cool := w.cool - {key})
  }

  // ---- what ties a handler to what it holds ----

  predicate Granted(pc: G.Pc) {
    pc.DialWait? || pc.PublishWait?
  }

  /** What the handler should hold; after a panic it holds its session for good. */
  predicate Expects(h: G.Handler, hold: Option<L.Hold>) {
    if Granted(h.pc) || h.crashed then hold.Some? && !hold.value.up
    else if h.pc != G.Done && h.published > 0 then hold.Some? && hold.value.up
    else hold.None?
  }

  predicate Single(h: G.Handler) {
    && h.attempts <= 1
    && (G.Publishing(h.pc) ==> h.published == 0 && h.attempts == 1)
    && (h.published > 0 ==> h.attempts == 1)
    && (h.crashed ==> h.pc == G.Done && h.published == 0)
  }

  function HoldOf(live: L.State, c: Conn): Option<L.Hold> {
    if c in live.held then Some(live.held[c]) else None
  }

  ghost predicate Tied(w: World, c: Conn) {
    if c in w.handlers then Single(w.handlers[c]) && Expects(w.handlers[c], HoldOf(w.live, c)) else c !in w.live.held
  }

  ghost predicate Inv(w: World) {
    L.Sane(w.live) && forall c :: Tied(w, c)
  }

  // ---- a handler's turn ----

  /** A turn that neither asks for a publish nor answers one keeps the published attempt, and stays or ends. */
  predicate Ordinary(h: G.Handler, e: G.Event) {
    !e.GateReply? && !e.DialReply? && !e.PublishReply? && !e.PolicyReply? && !(e.Recv? && e.m.Publish?)
  }

  /** What a turn leaves alone unless it answers a publish. */
  predicate SameAttempt(h: G.Handler, t: G.Handler) {
    t.published == h.published && t.attempts == h.attempts && t.crashed == h.crashed
  }

  lemma ExitShape(h: G.Handler)
    ensures SameAttempt(h, G.Exit(h)) && G.Exit(h).pc == G.Done
  {
  }

  lemma ForwardShape(h: G.Handler, f: G.Frame)
    ensures var t := G.Forward(h, f); SameAttempt(h, t) && (t.pc == h.pc || t.pc == G.Done)
  {
    ExitShape(G.Emit(h, G.Forwarded(f)).(closed := true));
  }

  lemma ConnectShape(h: G.Handler, stage: G.Stage, verify: G.VerifyVerdict, cool: set<string>)
    ensures var t := G.OnConnect(h, stage, verify, cool); SameAttempt(h, t) && (t.pc == h.pc || t.pc == G.Done)
  {
    ExitShape(h.(sawConnect := true));
  }

  lemma RecvShape(h: G.Handler, m: G.Message, cool: set<string>)
    requires h.pc == G.Reading && !m.Publish?
    ensures var t := G.OnRecv(h, m, cool); SameAttempt(h, t) && !G.Publishing(t.pc)
  {
    match m {
      case Connect(stage, verify) => ConnectShape(h, stage, verify, cool);
      case Data(f) => ForwardShape(h, f);
      case BadChunkSize => ExitShape(h);
      case Other =>
    }
  }

  lemma SpecShape(h: G.Handler, allow: bool)
    requires h.pc.SpecWait?
    ensures var t := G.OnSpec(h, allow); SameAttempt(h, t) && !G.Publishing(t.pc)
  {
    ForwardShape(G.Emit(h, G.Judged(h.pc.frame, allow)).(pc := G.Reading), h.pc.frame);
  }

  lemma OrdinaryShape(h: G.Handler, e: G.Event)
    requires G.Enabled(h, e) && Ordinary(h, e)
    ensures var t := G.Next(h, e);
            && SameAttempt(h, t)
            && (t.pc == h.pc || (!G.Publishing(h.pc) && !G.Publishing(t.pc) && h.pc != G.Done))
  {
    match e {
      case Recv(m, cool) => RecvShape(h, m, cool);
      case SpecReply(allow) => SpecShape(h, allow);
      case Refuse => ExitShape(G.WriteOnce(h).(closed := true));
      case ReadEnd => ExitShape(h);
      case _ =>
    }
  }

  lemma OrdinaryKeeps(h: G.Handler, e: G.Event, c: Conn, s: L.Session, live: L.State)
    requires G.Enabled(h, e) && Ordinary(h, e) && Single(h) && Expects(h, HoldOf(live, c))
    ensures var t, effect := G.Next(h, e), Effect(c, h, e, s);
            && Single(t) && (effect.Some? ==> effect == Some(L.Leave(c))) && Allowed(live, effect)
            && Expects(t, HoldOf(Apply(live, effect), c))
  {
    OrdinaryShape(h, e);
  }

  lemma AskKeeps(h: G.Handler, e: G.Event, c: Conn, s: L.Session, live: L.State)
    requires G.Enabled(h, e) && (e.PolicyReply? || (e.Recv? && e.m.Publish? && h.attempts == 0))
    requires Single(h) && Expects(h, HoldOf(live, c))
    ensures Single(G.Next(h, e)) && Effect(c, h, e, s).None? && Expects(G.Next(h, e), HoldOf(live, c))
  {
    if e.PolicyReply? {
      var ask := G.AskOf(h, e.verdict, e.anon, e.cool, e.folds);
      var h1 := G.Emit(h, G.Asked(h.attempts, ask));
      ExitShape(h1);
      ExitShape(G.Emit(h1, G.BadName(false, !h1.closed)));
    }
  }

  lemma GateKeeps(h: G.Handler, allowed: bool, c: Conn, s: L.Session, live: L.State)
    requires h.pc.GateWait? && Single(h) && Expects(h, HoldOf(live, c)) && (allowed ==> s.id !in live.granted)
    ensures var t, effect := G.OnGate(h, allowed), Effect(c, h, G.GateReply(allowed), s);
            && Single(t) && Allowed(live, effect)
            && Expects(t, HoldOf(Apply(live, effect), c))
  {
    ExitShape(G.WriteOnce(h).(closed := true));
  }

  lemma DialledKeeps(h: G.Handler, dialled: G.Reply, c: Conn, s: L.Session, live: L.State)
    requires h.pc.DialWait? && Single(h) && Expects(h, HoldOf(live, c))
    ensures var t, effect := G.OnDialled(h, dialled), Effect(c, h, G.DialReply(dialled), s);
            && Single(t) && Allowed(live, effect)
            && Expects(t, HoldOf(Apply(live, effect), c))
  {
    ExitShape(G.Emit(h, G.Unpublished(h.attempts)));
    ExitShape(G.Emit(h.(crashed := true), G.Crashed(h.attempts)));
  }

  lemma PublishedKeeps(h: G.Handler, answer: G.Reply, c: Conn, s: L.Session, live: L.State)
    requires h.pc.PublishWait? && Single(h) && Expects(h, HoldOf(live, c))
    ensures var t, effect := G.OnAnswer(h, answer), Effect(c, h, G.PublishReply(answer), s);
            && Single(t) && Allowed(live, effect)
            && Expects(t, HoldOf(Apply(live, effect), c))
  {
    ExitShape(G.Emit(h, G.Unpublished(h.attempts)));
    ExitShape(G.Emit(h.(crashed := true), G.Crashed(h.attempts)));
  }

  lemma AnswerKeeps(h: G.Handler, e: G.Event, c: Conn, s: L.Session, live: L.State)
    requires G.Enabled(h, e) && (e.GateReply? || e.DialReply? || e.PublishReply?)
    requires Single(h) && Expects(h, HoldOf(live, c)) && (e == G.GateReply(true) ==> s.id !in live.granted)
    ensures var t, effect := G.Next(h, e), Effect(c, h, e, s);
            && Single(t) && Allowed(live, effect)
            && Expects(t, HoldOf(Apply(live, effect), c))
  {
    match e {
      case GateReply(allowed) => GateKeeps(h, allowed, c, s, live);
      case DialReply(dialled) => DialledKeeps(h, dialled, c, s, live);
      case PublishReply(answer) => PublishedKeeps(h, answer, c, s, live);
    }
  }

  lemma OwnTurn(h: G.Handler, e: G.Event, c: Conn, s: L.Session, live: L.State)
    requires G.Enabled(h, e) && Single(h) && Expects(h, HoldOf(live, c))
    requires (e.Recv? && e.m.Publish? ==> h.attempts == 0) && (e == G.GateReply(true) ==> s.id !in live.granted)
    ensures Single(G.Next(h, e)) && Allowed(live, Effect(c, h, e, s))
    ensures Expects(G.Next(h, e), HoldOf(Apply(live, Effect(c, h, e, s)), c))
  {
    if Ordinary(h, e) {
      OrdinaryKeeps(h, e, c, s, live);
    } else if e.PolicyReply? || e.Recv? {
      AskKeeps(h, e, c, s, live);
    } else {
      AnswerKeeps(h, e, c, s, live);
    }
  }

  lemma TurnKeeps(w: World, c: Conn, e: G.Event, s: L.Session)
    requires Inv(w) && Possible(w, Turn(c, e, s)) && WellBehaved(w, Turn(c, e, s))
    ensures Inv(Next(w, Turn(c, e, s)))
  {
    var w', effect := Next(w, Turn(c, e, s)), Effect(c, w.handlers[c], e, s);
    assert Tied(w, c);
    OwnTurn(w.handlers[c], e, c, s, w.live);
    if effect.Some? {
      L.NextKeeps(w.live, effect.value);
    }
    forall d ensures Tied(w', d) {
      assert Tied(w, d);
      assert d != c ==> HoldOf(w'.live, d) == HoldOf(w.live, d);
    }
  }

  lemma KickKeeps(w: World, name: string)
    requires Inv(w)
    ensures Inv(Next(w, Kick(name)))
  {
    L.NextKeeps(w.live, L.Kill(name));
    forall d ensures Tied(Next(w, Kick(name)), d) {
      assert Tied(w, d);
    }
  }

  lemma NextKeeps(w: World, e: Event)
    requires Inv(w) && Possible(w, e) && WellBehaved(w, e)
    ensures Inv(Next(w, e))
  {
    match e {
      case Accept(c, ip) => forall d ensures Tied(Next(w, e), d) { assert Tied(w, d); }
      case Turn(c, g, s) => TurnKeeps(w, c, g, s);
      case Kick(name) => KickKeeps(w, name);
      case Expire(key) => forall d ensures Tied(Next(w, e), d) { assert Tied(w, d); }
    }
  }

  ghost predicate Reaches(w: World, run: seq<Event>, v: World)
    decreases |run|
  {
    if run == [] then v == w
    else Possible(w, run[0]) && WellBehaved(w, run[0]) && Reaches(Next(w, run[0]), run[1..], v)
  }

  lemma {:induction false} ReachesInv(w: World, run: seq<Event>, v: World)
    requires Inv(w) && Reaches(w, run, v)
    ensures Inv(v)
    decreases |run|
  {
    if run != [] {
      NextKeeps(w, run[0]);
      ReachesInv(Next(w, run[0]), run[1..], v);
    }
  }

  /** The session of a handler that ended in a panic of its upstream wait. */
  ghost predicate LeftBehind(w: World, c: Conn, id: L.Sid) {
    c in w.handlers && w.handlers[c].crashed && L.HasSid(w.live, c, id)
  }

  /**
   * However turns, deaths and kicks interleave: once every handler has ended, a granted session has
   * been reported ended exactly once, unless its handler ended in a panic of the upstream wait; then
   * it is never reported, and stays tracked under its name.
   */
  lemma EverySessionReportedOnceExactly(run: seq<Event>, w: World)
    requires Reaches(BOOT, run, w) && forall c | c in w.handlers :: w.handlers[c].pc == G.Done
    ensures forall id | id in w.live.granted ::
              L.Reported(w.live.reports, id) == if exists c :: LeftBehind(w, c, id) then 0 else 1
    ensures w.live.sessions == map[] <==> forall c | c in w.handlers :: !w.handlers[c].crashed
    ensures forall c | c in w.handlers && w.handlers[c].crashed ::
              c in w.live.held && w.live.held[c].name in w.live.sessions && !L.NameFree(w.live, w.live.held[c].name)
    ensures w.live.relays == map[]
  {
    ReachesInv(BOOT, run, w);
    forall c ensures c in w.live.held <==> c in w.handlers && w.handlers[c].crashed { assert Tied(w, c); }
    forall id | id in w.live.granted
      ensures L.Reported(w.live.reports, id) == if exists c :: LeftBehind(w, c, id) then 0 else 1
    {
      assert L.SidSane(w.live, id);
      assert forall c :: L.HasSid(w.live, c, id) <==> LeftBehind(w, c, id);
    }
    forall n ensures n !in w.live.relays {
      assert L.NameSane(w.live, n);
      assert n in w.live.relays ==> Tied(w, w.live.relays[n]);
    }
    forall c | c in w.live.held ensures w.live.held[c].name in w.live.sessions { assert L.HoldSane(w.live, c); }
    forall n | n in w.live.sessions ensures exists c :: c in w.live.held {
      assert L.NameSane(w.live, n);
      var c :| L.Holds(w.live, c, n);
    }
  }

  /** A kick reaches the one handler that is live under the name, and it is still serving. */
  lemma KickReachesItsHandler(run: seq<Event>, w: World, name: string)
    requires Reaches(BOOT, run, w) && name in w.live.relays
    ensures var c := w.live.relays[name];
            && c in w.handlers && w.handlers[c].published > 0 && w.handlers[c].pc != G.Done
            && Next(w, Kick(name)).handlers[c].closed
  {
    ReachesInv(BOOT, run, w);
    assert L.NameSane(w.live, name) && Tied(w, w.live.relays[name]);
  }

  // ---- the cooldown, in any run at all ----

  /** Any run: connections may publish again, and names may be live twice. */
  ghost predicate Happens(w: World, run: seq<Event>, v: World)
    decreases |run|
  {
    if run == [] then v == w else Possible(w, run[0]) && Happens(Next(w, run[0]), run[1..], v)
  }

  /** The handler does not stream, and is not past the check of its policy, under this name or for this user. */
  predicate Clear(h: G.Handler, key: string) {
    && (h.pc.GateWait? || Granted(h.pc) ==> h.pc.final != key && h.user != key)
    && (h.published > 0 ==> h.name != key && h.user != key)
  }

  lemma ExitKeepsClear(h: G.Handler, key: string)
    requires Clear(h, key)
    ensures Clear(G.Exit(h), key)
  {
  }

  lemma ConnectKeepsClear(h: G.Handler, stage: G.Stage, verify: G.VerifyVerdict, cool: set<string>, key: string)
    requires Clear(h, key) && h.pc == G.Reading && key in cool && key != ""
    ensures Clear(G.OnConnect(h, stage, verify, cool), key)
  {
    ExitKeepsClear(h.(sawConnect := true), key);
  }

  lemma ForwardKeepsClear(h: G.Handler, f: G.Frame, key: string)
    requires Clear(h, key)
    ensures Clear(G.Forward(h, f), key)
  {
    ExitKeepsClear(G.Emit(h, G.Forwarded(f)).(closed := true), key);
  }

  lemma RecvKeepsClear(h: G.Handler, m: G.Message, cool: set<string>, key: string)
    requires Clear(h, key) && h.pc == G.Reading && key in cool && key != ""
    ensures Clear(G.OnRecv(h, m, cool), key)
  {
    match m {
      case Connect(stage, verify) => ConnectKeepsClear(h, stage, verify, cool, key);
      case Data(f) => ForwardKeepsClear(h, f, key);
      case BadChunkSize => ExitKeepsClear(h, key);
      case _ =>
    }
  }

  lemma PolicyKeepsClear(h: G.Handler, e: G.Event, key: string)
    requires Clear(h, key) && G.Enabled(h, e) && e.PolicyReply? && key in e.cool && key != ""
    ensures Clear(G.Next(h, e), key)
  {
    var ask := G.AskOf(h, e.verdict, e.anon, e.cool, e.folds);
    assert G.Passes(ask) ==> ask.final != key && h.user != key;
    DecidedKeepsClear(G.Emit(h, G.Asked(h.attempts, ask)), ask, key);
  }

  lemma DecidedKeepsClear(h: G.Handler, ask: G.Ask, key: string)
    requires Clear(h, key) && (G.Passes(ask) ==> ask.final != key && h.user != key)
    ensures Clear(G.Decided(h, ask), key)
  {
    ExitKeepsClear(h, key);
    ExitKeepsClear(G.Emit(h, G.BadName(false, !h.closed)), key);
  }

  lemma SpecKeepsClear(h: G.Handler, allow: bool, key: string)
    requires Clear(h, key) && h.pc.SpecWait?
    ensures Clear(G.OnSpec(h, allow), key)
  {
    ForwardKeepsClear(G.Emit(h, G.Judged(h.pc.frame, allow)).(pc := G.Reading), h.pc.frame, key);
  }

  lemma GateKeepsClear(h: G.Handler, allowed: bool, key: string)
    requires Clear(h, key) && h.pc.GateWait?
    ensures Clear(G.OnGate(h, allowed), key)
  {
    if !allowed { ExitKeepsClear(G.WriteOnce(h).(closed := true), key); }
  }

  lemma EndingKeepsClear(h: G.Handler, key: string)
    requires Clear(h, key)
    ensures Clear(G.Abort(h), key) && Clear(G.Crash(h), key)
  {
    ExitKeepsClear(G.Emit(h, G.Unpublished(h.attempts)), key);
    ExitKeepsClear(G.Emit(h.(crashed := true), G.Crashed(h.attempts)), key);
  }

  lemma DialledKeepsClear(h: G.Handler, dialled: G.Reply, key: string)
    requires Clear(h, key) && h.pc.DialWait?
    ensures Clear(G.OnDialled(h, dialled), key)
  {
    EndingKeepsClear(h, key);
  }

  lemma AnswerKeepsClear(h: G.Handler, answer: G.Reply, key: string)
    requires Clear(h, key) && h.pc.PublishWait?
    ensures Clear(G.OnAnswer(h, answer), key)
  {
    EndingKeepsClear(h, key);
  }

  lemma TurnKeepsClear(h: G.Handler, e: G.Event, key: string, cool: set<string>)
    requires Clear(h, key) && G.Enabled(h, e) && SeesCooldown(e, cool) && key in cool && key != ""
    ensures Clear(G.Next(h, e), key)
  {
    match e {
      case Recv(m, c) => RecvKeepsClear(h, m, c, key);
      case PolicyReply(_, _, _, _) => PolicyKeepsClear(h, e, key);
      case GateReply(allowed) => GateKeepsClear(h, allowed, key);
      case DialReply(dialled) => DialledKeepsClear(h, dialled, key);
      case PublishReply(answer) => AnswerKeepsClear(h, answer, key);
      case SpecReply(allow) => SpecKeepsClear(h, allow, key);
      case Refuse => ExitKeepsClear(G.WriteOnce(h).(closed := true), key);
      case ReadEnd => ExitKeepsClear(h, key);
      case _ =>
    }
  }

  /** A connection that is new, or that the cooldown keeps out. */
  ghost predicate Outside(w: World, c: Conn, key: string) {
    c in w.handlers ==> Clear(w.handlers[c], key)
  }

  lemma NextKeepsClear(w: World, e: Event, key: string, c: Conn)
    requires Possible(w, e) && e != Expire(key) && key in w.cool && key != "" && Outside(w, c, key)
    ensures key in Next(w, e).cool && Outside(Next(w, e), c, key)
  {
    match e {
      case Turn(d, g, s) => if d == c { TurnKeepsClear(w.handlers[c], g, key, w.cool); }
      case _ =>
    }
  }

  lemma {:induction false} StaysClear(w: World, run: seq<Event>, v: World, key: string, c: Conn)
    requires Happens(w, run, v) && Expire(key) !in run && key in w.cool && key != "" && Outside(w, c, key)
    ensures Outside(v, c, key)
    decreases |run|
  {
    if run != [] {
      assert run[0] in run && (forall e | e in run[1..] :: e in run);
      NextKeepsClear(w, run[0], key, c);
      StaysClear(Next(w, run[0]), run[1..], v, key, c);
    }
  }

  /**
   * After a spec of a stream was rejected, and until the cooldown of its name or user expires, in any
   * run at all: no connection that is new, or that neither streams under that name or for that user
   * nor is past the check of its policy for them, ever comes to stream under that name or for that
   * user, at any of its publish attempts.
   */
  lemma RejectedStaysOut(w: World, c: Conn, s: L.Session, run: seq<Event>, v: World, key: string, d: Conn)
    requires Possible(w, Turn(c, G.SpecReply(false), s))
    requires key != "" && (key == w.handlers[c].name || key == w.handlers[c].user)
    requires Happens(Next(w, Turn(c, G.SpecReply(false), s)), run, v) && Expire(key) !in run
    requires Outside(w, d, key) && d in v.handlers
    ensures v.handlers[d].published > 0 ==> v.handlers[d].name != key && v.handlers[d].user != key
  {
    var e := Turn(c, G.SpecReply(false), s);
    SpecKeepsOthers(w, c, s, key, d);
    StaysClear(Next(w, e), run, v, key, d);
  }

  lemma SpecKeepsOthers(w: World, c: Conn, s: L.Session, key: string, d: Conn)
    requires Possible(w, Turn(c, G.SpecReply(false), s)) && Outside(w, d, key)
    requires key != "" && (key == w.handlers[c].name || key == w.handlers[c].user)
    ensures var w' := Next(w, Turn(c, G.SpecReply(false), s)); key in w'.cool && Outside(w', d, key)
  {
    if d == c { SpecKeepsClear(w.handlers[c], false, key); }
  }
}
