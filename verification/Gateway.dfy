/**
 * One publisher's connection to the gateway (node/rtmp/server.go, HandleOBS): the handler's turns
 * between its waits, raced by the callbacks of its upstreams' drains. Every effect is logged, and
 * the log is what the properties speak about.
 */
module Gateway {
  import opened Bytes
  import opened StreamNames

  // ---- what comes in ----

  /** The control plane's answers. */
  datatype PolicyVerdict = PolicyVerdict(
    unreachable: bool, publishKey: bool, banned: bool, windowOpen: bool, requireAccountAuth: bool)

  datatype VerifyVerdict = VerifyVerdict(allow: bool, known: bool)

  /** What a connect's query asks for. */
  datatype Stage = Response(user: string) | Challenge(user: string) | Fresh

  function StageOf(qs: map<string, string>): Stage {
    var user := if "user" in qs then qs["user"] else "";
    if "response" in qs then Response(user) else if "authmod" in qs then Challenge(user) else Fresh
  }

  /**
   * Something to forward; `spec` says whether it is metadata that parses as a declared spec. A
   * media write can fail; the failure of a metadata command is ignored.
   */
  datatype Frame = Media(spec: bool, writeOk: bool) | SetDataFrame(spec: bool)

  /** `stage` comes from the app field of a connect, `p` from the name of a publish. */
  datatype Message =
    | Connect(stage: Stage, verify: VerifyVerdict)
    | Publish(p: PublishName)
    | Data(frame: Frame)
    | BadChunkSize        // a chunk size too short to read: the handler panics
    | Other

  /** What comes of dialling the upstream, or of publishing to it. */
  datatype Reply = Succeeded | Failed | Panicked

  datatype Event =
    | Recv(m: Message, cool: set<string>)  // `cool` are the keys in cooldown
    | PolicyReply(verdict: PolicyVerdict, anon: string, cool: set<string>, folds: FoldTable)
    | GateReply(allowed: bool)
    | DialReply(dialled: Reply)
    | PublishReply(answer: Reply)
    | SpecReply(allow: bool)
    | Refuse                               // the rest of a spec rejection
    | ReadEnd
    | Death                                // an upstream's drain reports its death
    | CloseByDeath                         // and then closes the connection
    | Killed                               // KillStream closes the connection, or the accept loop a left one

  // ---- what goes out ----

  /** Publish attempts are numbered from 1; `k` says which attempt an act is for. */
  datatype Act =
    | Verified(user: string)
    | Asked(k: nat, ask: Ask)
    | Granted(k: nat, name: string)
    | UpSet(k: nat, name: string) // the upstream is set, the relay registered, the publish accepted
    | Judged(frame: Frame, allow: bool)
    | Forwarded(frame: Frame)
    | Armed                       // the cooldown, for the name and the user
    | BadName(viaOnce: bool, arrives: bool)  // it does while the connection is open
    | Released(k: nat)            // the relay is unregistered
    | Unpublished(k: nat)
    | Crashed(k: nat)             // a panic while the upstream was awaited

  /** A policy question with its answer, and what was found in cooldown after it. */
  datatype Ask = Ask(
    explicit: string, candidate: string, final: string, authed: bool, user: string,
    verdict: PolicyVerdict, cooling: bool, folds: FoldTable)

  /** Everything done so far; the last act is outermost. */
  datatype Log = Nothing | Then(before: Log, act: Act)

  datatype Pc =
    | Reading
    | PolicyWait(p: PublishName, candidate: string)
    | GateWait(final: string)
    | DialWait(final: string)
    | PublishWait(final: string)
    | SpecWait(frame: Frame)
    | Rejected
    | Done

  /**
   * The handler's locals. `published` is the attempt that succeeded last (0 for none) and `name`
   * the stream name of it; `drains` counts the upstreams set, each with a drain; `deaths` and
   * `closes` how many of those have reported and closed; `attempts` the publish commands;
   * `crashed` says that the handler ended in a panic while a granted session had no relay yet.
   */
  datatype Handler = Handler(
    pc: Pc, sawConnect: bool, authed: bool, user: string, published: nat, name: string, once: bool, closed: bool, crashed: bool,
    drains: nat, deaths: nat, closes: nat, attempts: nat, ip: string, log: Log)

  function Start(ip: string): Handler {
    Handler(Reading, false, false, "", 0, "", false, false, false, 0, 0, 0, 0, ip, Nothing)
  }

  function Emit(h: Handler, a: Act): Handler {
    h.(log := Then(h.log, a))
  }

  /** Leaving the handler runs its deferred cleanup. */
  function Exit(h: Handler): Handler {
    if h.published == 0 then h.(pc := Done)
    else h.(pc := Done, log := Then(Then(h.log, Released(h.published)), Unpublished(h.published)))
  }

  /** The one BadName that the gate, the spec verdict and the drains share. */
  function WriteOnce(h: Handler): Handler {
    if h.once then h else Emit(h.(once := true), BadName(true, !h.closed))
  }

  predicate Cool(cool: set<string>, key: string) {
    key != "" && key in cool
  }

  function OnConnect(h: Handler, stage: Stage, verify: VerifyVerdict, cool: set<string>): Handler {
    if h.sawConnect then h
    else
      var h1 := h.(sawConnect := true);
      match stage
      case Response(user) =>
        if Cool(cool, user) then Exit(h1)
        else if verify.allow then Emit(h1.(authed := true, user := user), Verified(user))
        else if verify.known then Exit(h1)
        else h1
      case Challenge(user) => if user == "" then h1 else Exit(h1)
      case Fresh => Exit(h1)
  }

  function CandidateName(explicit: string, authed: bool, user: string, ip: string): string {
    SafeName(if explicit != "" then explicit else if authed then user else ip)
  }

  function OnPublish(h: Handler, p: PublishName): Handler {
    h.(pc := PolicyWait(p, CandidateName(p.explicit, h.authed, h.user, h.ip)), attempts := h.attempts + 1)
  }

  function Forward(h: Handler, f: Frame): Handler {
    if h.drains == 0 then h
    else
      var h1 := Emit(h, Forwarded(f));
      if f.Media? && !f.writeOk then Exit(h1.(closed := true)) else h1
  }

  function OnData(h: Handler, f: Frame): Handler {
    if f.spec && h.published != 0 then h.(pc := SpecWait(f)) else Forward(h, f)
  }

  function OnRecv(h: Handler, m: Message, cool: set<string>): Handler {
    match m
    case Connect(stage, verify) => OnConnect(h, stage, verify, cool)
    case Publish(p) => OnPublish(h, p)
    case Data(f) => OnData(h, f)
    case BadChunkSize => Exit(h)
    case Other => h
  }

  /** Runes outside ASCII that fold into it: the long s and the Kelvin sign. */
  const LONG_S: char := '\U{017F}'
  const KELVIN: char := '\U{212A}'

  predicate Ascii7(c: char) {
    c as int < 0x80
  }

  /** How the other runes outside ASCII fold; never into ASCII. */
  type FoldTable = map<char, char>

  /** Simple case folding of one rune. */
  function FoldRune(c: char, folds: FoldTable): char {
    if 'A' <= c <= 'Z' then (c as int + 32) as char
    else if c == LONG_S then 's'
    else if c == KELVIN then 'k'
    else if !Ascii7(c) && c in folds && !Ascii7(folds[c]) then folds[c]
    else c
  }

  predicate EqualFold(a: string, b: string, folds: FoldTable) {
    |a| == |b| && forall i | 0 <= i < |a| :: FoldRune(a[i], folds) == FoldRune(b[i], folds)
  }

  /** Known key, not banned, window open, and, where an account is required, verified and asked for under a name equal up to folding. */
  predicate Admits(v: PolicyVerdict, explicit: string, authed: bool, user: string, folds: FoldTable) {
    && !v.unreachable && v.publishKey && !v.banned && v.windowOpen
    && (v.requireAccountAuth ==> authed && (explicit == "" || EqualFold(user, explicit, folds)))
  }

  predicate Passes(a: Ask) {
    Admits(a.verdict, a.explicit, a.authed, a.user, a.folds) && !a.cooling
  }

  function AskOf(h: Handler, v: PolicyVerdict, anon: string, cool: set<string>, folds: FoldTable): Ask
    requires h.pc.PolicyWait?
  {
    var final := if h.pc.candidate == "" then anon else h.pc.candidate;
    Ask(h.pc.p.explicit, h.pc.candidate, final, h.authed, h.user, v, Cool(cool, final) || Cool(cool, h.user), folds)
  }

  function OnPolicy(h: Handler, v: PolicyVerdict, anon: string, cool: set<string>, folds: FoldTable): Handler
    requires h.pc.PolicyWait?
  {
    var ask := AskOf(h, v, anon, cool, folds);
    Decided(Emit(h, Asked(h.attempts, ask)), ask)
  }

  /** Unreachable closes without a word, a failed check writes its BadName past the once. */
  function Decided(h: Handler, ask: Ask): Handler {
    if ask.verdict.unreachable then Exit(h)
    else if !Passes(ask) then Exit(Emit(h, BadName(false, !h.closed)))
    else h.(pc := GateWait(ask.final))
  }

  function OnGate(h: Handler, allowed: bool): Handler
    requires h.pc.GateWait?
  {
    if !allowed then Exit(WriteOnce(h).(closed := true))
    else Emit(h.(pc := DialWait(h.pc.final)), Granted(h.attempts, h.pc.final))
  }

  /** The upstream could not be dialled, or refused the publish: the granted session is ended at once. */
  function Abort(h: Handler): Handler {
    Exit(Emit(h, Unpublished(h.attempts)))
  }

  /** A panic past the gate: only the deferred cleanup runs, and that knows nothing of this session. */
  function Crash(h: Handler): Handler {
    Exit(Emit(h.(crashed := true), Crashed(h.attempts)))
  }

  function OnDialled(h: Handler, dialled: Reply): Handler
    requires h.pc.DialWait?
  {
    match dialled
    case Succeeded => h.(pc := PublishWait(h.pc.final))
    case Failed => Abort(h)
    case Panicked => Crash(h)
  }

  function OnAnswer(h: Handler, answer: Reply): Handler
    requires h.pc.PublishWait?
  {
    match answer
    case Succeeded => OnPublished(h)
    case Failed => Abort(h)
    case Panicked => Crash(h)
  }

  function OnPublished(h: Handler): Handler
    requires h.pc.PublishWait?
  {
    Emit(h.(pc := Reading, published := h.attempts, name := h.pc.final, drains := h.drains + 1), UpSet(h.attempts, h.pc.final))
  }

  function OnSpec(h: Handler, allow: bool): Handler
    requires h.pc.SpecWait?
  {
    var h1 := Emit(h, Judged(h.pc.frame, allow));
    if allow then Forward(h1.(pc := Reading), h.pc.frame) else Emit(h1.(pc := Rejected), Armed)
  }

  /** Between a publish command and the answer of the upstream. */
  predicate Publishing(pc: Pc) {
    pc.PolicyWait? || pc.GateWait? || pc.DialWait? || pc.PublishWait?
  }

  predicate Enabled(h: Handler, e: Event) {
    match e
    case Recv(_, _) => h.pc == Reading
    case PolicyReply(_, anon, _, _) => h.pc.PolicyWait? && anon != ""
    case GateReply(_) => h.pc.GateWait?
    case DialReply(_) => h.pc.DialWait?
    case PublishReply(_) => h.pc.PublishWait?
    case SpecReply(_) => h.pc.SpecWait?
    case Refuse => h.pc == Rejected
    case ReadEnd => h.pc == Reading
    case Death => h.deaths < h.drains
    case CloseByDeath => h.closes < h.deaths
    case Killed => true
  }

  function Next(h: Handler, e: Event): Handler
    requires Enabled(h, e)
  {
    match e
    case Recv(m, cool) => OnRecv(h, m, cool)
    case PolicyReply(v, anon, cool, folds) => OnPolicy(h, v, anon, cool, folds)
    case GateReply(allowed) => OnGate(h, allowed)
    case DialReply(dialled) => OnDialled(h, dialled)
    case PublishReply(answer) => OnAnswer(h, answer)
    case SpecReply(allow) => OnSpec(h, allow)
    case Refuse => Exit(WriteOnce(h).(closed := true))
    case ReadEnd => Exit(h)
    case Death => WriteOnce(h).(deaths := h.deaths + 1)
    case CloseByDeath => h.(closes := h.closes + 1, closed := true)
    case Killed => h.(closed := true)
  }

  ghost predicate Reaches(h: Handler, run: seq<Event>, t: Handler)
    decreases |run|
  {
    if run == [] then t == h else Enabled(h, run[0]) && Reaches(Next(h, run[0]), run[1..], t)
  }
}
