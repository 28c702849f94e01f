/** Sessions granted to a gateway connection against sessions ended, in every run. */
module GatewaySessions {
  import opened Bytes
  import opened StreamNames
  import opened Gateway
  import opened GatewayRuns

  /** What was done for one attempt, and how many publishes succeeded in all. */
  datatype Tally = Tally(granted: nat, up: nat, released: nat, ended: nat, crashed: nat, successes: nat)

  function Tick(t: Tally, a: Act, k: nat): Tally {
    match a
    case Granted(j, _) => if j == k then t.(granted := t.granted + 1) else t
    case UpSet(j, _) => t.(up := if j == k then t.up + 1 else t.up, successes := t.successes + 1)
    case Released(j) => if j == k then t.(released := t.released + 1) else t
    case Unpublished(j) => if j == k then t.(ended := t.ended + 1) else t
    case Crashed(j) => if j == k then t.(crashed := t.crashed + 1) else t
    case _ => t
  }

  function TallyOf(log: Log, k: nat): Tally {
    match log
    case Nothing => Tally(0, 0, 0, 0, 0, 0)
    case Then(before, act) => Tick(TallyOf(before, k), act, k)
  }

  /** Attempt k was granted, and its session is not accounted for yet. */
  predicate Pending(h: Handler, k: nat) {
    (h.pc.DialWait? || h.pc.PublishWait?) && k == h.attempts
  }

  ghost predicate Accounted(h: Handler, k: nat, t: Tally) {
    && t.granted + t.released == t.ended + t.up + t.crashed + (if Pending(h, k) then 1 else 0)
    && t.crashed == (if h.crashed && k == h.attempts then 1 else 0)
    && (h.crashed ==> h.pc == Done && h.attempts > 0 && (k == h.attempts ==> t.granted == 1 && t.up == 0))
    && t.released == (if h.pc == Done && k == h.published && k > 0 then 1 else 0)
    && t.granted <= 1 && t.up <= t.granted
    && (t.granted > 0 ==> 0 < k <= h.attempts)
    && (k == h.attempts && (h.pc.PolicyWait? || h.pc.GateWait?) ==> t.granted == 0)
    && (Pending(h, k) ==> t.up == 0)
    && (t.up == 1 ==> k <= h.published)
    && (k == h.published && k > 0 ==> t.up == 1)
    && (h.published > 0 <==> h.drains > 0)
    && h.published <= h.attempts && (Publishing(h.pc) ==> h.published < h.attempts)
    && t.successes == h.drains
  }

  ghost predicate SessionInv(h: Handler, k: nat) {
    Accounted(h, k, TallyOf(h.log, k))
  }

  lemma ExitTally(h: Handler, k: nat)
    ensures var t := TallyOf(h.log, k);
            TallyOf(Exit(h).log, k) ==
              if h.published == k && k > 0 then t.(released := t.released + 1, ended := t.ended + 1) else t
  {
    if h.published > 0 {
      var log := Then(h.log, Released(h.published));
      assert TallyOf(log, k) == Tick(TallyOf(h.log, k), Released(h.published), k);
      assert TallyOf(Then(log, Unpublished(h.published)), k) == Tick(TallyOf(log, k), Unpublished(h.published), k);
    }
  }

  lemma ExitKeepsSessions(h: Handler, k: nat)
    requires SessionInv(h, k) && !h.pc.DialWait? && !h.pc.PublishWait? && h.pc != Done && !h.crashed
    ensures SessionInv(Exit(h), k)
  {
    ExitTally(h, k);
    var t := TallyOf(Exit(h).log, k);
    assert Accounted(h.(pc := Done), k, t);
  }

  lemma QuietKeepsSessions(h: Handler, a: Act, k: nat)
    requires SessionInv(h, k) && !a.Granted? && !a.UpSet? && !a.Released? && !a.Unpublished? && !a.Crashed?
    ensures SessionInv(Emit(h, a), k)
  {
  }

  lemma ForwardKeepsSessions(h: Handler, f: Frame, k: nat)
    requires SessionInv(h, k) && h.pc == Reading
    ensures SessionInv(Forward(h, f), k)
  {
    QuietKeepsSessions(h, Forwarded(f), k);
    ExitKeepsSessions(Emit(h, Forwarded(f)).(closed := true), k);
  }

  lemma ConnectKeepsSessions(h: Handler, stage: Stage, verify: VerifyVerdict, cool: set<string>, k: nat)
    requires SessionInv(h, k) && h.pc == Reading
    ensures SessionInv(OnConnect(h, stage, verify, cool), k)
  {
    var h1 := h.(sawConnect := true);
    ExitKeepsSessions(h1, k);
    if stage.Response? {
      QuietKeepsSessions(h1.(authed := true, user := stage.user), Verified(stage.user), k);
    }
  }

  lemma PublishKeepsSessions(h: Handler, p: PublishName, k: nat)
    requires SessionInv(h, k) && h.pc == Reading
    ensures SessionInv(OnPublish(h, p), k)
  {
  }

  lemma RecvKeepsSessions(h: Handler, m: Message, cool: set<string>, k: nat)
    requires SessionInv(h, k) && h.pc == Reading
    ensures SessionInv(OnRecv(h, m, cool), k)
  {
    match m {
      case Connect(stage, verify) => ConnectKeepsSessions(h, stage, verify, cool, k);
      case Publish(p) => PublishKeepsSessions(h, p, k);
      case Data(f) => ForwardKeepsSessions(h, f, k);
      case BadChunkSize => ExitKeepsSessions(h, k);
      case Other =>
    }
  }

  lemma PolicyKeepsSessions(h: Handler, v: PolicyVerdict, anon: string, cool: set<string>, folds: FoldTable, k: nat)
    requires SessionInv(h, k) && h.pc.PolicyWait?
    ensures SessionInv(OnPolicy(h, v, anon, cool, folds), k)
  {
    var a := Asked(h.attempts, AskOf(h, v, anon, cool, folds));
    QuietKeepsSessions(h, a, k);
    ExitKeepsSessions(Emit(h, a), k);
    QuietKeepsSessions(Emit(h, a), BadName(false, !h.closed), k);
    ExitKeepsSessions(Emit(Emit(h, a), BadName(false, !h.closed)), k);
  }

  lemma OnceKeepsSessions(h: Handler, k: nat)
    requires SessionInv(h, k)
    ensures SessionInv(WriteOnce(h), k)
  {
    if !h.once {
      QuietKeepsSessions(h.(once := true), BadName(true, !h.closed), k);
    }
  }

  lemma RefusalKeepsSessions(h: Handler, k: nat)
    requires SessionInv(h, k) && (h.pc.GateWait? || h.pc == Rejected)
    ensures SessionInv(Exit(WriteOnce(h).(closed := true)), k)
  {
    OnceKeepsSessions(h, k);
    ExitKeepsSessions(WriteOnce(h).(closed := true), k);
  }

  lemma CrashKeepsSessions(h: Handler, k: nat)
    requires SessionInv(h, k) && (h.pc.DialWait? || h.pc.PublishWait?)
    ensures SessionInv(Crash(h), k)
  {
    var h1 := Emit(h.(crashed := true), Crashed(h.attempts));
    ExitTally(h1, k);
    assert Accounted(h1.(pc := Done), k, TallyOf(Exit(h1).log, k));
  }

  lemma DialledKeepsSessions(h: Handler, dialled: Reply, k: nat)
    requires SessionInv(h, k) && h.pc.DialWait?
    ensures SessionInv(OnDialled(h, dialled), k)
  {
    match dialled {
      case Succeeded =>
      case Failed => AbortKeepsSessions(h, k);
      case Panicked => CrashKeepsSessions(h, k);
    }
  }

  lemma AnswerKeepsSessions(h: Handler, answer: Reply, k: nat)
    requires SessionInv(h, k) && h.pc.PublishWait?
    ensures SessionInv(OnAnswer(h, answer), k)
  {
    match answer {
      case Succeeded =>
      case Failed => AbortKeepsSessions(h, k);
      case Panicked => CrashKeepsSessions(h, k);
    }
  }

  lemma AbortKeepsSessions(h: Handler, k: nat)
    requires SessionInv(h, k) && (h.pc.DialWait? || h.pc.PublishWait?)
    ensures SessionInv(Abort(h), k)
  {
    var h1 := Emit(h, Unpublished(h.attempts));
    assert SessionInv(h1.(pc := Reading), k);
    ExitKeepsSessions(h1.(pc := Reading), k);
  }

  lemma GateKeepsSessions(h: Handler, allowed: bool, k: nat)
    requires SessionInv(h, k) && h.pc.GateWait?
    ensures SessionInv(OnGate(h, allowed), k)
  {
    if !allowed { RefusalKeepsSessions(h, k); }
  }

  lemma SpecKeepsSessions(h: Handler, allow: bool, k: nat)
    requires SessionInv(h, k) && h.pc.SpecWait?
    ensures SessionInv(OnSpec(h, allow), k)
  {
    var a := Judged(h.pc.frame, allow);
    QuietKeepsSessions(h, a, k);
    if allow {
      ForwardKeepsSessions(Emit(h, a).(pc := Reading), h.pc.frame, k);
    } else {
      QuietKeepsSessions(Emit(h, a).(pc := Rejected), Armed, k);
    }
  }

  lemma DeathKeepsSessions(h: Handler, k: nat)
    requires SessionInv(h, k)
    ensures SessionInv(WriteOnce(h).(deaths := h.deaths + 1), k)
  {
    OnceKeepsSessions(h, k);
  }

  lemma CloseKeepsSessions(h: Handler, e: Event, k: nat)
    requires SessionInv(h, k) && (e.CloseByDeath? || e.Killed?) && Enabled(h, e)
    ensures SessionInv(Next(h, e), k)
  {
    assert Next(h, e).log == h.log;
  }

  lemma ReplyKeepsSessions(h: Handler, e: Event, k: nat)
    requires SessionInv(h, k) && Enabled(h, e)
    requires e.PolicyReply? || e.GateReply? || e.DialReply? || e.PublishReply? || e.SpecReply?
    ensures SessionInv(Next(h, e), k)
  {
    match e {
      case PolicyReply(v, anon, cool, folds) => PolicyKeepsSessions(h, v, anon, cool, folds, k);
      case GateReply(allowed) => GateKeepsSessions(h, allowed, k);
      case DialReply(dialled) => DialledKeepsSessions(h, dialled, k);
      case PublishReply(answer) => AnswerKeepsSessions(h, answer, k);
      case SpecReply(allow) => SpecKeepsSessions(h, allow, k);
    }
  }

  lemma NextKeepsSessions(h: Handler, e: Event, k: nat)
    requires SessionInv(h, k) && Enabled(h, e)
    ensures SessionInv(Next(h, e), k)
  {
    match e {
      case Recv(m, cool) => RecvKeepsSessions(h, m, cool, k);
      case Refuse => RefusalKeepsSessions(h, k);
      case ReadEnd => ExitKeepsSessions(h, k);
      case Death => DeathKeepsSessions(h, k);
      case CloseByDeath => CloseKeepsSessions(h, e, k);
      case Killed => CloseKeepsSessions(h, e, k);
      case _ => ReplyKeepsSessions(h, e, k);
    }
  }

  lemma {:induction false} ReachesSessions(h: Handler, run: seq<Event>, t: Handler, k: nat)
    requires SessionInv(h, k) && Reaches(h, run, t)
    ensures SessionInv(t, k)
    decreases |run|
  {
    if run != [] {
      NextKeepsSessions(h, run[0], k);
      ReachesSessions(Next(h, run[0]), run[1..], t, k);
    }
  }

  lemma {:induction false} TwoSettings(log: Log, j: nat, k: nat)
    requires j != k
    ensures TallyOf(log, j).up + TallyOf(log, k).up <= TallyOf(log, k).successes
    ensures TallyOf(log, j).successes == TallyOf(log, k).successes
  {
    if log.Then? {
      TwoSettings(log.before, j, k);
    }
  }

  lemma {:induction false} AnotherSetting(log: Log, j: nat) returns (k: nat)
    requires TallyOf(log, j).up < TallyOf(log, j).successes
    ensures k != j && TallyOf(log, k).up > 0
  {
    if log.act.UpSet? && log.act.k != j {
      k := log.act.k;
    } else {
      k := AnotherSetting(log.before, j);
    }
  }

  ghost predicate EndedOnce(h: Handler) {
    forall k: nat :: TallyOf(h.log, k).ended == TallyOf(h.log, k).granted <= 1
  }

  /** Some granted attempt ended in a panic while its upstream was awaited. */
  predicate CrashedAny(log: Log) {
    log.Then? && (log.act.Crashed? || CrashedAny(log.before))
  }

  lemma {:induction false} CrashIsTallied(log: Log) returns (k: nat)
    requires CrashedAny(log)
    ensures TallyOf(log, k).crashed > 0
  {
    if log.act.Crashed? {
      k := log.act.k;
    } else {
      k := CrashIsTallied(log.before);
    }
  }

  lemma {:induction false} TalliedIsCrash(log: Log, k: nat)
    requires TallyOf(log, k).crashed > 0
    ensures CrashedAny(log)
  {
    if !log.act.Crashed? {
      TalliedIsCrash(log.before, k);
    }
  }

  /** In a finished run the sessions of one attempt come out even exactly when it was not left behind. */
  lemma EvenExactly(h: Handler, k: nat)
    requires SessionInv(h, k) && h.pc == Done
    ensures var t := TallyOf(h.log, k);
            && t.ended <= t.granted <= 1
            && (t.ended == t.granted <==> t.crashed == 0 && (t.up == 1 ==> k == h.published))
  {
  }

  /**
   * By the end of the handler, on every path, each granted session has been ended exactly once,
   * exactly when at most one publish of the connection succeeded and no granted attempt ended in a
   * panic of the upstream wait. No session is ever ended twice.
   */
  lemma GrantsEndOnceExactly(ip: string, run: seq<Event>, h: Handler)
    requires Reaches(Start(ip), run, h) && h.pc == Done
    ensures EndedOnce(h) <==> TallyOf(h.log, 0).successes <= 1 && !CrashedAny(h.log)
    ensures forall k: nat :: TallyOf(h.log, k).ended <= TallyOf(h.log, k).granted
  {
    var p := h.published;
    ReachesSessions(Start(ip), run, h, p);
    ReachesSessions(Start(ip), run, h, 0);
    forall k: nat
      ensures TallyOf(h.log, k).ended <= TallyOf(h.log, k).granted <= 1
      ensures h.drains <= 1 && !CrashedAny(h.log) ==> TallyOf(h.log, k).ended == TallyOf(h.log, k).granted
    {
      ReachesSessions(Start(ip), run, h, k);
      EvenExactly(h, k);
      if TallyOf(h.log, k).crashed > 0 { TalliedIsCrash(h.log, k); }
      if k != p { TwoSettings(h.log, k, p); }
    }
    if h.drains > 1 {
      var k := AnotherSetting(h.log, p);
      ReachesSessions(Start(ip), run, h, k);
      EvenExactly(h, k);
    }
    if CrashedAny(h.log) {
      var k := CrashIsTallied(h.log);
      ReachesSessions(Start(ip), run, h, k);
      EvenExactly(h, k);
    }
  }

  ghost predicate LastSet(log: Log, k: nat) {
    TallyOf(log, k).up > 0 && forall j: nat | j > k :: TallyOf(log, j).up == 0
  }

  /**
   * In every run the relay that was registered last is unregistered, once, when the handler ends, and
   * no other one ever is.
   */
  lemma OnlyLastRelayReleased(ip: string, run: seq<Event>, h: Handler, k: nat)
    requires Reaches(Start(ip), run, h)
    ensures TallyOf(h.log, k).released == if h.pc == Done && LastSet(h.log, k) then 1 else 0
  {
    var p := h.published;
    ReachesSessions(Start(ip), run, h, k);
    ReachesSessions(Start(ip), run, h, p);
    if k == p && k > 0 {
      forall j: nat | j > k ensures TallyOf(h.log, j).up == 0 { ReachesSessions(Start(ip), run, h, j); }
    }
  }

  /** Two publishes on one connection: when it ends, a granted session has not been ended. */
  lemma SecondPublishLeaksSession(ip: string) returns (run: seq<Event>, h: Handler)
    ensures Reaches(Start(ip), run, h) && h.pc == Done && h.attempts == 2 && !EndedOnce(h)
  {
    run, h := OnePublish(Start(ip), [], Start(ip));
    run, h := OnePublish(Start(ip), run, h);
    ReachesSessions(Start(ip), run, h, 0);
    var drains := h.drains;
    run, h := Further(Start(ip), run, h, ReadEnd);
    assert h.drains == drains == 2;
    ReachesSessions(Start(ip), run, h, 0);
    GrantsEndOnceExactly(ip, run, h);
  }

  /** One publish whose upstream wait panics, dialling or publishing: its session is never ended. */
  lemma PanicLeaksSession(ip: string, dialling: bool) returns (run: seq<Event>, h: Handler)
    ensures Reaches(Start(ip), run, h) && h.pc == Done && h.attempts == 1 && !EndedOnce(h)
    ensures run[|run| - 1..] == [if dialling then DialReply(Panicked) else PublishReply(Panicked)]
  {
    run, h := OneGrant(Start(ip), [], Start(ip));
    if !dialling {
      run, h := Further(Start(ip), run, h, DialReply(Succeeded));
    }
    ghost var e := if dialling then DialReply(Panicked) else PublishReply(Panicked);
    CrashIsLogged(h);
    run, h := Further(Start(ip), run, h, e);
    GrantsEndOnceExactly(ip, run, h);
  }

  lemma CrashIsLogged(h: Handler)
    requires h.published == 0
    ensures CrashedAny(Crash(h).log) && Crash(h).pc == Done && Crash(h).attempts == h.attempts
  {
  }
}
