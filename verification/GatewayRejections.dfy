/** How often BadName is written to a gateway connection, and how often it arrives, in every run. */
module GatewayRejections {
  import opened Bytes
  import opened StreamNames
  import opened Gateway
  import opened GatewayRuns

  function BadNames(log: Log, viaOnce: bool): nat {
    match log
    case Nothing => 0
    case Then(before, act) => BadNames(before, viaOnce) + if act.BadName? && act.viaOnce == viaOnce then 1 else 0
  }

  /** Some attempt got an answer from the policy that did not let it pass. */
  predicate Refused(log: Log) {
    && log.Then?
    && ((log.act.Asked? && !log.act.ask.verdict.unreachable && !Passes(log.act.ask)) || Refused(log.before))
  }

  ghost predicate BadNameInv(h: Handler) {
    var direct := BadNames(h.log, false);
    && BadNames(h.log, true) == (if h.once then 1 else 0)
    && direct == (if Refused(h.log) then 1 else 0)
    && h.deaths <= h.drains
    && h.attempts >= h.drains + (if Publishing(h.pc) then 1 else 0)
    && (h.deaths > 0 ==> h.once)
    && (h.once && h.deaths == 0 ==> h.pc == Done && !Refused(h.log))
    && (Refused(h.log) ==> h.pc == Done && h.attempts >= h.drains + 1)
  }

  lemma ExitBadNames(h: Handler, viaOnce: bool)
    ensures BadNames(Exit(h).log, viaOnce) == BadNames(h.log, viaOnce) && Refused(Exit(h).log) == Refused(h.log)
  {
  }

  lemma ExitKeepsBadName(h: Handler)
    requires BadNameInv(h.(pc := Done))
    ensures BadNameInv(Exit(h))
  {
    ExitBadNames(h, true);
    ExitBadNames(h, false);
  }

  lemma PolicyKeepsBadName(h: Handler, v: PolicyVerdict, anon: string, cool: set<string>, folds: FoldTable)
    requires BadNameInv(h) && h.pc.PolicyWait?
    ensures BadNameInv(OnPolicy(h, v, anon, cool, folds))
  {
    var h1 := Emit(h, Asked(h.attempts, AskOf(h, v, anon, cool, folds)));
    if v.unreachable {
      ExitKeepsBadName(h1);
    } else if !Passes(AskOf(h, v, anon, cool, folds)) {
      ExitKeepsBadName(Emit(h1, BadName(false, !h.closed)));
    }
  }

  lemma GateKeepsBadName(h: Handler, allowed: bool)
    requires BadNameInv(h) && h.pc.GateWait?
    ensures BadNameInv(OnGate(h, allowed))
  {
    ExitKeepsBadName(WriteOnce(h).(closed := true));
  }

  lemma EndingKeepsBadName(h: Handler)
    requires BadNameInv(h) && Publishing(h.pc)
    ensures BadNameInv(Abort(h)) && BadNameInv(Crash(h))
  {
    ExitKeepsBadName(Emit(h, Unpublished(h.attempts)));
    ExitKeepsBadName(Emit(h.(crashed := true), Crashed(h.attempts)));
  }

  lemma RefusalKeepsBadName(h: Handler)
    requires BadNameInv(h) && h.pc == Rejected
    ensures BadNameInv(Exit(WriteOnce(h).(closed := true)))
  {
    ExitKeepsBadName(WriteOnce(h).(closed := true));
  }

  lemma DeathKeepsBadName(h: Handler)
    requires BadNameInv(h) && h.deaths < h.drains
    ensures BadNameInv(WriteOnce(h).(deaths := h.deaths + 1))
  {
  }

  lemma ForwardKeepsBadName(h: Handler, f: Frame)
    requires BadNameInv(h) && h.pc == Reading
    ensures BadNameInv(Forward(h, f))
  {
    ExitKeepsBadName(Emit(h, Forwarded(f)).(closed := true));
  }

  lemma ConnectKeepsBadName(h: Handler, stage: Stage, verify: VerifyVerdict, cool: set<string>)
    requires BadNameInv(h) && h.pc == Reading
    ensures BadNameInv(OnConnect(h, stage, verify, cool))
  {
    ExitKeepsBadName(h.(sawConnect := true));
  }

  lemma DataKeepsBadName(h: Handler, f: Frame)
    requires BadNameInv(h) && h.pc == Reading
    ensures BadNameInv(OnData(h, f))
  {
    ForwardKeepsBadName(h, f);
  }

  lemma PublishKeepsBadName(h: Handler, p: PublishName)
    requires BadNameInv(h) && h.pc == Reading
    ensures BadNameInv(OnPublish(h, p))
  {
  }

  lemma RecvKeepsBadName(h: Handler, m: Message, cool: set<string>)
    requires BadNameInv(h) && h.pc == Reading
    ensures BadNameInv(OnRecv(h, m, cool))
  {
    match m {
      case Connect(stage, verify) => ConnectKeepsBadName(h, stage, verify, cool);
      case Publish(p) => PublishKeepsBadName(h, p);
      case Data(f) => DataKeepsBadName(h, f);
      case BadChunkSize => ExitKeepsBadName(h);
      case Other =>
    }
  }

  lemma SpecKeepsBadName(h: Handler, allow: bool)
    requires BadNameInv(h) && h.pc.SpecWait?
    ensures BadNameInv(OnSpec(h, allow))
  {
    ForwardKeepsBadName(Emit(h, Judged(h.pc.frame, allow)).(pc := Reading), h.pc.frame);
  }

  lemma CloseKeepsBadName(h: Handler, closes: nat)
    requires BadNameInv(h)
    ensures BadNameInv(h.(closed := true)) && BadNameInv(h.(closes := closes, closed := true))
  {
  }

  /** Answers to a publish. */
  lemma AnswerKeepsBadName(h: Handler, e: Event)
    requires BadNameInv(h) && Enabled(h, e) && Publishing(h.pc) && (e.PolicyReply? || e.GateReply? || e.DialReply? || e.PublishReply?)
    ensures BadNameInv(Next(h, e))
  {
    match e {
      case PolicyReply(v, anon, cool, folds) => PolicyKeepsBadName(h, v, anon, cool, folds);
      case GateReply(allowed) => GateKeepsBadName(h, allowed);
      case DialReply(_) => EndingKeepsBadName(h);
      case PublishReply(_) => EndingKeepsBadName(h);
    }
  }

  lemma NextKeepsBadName(h: Handler, e: Event)
    requires BadNameInv(h) && Enabled(h, e)
    ensures BadNameInv(Next(h, e))
  {
    match e {
      case Recv(m, cool) => RecvKeepsBadName(h, m, cool);
      case SpecReply(allow) => SpecKeepsBadName(h, allow);
      case Refuse => RefusalKeepsBadName(h);
      case ReadEnd => ExitKeepsBadName(h);
      case Death => DeathKeepsBadName(h);
      case CloseByDeath => CloseKeepsBadName(h, h.closes + 1);
      case Killed => CloseKeepsBadName(h, 0);
      case _ => AnswerKeepsBadName(h, e);
    }
  }

  lemma {:induction false} ReachesBadName(h: Handler, run: seq<Event>, t: Handler)
    requires BadNameInv(h) && Reaches(h, run, t)
    ensures BadNameInv(t)
    decreases |run|
  {
    if run != [] {
      NextKeepsBadName(h, run[0]);
      ReachesBadName(Next(h, run[0]), run[1..], t);
    }
  }

  /**
   * In every run, whatever the drains race with: BadName is never written more than twice, and twice
   * exactly when the policy refused an attempt and a drain reported a death, which takes two attempts.
   */
  lemma TwoBadNamesExactly(ip: string, run: seq<Event>, h: Handler)
    requires Reaches(Start(ip), run, h)
    ensures BadNames(h.log, true) + BadNames(h.log, false) <= 2
    ensures BadNames(h.log, true) + BadNames(h.log, false) == 2 <==> Refused(h.log) && h.deaths > 0
    ensures Refused(h.log) && h.deaths > 0 ==> h.attempts >= 2
  {
    ReachesBadName(Start(ip), run, h);
  }

  lemma RefusedIsLogged(h: Handler, ask: Ask)
    requires !ask.verdict.unreachable && !Passes(ask) && h.log.Then? && h.log.act == Asked(h.attempts, ask)
    ensures Refused(Decided(h, ask).log) && Decided(h, ask).drains == h.drains && Decided(h, ask).deaths == h.deaths
  {
    assert Refused(Emit(h, BadName(false, !h.closed)).log);
    ExitBadNames(Emit(h, BadName(false, !h.closed)), false);
  }

  lemma UnknownKeyIsRefused(h: Handler, anon: string)
    requires h.pc.PolicyWait?
    ensures var t := OnPolicy(h, KEY_UNKNOWN, anon, {}, map[]);
            Refused(t.log) && t.drains == h.drains && t.deaths == h.deaths
  {
    var ask := AskOf(h, KEY_UNKNOWN, anon, {}, map[]);
    RefusedIsLogged(Emit(h, Asked(h.attempts, ask)), ask);
  }

  // ---- what arrives ----

  function Arrived(log: Log, viaOnce: bool): nat {
    match log
    case Nothing => 0
    case Then(before, act) => Arrived(before, viaOnce) + if act == BadName(viaOnce, true) then 1 else 0
  }

  /** At this point the policy refuses an attempt, and the connection is open. */
  predicate RefusesOpen(h: Handler, e: Event) {
    && e.PolicyReply? && h.pc.PolicyWait? && !h.closed && !e.verdict.unreachable
    && !Passes(AskOf(h, e.verdict, e.anon, e.cool, e.folds))
  }

  /** At this point a drain reports a death, and the connection is open. */
  predicate DiesOpen(h: Handler, e: Event) {
    e == Death && !h.closed
  }

  ghost predicate RefusedOpen(h: Handler, run: seq<Event>)
    decreases |run|
  {
    run != [] && Enabled(h, run[0]) && (RefusesOpen(h, run[0]) || RefusedOpen(Next(h, run[0]), run[1..]))
  }

  ghost predicate DiedOpen(h: Handler, run: seq<Event>)
    decreases |run|
  {
    run != [] && Enabled(h, run[0]) && (DiesOpen(h, run[0]) || DiedOpen(Next(h, run[0]), run[1..]))
  }

  /** `refused` and `died` say what has happened so far on the open connection. */
  ghost predicate ArrivalInv(h: Handler, refused: bool, died: bool) {
    var shared := Arrived(h.log, true);
    && Arrived(h.log, false) == (if refused then 1 else 0)
    && (refused ==> h.pc == Done)
    && shared <= 1 && (shared > 0 ==> h.once) && (died ==> shared == 1)
    && (h.once && !h.closed ==> died)
    && (shared == 1 && !died ==> h.pc == Done && h.closed && !refused)
  }

  lemma ExitArrived(h: Handler)
    ensures Arrived(Exit(h).log, true) == Arrived(h.log, true) && Arrived(Exit(h).log, false) == Arrived(h.log, false)
  {
  }

  lemma ExitKeepsArrivals(h: Handler, refused: bool, died: bool)
    requires ArrivalInv(h.(pc := Done), refused, died)
    ensures ArrivalInv(Exit(h), refused, died)
  {
    ExitArrived(h);
  }

  lemma QuietKeepsArrivals(h: Handler, a: Act, refused: bool, died: bool)
    requires ArrivalInv(h, refused, died) && !a.BadName?
    ensures ArrivalInv(Emit(h, a), refused, died)
  {
  }

  lemma PolicyKeepsArrivals(h: Handler, e: Event, refused: bool, died: bool)
    requires ArrivalInv(h, refused, died) && e.PolicyReply? && Enabled(h, e)
    ensures ArrivalInv(Next(h, e), refused || RefusesOpen(h, e), died)
  {
    var ask := AskOf(h, e.verdict, e.anon, e.cool, e.folds);
    var h1 := Emit(h, Asked(h.attempts, ask));
    QuietKeepsArrivals(h, Asked(h.attempts, ask), refused, died);
    if ask.verdict.unreachable {
      ExitKeepsArrivals(h1, refused, died);
    } else if !Passes(ask) {
      ExitKeepsArrivals(Emit(h1, BadName(false, !h.closed)), refused || RefusesOpen(h, e), died);
    }
  }

  lemma RejectionKeepsArrivals(h: Handler, refused: bool, died: bool)
    requires ArrivalInv(h, refused, died) && (h.pc.GateWait? || h.pc == Rejected)
    ensures ArrivalInv(Exit(WriteOnce(h).(closed := true)), refused, died)
  {
    ExitKeepsArrivals(WriteOnce(h).(closed := true), refused, died);
  }

  lemma EndingKeepsArrivals(h: Handler, refused: bool, died: bool)
    requires ArrivalInv(h, refused, died)
    ensures ArrivalInv(Abort(h), refused, died) && ArrivalInv(Crash(h), refused, died)
  {
    QuietKeepsArrivals(h, Unpublished(h.attempts), refused, died);
    ExitKeepsArrivals(Emit(h, Unpublished(h.attempts)), refused, died);
    QuietKeepsArrivals(h.(crashed := true), Crashed(h.attempts), refused, died);
    ExitKeepsArrivals(Emit(h.(crashed := true), Crashed(h.attempts)), refused, died);
  }

  lemma ForwardKeepsArrivals(h: Handler, f: Frame, refused: bool, died: bool)
    requires ArrivalInv(h, refused, died) && h.pc == Reading
    ensures ArrivalInv(Forward(h, f), refused, died)
  {
    QuietKeepsArrivals(h, Forwarded(f), refused, died);
    ExitKeepsArrivals(Emit(h, Forwarded(f)).(closed := true), refused, died);
  }

  lemma ConnectKeepsArrivals(h: Handler, stage: Stage, verify: VerifyVerdict, cool: set<string>, refused: bool, died: bool)
    requires ArrivalInv(h, refused, died) && h.pc == Reading
    ensures ArrivalInv(OnConnect(h, stage, verify, cool), refused, died)
  {
    var h1 := h.(sawConnect := true);
    ExitKeepsArrivals(h1, refused, died);
    if stage.Response? {
      QuietKeepsArrivals(h1.(authed := true, user := stage.user), Verified(stage.user), refused, died);
    }
  }

  lemma RecvKeepsArrivals(h: Handler, m: Message, cool: set<string>, refused: bool, died: bool)
    requires ArrivalInv(h, refused, died) && h.pc == Reading
    ensures ArrivalInv(OnRecv(h, m, cool), refused, died)
  {
    match m {
      case Connect(stage, verify) => ConnectKeepsArrivals(h, stage, verify, cool, refused, died);
      case Publish(p) =>
      case Data(f) => ForwardKeepsArrivals(h, f, refused, died);
      case BadChunkSize => ExitKeepsArrivals(h, refused, died);
      case Other =>
    }
  }

  lemma SpecKeepsArrivals(h: Handler, allow: bool, refused: bool, died: bool)
    requires ArrivalInv(h, refused, died) && h.pc.SpecWait?
    ensures ArrivalInv(OnSpec(h, allow), refused, died)
  {
    var a := Judged(h.pc.frame, allow);
    QuietKeepsArrivals(h, a, refused, died);
    if allow {
      ForwardKeepsArrivals(Emit(h, a).(pc := Reading), h.pc.frame, refused, died);
    } else {
      QuietKeepsArrivals(Emit(h, a).(pc := Rejected), Armed, refused, died);
    }
  }

  lemma GateKeepsArrivals(h: Handler, allowed: bool, refused: bool, died: bool)
    requires ArrivalInv(h, refused, died) && h.pc.GateWait?
    ensures ArrivalInv(OnGate(h, allowed), refused, died)
  {
    if allowed {
      QuietKeepsArrivals(h.(pc := DialWait(h.pc.final)), Granted(h.attempts, h.pc.final), refused, died);
    } else {
      RejectionKeepsArrivals(h, refused, died);
    }
  }

  lemma AnswerKeepsArrivals(h: Handler, e: Event, refused: bool, died: bool)
    requires ArrivalInv(h, refused, died) && Enabled(h, e) && (e.GateReply? || e.DialReply? || e.PublishReply?)
    ensures ArrivalInv(Next(h, e), refused, died)
  {
    match e {
      case GateReply(allowed) => GateKeepsArrivals(h, allowed, refused, died);
      case DialReply(_) => EndingKeepsArrivals(h, refused, died);
      case PublishReply(_) => EndingKeepsArrivals(h, refused, died);
    }
  }

  lemma DeathKeepsArrivals(h: Handler, refused: bool, died: bool)
    requires ArrivalInv(h, refused, died) && Enabled(h, Death)
    ensures ArrivalInv(Next(h, Death), refused, died || !h.closed)
  {
  }

  lemma CloseKeepsArrivals(h: Handler, e: Event, refused: bool, died: bool)
    requires ArrivalInv(h, refused, died) && (e.CloseByDeath? || e.Killed?) && Enabled(h, e)
    ensures ArrivalInv(Next(h, e), refused, died)
  {
    assert Next(h, e).log == h.log;
  }

  /** Whatever is neither the policy's answer nor a death. */
  lemma OtherKeepsArrivals(h: Handler, e: Event, refused: bool, died: bool)
    requires ArrivalInv(h, refused, died) && Enabled(h, e) && !e.PolicyReply? && !e.Death?
    ensures ArrivalInv(Next(h, e), refused, died)
  {
    match e {
      case Recv(m, cool) => RecvKeepsArrivals(h, m, cool, refused, died);
      case SpecReply(allow) => SpecKeepsArrivals(h, allow, refused, died);
      case Refuse => RejectionKeepsArrivals(h, refused, died);
      case ReadEnd => ExitKeepsArrivals(h, refused, died);
      case CloseByDeath => CloseKeepsArrivals(h, e, refused, died);
      case Killed => CloseKeepsArrivals(h, e, refused, died);
      case _ => AnswerKeepsArrivals(h, e, refused, died);
    }
  }

  lemma NextKeepsArrivals(h: Handler, e: Event, refused: bool, died: bool)
    requires ArrivalInv(h, refused, died) && Enabled(h, e)
    ensures ArrivalInv(Next(h, e), refused || RefusesOpen(h, e), died || DiesOpen(h, e))
  {
    match e {
      case PolicyReply(_, _, _, _) => PolicyKeepsArrivals(h, e, refused, died);
      case Death => DeathKeepsArrivals(h, refused, died);
      case _ => OtherKeepsArrivals(h, e, refused, died);
    }
  }

  lemma {:induction false} ReachesArrivals(h: Handler, run: seq<Event>, t: Handler, refused: bool, died: bool)
    requires ArrivalInv(h, refused, died) && Reaches(h, run, t)
    ensures ArrivalInv(t, refused || RefusedOpen(h, run), died || DiedOpen(h, run))
    decreases |run|
  {
    if run != [] {
      var e := run[0];
      NextKeepsArrivals(h, e, refused, died);
      ReachesArrivals(Next(h, e), run[1..], t, refused || RefusesOpen(h, e), died || DiesOpen(h, e));
    }
  }

  /**
   * What is written on a closed connection does not arrive. In every run at most two BadNames do,
   * and two exactly when, with the connection open, the policy refused an attempt and, before or
   * after that, a drain reported a death.
   */
  lemma TwoBadNamesArriveExactly(ip: string, run: seq<Event>, h: Handler)
    requires Reaches(Start(ip), run, h)
    ensures Arrived(h.log, true) + Arrived(h.log, false) <= 2
    ensures Arrived(h.log, true) + Arrived(h.log, false) == 2 <==>
            RefusedOpen(Start(ip), run) && DiedOpen(Start(ip), run)
  {
    ReachesArrivals(Start(ip), run, h, false, false);
  }

  lemma UnknownKeyArrives(h: Handler)
    requires h.pc.PolicyWait? && !h.closed
    ensures var t := OnPolicy(h, KEY_UNKNOWN, "anon", {}, map[]);
            Arrived(t.log, true) == Arrived(h.log, true) && Arrived(t.log, false) == Arrived(h.log, false) + 1
  {
    var ask := AskOf(h, KEY_UNKNOWN, "anon", {}, map[]);
    assert !Passes(ask);
    ExitArrived(Emit(Emit(h, Asked(h.attempts, ask)), BadName(false, true)));
  }

  lemma FirstDeathArrives(h: Handler)
    requires !h.closed && !h.once && Enabled(h, Death)
    ensures var t := Next(h, Death);
            Arrived(t.log, true) == Arrived(h.log, true) + 1 && Arrived(t.log, false) == Arrived(h.log, false)
  {
  }

  /** A publish, the death of its upstream, then a publish with an unknown key: two BadNames arrive. */
  lemma SecondPublishCanEarnTwoBadNames(ip: string) returns (run: seq<Event>, h: Handler)
    ensures Reaches(Start(ip), run, h) && Arrived(h.log, true) == 1 && Arrived(h.log, false) == 1
  {
    run, h := OnePublish(Start(ip), [], Start(ip));
    ReachesBadName(Start(ip), run, h);
    ReachesArrivals(Start(ip), run, h, false, false);
    FirstDeathArrives(h);
    run, h := Further(Start(ip), run, h, Death);
    run, h := Further(Start(ip), run, h, Recv(Publish(PublishName("", "bad")), {}));
    UnknownKeyArrives(h);
    run, h := Further(Start(ip), run, h, PolicyReply(KEY_UNKNOWN, "anon", {}, map[]));
    ReachesArrivals(Start(ip), run, h, false, false);
  }
}
