/** What ends a gateway connection's handler, and what the publisher is told of it, in every run. */
module GatewayEndings {
  import opened Bytes
  import opened StreamNames
  import opened Gateway
  import opened GatewayCauses
  import opened GatewayAccounts
  import opened GatewayRejections

  // ---- what ends it ----

  /** A media write that fails with an upstream there. */
  predicate WriteFails(h: Handler, f: Frame) {
    h.drains > 0 && f.Media? && !f.writeOk
  }

  /** The messages that end a handler: a dismissal, a chunk size it cannot read, a write that fails. */
  predicate MessageEnds(h: Handler, e: Event) {
    && e.Recv?
    && match e.m
       case Connect(_, _) => !h.sawConnect && Dismisses(e)
       case Data(f) => WriteFails(h, f) && !(f.spec && h.published != 0)
       case BadChunkSize => true
       case _ => false
  }

  /** The events that end a handler that has not ended. */
  predicate Ends(h: Handler, e: Event) {
    match e
    case Recv(_, _) => MessageEnds(h, e)
    case PolicyReply(_, anon, _, _) =>
      h.pc.PolicyWait? && !Welcome(h, e, if h.pc.candidate == "" then anon else h.pc.candidate)
    case GateReply(allowed) => !allowed
    case DialReply(dialled) => dialled != Succeeded
    case PublishReply(answer) => answer != Succeeded
    case SpecReply(allow) => allow && h.pc.SpecWait? && WriteFails(h, h.pc.frame)
    case Refuse => true
    case ReadEnd => true
    case Death => false
    case CloseByDeath => false
    case Killed => false
  }

  ghost predicate EndedBy(h: Handler, run: seq<Event>)
    decreases |run|
  {
    run != [] && Enabled(h, run[0]) && ((h.pc != Done && Ends(h, run[0])) || EndedBy(Next(h, run[0]), run[1..]))
  }

  lemma ForwardEnds(h: Handler, f: Frame)
    requires h.pc == Reading
    ensures Forward(h, f).pc == if WriteFails(h, f) then Done else Reading
  {
    ExitKeepsAccount(Emit(h, Forwarded(f)).(closed := true));
  }

  lemma ConnectEnds(h: Handler, e: Event)
    requires h.pc == Reading && IsConnect(e)
    ensures Next(h, e).pc == if MessageEnds(h, e) then Done else Reading
  {
    ExitKeepsAccount(h.(sawConnect := true));
  }

  lemma RecvEnds(h: Handler, e: Event)
    requires h.pc == Reading && e.Recv?
    ensures Next(h, e).pc == Done <==> MessageEnds(h, e)
  {
    match e.m {
      case Connect(_, _) => ConnectEnds(h, e);
      case Data(f) => ForwardEnds(h, f);
      case BadChunkSize => ExitKeepsAccount(h);
      case _ =>
    }
  }

  lemma SpecEnds(h: Handler, allow: bool)
    requires h.pc.SpecWait?
    ensures OnSpec(h, allow).pc == Done <==> Ends(h, SpecReply(allow))
  {
    ForwardEnds(Emit(h, Judged(h.pc.frame, allow)).(pc := Reading), h.pc.frame);
  }

  lemma AnswerEnds(h: Handler, e: Event)
    requires Enabled(h, e) && (e.GateReply? || e.DialReply? || e.PublishReply? || e.Refuse?)
    ensures Next(h, e).pc == Done <==> Ends(h, e)
  {
    ExitKeepsAccount(WriteOnce(h).(closed := true));
    ExitKeepsAccount(Emit(h, Unpublished(h.attempts)));
    ExitKeepsAccount(Emit(h.(crashed := true), Crashed(h.attempts)));
  }

  lemma NextEnds(h: Handler, e: Event)
    requires Enabled(h, e)
    ensures Next(h, e).pc == Done <==> h.pc == Done || Ends(h, e)
  {
    match e {
      case Recv(_, _) => RecvEnds(h, e);
      case PolicyReply(_, _, _, _) => PolicyPassesExactly(h, e);
      case SpecReply(allow) => SpecEnds(h, allow);
      case ReadEnd => ExitKeepsAccount(h);
      case Death =>
      case CloseByDeath =>
      case Killed =>
      case _ => AnswerEnds(h, e);
    }
  }

  lemma {:induction false} DoneExactly(h: Handler, run: seq<Event>, t: Handler)
    requires Reaches(h, run, t)
    ensures t.pc == Done <==> h.pc == Done || EndedBy(h, run)
    decreases |run|
  {
    if run != [] {
      NextEnds(h, run[0]);
      DoneExactly(Next(h, run[0]), run[1..], t);
    }
  }

  /**
   * In every run a handler has ended exactly if one of these has happened: a connect that is
   * dismissed, a refusal by policy, gate or spec, an upstream that could not be had or written to, a
   * chunk size that cannot be read, or the end of the connection. A kick or the death of an upstream
   * ends nothing by itself: they close the connection.
   */
  lemma EndsExactly(ip: string, run: seq<Event>, h: Handler)
    requires Reaches(Start(ip), run, h)
    ensures h.pc == Done <==> EndedBy(Start(ip), run)
  {
    DoneExactly(Start(ip), run, h);
  }

  // ---- what is told ----

  /** The gate or the spec verdict refuses, or an upstream dies, and the connection is open. */
  predicate RejectsOpen(h: Handler, e: Event) {
    !h.closed && (e == GateReply(false) || e == Refuse || e == Death)
  }

  ghost predicate RejectedOpen(h: Handler, run: seq<Event>)
    decreases |run|
  {
    run != [] && Enabled(h, run[0]) && (RejectsOpen(h, run[0]) || RejectedOpen(Next(h, run[0]), run[1..]))
  }

  ghost predicate ToldInv(h: Handler, told: bool) {
    && Arrived(h.log, true) == (if told then 1 else 0)
    && (told ==> h.once) && (h.once && !h.closed ==> told)
  }

  /** No word through the once, and a closed connection stays closed. */
  ghost predicate Silent(h: Handler, t: Handler) {
    Arrived(t.log, true) == Arrived(h.log, true) && t.once == h.once && (h.closed ==> t.closed)
  }

  lemma ExitSilent(h: Handler, t: Handler)
    requires Silent(h, t)
    ensures Silent(h, Exit(t))
  {
    ExitArrived(t);
  }

  lemma EmitSilent(h: Handler, t: Handler, a: Act)
    requires Silent(h, t) && (a.BadName? ==> !a.viaOnce)
    ensures Silent(h, Emit(t, a))
  {
  }

  lemma ForwardSilent(h: Handler, t: Handler, f: Frame)
    requires Silent(h, t)
    ensures Silent(h, Forward(t, f))
  {
    EmitSilent(h, t, Forwarded(f));
    ExitSilent(h, Emit(t, Forwarded(f)).(closed := true));
  }

  lemma ConnectSilent(h: Handler, stage: Stage, verify: VerifyVerdict, cool: set<string>)
    ensures Silent(h, OnConnect(h, stage, verify, cool))
  {
    var h1 := h.(sawConnect := true);
    ExitSilent(h, h1);
    if stage.Response? {
      EmitSilent(h, h1.(authed := true, user := stage.user), Verified(stage.user));
    }
  }

  lemma RecvSilent(h: Handler, m: Message, cool: set<string>)
    ensures Silent(h, OnRecv(h, m, cool))
  {
    match m {
      case Connect(stage, verify) => ConnectSilent(h, stage, verify, cool);
      case Data(f) => ForwardSilent(h, h, f);
      case BadChunkSize => ExitSilent(h, h);
      case _ =>
    }
  }

  lemma PolicySilent(h: Handler, e: Event)
    requires e.PolicyReply? && Enabled(h, e)
    ensures Silent(h, Next(h, e))
  {
    var ask := AskOf(h, e.verdict, e.anon, e.cool, e.folds);
    var h1 := Emit(h, Asked(h.attempts, ask));
    EmitSilent(h, h, Asked(h.attempts, ask));
    ExitSilent(h, h1);
    EmitSilent(h, h1, BadName(false, !h.closed));
    ExitSilent(h, Emit(h1, BadName(false, !h.closed)));
  }

  lemma SpecSilent(h: Handler, allow: bool)
    requires h.pc.SpecWait?
    ensures Silent(h, OnSpec(h, allow))
  {
    var h1 := Emit(h, Judged(h.pc.frame, allow));
    EmitSilent(h, h, Judged(h.pc.frame, allow));
    ForwardSilent(h, h1.(pc := Reading), h.pc.frame);
    EmitSilent(h, h1.(pc := Rejected), Armed);
  }

  lemma AttemptSilent(h: Handler, e: Event)
    requires Enabled(h, e) && (e == GateReply(true) || e.DialReply? || e.PublishReply?)
    ensures Silent(h, Next(h, e))
  {
    EmitSilent(h, h, Unpublished(h.attempts));
    ExitSilent(h, Emit(h, Unpublished(h.attempts)));
    EmitSilent(h, h.(crashed := true), Crashed(h.attempts));
    ExitSilent(h, Emit(h.(crashed := true), Crashed(h.attempts)));
  }

  lemma OthersSilent(h: Handler, e: Event)
    requires Enabled(h, e) && e != GateReply(false) && e != Refuse && e != Death
    ensures Silent(h, Next(h, e))
  {
    match e {
      case Recv(m, cool) => RecvSilent(h, m, cool);
      case PolicyReply(_, _, _, _) => PolicySilent(h, e);
      case SpecReply(allow) => SpecSilent(h, allow);
      case ReadEnd => ExitSilent(h, h);
      case CloseByDeath =>
      case Killed =>
      case _ => AttemptSilent(h, e);
    }
  }

  lemma NextKeepsTold(h: Handler, e: Event, told: bool)
    requires ToldInv(h, told) && Enabled(h, e)
    ensures ToldInv(Next(h, e), told || RejectsOpen(h, e))
  {
    if e == GateReply(false) || e == Refuse {
      ExitArrived(WriteOnce(h).(closed := true));
    } else if e != Death {
      OthersSilent(h, e);
    }
  }

  lemma {:induction false} ReachesTold(h: Handler, run: seq<Event>, t: Handler, told: bool)
    requires ToldInv(h, told) && Reaches(h, run, t)
    ensures ToldInv(t, told || RejectedOpen(h, run))
    decreases |run|
  {
    if run != [] {
      NextKeepsTold(h, run[0], told);
      ReachesTold(Next(h, run[0]), run[1..], t, told || RejectsOpen(h, run[0]));
    }
  }

  /**
   * In every run the publisher hears once of a refusal by the gate or the spec verdict or of a death,
   * exactly if one came while the connection was open; and once of a refusal by the policy, exactly if
   * that did.
   */
  lemma RejectionsArriveExactly(ip: string, run: seq<Event>, h: Handler)
    requires Reaches(Start(ip), run, h)
    ensures Arrived(h.log, true) == if RejectedOpen(Start(ip), run) then 1 else 0
    ensures Arrived(h.log, false) == if RefusedOpen(Start(ip), run) then 1 else 0
  {
    ReachesTold(Start(ip), run, h, false);
    ReachesArrivals(Start(ip), run, h, false, false);
  }

  // ---- what is remembered ----

  function Cooldowns(log: Log): nat {
    match log
    case Nothing => 0
    case Then(before, act) => Cooldowns(before) + if act == Armed then 1 else 0
  }

  function SpecRefusals(run: seq<Event>): nat {
    if run == [] then 0 else (if run[0] == SpecReply(false) then 1 else 0) + SpecRefusals(run[1..])
  }

  lemma ExitCooldowns(h: Handler)
    ensures Cooldowns(Exit(h).log) == Cooldowns(h.log)
  {
  }

  lemma ForwardCooldowns(h: Handler, f: Frame)
    ensures Cooldowns(Forward(h, f).log) == Cooldowns(h.log)
  {
    ExitCooldowns(Emit(h, Forwarded(f)).(closed := true));
  }

  lemma RecvCooldowns(h: Handler, m: Message, cool: set<string>)
    ensures Cooldowns(OnRecv(h, m, cool).log) == Cooldowns(h.log)
  {
    ExitCooldowns(h);
    ExitCooldowns(h.(sawConnect := true));
    if m.Data? {
      ForwardCooldowns(h, m.frame);
    }
  }

  lemma PolicyCooldowns(h: Handler, e: Event)
    requires e.PolicyReply? && Enabled(h, e)
    ensures Cooldowns(Next(h, e).log) == Cooldowns(h.log)
  {
    var h1 := Emit(h, Asked(h.attempts, AskOf(h, e.verdict, e.anon, e.cool, e.folds)));
    ExitCooldowns(h1);
    ExitCooldowns(Emit(h1, BadName(false, !h.closed)));
  }

  lemma SpecCooldowns(h: Handler, allow: bool)
    requires h.pc.SpecWait?
    ensures Cooldowns(OnSpec(h, allow).log) == Cooldowns(h.log) + if allow then 0 else 1
  {
    ForwardCooldowns(Emit(h, Judged(h.pc.frame, allow)).(pc := Reading), h.pc.frame);
  }

  lemma OnceCooldowns(h: Handler)
    ensures Cooldowns(WriteOnce(h).log) == Cooldowns(h.log)
    ensures Cooldowns(Exit(WriteOnce(h).(closed := true)).log) == Cooldowns(h.log)
  {
    ExitCooldowns(WriteOnce(h).(closed := true));
  }

  lemma EndingCooldowns(h: Handler)
    ensures Cooldowns(Abort(h).log) == Cooldowns(h.log) && Cooldowns(Crash(h).log) == Cooldowns(h.log)
  {
    ExitCooldowns(Emit(h, Unpublished(h.attempts)));
    ExitCooldowns(Emit(h.(crashed := true), Crashed(h.attempts)));
  }

  lemma AnswerCooldowns(h: Handler, e: Event)
    requires Enabled(h, e) && (e.GateReply? || e.DialReply? || e.PublishReply? || e.Refuse? || e.Death?)
    ensures Cooldowns(Next(h, e).log) == Cooldowns(h.log)
  {
    match e {
      case DialReply(_) => EndingCooldowns(h);
      case PublishReply(_) => EndingCooldowns(h);
      case _ => OnceCooldowns(h);
    }
  }

  lemma NextCooldowns(h: Handler, e: Event)
    requires Enabled(h, e)
    ensures Cooldowns(Next(h, e).log) == Cooldowns(h.log) + if e == SpecReply(false) then 1 else 0
  {
    match e {
      case Recv(m, cool) => RecvCooldowns(h, m, cool);
      case PolicyReply(_, _, _, _) => PolicyCooldowns(h, e);
      case SpecReply(allow) => SpecCooldowns(h, allow);
      case ReadEnd => ExitCooldowns(h);
      case CloseByDeath =>
      case Killed =>
      case _ => AnswerCooldowns(h, e);
    }
  }

  /** In every run the cooldown is armed once for each spec that is rejected, and never otherwise. */
  lemma {:induction false} CooldownPerRejectedSpec(h: Handler, run: seq<Event>, t: Handler)
    requires Reaches(h, run, t)
    ensures Cooldowns(t.log) == Cooldowns(h.log) + SpecRefusals(run)
    decreases |run|
  {
    if run != [] {
      NextCooldowns(h, run[0]);
      CooldownPerRejectedSpec(Next(h, run[0]), run[1..], t);
    }
  }
}
