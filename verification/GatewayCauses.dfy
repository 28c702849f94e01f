/**
 * What a gateway connection does, traced back to what it was told: in every run each act has the
 * event behind it that the source demands, read off the event alone.
 */
module GatewayCauses {
  import opened Bytes
  import opened StreamNames
  import opened Gateway
  import opened GatewayOrder

  predicate InLog(log: Log, a: Act) {
    log.Then? && (log.act == a || InLog(log.before, a))
  }

  /** The name or user is in cooldown; the empty one never is. */
  predicate Cooling(key: string, cool: set<string>) {
    key in cool && key != ""
  }

  /** The events that warrant an act. */
  predicate Warrants(e: Event, a: Act) {
    match a
    case Verified(user) =>
      && e.Recv? && e.m.Connect? && e.m.stage == Response(user) && e.m.verify.allow && !Cooling(user, e.cool)
    case Asked(_, ask) =>
      && e.PolicyReply? && ask.verdict == e.verdict && ask.folds == e.folds
      && (ask.cooling <==> Cooling(ask.final, e.cool) || Cooling(ask.user, e.cool))
    case Granted(_, _) => e == GateReply(true)
    case UpSet(_, _) => e == PublishReply(Succeeded)
    case Judged(_, allow) => e == SpecReply(allow)
    case Forwarded(f) => e == SpecReply(true) || (e.Recv? && e.m == Data(f))
    case Armed => e == SpecReply(false)
    case BadName(shared, _) => if shared then e == GateReply(false) || e == Refuse || e == Death else e.PolicyReply?
    case Crashed(_) => e == DialReply(Panicked) || e == PublishReply(Panicked)
    case _ => true
  }

  /** Everything in the log beyond `early` is warranted by `e`. */
  ghost predicate NewWarranted(early: Log, now: Log, e: Event) {
    forall a :: InLog(now, a) && !InLog(early, a) ==> Warrants(e, a)
  }

  lemma OneMore(before: Log, log: Log, a: Act, e: Event)
    requires NewWarranted(before, log, e) && Warrants(e, a)
    ensures NewWarranted(before, Then(log, a), e)
  {
  }

  lemma NoneMore(log: Log, e: Event)
    ensures NewWarranted(log, log, e)
  {
  }

  lemma ExitWarranted(before: Log, h: Handler, e: Event)
    requires NewWarranted(before, h.log, e)
    ensures NewWarranted(before, Exit(h).log, e)
  {
    if h.published > 0 {
      OneMore(before, h.log, Released(h.published), e);
      OneMore(before, Then(h.log, Released(h.published)), Unpublished(h.published), e);
    }
  }

  lemma ConnectWarranted(h: Handler, stage: Stage, verify: VerifyVerdict, cool: set<string>)
    requires h.pc == Reading
    ensures NewWarranted(h.log, OnConnect(h, stage, verify, cool).log, Recv(Connect(stage, verify), cool))
  {
    var e := Recv(Connect(stage, verify), cool);
    NoneMore(h.log, e);
    ExitWarranted(h.log, h.(sawConnect := true), e);
    if stage.Response? && verify.allow && !Cool(cool, stage.user) {
      OneMore(h.log, h.log, Verified(stage.user), e);
    }
  }

  lemma ForwardWarranted(before: Log, h: Handler, f: Frame, e: Event)
    requires NewWarranted(before, h.log, e) && Warrants(e, Forwarded(f))
    ensures NewWarranted(before, Forward(h, f).log, e)
  {
    OneMore(before, h.log, Forwarded(f), e);
    ExitWarranted(before, Emit(h, Forwarded(f)).(closed := true), e);
  }

  lemma RecvWarranted(h: Handler, m: Message, cool: set<string>)
    requires h.pc == Reading
    ensures NewWarranted(h.log, OnRecv(h, m, cool).log, Recv(m, cool))
  {
    NoneMore(h.log, Recv(m, cool));
    match m {
      case Connect(stage, verify) => ConnectWarranted(h, stage, verify, cool);
      case Publish(_) =>
      case Data(f) => ForwardWarranted(h.log, h, f, Recv(m, cool));
      case BadChunkSize => ExitWarranted(h.log, h, Recv(m, cool));
      case Other =>
    }
  }

  lemma PolicyWarranted(h: Handler, e: Event)
    requires e.PolicyReply? && Enabled(h, e)
    ensures NewWarranted(h.log, Next(h, e).log, e)
  {
    var ask := AskOf(h, e.verdict, e.anon, e.cool, e.folds);
    var h1 := Emit(h, Asked(h.attempts, ask));
    var bad := BadName(false, !h.closed);
    NoneMore(h.log, e);
    OneMore(h.log, h.log, Asked(h.attempts, ask), e);
    ExitWarranted(h.log, h1, e);
    OneMore(h.log, h1.log, bad, e);
    ExitWarranted(h.log, Emit(h1, bad), e);
  }

  lemma RejectionWarranted(h: Handler, e: Event)
    requires Warrants(e, BadName(true, !h.closed))
    ensures NewWarranted(h.log, WriteOnce(h).log, e)
    ensures NewWarranted(h.log, Exit(WriteOnce(h).(closed := true)).log, e)
  {
    NoneMore(h.log, e);
    OneMore(h.log, h.log, BadName(true, !h.closed), e);
    ExitWarranted(h.log, WriteOnce(h).(closed := true), e);
  }

  lemma GateWarranted(h: Handler, allowed: bool)
    requires h.pc.GateWait?
    ensures NewWarranted(h.log, OnGate(h, allowed).log, GateReply(allowed))
  {
    NoneMore(h.log, GateReply(allowed));
    if allowed {
      OneMore(h.log, h.log, Granted(h.attempts, h.pc.final), GateReply(allowed));
    } else {
      RejectionWarranted(h, GateReply(allowed));
    }
  }

  lemma AbortWarranted(h: Handler, e: Event)
    ensures NewWarranted(h.log, Abort(h).log, e)
    ensures e == DialReply(Panicked) || e == PublishReply(Panicked) ==> NewWarranted(h.log, Crash(h).log, e)
  {
    NoneMore(h.log, e);
    OneMore(h.log, h.log, Unpublished(h.attempts), e);
    ExitWarranted(h.log, Emit(h, Unpublished(h.attempts)), e);
    if e == DialReply(Panicked) || e == PublishReply(Panicked) {
      OneMore(h.log, h.log, Crashed(h.attempts), e);
      ExitWarranted(h.log, Emit(h.(crashed := true), Crashed(h.attempts)), e);
    }
  }

  lemma DialledWarranted(h: Handler, dialled: Reply)
    requires h.pc.DialWait?
    ensures NewWarranted(h.log, OnDialled(h, dialled).log, DialReply(dialled))
  {
    NoneMore(h.log, DialReply(dialled));
    AbortWarranted(h, DialReply(dialled));
  }

  lemma AnswerWarranted(h: Handler, answer: Reply)
    requires h.pc.PublishWait?
    ensures NewWarranted(h.log, OnAnswer(h, answer).log, PublishReply(answer))
  {
    NoneMore(h.log, PublishReply(answer));
    AbortWarranted(h, PublishReply(answer));
    if answer == Succeeded {
      OneMore(h.log, h.log, UpSet(h.attempts, h.pc.final), PublishReply(answer));
    }
  }

  lemma SpecWarranted(h: Handler, allow: bool)
    requires h.pc.SpecWait?
    ensures NewWarranted(h.log, OnSpec(h, allow).log, SpecReply(allow))
  {
    var e, h1 := SpecReply(allow), Emit(h, Judged(h.pc.frame, allow));
    NoneMore(h.log, e);
    OneMore(h.log, h.log, Judged(h.pc.frame, allow), e);
    if allow {
      ForwardWarranted(h.log, h1.(pc := Reading), h.pc.frame, e);
    } else {
      OneMore(h.log, h1.log, Armed, e);
    }
  }

  lemma NextWarranted(h: Handler, e: Event)
    requires Enabled(h, e)
    ensures NewWarranted(h.log, Next(h, e).log, e)
  {
    NoneMore(h.log, e);
    match e {
      case Recv(m, cool) => RecvWarranted(h, m, cool);
      case PolicyReply(_, _, _, _) => PolicyWarranted(h, e);
      case GateReply(allowed) => GateWarranted(h, allowed);
      case DialReply(dialled) => DialledWarranted(h, dialled);
      case PublishReply(answer) => AnswerWarranted(h, answer);
      case SpecReply(allow) => SpecWarranted(h, allow);
      case Refuse => RejectionWarranted(h, e);
      case ReadEnd => ExitWarranted(h.log, h, e);
      case Death => RejectionWarranted(h, e);
      case _ =>
    }
  }

  lemma {:induction false} ActWasWarranted(h: Handler, run: seq<Event>, t: Handler, a: Act) returns (e: Event)
    requires Reaches(h, run, t) && InLog(t.log, a) && !InLog(h.log, a)
    ensures e in run && Warrants(e, a)
    decreases |run|
  {
    assert run != [];
    NextWarranted(h, run[0]);
    if InLog(Next(h, run[0]).log, a) {
      e := run[0];
    } else {
      e := ActWasWarranted(Next(h, run[0]), run[1..], t, a);
      assert e in run[1..];
    }
  }

  /**
   * In every run each act of a connection was warranted by an event of the run: a publisher counts as
   * verified only once the control plane allowed that very user, who was not in cooldown; a grant
   * stands on the gate's yes, an upstream on a publish that succeeded, a forwarded spec on its
   * judgement or its arrival, and a cooldown on a rejected spec.
   */
  lemma EveryActIsWarranted(ip: string, run: seq<Event>, h: Handler, a: Act) returns (e: Event)
    requires Reaches(Start(ip), run, h) && InLog(h.log, a)
    ensures e in run && Warrants(e, a)
  {
    e := ActWasWarranted(Start(ip), run, h, a);
  }
}
