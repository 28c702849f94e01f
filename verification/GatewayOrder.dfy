/** What comes before what on a gateway connection, in every run. */
module GatewayOrder {
  import opened Bytes
  import opened StreamNames
  import opened Gateway
  import opened GatewayRuns

  /** A spec was rejected. */
  predicate SpecRejected(log: Log) {
    log.Then? && ((log.act.Judged? && !log.act.allow) || SpecRejected(log.before))
  }

  predicate DidVerify(log: Log, user: string) {
    log.Then? && ((log.act.Verified? && log.act.user == user) || DidVerify(log.before, user))
  }

  /** The name asked about is the publisher's own: explicit, or the account, or the address. */
  predicate OwnCandidate(a: Ask, ip: string) {
    && a.candidate == CandidateName(a.explicit, a.authed, a.user, ip)
    && (if a.candidate == "" then a.final != "" else a.final == a.candidate)
  }

  /** An answer for a publisher that is admitted under this name, and who was verified if an account was used. */
  predicate Clears(ask: Ask, before: Log, name: string, ip: string) {
    Passes(ask) && OwnCandidate(ask, ip) && ask.final == name && (ask.authed ==> DidVerify(before, ask.user))
  }

  /** For attempt k the policy admitted the publisher under this name, with no cooldown. */
  predicate Ready(log: Log, k: nat, name: string, ip: string) {
    && log.Then?
    && (|| (log.act.Asked? && log.act.k == k && Clears(log.act.ask, log.before, name, ip))
        || Ready(log.before, k, name, ip))
  }

  /** And after that the gate granted it, under the same name. */
  predicate Permitted(log: Log, k: nat, name: string, ip: string) {
    && log.Then?
    && (|| (log.act == Granted(k, name) && Ready(log.before, k, name, ip))
        || Permitted(log.before, k, name, ip))
  }

  /** What may come next after this much. */
  predicate MayFollow(log: Log, a: Act, ip: string) {
    && (a.Granted? ==> Ready(log, a.k, a.name, ip))
    && (a.UpSet? ==> Permitted(log, a.k, a.name, ip))
    && (a.Forwarded? ==> !SpecRejected(log))
    && (a.Forwarded? && a.frame.spec ==> log.Then? && log.act.Judged? && log.act.frame == a.frame && log.act.allow)
  }

  /**
   * Every upstream was set only once its attempt was permitted, every spec was judged and allowed
   * right before it was forwarded, and nothing was forwarded after a rejection.
   */
  predicate Ordered(log: Log, ip: string) {
    log.Then? ==> Ordered(log.before, ip) && MayFollow(log.before, log.act, ip)
  }

  ghost predicate OrderInv(ip: string, h: Handler) {
    && h.ip == ip
    && Ordered(h.log, ip)
    && (h.authed ==> DidVerify(h.log, h.user))
    && (h.pc.PolicyWait? ==> h.pc.candidate == CandidateName(h.pc.p.explicit, h.authed, h.user, ip))
    && (h.pc.GateWait? ==> Ready(h.log, h.attempts, h.pc.final, ip))
    && (h.pc.DialWait? || h.pc.PublishWait? ==> Permitted(h.log, h.attempts, h.pc.final, ip))
    && (h.published > 0 ==> Permitted(h.log, h.published, h.name, ip))
    && (SpecRejected(h.log) ==> h.pc == Rejected || h.pc == Done)
    && (h.published > 0 <==> h.drains > 0)
    && (h.pc != Reading && !h.pc.SpecWait? && h.pc != Rejected && h.pc != Done ==> h.attempts > 0)
  }

  predicate Plain(a: Act) {
    !a.Granted? && !a.UpSet? && !a.Forwarded? && !a.Judged?
  }

  lemma PlainKeepsOrder(ip: string, h: Handler, a: Act)
    requires OrderInv(ip, h) && Plain(a)
    ensures OrderInv(ip, Emit(h, a))
  {
  }

  lemma ExitKeepsOrder(ip: string, h: Handler)
    requires OrderInv(ip, h.(pc := Done))
    ensures OrderInv(ip, Exit(h))
  {
    var h1 := h.(pc := Done);
    PlainKeepsOrder(ip, h1, Released(h.published));
    PlainKeepsOrder(ip, Emit(h1, Released(h.published)), Unpublished(h.published));
  }

  lemma DoneKeepsOrder(ip: string, h: Handler)
    requires OrderInv(ip, h)
    ensures OrderInv(ip, h.(pc := Done))
  {
  }

  lemma ForwardKeepsOrder(ip: string, h: Handler, f: Frame)
    requires OrderInv(ip, h) && h.pc == Reading
    requires f.spec && h.drains > 0 ==> h.log.Then? && h.log.act == Judged(f, true)
    ensures OrderInv(ip, Forward(h, f))
  {
    var h1 := Emit(h, Forwarded(f));
    if h.drains > 0 {
      assert OrderInv(ip, h1);
      DoneKeepsOrder(ip, h1.(closed := true));
      ExitKeepsOrder(ip, h1.(closed := true));
    }
  }

  lemma ConnectKeepsOrder(ip: string, h: Handler, stage: Stage, verify: VerifyVerdict, cool: set<string>)
    requires OrderInv(ip, h) && h.pc == Reading
    ensures OrderInv(ip, OnConnect(h, stage, verify, cool))
  {
    var h1 := h.(sawConnect := true);
    assert OrderInv(ip, h1);
    DoneKeepsOrder(ip, h1);
    ExitKeepsOrder(ip, h1);
  }

  lemma PublishKeepsOrder(ip: string, h: Handler, p: PublishName)
    requires OrderInv(ip, h) && h.pc == Reading
    ensures OrderInv(ip, OnPublish(h, p))
  {
  }

  lemma RecvKeepsOrder(ip: string, h: Handler, m: Message, cool: set<string>)
    requires OrderInv(ip, h) && h.pc == Reading
    ensures OrderInv(ip, OnRecv(h, m, cool))
  {
    match m {
      case Connect(stage, verify) => ConnectKeepsOrder(ip, h, stage, verify, cool);
      case Publish(p) => PublishKeepsOrder(ip, h, p);
      case Data(f) => if !f.spec || h.drains == 0 { ForwardKeepsOrder(ip, h, f); }
      case BadChunkSize => DoneKeepsOrder(ip, h); ExitKeepsOrder(ip, h);
      case Other =>
    }
  }

  lemma LeaveKeepsOrder(ip: string, h: Handler)
    requires OrderInv(ip, h)
    ensures OrderInv(ip, Exit(h))
  {
    DoneKeepsOrder(ip, h);
    ExitKeepsOrder(ip, h);
  }

  lemma PolicyKeepsOrder(ip: string, h: Handler, v: PolicyVerdict, anon: string, cool: set<string>, folds: FoldTable)
    requires OrderInv(ip, h) && h.pc.PolicyWait? && anon != ""
    ensures OrderInv(ip, OnPolicy(h, v, anon, cool, folds))
  {
    var a := Asked(h.attempts, AskOf(h, v, anon, cool, folds));
    PlainKeepsOrder(ip, h, a);
    LeaveKeepsOrder(ip, Emit(h, a));
    PlainKeepsOrder(ip, Emit(h, a), BadName(false, !h.closed));
    LeaveKeepsOrder(ip, Emit(Emit(h, a), BadName(false, !h.closed)));
    assert OwnCandidate(a.ask, h.ip);
  }

  lemma OnceKeepsOrder(ip: string, h: Handler)
    requires OrderInv(ip, h)
    ensures OrderInv(ip, WriteOnce(h))
  {
    PlainKeepsOrder(ip, h.(once := true), BadName(true, !h.closed));
  }

  lemma RefusalKeepsOrder(ip: string, h: Handler)
    requires OrderInv(ip, h)
    ensures OrderInv(ip, Exit(WriteOnce(h).(closed := true)))
  {
    OnceKeepsOrder(ip, h);
    LeaveKeepsOrder(ip, WriteOnce(h).(closed := true));
  }

  lemma GrantIsPermitted(log: Log, k: nat, name: string, ip: string)
    requires Ready(log, k, name, ip)
    ensures Permitted(Then(log, Granted(k, name)), k, name, ip)
  {
  }

  lemma GrantKeepsOrder(ip: string, h: Handler)
    requires OrderInv(ip, h) && h.pc.GateWait?
    ensures OrderInv(ip, Emit(h.(pc := DialWait(h.pc.final)), Granted(h.attempts, h.pc.final)))
  {
    GrantIsPermitted(h.log, h.attempts, h.pc.final, ip);
  }

  lemma GateKeepsOrder(ip: string, h: Handler, allowed: bool)
    requires OrderInv(ip, h) && h.pc.GateWait?
    ensures OrderInv(ip, OnGate(h, allowed))
  {
    if allowed { GrantKeepsOrder(ip, h); } else { RefusalKeepsOrder(ip, h); }
  }

  lemma AbortKeepsOrder(ip: string, h: Handler)
    requires OrderInv(ip, h)
    ensures OrderInv(ip, Abort(h))
  {
    PlainKeepsOrder(ip, h, Unpublished(h.attempts));
    LeaveKeepsOrder(ip, Emit(h, Unpublished(h.attempts)));
  }

  lemma PublishedKeepsOrder(ip: string, h: Handler)
    requires OrderInv(ip, h) && h.pc.PublishWait?
    ensures OrderInv(ip, OnPublished(h))
  {
  }

  lemma CrashKeepsOrder(ip: string, h: Handler)
    requires OrderInv(ip, h)
    ensures OrderInv(ip, Crash(h))
  {
    var h1 := h.(crashed := true);
    assert OrderInv(ip, h1);
    PlainKeepsOrder(ip, h1, Crashed(h.attempts));
    LeaveKeepsOrder(ip, Emit(h1, Crashed(h.attempts)));
  }

  lemma DialledKeepsOrder(ip: string, h: Handler, dialled: Reply)
    requires OrderInv(ip, h) && h.pc.DialWait?
    ensures OrderInv(ip, OnDialled(h, dialled))
  {
    match dialled {
      case Succeeded =>
      case Failed => AbortKeepsOrder(ip, h);
      case Panicked => CrashKeepsOrder(ip, h);
    }
  }

  lemma AnswerKeepsOrder(ip: string, h: Handler, answer: Reply)
    requires OrderInv(ip, h) && h.pc.PublishWait?
    ensures OrderInv(ip, OnAnswer(h, answer))
  {
    match answer {
      case Succeeded => PublishedKeepsOrder(ip, h);
      case Failed => AbortKeepsOrder(ip, h);
      case Panicked => CrashKeepsOrder(ip, h);
    }
  }

  lemma SpecKeepsOrder(ip: string, h: Handler, allow: bool)
    requires OrderInv(ip, h) && h.pc.SpecWait?
    ensures OrderInv(ip, OnSpec(h, allow))
  {
    var h1 := Emit(h, Judged(h.pc.frame, allow));
    if allow {
      assert OrderInv(ip, h1.(pc := Reading));
      ForwardKeepsOrder(ip, h1.(pc := Reading), h.pc.frame);
    } else {
      assert OrderInv(ip, h1.(pc := Rejected));
      PlainKeepsOrder(ip, h1.(pc := Rejected), Armed);
    }
  }

  lemma NextKeepsOrder(ip: string, h: Handler, e: Event)
    requires OrderInv(ip, h) && Enabled(h, e)
    ensures OrderInv(ip, Next(h, e))
  {
    match e {
      case Recv(m, cool) => RecvKeepsOrder(ip, h, m, cool);
      case PolicyReply(v, anon, cool, folds) => PolicyKeepsOrder(ip, h, v, anon, cool, folds);
      case GateReply(allowed) => GateKeepsOrder(ip, h, allowed);
      case DialReply(dialled) => DialledKeepsOrder(ip, h, dialled);
      case PublishReply(answer) => AnswerKeepsOrder(ip, h, answer);
      case SpecReply(allow) => SpecKeepsOrder(ip, h, allow);
      case Refuse => RefusalKeepsOrder(ip, h);
      case ReadEnd => LeaveKeepsOrder(ip, h);
      case Death => OnceKeepsOrder(ip, h);
      case _ =>
    }
  }

  lemma {:induction false} ReachesOrder(ip: string, h: Handler, run: seq<Event>, t: Handler)
    requires OrderInv(ip, h) && Reaches(h, run, t)
    ensures OrderInv(ip, t)
    decreases |run|
  {
    if run != [] {
      NextKeepsOrder(ip, h, run[0]);
      ReachesOrder(ip, Next(h, run[0]), run[1..], t);
    }
  }

  /** `early` is how the log stood when `a` was done. */
  predicate Stood(log: Log, early: Log, a: Act) {
    log.Then? && (log == Then(early, a) || Stood(log.before, early, a))
  }

  lemma {:induction false} OrderedEarlier(log: Log, early: Log, a: Act, ip: string)
    requires Ordered(log, ip) && Stood(log, early, a)
    ensures MayFollow(early, a, ip)
  {
    if log != Then(early, a) {
      OrderedEarlier(log.before, early, a, ip);
    }
  }

  /**
   * In every run: the gate grants an attempt only under a name that the policy passed for it, the
   * publisher's own, with a verified account where one is required and with no cooldown; an
   * upstream is set only after that grant, and under that name; a declared spec is forwarded only right after it was judged
   * and allowed; and nothing at all is forwarded after a rejection.
   */
  lemma EverythingInOrder(ip: string, run: seq<Event>, h: Handler, early: Log, a: Act)
    requires Reaches(Start(ip), run, h) && Stood(h.log, early, a)
    ensures a.Granted? ==> Ready(early, a.k, a.name, ip)
    ensures a.UpSet? ==> Permitted(early, a.k, a.name, ip)
    ensures a.Forwarded? ==> !SpecRejected(early)
    ensures a.Forwarded? && a.frame.spec ==> early.Then? && early.act == Judged(a.frame, true)
  {
    ReachesOrder(ip, Start(ip), run, h);
    OrderedEarlier(h.log, early, a, ip);
  }

  /** The policy was asked this for attempt k. */
  predicate DidAsk(log: Log, k: nat, ask: Ask) {
    log.Then? && (log.act == Asked(k, ask) || DidAsk(log.before, k, ask))
  }

  lemma {:induction false} ReadyWasAsked(log: Log, k: nat, name: string, ip: string) returns (ask: Ask)
    requires Ready(log, k, name, ip)
    ensures DidAsk(log, k, ask) && Clears(ask, log, name, ip)
  {
    if log.act.Asked? && log.act.k == k && Clears(log.act.ask, log.before, name, ip) {
      ask := log.act.ask;
    } else {
      ask := ReadyWasAsked(log.before, k, name, ip);
    }
  }

  lemma {:induction false} PermittedWasAsked(log: Log, k: nat, name: string, ip: string) returns (ask: Ask)
    requires Permitted(log, k, name, ip)
    ensures DidAsk(log, k, ask) && Clears(ask, log, name, ip)
  {
    if log.act == Granted(k, name) && Ready(log.before, k, name, ip) {
      ask := ReadyWasAsked(log.before, k, name, ip);
    } else {
      ask := PermittedWasAsked(log.before, k, name, ip);
    }
  }

  /** In every run a handler streams under the name of a question that the policy passed, asked for that attempt. */
  lemma StreamsUnderAskedName(ip: string, run: seq<Event>, h: Handler) returns (ask: Ask)
    requires Reaches(Start(ip), run, h) && h.published > 0
    ensures DidAsk(h.log, h.published, ask) && Passes(ask) && OwnCandidate(ask, ip) && ask.final == h.name
    ensures ask.authed ==> DidVerify(h.log, ask.user)
    ensures var own := if ask.explicit != "" then ask.explicit else if ask.authed then ask.user else ip;
            if own == "" then h.name != "" else h.name == SafeName(own)
  {
    ReachesOrder(ip, Start(ip), run, h);
    ask := PermittedWasAsked(h.log, h.published, h.name, ip);
  }
}
