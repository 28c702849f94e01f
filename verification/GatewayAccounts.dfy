/** Who counts as verified on a gateway connection, and who may stream, in terms of what the control plane said. */
module GatewayAccounts {
  import opened Bytes
  import opened StreamNames
  import opened Gateway
  import opened GatewayOrder
  import opened GatewayCauses

  // ---- who is verified ----

  predicate IsConnect(e: Event) {
    e.Recv? && e.m.Connect?
  }

  function FirstConnect(run: seq<Event>): (first: Option<Event>)
    ensures first.Some? ==> IsConnect(first.value)
  {
    if run == [] then None else if IsConnect(run[0]) then Some(run[0]) else FirstConnect(run[1..])
  }

  /** The right password of a user who is not in cooldown. */
  predicate Verifies(e: Event)
    requires IsConnect(e)
  {
    e.m.stage.Response? && e.m.verify.allow && !Cooling(e.m.stage.user, e.cool)
  }

  /** A wrong password, a cooldown, or the first two steps of the authentication dance. */
  predicate Dismisses(e: Event)
    requires IsConnect(e)
  {
    match e.m.stage
    case Response(user) => Cooling(user, e.cool) || (e.m.verify.known && !e.m.verify.allow)
    case Challenge(user) => user != ""
    case Fresh => true
  }

  /** The same account, and no way back from the end. */
  predicate SameAccount(h: Handler, t: Handler) {
    && t.authed == h.authed && t.user == h.user && t.sawConnect == h.sawConnect
    && (h.pc == Done ==> t.pc == Done)
  }

  lemma ExitKeepsAccount(h: Handler)
    ensures SameAccount(h, Exit(h)) && Exit(h).pc == Done
  {
  }

  lemma ConnectSettles(h: Handler, e: Event)
    requires Enabled(h, e) && IsConnect(e) && !h.sawConnect && !h.authed && h.user == ""
    ensures var t := Next(h, e);
            && t.sawConnect && (t.authed <==> Verifies(e)) && (t.authed ==> t.user == e.m.stage.user)
            && (!t.authed ==> t.user == "") && (t.pc == Done <==> Dismisses(e))
  {
    ExitKeepsAccount(h.(sawConnect := true));
  }

  lemma ForwardKeepsAccount(h: Handler, f: Frame)
    requires h.pc == Reading
    ensures SameAccount(h, Forward(h, f))
  {
    ExitKeepsAccount(Emit(h, Forwarded(f)).(closed := true));
  }

  lemma RecvKeepsAccount(h: Handler, m: Message, cool: set<string>)
    requires h.pc == Reading && (m.Connect? ==> h.sawConnect)
    ensures SameAccount(h, OnRecv(h, m, cool))
  {
    match m {
      case Data(f) => ForwardKeepsAccount(h, f);
      case BadChunkSize => ExitKeepsAccount(h);
      case _ =>
    }
  }

  lemma DecidedKeepsAccount(h: Handler, ask: Ask)
    requires h.pc != Done
    ensures SameAccount(h, Decided(h, ask))
  {
    ExitKeepsAccount(h);
    ExitKeepsAccount(Emit(h, BadName(false, !h.closed)));
  }

  lemma GateKeepsAccount(h: Handler, allowed: bool)
    requires h.pc.GateWait?
    ensures SameAccount(h, OnGate(h, allowed))
  {
    ExitKeepsAccount(WriteOnce(h).(closed := true));
  }

  lemma EndingKeepsAccount(h: Handler)
    ensures SameAccount(h, Abort(h)) && SameAccount(h, Crash(h)) && SameAccount(h, Exit(WriteOnce(h).(closed := true)))
  {
    ExitKeepsAccount(Emit(h, Unpublished(h.attempts)));
    ExitKeepsAccount(Emit(h.(crashed := true), Crashed(h.attempts)));
    ExitKeepsAccount(WriteOnce(h).(closed := true));
  }

  lemma SpecKeepsAccount(h: Handler, allow: bool)
    requires h.pc.SpecWait?
    ensures SameAccount(h, OnSpec(h, allow))
  {
    ForwardKeepsAccount(Emit(h, Judged(h.pc.frame, allow)).(pc := Reading), h.pc.frame);
  }

  lemma ReplyKeepsAccount(h: Handler, e: Event)
    requires Enabled(h, e) && (e.DialReply? || e.PublishReply? || e.Refuse?)
    ensures SameAccount(h, Next(h, e))
  {
    EndingKeepsAccount(h);
  }

  lemma NextKeepsAccount(h: Handler, e: Event)
    requires Enabled(h, e) && (IsConnect(e) ==> h.sawConnect)
    ensures SameAccount(h, Next(h, e))
  {
    match e {
      case Recv(m, cool) => RecvKeepsAccount(h, m, cool);
      case PolicyReply(v, anon, cool, folds) =>
        var ask := AskOf(h, v, anon, cool, folds);
        DecidedKeepsAccount(Emit(h, Asked(h.attempts, ask)), ask);
      case GateReply(allowed) => GateKeepsAccount(h, allowed);
      case SpecReply(allow) => SpecKeepsAccount(h, allow);
      case ReadEnd => ExitKeepsAccount(h);
      case Death =>
      case CloseByDeath =>
      case Killed =>
      case _ => ReplyKeepsAccount(h, e);
    }
  }

  lemma {:induction false} AccountStays(h: Handler, run: seq<Event>, t: Handler)
    requires h.sawConnect && Reaches(h, run, t)
    ensures t.authed == h.authed && t.user == h.user && (h.pc == Done ==> t.pc == Done)
    decreases |run|
  {
    if run != [] {
      NextKeepsAccount(h, run[0]);
      AccountStays(Next(h, run[0]), run[1..], t);
    }
  }

  lemma {:induction false} AccountComesFromConnect(h: Handler, run: seq<Event>, t: Handler)
    requires !h.sawConnect && !h.authed && h.user == "" && Reaches(h, run, t)
    ensures var first := FirstConnect(run);
            if first.None? then !t.authed && t.user == ""
            else && (t.authed <==> Verifies(first.value)) && (t.authed ==> t.user == first.value.m.stage.user)
                 && (!t.authed ==> t.user == "") && (Dismisses(first.value) ==> t.pc == Done)
    decreases |run|
  {
    if run != [] {
      if IsConnect(run[0]) {
        ConnectSettles(h, run[0]);
        AccountStays(Next(h, run[0]), run[1..], t);
      } else {
        NextKeepsAccount(h, run[0]);
        AccountComesFromConnect(Next(h, run[0]), run[1..], t);
      }
    }
  }

  lemma {:induction false} FirstConnectIsInRun(run: seq<Event>)
    requires FirstConnect(run).Some?
    ensures FirstConnect(run).value in run && IsConnect(FirstConnect(run).value)
  {
    if !IsConnect(run[0]) {
      FirstConnectIsInRun(run[1..]);
    }
  }

  /**
   * In every run a publisher is verified exactly if its first connect gave a user whom the control
   * plane allowed, and who was not in cooldown; it is then that user. And a first connect that gives
   * a wrong password for a known user, a user in cooldown, or only asks for the next step of the
   * dance ends the handler; no later connect makes a difference.
   */
  lemma VerifiedExactly(ip: string, run: seq<Event>, h: Handler)
    requires Reaches(Start(ip), run, h)
    ensures var first := FirstConnect(run);
            && (first.Some? ==> first.value in run && IsConnect(first.value))
            && (h.authed <==> first.Some? && Verifies(first.value))
            && (h.authed ==> first.value.m.stage == Response(h.user))
            && (first.Some? && Dismisses(first.value) ==> h.pc == Done && !h.authed)
  {
    AccountComesFromConnect(Start(ip), run, h);
    if FirstConnect(run).Some? {
      FirstConnectIsInRun(run);
    }
  }

  // ---- who is admitted ----

  lemma {:induction false} DidAskIsInLog(log: Log, k: nat, ask: Ask)
    requires DidAsk(log, k, ask)
    ensures InLog(log, Asked(k, ask))
  {
    if log.act != Asked(k, ask) {
      DidAskIsInLog(log.before, k, ask);
    }
  }

  lemma {:induction false} PermittedIsGranted(log: Log, k: nat, name: string, ip: string)
    requires Permitted(log, k, name, ip)
    ensures InLog(log, Granted(k, name))
  {
    if log.act != Granted(k, name) {
      PermittedIsGranted(log.before, k, name, ip);
    }
  }

  /**
   * In every run a handler that streams has been told so: the control plane knew the key, had not
   * banned it, and had the window open; neither the name nor the verified user was in cooldown; where
   * an account was required the publisher was verified; and the gate said yes.
   */
  lemma StreamingWasAdmitted(ip: string, run: seq<Event>, h: Handler) returns (ask: Ask, e: Event)
    requires Reaches(Start(ip), run, h) && h.published > 0
    ensures e in run && e.PolicyReply? && GateReply(true) in run && ask.final == h.name
    ensures !e.verdict.unreachable && e.verdict.publishKey && !e.verdict.banned && e.verdict.windowOpen
    ensures !Cooling(h.name, e.cool) && !Cooling(ask.user, e.cool)
    ensures e.verdict.requireAccountAuth ==>
              && ask.authed && DidVerify(h.log, ask.user)
              && (ask.explicit == "" || EqualFold(ask.user, ask.explicit, e.folds))
  {
    ReachesOrder(ip, Start(ip), run, h);
    ask := PermittedWasAsked(h.log, h.published, h.name, ip);
    DidAskIsInLog(h.log, h.published, ask);
    e := EveryActIsWarranted(ip, run, h, Asked(h.published, ask));
    PermittedIsGranted(h.log, h.published, h.name, ip);
    var _ := EveryActIsWarranted(ip, run, h, Granted(h.published, h.name));
  }

  /** What it takes to pass, for a handler that has asked. */
  predicate Welcome(h: Handler, e: Event, final: string)
    requires e.PolicyReply? && h.pc.PolicyWait?
  {
    && !e.verdict.unreachable && e.verdict.publishKey && !e.verdict.banned && e.verdict.windowOpen
    && !Cooling(final, e.cool) && !Cooling(h.user, e.cool)
    && (e.verdict.requireAccountAuth ==>
          h.authed && (h.pc.p.explicit == "" || EqualFold(h.user, h.pc.p.explicit, e.folds)))
  }

  lemma PassesIsWelcome(h: Handler, e: Event)
    requires e.PolicyReply? && h.pc.PolicyWait?
    ensures var ask := AskOf(h, e.verdict, e.anon, e.cool, e.folds); Passes(ask) <==> Welcome(h, e, ask.final)
  {
  }

  lemma DecidedExactly(h: Handler, ask: Ask)
    ensures Decided(h, ask).pc == if Passes(ask) then GateWait(ask.final) else Done
  {
    ExitKeepsAccount(h);
    ExitKeepsAccount(Emit(h, BadName(false, !h.closed)));
  }

  /** Whoever meets all of this is let through to the gate on the spot, under the name asked about; nobody else stays. */
  lemma PolicyPassesExactly(h: Handler, e: Event)
    requires e.PolicyReply? && Enabled(h, e)
    ensures var final := if h.pc.candidate == "" then e.anon else h.pc.candidate;
            Next(h, e).pc == if Welcome(h, e, final) then GateWait(final) else Done
  {
    var ask := AskOf(h, e.verdict, e.anon, e.cool, e.folds);
    PassesIsWelcome(h, e);
    DecidedExactly(Emit(h, Asked(h.attempts, ask)), ask);
  }

  // ---- what a connect says ----

  predicate HasKey(pairs: seq<Pair>, key: string) {
    exists p | p in pairs :: p.key == key
  }

  lemma {:induction false} MapKeys(pairs: seq<Pair>, key: string)
    ensures key in MapOf(pairs) <==> HasKey(pairs, key)
  {
    if pairs != [] {
      var n := |pairs| - 1;
      MapKeys(pairs[..n], key);
      assert pairs == pairs[..n] + [pairs[n]];
    }
  }

  /**
   * The step of the dance that a client's query is taken for: an answer to the challenge if it has
   * one, otherwise a request for it if it names a method, and else a fresh connect; and the user is the
   * one it names, verbatim.
   */
  lemma StageOfQuery(path: string, pairs: seq<Pair>)
    requires '?' !in path && pairs != [] && DistinctKeys(pairs) && forall p | p in pairs :: Printable(p)
    ensures var stage := StageOf(AppQuery(path + "?" + Print(pairs)));
            && (stage.Response? <==> HasKey(pairs, "response"))
            && (stage.Challenge? <==> !HasKey(pairs, "response") && HasKey(pairs, "authmod"))
            && (!stage.Fresh? && !HasKey(pairs, "user") ==> stage.user == "")
            && (!stage.Fresh? ==> forall p | p in pairs && p.key == "user" :: stage.user == p.value)
  {
    QueryRoundTrip(path, pairs);
    MapKeys(pairs, "response");
    MapKeys(pairs, "authmod");
    MapKeys(pairs, "user");
  }
}
