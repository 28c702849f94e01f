/** HandleOBS as it runs (node/rtmp/server.go): its locals, updated turn by turn. */
module ObsHandler {
  import opened Bytes
  import opened StreamNames
  import opened Gateway

  class ObsConnection {
    const ip: string  // the name made of the remote address
    var pc: Pc
    var sawConnect: bool
    var authed: bool
    var authedUser: string
    var published: nat
    var name: string
    var rejected: bool  // rejectOnce has been used
    var closed: bool
    var crashed: bool
    var drains: nat
    var deaths: nat
    var closes: nat
    var attempts: nat
    ghost var log: Log

    ghost function Abs(): Handler
      reads this
    {
      Handler(pc, sawConnect, authed, authedUser, published, name, rejected, closed, crashed, drains, deaths, closes,
              attempts, ip, log)
    }

    constructor (ip: string)
      ensures this.ip == ip && Abs() == Start(ip)
    {
      this.ip, pc := ip, Reading;
      sawConnect, authed, authedUser := false, false, "";
      published, name, rejected, closed, crashed := 0, "", false, false, false;
      drains, deaths, closes, attempts := 0, 0, 0, 0;
      log := Nothing;
    }

    method Do(ghost a: Act)
      modifies this`log
      ensures log == Then(old(log), a)
    {
      log := Then(log, a);
    }

    /** The deferred cleanup. */
    method Leave()
      modifies this`pc, this`log
      ensures Abs() == Exit(old(Abs()))
    {
      pc := Done;
      if published == 0 { return; }
      Do(Released(published));
      Do(Unpublished(published));
    }

    method WriteBadName()
      modifies this`rejected, this`log
      ensures Abs() == WriteOnce(old(Abs()))
    {
      if rejected { return; }
      rejected := true;
      Do(BadName(true, !closed));
    }

    method ReadConnect(app: string, verify: VerifyVerdict, cool: set<string>)
      requires pc == Reading
      modifies this
      ensures Abs() == Next(old(Abs()), Recv(Connect(StageOf(AppQuery(app)), verify), cool))
    {
      var qs := ParseApp(app);
      Decide(StageOf(qs), verify, cool);
    }

    method Decide(stage: Stage, verify: VerifyVerdict, cool: set<string>)
      requires pc == Reading
      modifies this
      ensures Abs() == OnConnect(old(Abs()), stage, verify, cool)
    {
      if sawConnect { return; }
      sawConnect := true;
      match stage {
        case Response(user) =>
          if Cool(cool, user) {
            Leave();
          } else if verify.allow {
            authed, authedUser := true, user;
            Do(Verified(user));
          } else if verify.known {
            Leave();
          }
        case Challenge(user) =>
          if user != "" { Leave(); }
        case Fresh =>
          Leave();
      }
    }

    method ReadPublish(publishName: string)
      requires pc == Reading
      modifies this
      ensures Abs() == Next(old(Abs()), Recv(Publish(PublishParse(publishName)), {}))
    {
      attempts := attempts + 1;
      var explicit, token := ParsePublish(publishName);
      var candidate := explicit;
      if candidate == "" {
        if authed { candidate := authedUser; } else { candidate := ip; }
      }
      candidate := SafeStreamName(candidate);
      pc := PolicyWait(PublishName(explicit, token), candidate);
    }

    /** The policy rejections write their BadName past the once. */
    method RejectPublish()
      modifies this`pc, this`log
      ensures Abs() == Exit(Emit(old(Abs()), BadName(false, !old(closed))))
    {
      Do(BadName(false, !closed));
      Leave();
    }

    /** The session the gate just opened is ended again. */
    method Abandon()
      modifies this`pc, this`log
      ensures Abs() == Abort(old(Abs()))
    {
      Do(Unpublished(attempts));
      Leave();
    }

    /** The checks between the policy's answer and the gate, in their order. */
    method Check(pol: PolicyVerdict, explicit: string, final: string, cool: set<string>, folds: FoldTable)
      returns (ok: bool)
      requires !pol.unreachable
      ensures ok <==> Admits(pol, explicit, authed, authedUser, folds) && !Cool(cool, final) && !Cool(cool, authedUser)
    {
      if !pol.publishKey || pol.banned || !pol.windowOpen { return false; }
      if pol.requireAccountAuth {
        if !authed { return false; }
        if explicit != "" && !EqualFold(authedUser, explicit, folds) { return false; }
      }
      ok := !Cool(cool, final) && !Cool(cool, authedUser);
    }

    method PolicyAnswer(pol: PolicyVerdict, anon: string, cool: set<string>, folds: FoldTable)
      requires pc.PolicyWait? && anon != ""
      modifies this
      ensures Abs() == Next(old(Abs()), PolicyReply(pol, anon, cool, folds))
    {
      var explicit, candidate := pc.p.explicit, pc.candidate;
      var final := if candidate == "" then anon else candidate;
      ghost var ask := AskOf(Abs(), pol, anon, cool, folds);
      Do(Asked(attempts, ask));
      var ok := false;
      if !pol.unreachable {
        ok := Check(pol, explicit, final, cool, folds);
      }
      GoOn(pol.unreachable, ok, final, ask);
    }

    /** `ask` is what was found, for the specification only. */
    method GoOn(unreachable: bool, ok: bool, final: string, ghost ask: Ask)
      requires unreachable == ask.verdict.unreachable && ok == Passes(ask) && final == ask.final
      modifies this`pc, this`log
      ensures Abs() == Decided(old(Abs()), ask)
    {
      if unreachable {
        Leave();
      } else if !ok {
        RejectPublish();
      } else {
        pc := GateWait(final);
      }
    }

    method GateAnswer(allowed: bool)
      requires pc.GateWait?
      modifies this
      ensures Abs() == Next(old(Abs()), GateReply(allowed))
    {
      if !allowed {
        Reject();
      } else {
        Do(Granted(attempts, pc.final));
        pc := DialWait(pc.final);
      }
    }

    /** Rejected for good, past the policy: at most one BadName, and the connection is closed. */
    method Reject()
      modifies this
      ensures Abs() == Exit(WriteOnce(old(Abs())).(closed := true))
    {
      WriteBadName();
      closed := true;
      Leave();
    }

    /** A panic while the upstream is awaited: the deferred cleanup runs, and `published` does not name this attempt. */
    method PanicInWait()
      modifies this`crashed, this`pc, this`log
      ensures Abs() == Crash(old(Abs()))
    {
      crashed := true;
      Do(Crashed(attempts));
      Leave();
    }

    method DialAnswer(dialled: Reply)
      requires pc.DialWait?
      modifies this
      ensures Abs() == Next(old(Abs()), DialReply(dialled))
    {
      match dialled {
        case Succeeded => pc := PublishWait(pc.final);
        case Failed => Abandon();
        case Panicked => PanicInWait();
      }
    }

    method SetUpstream()
      requires pc.PublishWait?
      modifies this
      ensures Abs() == OnPublished(old(Abs()))
    {
      drains := drains + 1;
      published, name := attempts, pc.final;
      Do(UpSet(attempts, pc.final));
      pc := Reading;
    }

    method PublishAnswer(answer: Reply)
      requires pc.PublishWait?
      modifies this
      ensures Abs() == Next(old(Abs()), PublishReply(answer))
    {
      match answer {
        case Succeeded => SetUpstream();
        case Failed => Abandon();
        case Panicked => PanicInWait();
      }
    }

    method WriteFrame(f: Frame)
      modifies this
      ensures Abs() == Forward(old(Abs()), f)
    {
      if drains == 0 { return; }
      Do(Forwarded(f));
      if f.Media? && !f.writeOk {
        closed := true;
        Leave();
      }
    }

    method ReadData(f: Frame)
      requires pc == Reading
      modifies this
      ensures Abs() == Next(old(Abs()), Recv(Data(f), {}))
    {
      if f.spec && published != 0 {
        pc := SpecWait(f);
        return;
      }
      WriteFrame(f);
    }

    method SpecAnswer(allow: bool)
      requires pc.SpecWait?
      modifies this
      ensures Abs() == Next(old(Abs()), SpecReply(allow))
    {
      var f := pc.frame;
      Do(Judged(f, allow));
      if !allow {
        Do(Armed);
        pc := Rejected;
        return;
      }
      pc := Reading;
      WriteFrame(f);
    }

    /** The rest of a spec rejection; a drain may have come in between. */
    method RefuseSpec()
      requires pc == Rejected
      modifies this
      ensures Abs() == Next(old(Abs()), Refuse)
    {
      Reject();
    }

    /** The callback of a drain, up to the close that follows it. */
    method UpstreamDied()
      requires deaths < drains
      modifies this
      ensures Abs() == Next(old(Abs()), Death)
    {
      WriteBadName();
      deaths := deaths + 1;
    }
  }
}
