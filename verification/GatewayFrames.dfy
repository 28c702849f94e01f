/** What a gateway connection passes on to its upstream, in every run: nothing made up, lost or out of turn. */
module GatewayFrames {
  import opened Bytes
  import opened StreamNames
  import opened Gateway

  /**
   * What should have been passed on, from the events alone: once a publish has succeeded, all data
   * but a declared spec, which is held back until it is judged.
   */
  datatype Due = Due(up: bool, held: Option<Frame>, frames: seq<Frame>)

  function After(d: Due, e: Event): Due {
    match e
    case PublishReply(Succeeded) => d.(up := true)
    case Recv(Data(f), _) =>
      if !d.up then d else if f.spec then d.(held := Some(f)) else d.(frames := d.frames + [f])
    case SpecReply(allow) =>
      Due(d.up, None, if allow && d.held.Some? then d.frames + [d.held.value] else d.frames)
    case _ => d
  }

  function DueBehind(d: Due, run: seq<Event>): Due
    decreases |run|
  {
    if run == [] then d else DueBehind(After(d, run[0]), run[1..])
  }

  /** What was passed on. */
  function FramesOf(log: Log): seq<Frame> {
    match log
    case Nothing => []
    case Then(before, act) => FramesOf(before) + if act.Forwarded? then [act.frame] else []
  }

  ghost predicate FramesInv(h: Handler, d: Due) {
    && FramesOf(h.log) == d.frames
    && (d.up <==> h.drains > 0) && (h.published > 0 <==> h.drains > 0)
    && d.held == (if h.pc.SpecWait? then Some(h.pc.frame) else None)
    && (Publishing(h.pc) ==> h.attempts > 0) && (h.pc.SpecWait? ==> h.drains > 0)
  }

  lemma QuietKeepsFrames(h: Handler, a: Act, d: Due)
    requires FramesInv(h, d) && !a.Forwarded?
    ensures FramesInv(Emit(h, a), d)
  {
    assert FramesOf(h.log) + [] == FramesOf(h.log);
  }

  lemma ExitKeepsFrames(h: Handler, d: Due)
    requires FramesInv(h, d) && !h.pc.SpecWait?
    ensures FramesInv(Exit(h), d)
  {
    QuietKeepsFrames(h, Released(h.published), d);
    QuietKeepsFrames(Emit(h, Released(h.published)), Unpublished(h.published), d);
  }

  lemma OnceKeepsFrames(h: Handler, d: Due)
    requires FramesInv(h, d)
    ensures FramesInv(WriteOnce(h), d)
  {
    QuietKeepsFrames(h, BadName(true, !h.closed), d);
  }

  lemma RejectionKeepsFrames(h: Handler, d: Due)
    requires FramesInv(h, d) && !h.pc.SpecWait?
    ensures FramesInv(Exit(WriteOnce(h).(closed := true)), d)
  {
    OnceKeepsFrames(h, d);
    ExitKeepsFrames(WriteOnce(h).(closed := true), d);
  }

  lemma ForwardPasses(h: Handler, f: Frame, d: Due)
    requires FramesInv(h, d) && h.pc == Reading
    ensures FramesInv(Forward(h, f), if h.drains > 0 then d.(frames := d.frames + [f]) else d)
  {
    if h.drains > 0 {
      var h1 := Emit(h, Forwarded(f));
      assert FramesInv(h1, d.(frames := d.frames + [f]));
      ExitKeepsFrames(h1.(closed := true), d.(frames := d.frames + [f]));
    }
  }

  lemma ConnectKeepsFrames(h: Handler, stage: Stage, verify: VerifyVerdict, cool: set<string>, d: Due)
    requires FramesInv(h, d) && h.pc == Reading
    ensures FramesInv(OnConnect(h, stage, verify, cool), d)
  {
    var h1 := h.(sawConnect := true);
    ExitKeepsFrames(h1, d);
    if stage.Response? {
      QuietKeepsFrames(h1.(authed := true, user := stage.user), Verified(stage.user), d);
    }
  }

  lemma RecvKeepsFrames(h: Handler, m: Message, cool: set<string>, d: Due)
    requires FramesInv(h, d) && h.pc == Reading
    ensures FramesInv(OnRecv(h, m, cool), After(d, Recv(m, cool)))
  {
    match m {
      case Connect(stage, verify) => ConnectKeepsFrames(h, stage, verify, cool, d);
      case Publish(_) =>
      case Data(f) => ForwardPasses(h, f, d);
      case BadChunkSize => ExitKeepsFrames(h, d);
      case Other =>
    }
  }

  lemma PolicyKeepsFrames(h: Handler, e: Event, d: Due)
    requires FramesInv(h, d) && e.PolicyReply? && Enabled(h, e)
    ensures FramesInv(Next(h, e), d)
  {
    var ask := AskOf(h, e.verdict, e.anon, e.cool, e.folds);
    var h1 := Emit(h, Asked(h.attempts, ask));
    QuietKeepsFrames(h, Asked(h.attempts, ask), d);
    ExitKeepsFrames(h1, d);
    QuietKeepsFrames(h1, BadName(false, !h.closed), d);
    ExitKeepsFrames(Emit(h1, BadName(false, !h.closed)), d);
  }

  lemma GateKeepsFrames(h: Handler, allowed: bool, d: Due)
    requires FramesInv(h, d) && h.pc.GateWait?
    ensures FramesInv(OnGate(h, allowed), d)
  {
    if allowed {
      QuietKeepsFrames(h.(pc := DialWait(h.pc.final)), Granted(h.attempts, h.pc.final), d);
    } else {
      RejectionKeepsFrames(h, d);
    }
  }

  lemma EndingKeepsFrames(h: Handler, d: Due)
    requires FramesInv(h, d) && !h.pc.SpecWait?
    ensures FramesInv(Abort(h), d) && FramesInv(Crash(h), d)
  {
    QuietKeepsFrames(h, Unpublished(h.attempts), d);
    ExitKeepsFrames(Emit(h, Unpublished(h.attempts)), d);
    QuietKeepsFrames(h.(crashed := true), Crashed(h.attempts), d);
    ExitKeepsFrames(Emit(h.(crashed := true), Crashed(h.attempts)), d);
  }

  lemma DialledKeepsFrames(h: Handler, dialled: Reply, d: Due)
    requires FramesInv(h, d) && h.pc.DialWait?
    ensures FramesInv(OnDialled(h, dialled), d)
  {
    EndingKeepsFrames(h, d);
  }

  lemma AnswerKeepsFrames(h: Handler, answer: Reply, d: Due)
    requires FramesInv(h, d) && h.pc.PublishWait?
    ensures FramesInv(OnAnswer(h, answer), After(d, PublishReply(answer)))
  {
    EndingKeepsFrames(h, d);
    assert FramesOf(h.log) + [] == FramesOf(h.log);
  }

  lemma SpecKeepsFrames(h: Handler, allow: bool, d: Due)
    requires FramesInv(h, d) && h.pc.SpecWait?
    ensures FramesInv(OnSpec(h, allow), After(d, SpecReply(allow)))
  {
    var a := Judged(h.pc.frame, allow);
    QuietKeepsFrames(h, a, d);
    if allow {
      ForwardPasses(Emit(h, a).(pc := Reading), h.pc.frame, d.(held := None));
    } else {
      QuietKeepsFrames(Emit(h, a).(pc := Rejected), Armed, d.(held := None));
    }
  }

  lemma ReplyKeepsFrames(h: Handler, e: Event, d: Due)
    requires FramesInv(h, d) && Enabled(h, e)
    requires e.PolicyReply? || e.GateReply? || e.DialReply? || e.PublishReply? || e.SpecReply?
    ensures FramesInv(Next(h, e), After(d, e))
  {
    match e {
      case PolicyReply(_, _, _, _) => PolicyKeepsFrames(h, e, d);
      case GateReply(allowed) => GateKeepsFrames(h, allowed, d);
      case DialReply(dialled) => DialledKeepsFrames(h, dialled, d);
      case PublishReply(answer) => AnswerKeepsFrames(h, answer, d);
      case SpecReply(allow) => SpecKeepsFrames(h, allow, d);
    }
  }

  lemma CloseKeepsFrames(h: Handler, e: Event, d: Due)
    requires FramesInv(h, d) && (e.CloseByDeath? || e.Killed?) && Enabled(h, e)
    ensures FramesInv(Next(h, e), d)
  {
    assert Next(h, e).log == h.log;
  }

  lemma NextKeepsFrames(h: Handler, e: Event, d: Due)
    requires FramesInv(h, d) && Enabled(h, e)
    ensures FramesInv(Next(h, e), After(d, e))
  {
    match e {
      case Recv(m, cool) => RecvKeepsFrames(h, m, cool, d);
      case Refuse => RejectionKeepsFrames(h, d);
      case ReadEnd => ExitKeepsFrames(h, d);
      case Death => OnceKeepsFrames(h, d);
      case CloseByDeath => CloseKeepsFrames(h, e, d);
      case Killed => CloseKeepsFrames(h, e, d);
      case _ => ReplyKeepsFrames(h, e, d);
    }
  }

  lemma {:induction false} ReachesFrames(h: Handler, run: seq<Event>, t: Handler, d: Due)
    requires FramesInv(h, d) && Reaches(h, run, t)
    ensures FramesInv(t, DueBehind(d, run))
    decreases |run|
  {
    if run != [] {
      NextKeepsFrames(h, run[0], d);
      ReachesFrames(Next(h, run[0]), run[1..], t, After(d, run[0]));
    }
  }

  /**
   * In every run, what was passed on to the upstream is exactly what was due: all data received since
   * a publish succeeded, in the order received, but that each declared spec comes only once it was
   * allowed, and a rejected one never.
   */
  lemma PassesOnWhatIsDue(ip: string, run: seq<Event>, h: Handler)
    requires Reaches(Start(ip), run, h)
    ensures FramesOf(h.log) == DueBehind(Due(false, None, []), run).frames
  {
    ReachesFrames(Start(ip), run, h, Due(false, None, []));
  }
}
