/**
 * Where the gateway's handler (node/rtmp/server.go) waits for its upstream (node/rtmp/upstream.go):
 * what comes of the wait, down to the bytes the upstream sends.
 */
module Relaying {
  import opened Bytes
  import opened Chunks
  import opened Negotiation
  import U = Upstream
  import G = Gateway
  import GatewayRuns
  import GatewaySessions
  import ObsHandler

  function ReplyOfDial(d: U.DialResult): G.Reply {
    match d
    case Connected(_) => G.Succeeded
    case NotConnected => G.Failed
    case DialPanicked => G.Panicked
  }

  function ReplyOfPublish(err: Option<U.PublishError>): G.Reply {
    match err
    case None => G.Succeeded
    case Some(e) => if e.Panicked? then G.Panicked else G.Failed
  }

  /** What the upstream sent comes to, for a handler that dials, and for one that has published. */
  function DialEvent(states: States, cs: nat, inp: bytes): G.Event {
    G.DialReply(ReplyOfDial(U.Dialled(ReadAdopting(states, cs, inp))))
  }

  function PublishEvent(states: States, cs: nat, inp: bytes): G.Event {
    G.PublishReply(ReplyOfPublish(U.Judge(U.AwaitCommand(ReadAdopting(states, cs, inp)))))
  }

  method DialUpstream(o: ObsHandler.ObsConnection, cr: ChunkReader, cw: ChunkWriter, app: bytes, tcUrl: bytes)
    requires o.pc.DialWait?
    modifies o, cr, cw
    ensures o.Abs() == G.Next(old(o.Abs()), DialEvent(old(cr.states), old(cr.chunkSize), old(cr.input)))
  {
    var dialled := U.Dial(cr, cw, app, tcUrl);
    o.DialAnswer(ReplyOfDial(dialled));
  }

  method PublishUpstream(o: ObsHandler.ObsConnection, cr: ChunkReader, cw: ChunkWriter, name: bytes)
    requires o.pc.PublishWait?
    modifies o, cr, cw
    ensures o.Abs() == G.Next(old(o.Abs()), PublishEvent(old(cr.states), old(cr.chunkSize), old(cr.input)))
  {
    var err := U.Publish(cr, cw, name);
    o.PublishAnswer(ReplyOfPublish(err));
  }

  /**
   * An upstream that sends a chunk-size announcement of one to three bytes where an answer is
   * awaited, whatever stands around it: the handler of the only publish attempt ends, and the
   * session it was granted is never ended.
   */
  lemma ShortAnnouncementLeaksSession(ip: string, dialling: bool, states: States, cs: nat, before: seq<Message>,
                                      short: Message, after: seq<Message>)
    returns (run: seq<G.Event>, h: G.Handler)
    requires cs >= 1 && U.Ignored(before) && Malformed(short)
    requires forall m | m in before + [short] + after :: Sendable(m)
    ensures G.Reaches(G.Start(ip), run, h) && h.pc == G.Done && h.attempts == 1 && !GatewaySessions.EndedOnce(h)
    ensures var inp := EncodeAdopting(before + [short] + after, cs);
            run[|run| - 1..] == [if dialling then DialEvent(states, cs, inp) else PublishEvent(states, cs, inp)]
  {
    ShortAnnouncementEvents(states, cs, before, short, after);
    run, h := GatewaySessions.PanicLeaksSession(ip, dialling);
  }

  lemma ShortAnnouncementEvents(states: States, cs: nat, before: seq<Message>, short: Message, after: seq<Message>)
    requires cs >= 1 && U.Ignored(before) && Malformed(short)
    requires forall m | m in before + [short] + after :: Sendable(m)
    ensures var inp := EncodeAdopting(before + [short] + after, cs);
            && DialEvent(states, cs, inp) == G.DialReply(G.Panicked)
            && PublishEvent(states, cs, inp) == G.PublishReply(G.Panicked)
  {
    U.ShortAnnouncementPanics(states, cs, before, short, after);
  }
}
