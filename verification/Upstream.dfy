/**
 * The gateway as a publishing client (node/rtmp/upstream.go): waiting for a command while
 * adopting chunk sizes, judging the answer to a publish, and draining the connection afterwards.
 */
module Upstream {
  import opened Bytes
  import opened Chunks
  import opened Multiplexing
  import opened Negotiation
  import opened Amf0
  import opened AmfCommands

  const PUBLISH_START := Ascii("NetStream.Publish.Start")

  predicate IsCommand(m: Message) {
    m.mtype == 20 || m.mtype == 17
  }

  // ---- the verdict of a status command ----

  function TextField(v: Value, key: string): bytes {
    if v.Object? && Ascii(key) in v.fields && v.fields[Ascii(key)].Text? then v.fields[Ascii(key)].s else []
  }

  /** The code and description of the first object that has a code; empty when none has. */
  function Verdict(vals: seq<Value>): (bytes, bytes) {
    if vals == [] then ([], [])
    else if TextField(vals[0], "code") != [] then (TextField(vals[0], "code"), TextField(vals[0], "description"))
    else Verdict(vals[1..])
  }

  method OnStatusVerdict(vals: seq<Value>) returns (code: bytes, desc: bytes)
    ensures (code, desc) == Verdict(vals)
  {
    for n := 0 to |vals|
      invariant Verdict(vals[n..]) == Verdict(vals)
    {
      var v := vals[n];
      assert vals[n..][0] == v && vals[n..][1..] == vals[n + 1..];
      if v.Object? {
        code := TextField(v, "code");
        if |code| != 0 {
          desc := TextField(v, "description");
          return;
        }
      }
    }
    return [], [];
  }

  /** A value with a code that is not empty. */
  predicate BearsCode(v: Value) {
    && v.Object? && Ascii("code") in v.fields && v.fields[Ascii("code")].Text?
    && v.fields[Ascii("code")].s != []
  }

  /** The verdict on any values at all is that of the first object with a code; its description may be missing. */
  lemma {:induction false} VerdictIsFirst(vals: seq<Value>, n: nat)
    requires n <= |vals| && forall i :: 0 <= i < n ==> !BearsCode(vals[i])
    ensures n == |vals| ==> Verdict(vals) == ([], [])
    ensures n < |vals| && BearsCode(vals[n]) ==>
              && Verdict(vals).0 == vals[n].fields[Ascii("code")].s
              && Verdict(vals).1 == if Ascii("description") in vals[n].fields && vals[n].fields[Ascii("description")].Text?
                                    then vals[n].fields[Ascii("description")].s else []
  {
    if n > 0 {
      assert forall i :: 0 <= i < n - 1 ==> vals[1..][i] == vals[i + 1];
      VerdictIsFirst(vals[1..], n - 1);
    }
  }

  /** A code is fatal unless it is empty or says that publishing started. */
  predicate Fatal(vals: seq<Value>) {
    Verdict(vals).0 != [] && Verdict(vals).0 != PUBLISH_START
  }

  lemma OnStatusErrorVerdict(code: bytes, desc: bytes)
    requires |code| < 0x1_0000 && |desc| < 0x1_0000
    ensures Verdict(DecodeAll(CmdOnStatusError(code, desc))) == if code == [] then ([], []) else (code, desc)
  {
    OnStatusErrorDecodes(code, desc);
    assert Ascii("level")[0] != Ascii("code")[0] && Ascii("code")[0] != Ascii("description")[0];
    var info := Object(InfoFields("error", code, desc));
    assert TextField(info, "code") == code && TextField(info, "description") == desc;
    var vals := [Text(Ascii("onStatus")), Number(ZERO), Nil, info];
    assert vals[1..] == [Number(ZERO), Nil, info] && vals[1..][1..] == [Nil, info]
        && vals[1..][1..][1..] == [info] && vals[1..][1..][1..][1..] == [];
    assert Verdict([info]) == if code == [] then ([], []) else (code, desc);
    assert Verdict([Nil, info]) == Verdict([info]);
  }

  // ---- waiting for a command ----

  /** How waiting for a command ends; a chunk-size announcement of under four bytes is a run-time panic. */
  datatype Wait = Command(vals: seq<Value>) | Lost | Panic

  method ReadUntilCommand(cr: ChunkReader) returns (w: Wait)
    modifies cr
    ensures var ms := ReadAdopting(old(cr.states), old(cr.chunkSize), old(cr.input));
            && w == AwaitCommand(ms)
            && (w.Command? ==> ReadAdopting(cr.states, cr.chunkSize, cr.input) == AfterCommand(ms))
  {
    while true
      invariant AwaitCommand(ReadAdopting(cr.states, cr.chunkSize, cr.input)) ==
                AwaitCommand(ReadAdopting(old(cr.states), old(cr.chunkSize), old(cr.input)))
      invariant AfterCommand(ReadAdopting(cr.states, cr.chunkSize, cr.input)) ==
                AfterCommand(ReadAdopting(old(cr.states), old(cr.chunkSize), old(cr.input)))
      decreases |cr.input|
    {
      ghost var ms := ReadAdopting(cr.states, cr.chunkSize, cr.input);
      var msg := cr.ReadMessage();
      if msg.None? { return Lost; }
      assert ms[0] == msg.value;
      match msg.value.mtype {
        case 1 =>
          if |msg.value.payload| < 4 { return Panic; }
          cr.chunkSize := BE32(msg.value.payload[..4]);
        case 20 =>
          var vals := AmfDecodeAll(msg.value.payload);
          return Command(vals);
        case 17 =>
          var vals := AmfDecodeAll(msg.value.payload);
          return Command(vals);
        case _ =>
      }
      assert ms[1..] == ReadAdopting(cr.states, cr.chunkSize, cr.input);
    }
  }

  /** What a client that looks for a command finds in the messages it receives. */
  function AwaitCommand(ms: seq<Message>): Wait {
    if ms == [] then Lost
    else if IsCommand(ms[0]) then Command(DecodeAll(ms[0].payload))
    else if ms[0].mtype == SET_CHUNK_SIZE && |ms[0].payload| < 4 then Panic
    else AwaitCommand(ms[1..])
  }

  /** The messages behind that command. */
  function AfterCommand(ms: seq<Message>): seq<Message> {
    if ms == [] then [] else if IsCommand(ms[0]) then ms[1..] else AfterCommand(ms[1..])
  }

  // ---- dialling ----

  /** The stream id in the answer to createStream; zero, of either sign, and no number at all count as one. */
  function StreamIdOf(vals: seq<Value>): uint64 {
    if |vals| >= 4 && vals[3].Number? && vals[3].bits % 0x8000_0000_0000_0000 != 0 then vals[3].bits else ONE
  }

  datatype DialResult = Connected(sid: uint64) | NotConnected | DialPanicked

  /** What dialling comes to: the answer to connect, whatever it says, then that to createStream. */
  function Dialled(ms: seq<Message>): DialResult {
    match AwaitCommand(ms)
    case Lost => NotConnected
    case Panic => DialPanicked
    case Command(_) =>
      match AwaitCommand(AfterCommand(ms))
      case Lost => NotConnected
      case Panic => DialPanicked
      case Command(vals) => Connected(StreamIdOf(vals))
  }

  /** Announces the chunk size, connects and creates a stream, once the handshake is done. */
  method Dial(cr: ChunkReader, cw: ChunkWriter, app: bytes, tcUrl: bytes) returns (dialled: DialResult)
    modifies cr, cw
    ensures var ms := ReadAdopting(old(cr.states), old(cr.chunkSize), old(cr.input));
            && dialled == Dialled(ms)
            && (dialled.Connected? ==>
                  ReadAdopting(cr.states, cr.chunkSize, cr.input) == AfterCommand(AfterCommand(ms)))
    ensures dialled.Connected? ==>
              cw.output == old(cw.output) + Encode(Announcement(4096), 4096)
                           + Encode(Message(20, 3, 0, 0, CmdConnect(app, tcUrl)), 4096)
                           + Encode(Message(20, 3, 0, 0, CmdCreateStream()), 4096)
  {
    cw.WriteMessage(Announcement(4096));
    cw.WriteMessage(Message(20, 3, 0, 0, CmdConnect(app, tcUrl)));
    var w := ReadUntilCommand(cr);
    match w {
      case Lost => return NotConnected;
      case Panic => return DialPanicked;
      case Command(_) =>
    }
    cw.WriteMessage(Message(20, 3, 0, 0, CmdCreateStream()));
    w := ReadUntilCommand(cr);
    match w {
      case Lost => return NotConnected;
      case Panic => return DialPanicked;
      case Command(vals) => return Connected(StreamIdOf(vals));
    }
  }

  /** Sends publish(name) and waits: None is success, otherwise the error. */
  datatype PublishError = ConnectionLost | Rejected(code: bytes, desc: bytes) | Panicked

  function Judge(w: Wait): Option<PublishError> {
    match w
    case Lost => Some(ConnectionLost)
    case Panic => Some(Panicked)
    case Command(vals) =>
      if Fatal(vals) then Some(Rejected(Verdict(vals).0, Verdict(vals).1)) else None
  }

  method Publish(cr: ChunkReader, cw: ChunkWriter, name: bytes) returns (err: Option<PublishError>)
    modifies cr, cw
    ensures cw.output == old(cw.output) + Encode(Message(20, 3, 0, 0, CmdPublish(name)), 4096)
    ensures err == Judge(AwaitCommand(ReadAdopting(old(cr.states), old(cr.chunkSize), old(cr.input))))
  {
    cw.WriteMessage(Message(20, 3, 0, 0, CmdPublish(name)));
    var w := ReadUntilCommand(cr);
    match w {
      case Lost => return Some(ConnectionLost);
      case Panic => return Some(Panicked);
      case Command(vals) =>
        var code, desc := OnStatusVerdict(vals);
        if code != [] && code != PUBLISH_START {
          return Some(Rejected(code, desc));
        }
        return None;
    }
  }

  /** Neither a command nor a malformed announcement: what a wait passes over. */
  ghost predicate Ignored(ms: seq<Message>) {
    forall m | m in ms :: !IsCommand(m) && !Malformed(m)
  }

  lemma {:induction false} AwaitSkips(before: seq<Message>, answer: Message, after: seq<Message>)
    requires Ignored(before)
    ensures IsCommand(answer) ==>
              && AwaitCommand(before + [answer] + after) == Command(DecodeAll(answer.payload))
              && AfterCommand(before + [answer] + after) == after
    ensures Malformed(answer) ==> AwaitCommand(before + [answer] + after) == Panic
  {
    var ms := before + [answer] + after;
    if before != [] {
      assert before[0] in before && ms[0] == before[0] && ms[1..] == before[1..] + [answer] + after;
      AwaitSkips(before[1..], answer, after);
    }
  }

  /** Nothing behind a malformed announcement matters to a wait. */
  lemma {:induction false} AwaitReadable(ms: seq<Message>)
    ensures AwaitCommand(Readable(ms)) == AwaitCommand(ms)
    ensures AwaitCommand(ms).Command? ==> AfterCommand(Readable(ms)) == Readable(AfterCommand(ms))
  {
    if ms != [] && !Malformed(ms[0]) {
      var rest := Readable(ms[1..]);
      assert ([ms[0]] + rest)[1..] == rest;
      AwaitReadable(ms[1..]);
    }
  }

  lemma DialledReadable(ms: seq<Message>)
    ensures Dialled(Readable(ms)) == Dialled(ms)
  {
    AwaitReadable(ms);
    AwaitReadable(AfterCommand(ms));
  }

  lemma DialTakesSecondAnswer(before: seq<Message>, connected: Message, between: seq<Message>, created: Message,
                              after: seq<Message>)
    requires Ignored(before) && Ignored(between) && IsCommand(connected) && IsCommand(created)
    ensures Dialled(before + [connected] + (between + [created] + after)) ==
            Connected(StreamIdOf(DecodeAll(created.payload)))
  {
    AwaitSkips(before, connected, between + [created] + after);
    AwaitSkips(between, created, after);
  }

  /** Without a number in the fourth place, the stream id is one. */
  lemma DialWithoutIdUsesOne(before: seq<Message>, connected: Message, between: seq<Message>, created: Message,
                             after: seq<Message>)
    requires Ignored(before) && Ignored(between) && IsCommand(connected) && (created.mtype == 20 || created.mtype == 17)
    requires var vals := DecodeAll(created.payload); |vals| < 4 || !vals[3].Number?
    ensures Dialled(before + [connected] + (between + [created] + after)) == Connected(0x3FF0_0000_0000_0000)
  {
    DialTakesSecondAnswer(before, connected, between, created, after);
  }

  lemma CreatedStreamId(txn: uint64, sid: uint64)
    ensures |CmdCreateStreamResult(txn, sid)| == 29
    ensures StreamIdOf(DecodeAll(CmdCreateStreamResult(txn, sid))) ==
            if sid == 0 || sid == 0x8000_0000_0000_0000 then ONE else sid
  {
    CreateStreamResultDecodes(txn, sid);
    assert |CmdCreateStreamResult(txn, sid)| == |EncString(Ascii("_result"))| + 9 + 1 + 9;
  }

  /**
   * Dialling learns the stream id the server wrote, through both wire layers, whatever surrounds
   * the answers, chunk sizes announced on the way included, be they AMF0 commands or AMF3 ones.
   */
  lemma DialLearnsStreamId(states: States, cs: nat, before: seq<Message>, connected: Message, between: seq<Message>,
                           kind: byte, csid: nat, txn: uint64, sid: uint64, after: seq<Message>)
    requires cs >= 1 && 2 <= csid < 64 && Ignored(before) && Ignored(between) && IsCommand(connected)
    requires kind == 20 || kind == 17
    requires forall m | m in before + [connected] + between + after :: Sendable(m)
    ensures var created := Message(kind, csid, 0, 0, CmdCreateStreamResult(txn, sid));
            var inp := EncodeAdopting(before + [connected] + (between + [created] + after), cs);
            Dialled(ReadAdopting(states, cs, inp)) ==
            Connected(if sid == 0 || sid == 0x8000_0000_0000_0000 then ONE else sid)
  {
    var created := Message(kind, csid, 0, 0, CmdCreateStreamResult(txn, sid));
    var ms := before + [connected] + (between + [created] + after);
    CreatedStreamId(txn, sid);
    forall m | m in ms ensures Sendable(m) {
      assert m in before + [connected] + between + after || m == created;
    }
    AnnouncedMessagesReadBack(ms, states, cs);
    DialledReadable(ms);
    DialTakesSecondAnswer(before, connected, between, created, after);
  }

  /**
   * From the status the server writes to the error the gateway sees, through both wire layers, with
   * chunk sizes announced anywhere: a publish is refused exactly when the server's code is neither
   * empty nor Publish.Start, and then with that code and description.
   */
  lemma PublishVerdictArrives(states: States, cs: nat, before: seq<Message>, after: seq<Message>,
                              kind: byte, csid: nat, code: bytes, desc: bytes)
    requires cs >= 1 && 2 <= csid < 64 && |code| < 0x1_0000 && |desc| < 0x1_0000
    requires kind == 20 || kind == 17
    requires Ignored(before) && forall m | m in before + after :: Sendable(m)
    ensures var answer := Message(kind, csid, 1, 0, CmdOnStatusError(code, desc));
            var inp := EncodeAdopting(before + [answer] + after, cs);
            Judge(AwaitCommand(ReadAdopting(states, cs, inp))) ==
            if code == [] || code == Ascii("NetStream.Publish.Start") then None else Some(Rejected(code, desc))
  {
    var answer := Message(kind, csid, 1, 0, CmdOnStatusError(code, desc));
    var ms := before + [answer] + after;
    StatusSize(code, desc);
    forall m | m in ms ensures Sendable(m) {
      assert m in before + after || m == answer;
    }
    AnnouncedMessagesReadBack(ms, states, cs);
    AwaitReadable(ms);
    AwaitSkips(before, answer, after);
    OnStatusErrorVerdict(code, desc);
  }

  /** An announcement of under four bytes ends the wait in a panic, in front of the answer or in place of it. */
  lemma ShortAnnouncementPanics(states: States, cs: nat, before: seq<Message>, short: Message, after: seq<Message>)
    requires cs >= 1 && Ignored(before) && Malformed(short)
    requires forall m | m in before + [short] + after :: Sendable(m)
    ensures var ms := ReadAdopting(states, cs, EncodeAdopting(before + [short] + after, cs));
            AwaitCommand(ms) == Panic && Judge(AwaitCommand(ms)) == Some(Panicked) && Dialled(ms) == DialPanicked
  {
    var ms := before + [short] + after;
    AnnouncedMessagesReadBack(ms, states, cs);
    AwaitReadable(ms);
    AwaitSkips(before, short, after);
  }

  lemma StatusSize(code: bytes, desc: bytes)
    requires |code| < 0x1_0000 && |desc| < 0x1_0000
    ensures 1 <= |CmdOnStatusError(code, desc)| < 0x100_0000
  {
    var a, b, c := Prop(Ascii("level"), EncString(Ascii("error"))), Prop(Ascii("code"), EncString(code)),
                   Prop(Ascii("description"), EncString(desc));
    assert [a, b, c][1..] == [b, c] && [b, c][1..] == [c] && [c][1..] == [];
    assert EncProps([b, c]) == EncProp(b) + EncProps([c]) && EncProps([c]) == EncProp(c) + [];
    assert |EncObject([a, b, c])| < 0x10_0000;
  }

  // ---- relaying ----

  /** Forwards a message on the upstream's own message stream. */
  method WriteFrame(cw: ChunkWriter, m: Message, sid: uint32)
    modifies cw
    ensures cw.output == old(cw.output) + Encode(m.(streamId := sid), 4096)
  {
    cw.WriteMessage(m.(streamId := sid));
  }

  lemma {:induction false} OnlyLowBitsOfStream(m: Message, n: Message, off: nat, cs: nat)
    requires cs >= 1 && off <= |m.payload| && n == m.(csid := n.csid) && n.csid % 64 == m.csid % 64
    ensures EncodeFrom(m, off, cs) == EncodeFrom(n, off, cs)
    decreases |m.payload| - off
  {
    if off + cs < |m.payload| {
      OnlyLowBitsOfStream(m, n, off + cs, cs);
    }
  }

  lemma StreamsFromTwo(states: States, cs: nat, inp: bytes)
    ensures var r := Step(states, cs, inp); r.out.Deliver? ==> r.out.msg.csid >= 2
  {
  }

  /** Chunk streams 0 and 1 do not exist: no message is ever read from them. */
  lemma {:induction false} NothingFromLowStreams(states: States, cs: nat, inp: bytes)
    ensures forall m | m in ReadAll(states, cs, inp) :: m.csid >= 2
    decreases |inp|
  {
    var r := Step(states, cs, inp);
    StreamsFromTwo(states, cs, inp);
    ReadAllByChunk(states, cs, inp);
    if r.out != Eof {
      NothingFromLowStreams(r.states, cs, r.rest);
    }
  }

  /**
   * What the upstream reads of a forwarded message is that message, type, time and payload, on its own
   * message stream and on the chunk stream that the low six bits name, if and only if they name one.
   */
  lemma ForwardedReadsBackExactly(m: Message, sid: uint32, states: States)
    requires 1 <= |m.payload| < 0x100_0000
    ensures ReadAll(states, 4096, Encode(m.(streamId := sid), 4096)) ==
            [Message(m.mtype, m.csid % 64, sid, m.timestamp, m.payload)]
       <==> m.csid % 64 >= 2
  {
    var n := Message(m.mtype, m.csid % 64, sid, m.timestamp, m.payload);
    if m.csid % 64 >= 2 {
      OnlyLowBitsOfStream(m.(streamId := sid), n, 0, 4096);
      ReadBackExceptEmpty(n, states, 4096);
    } else {
      NothingFromLowStreams(states, 4096, Encode(m.(streamId := sid), 4096));
      assert n in [n];
    }
  }

  const WIDE := Message(8, 64, 1, 0, [0xAF])
  const WIDE_BYTES: bytes := [0, 0, 0, 0, 0, 0, 1, 8, 1, 0, 0, 0, 0xAF]

  lemma WideIsEncoded()
    ensures Encode(WIDE, 4096) == WIDE_BYTES
  {
    assert Continuations(WIDE, 0 + 4096, 4096) == [];
    assert EncodeHeader(WIDE) == [0, 0, 0, 0, 0, 0, 1, 8, 1, 0, 0, 0];
    assert EncodeChunk(WIDE, 0, 4096) == WIDE_BYTES;
  }

  lemma WideIsMisread()
    ensures ParseBasic(WIDE_BYTES) == Parsed((0, 64), 2)
    ensures ParseHeader(0, WIDE_BYTES[2..]) == Parsed(Full(0, 0x108, 1, 0xAF00_0000), 11)
  {
    var h := WIDE_BYTES[2..];
    assert h == [0, 0, 0, 0, 1, 8, 1, 0, 0, 0, 0xAF];
    assert h[..3] == [0, 0, 0] && h[3..6] == [0, 1, 8] && h[7..11] == [0, 0, 0, 0xAF];
  }

  /** A message from chunk stream 64 loses its framing when forwarded: one byte of audio is never read. */
  lemma WideFrameIsLost()
    ensures ReadAll(map[], 4096, Encode(WIDE, 4096)) == []
  {
    WideIsEncoded();
    WideIsMisread();
    var h := Full(0, 0x108, 1, 0xAF00_0000);
    StepIs(map[], 4096, WIDE_BYTES, 0, 64, 2, h, 11);
    assert WIDE_BYTES[2..][11..] == [];
    ReadAllByChunk(map[], 4096, WIDE_BYTES);
  }

  // ---- draining ----

  /** Why a drained connection was declared dead. */
  datatype Death = ConnectionDied | StatusError(code: bytes, desc: bytes)

  function DeathIn(ms: seq<Message>): Death {
    if ms == [] then ConnectionDied
    else if IsCommand(ms[0]) && Fatal(DecodeAll(ms[0].payload)) then
      var (code, desc) := Verdict(DecodeAll(ms[0].payload));
      StatusError(code, desc)
    else DeathIn(ms[1..])
  }

  /** Discards messages up to the first fatal status, or to the end; chunk sizes are not adopted here. */
  method Drain(cr: ChunkReader) returns (death: Death)
    modifies cr
    ensures death == DeathIn(ReadAll(old(cr.states), old(cr.chunkSize), old(cr.input)))
  {
    while true
      invariant DeathIn(ReadAll(cr.states, cr.chunkSize, cr.input)) ==
                DeathIn(ReadAll(old(cr.states), old(cr.chunkSize), old(cr.input)))
      decreases |cr.input|
    {
      ghost var ms := ReadAll(cr.states, cr.chunkSize, cr.input);
      var msg := cr.ReadMessage();
      if msg.None? { return ConnectionDied; }
      assert ms == [msg.value] + ReadAll(cr.states, cr.chunkSize, cr.input);
      if msg.value.mtype == 20 || msg.value.mtype == 17 {
        var vals := AmfDecodeAll(msg.value.payload);
        var code, desc := OnStatusVerdict(vals);
        if code != [] && code != PUBLISH_START {
          return StatusError(code, desc);
        }
      }
      assert ms[1..] == ReadAll(cr.states, cr.chunkSize, cr.input);
    }
  }

  lemma {:induction false} DeathSkips(before: seq<Message>, answer: Message, after: seq<Message>)
    requires forall m | m in before :: !(IsCommand(m) && Fatal(DecodeAll(m.payload)))
    requires IsCommand(answer) && Fatal(DecodeAll(answer.payload))
    ensures DeathIn(before + [answer] + after) ==
            var (code, desc) := Verdict(DecodeAll(answer.payload)); StatusError(code, desc)
  {
    var ms := before + [answer] + after;
    if before != [] {
      assert before[0] in before && ms[0] == before[0] && ms[1..] == before[1..] + [answer] + after;
      DeathSkips(before[1..], answer, after);
    }
  }

  /** A status error as the server writes it. */
  function StatusMessage(csid: nat, code: bytes, desc: bytes): Message {
    Message(20, csid, 1, 0, CmdOnStatusError(code, desc))
  }

  /**
   * A status error in mid-stream ends the drain with its own code and description, whatever harmless
   * traffic precedes it and whatever bytes follow, if each message that the server sends while its
   * chunk size differs from the one the drain keeps fits one chunk at both.
   */
  lemma DrainReportsStatusError(states: States, cs: nat, own: nat, before: seq<Message>, tail: bytes,
                                csid: nat, code: bytes, desc: bytes)
    requires cs >= 1 && own >= 1
    requires 2 <= csid < 64 && 1 <= |code| < 0x1_0000 && |desc| < 0x1_0000 && code != PUBLISH_START
    requires forall m | m in before :: Sendable(m) && !(IsCommand(m) && Fatal(DecodeAll(m.payload)))
    requires Framed(before + [StatusMessage(csid, code, desc)], cs, own)
    ensures var sent := EncodeAdopting(before + [StatusMessage(csid, code, desc)], cs);
            DeathIn(ReadAll(states, own, sent + tail)) == StatusError(code, desc)
  {
    var answer := StatusMessage(csid, code, desc);
    StatusSize(code, desc);
    forall m | m in before + [answer] ensures Sendable(m) {
      assert m in before || m == answer;
    }
    FramedIsUnchanged(before + [answer], cs, own);
    var rest := ReadsOn(before + [answer], states, own, tail);
    OnStatusErrorVerdict(code, desc);
    DeathSkips(before, answer, ReadAll(rest, own, tail));
  }
}
