/**
 * What the chunk layer guarantees end to end: chunks of different streams may be interleaved
 * in any way, and the reader still returns exactly the messages that were written.
 */
module Multiplexing {
  import opened Bytes
  import opened Chunks

  /** The chunk that carries the payload of `msg` from offset `off`. */
  datatype Piece = Piece(msg: Message, off: nat)

  ghost predicate Writable(m: Message) {
    2 <= m.csid < 64 && 1 <= |m.payload| < 0x100_0000
  }

  ghost function PieceBytes(p: Piece, cs: nat): bytes {
    if p.off <= |p.msg.payload| then EncodeChunk(p.msg, p.off, cs) else []
  }

  /** The chunks of a queue of messages, the first of which has been sent up to offset `off`. */
  ghost function Pieces(ms: seq<Message>, off: nat, cs: nat): seq<Piece>
    requires cs >= 1
    decreases |ms|, if ms == [] then 0 else |ms[0].payload| - off
  {
    if ms == [] then []
    else [Piece(ms[0], off)]
         + if off + cs < |ms[0].payload| then Pieces(ms, off + cs, cs) else Pieces(ms[1..], 0, cs)
  }

  ghost function Flatten(w: seq<Piece>, cs: nat): bytes {
    if w == [] then [] else PieceBytes(w[0], cs) + Flatten(w[1..], cs)
  }

  ghost function OnStream(w: seq<Piece>, c: nat): seq<Piece> {
    if w == [] then [] else (if w[0].msg.csid == c then [w[0]] else []) + OnStream(w[1..], c)
  }

  ghost function MessagesOn(ms: seq<Message>, c: nat): seq<Message> {
    if ms == [] then [] else (if ms[0].csid == c then [ms[0]] else []) + MessagesOn(ms[1..], c)
  }

  ghost predicate IsLast(p: Piece, cs: nat) {
    p.off + cs >= |p.msg.payload|
  }

  /** The messages of `w` in the order in which their last chunks appear. */
  ghost function InOrderOfLastChunk(w: seq<Piece>, cs: nat): seq<Message> {
    if w == [] then [] else (if IsLast(w[0], cs) then [w[0].msg] else []) + InOrderOfLastChunk(w[1..], cs)
  }

  ghost function Queue(q: map<nat, seq<Message>>, c: nat): seq<Message> {
    if c in q then q[c] else []
  }

  ghost predicate WritableQueues(q: map<nat, seq<Message>>) {
    forall c, k :: c in q && 0 <= k < |q[c]| ==> Writable(q[c][k]) && q[c][k].csid == c
  }

  /** `w` interleaves, chunk by chunk, the chunks of the queued messages of every stream. */
  ghost predicate Interleaving(w: seq<Piece>, q: map<nat, seq<Message>>, offs: map<nat, nat>, cs: nat)
    requires cs >= 1
  {
    forall c: nat :: OnStream(w, c) == Pieces(Queue(q, c), Sent(offs, c), cs)
  }

  ghost function Sent(offs: map<nat, nat>, c: nat): nat {
    if c in offs then offs[c] else 0
  }

  // ---- one chunk ----

  /** The reader is `off` bytes into message `m`. */
  ghost predicate Holding(st: ChunkState, m: Message, off: nat) {
    0 < off < |m.payload| && st.buf == m.payload[..off]
    && st.ts == m.timestamp && st.mlen == |m.payload| && st.mtype == m.mtype && st.msid == m.streamId
  }

  lemma Middle(a: bytes, b: bytes, c: bytes)
    ensures (a + (b + c))[|a|..|a| + |b|] == b
  {
  }

  /** `inp` opens with a fmt-0 header `h` of `size` bytes on chunk stream `csid`. */
  ghost predicate OpensWith(inp: bytes, csid: nat, h: Header, size: nat) {
    ParseBasic(inp) == Parsed((0, csid), 1) && size >= 1 && ParseHeader(0, inp[1..]) == Parsed(h, size - 1)
  }

  lemma FieldsParse(csid: byte, stamp: bytes, size: bytes, ty: byte, sid: bytes, ext: bytes, t: uint32, tail: bytes)
    requires |stamp| == 3 && |size| == 3 && |sid| == 4 && 2 <= csid < 64
    requires if BE24(stamp) == 0xFF_FFFF then |ext| == 4 && BE32(ext) == t else ext == [] && BE24(stamp) == t
    ensures OpensWith(HeaderBytes(csid, stamp, size, ty, sid, ext) + tail, csid,
                      Full(t, BE24(size), ty, LE32(sid)), 12 + |ext|)
  {
    var fields := stamp + (size + ([ty] + (sid + ext)));
    var body := fields + tail;
    assert (HeaderBytes(csid, stamp, size, ty, sid, ext) + tail)[1..] == body;
    Middle(stamp, size, [ty] + (sid + ext));
    assert fields == (stamp + size + [ty]) + (sid + ext);
    Middle(stamp + size + [ty], sid, ext);
    assert body[..3] == stamp && body[3..6] == size && body[6] == ty && body[7..11] == sid;
    assert body[11..11 + |ext|] == ext;
  }

  lemma HeaderParses(m: Message, tail: bytes)
    requires 2 <= m.csid < 64 && |m.payload| < 0x100_0000
    ensures OpensWith(EncodeHeader(m) + tail, m.csid,
                      Full(m.timestamp, |m.payload|, m.mtype, m.streamId), |EncodeHeader(m)|)
  {
    var stamp := PutBE24(if m.timestamp >= 0xFF_FFFF then 0xFF_FFFF else m.timestamp);
    var size, sid := PutBE24(|m.payload|), PutLE32(m.streamId);
    var ext := if m.timestamp >= 0xFF_FFFF then PutBE32(m.timestamp) else [];
    assert EncodeHeader(m) == HeaderBytes(m.csid, stamp, size, m.mtype, sid, ext);
    assert BE24(size) == |m.payload| && LE32(sid) == m.streamId by {
      BE24RoundTrip(|m.payload|);
      LE32RoundTrip(m.streamId);
    }
    BE24RoundTrip(if m.timestamp >= 0xFF_FFFF then 0xFF_FFFF else m.timestamp);
    BE32RoundTrip(m.timestamp);
    FieldsParse(m.csid, stamp, size, m.mtype, sid, ext, m.timestamp, tail);
  }

  /** The payload part of a chunk, once its header has left the state `st`. */
  lemma AbsorbPiece(states: States, st: ChunkState, m: Message, off: nat, cs: nat, tail: bytes)
    requires cs >= 1 && Writable(m) && off < |m.payload|
    requires st == ChunkState(m.timestamp, |m.payload|, st.delta, m.mtype, m.streamId, m.payload[..off])
    ensures var data := m.payload[off..Min(off + cs, |m.payload|)];
            var r := Absorb(states, m.csid, st, cs, data + tail);
            ReadsPiece(states, m, off, cs, tail, r)
  {
    var data := m.payload[off..Min(off + cs, |m.payload|)];
    assert (data + tail)[..|data|] == data && (data + tail)[|data|..] == tail;
    assert m.payload[..off] + data == m.payload[..Min(off + cs, |m.payload|)];
    assert m.payload[..|m.payload|] == m.payload;
  }

  lemma StepIs(states: States, cs: nat, inp: bytes, fmt: nat, csid: nat, n: nat, h: Header, k: nat)
    requires ParseBasic(inp) == Parsed((fmt, csid), n) && ParseHeader(fmt, inp[n..]) == Parsed(h, k)
    ensures Step(states, cs, inp) == Absorb(states, csid, Apply(Lookup(states, csid), h), cs, inp[n..][k..])
  {
  }

  lemma StepOpens(states: States, cs: nat, inp: bytes, csid: nat, h: Header, size: nat)
    requires OpensWith(inp, csid, h, size)
    ensures Step(states, cs, inp) == Absorb(states, csid, Apply(Lookup(states, csid), h), cs, inp[1..][size - 1..])
  {
  }

  /** What reading the chunk of `m` at `off`, followed by `tail`, must come to. */
  ghost predicate ReadsPiece(states: States, m: Message, off: nat, cs: nat, tail: bytes, r: StepResult) {
    && r.rest == tail
    && (forall c | c != m.csid :: Lookup(r.states, c) == Lookup(states, c))
    && if off + cs >= |m.payload| then r.out == Deliver(m)
       else r.out == More && Holding(Lookup(r.states, m.csid), m, off + cs)
  }

  lemma StepOverFirst(states: States, m: Message, cs: nat, tail: bytes)
    requires cs >= 1 && Writable(m)
    ensures ReadsPiece(states, m, 0, cs, tail, Step(states, cs, EncodeChunk(m, 0, cs) + tail))
  {
    var head, data := EncodeHeader(m), m.payload[0..Min(0 + cs, |m.payload|)];
    var inp := head + (data + tail);
    assert EncodeChunk(m, 0, cs) + tail == inp;
    var h := Full(m.timestamp, |m.payload|, m.mtype, m.streamId);
    HeaderParses(m, data + tail);
    StepOpens(states, cs, inp, m.csid, h, |head|);
    assert inp[1..][|head| - 1..] == data + tail;
    AbsorbPiece(states, Apply(Lookup(states, m.csid), h), m, 0, cs, tail);
  }

  lemma StepOverNext(states: States, m: Message, off: nat, cs: nat, tail: bytes)
    requires cs >= 1 && Writable(m) && Holding(Lookup(states, m.csid), m, off)
    ensures ReadsPiece(states, m, off, cs, tail, Step(states, cs, EncodeChunk(m, off, cs) + tail))
  {
    var data := m.payload[off..Min(off + cs, |m.payload|)];
    var inp := [0xC0 + m.csid % 64] + (data + tail);
    assert EncodeChunk(m, off, cs) + tail == inp;
    StepIs(states, cs, inp, 3, m.csid, 1, Bare, 0);
    assert inp[1..][0..] == data + tail;
    AbsorbPiece(states, Lookup(states, m.csid), m, off, cs, tail);
  }

  /** From any state of the other streams, one written chunk is read as one chunk. */
  lemma StepOverPiece(states: States, p: Piece, cs: nat, tail: bytes)
    requires cs >= 1 && Writable(p.msg)
    requires p.off == 0 || Holding(Lookup(states, p.msg.csid), p.msg, p.off)
    ensures ReadsPiece(states, p.msg, p.off, cs, tail, Step(states, cs, PieceBytes(p, cs) + tail))
  {
    if p.off == 0 {
      StepOverFirst(states, p.msg, cs, tail);
    } else {
      StepOverNext(states, p.msg, p.off, cs, tail);
    }
  }

  // ---- whole runs ----

  /** Reading everything, seen chunk by chunk instead of message by message. */
  lemma ReadAllByChunk(states: States, cs: nat, inp: bytes)
    ensures var r := Step(states, cs, inp);
            ReadAll(states, cs, inp) ==
            match r.out
            case Eof => []
            case More => ReadAll(r.states, cs, r.rest)
            case Deliver(m) => [m] + ReadAll(r.states, cs, r.rest)
  {
  }

  ghost predicate Positioned(states: States, q: map<nat, seq<Message>>, offs: map<nat, nat>) {
    forall c: nat :: Sent(offs, c) > 0 ==> Queue(q, c) != [] && Holding(Lookup(states, c), Queue(q, c)[0], Sent(offs, c))
  }

  /** After the first piece of `w`: the queues and offsets that the remaining pieces interleave. */
  ghost function NextQueues(q: map<nat, seq<Message>>, p: Piece, cs: nat): map<nat, seq<Message>> {
    var c := p.msg.csid;
    if IsLast(p, cs) && Queue(q, c) != [] then q[c := Queue(q, c)[1..]] else q
  }

  ghost function NextOffsets(offs: map<nat, nat>, p: Piece, cs: nat): map<nat, nat> {
    offs[p.msg.csid := if IsLast(p, cs) then 0 else p.off + cs]
  }

  /** The first of the pieces still to be sent, and the rest of them. */
  lemma PiecesCons(ms: seq<Message>, off: nat, cs: nat) returns (rest: seq<Piece>)
    requires cs >= 1 && ms != []
    ensures rest == if IsLast(Piece(ms[0], off), cs) then Pieces(ms[1..], 0, cs) else Pieces(ms, off + cs, cs)
    ensures Pieces(ms, off, cs) == [Piece(ms[0], off)] + rest && Pieces(ms, off, cs)[1..] == rest
  {
    rest := if IsLast(Piece(ms[0], off), cs) then Pieces(ms[1..], 0, cs) else Pieces(ms, off + cs, cs);
  }

  /** An interleaving starts with the piece that is due next on its stream. */
  lemma FirstPiece(w: seq<Piece>, q: map<nat, seq<Message>>, offs: map<nat, nat>, cs: nat)
    requires cs >= 1 && w != [] && WritableQueues(q)
    requires OnStream(w, w[0].msg.csid) == Pieces(Queue(q, w[0].msg.csid), Sent(offs, w[0].msg.csid), cs)
    ensures var p, c := w[0], w[0].msg.csid;
            && Queue(q, c) != [] && p == Piece(Queue(q, c)[0], Sent(offs, c)) && Writable(p.msg)
            && OnStream(w[1..], c) == Pieces(Queue(NextQueues(q, p, cs), c), Sent(NextOffsets(offs, p, cs), c), cs)
  {
    var p, c := w[0], w[0].msg.csid;
    var ms, off := Queue(q, c), Sent(offs, c);
    assert OnStream(w, c)[0] == p && OnStream(w, c)[1..] == OnStream(w[1..], c);
    var _ := PiecesCons(ms, off, cs);
    if IsLast(p, cs) {
      assert Queue(NextQueues(q, p, cs), c) == ms[1..] && Sent(NextOffsets(offs, p, cs), c) == 0;
    } else {
      assert Queue(NextQueues(q, p, cs), c) == ms && Sent(NextOffsets(offs, p, cs), c) == off + cs;
    }
  }

  lemma NextPiece(w: seq<Piece>, q: map<nat, seq<Message>>, offs: map<nat, nat>, cs: nat)
    requires cs >= 1 && w != [] && WritableQueues(q) && Interleaving(w, q, offs, cs)
    ensures WritableQueues(NextQueues(q, w[0], cs))
    ensures Interleaving(w[1..], NextQueues(q, w[0], cs), NextOffsets(offs, w[0], cs), cs)
  {
    var q', offs' := NextQueues(q, w[0], cs), NextOffsets(offs, w[0], cs);
    forall d: nat
      ensures OnStream(w[1..], d) == Pieces(Queue(q', d), Sent(offs', d), cs)
    {
      assert OnStream(w, d) == Pieces(Queue(q, d), Sent(offs, d), cs);
      if d == w[0].msg.csid {
        FirstPiece(w, q, offs, cs);
      } else {
        assert Queue(q', d) == Queue(q, d) && Sent(offs', d) == Sent(offs, d);
        assert OnStream(w, d) == OnStream(w[1..], d);
      }
    }
  }

  lemma NextPosition(states: States, q: map<nat, seq<Message>>, offs: map<nat, nat>, p: Piece, cs: nat, r: StepResult, tail: bytes)
    requires cs >= 1 && Positioned(states, q, offs)
    requires Queue(q, p.msg.csid) != [] && p == Piece(Queue(q, p.msg.csid)[0], Sent(offs, p.msg.csid))
    requires ReadsPiece(states, p.msg, p.off, cs, tail, r)
    ensures Positioned(r.states, NextQueues(q, p, cs), NextOffsets(offs, p, cs))
  {
    var q', offs' := NextQueues(q, p, cs), NextOffsets(offs, p, cs);
    forall c: nat | Sent(offs', c) > 0
      ensures Queue(q', c) != [] && Holding(Lookup(r.states, c), Queue(q', c)[0], Sent(offs', c))
    {
      if c != p.msg.csid {
        assert Sent(offs', c) == Sent(offs, c) && Queue(q', c) == Queue(q, c);
      }
    }
  }

  lemma MessagesOnAll(ms: seq<Message>, q: map<nat, seq<Message>>, q': map<nat, seq<Message>>, p: Piece, cs: nat)
    requires Queue(q, p.msg.csid) != [] && p.msg == Queue(q, p.msg.csid)[0] && q' == NextQueues(q, p, cs)
    requires forall c: nat :: MessagesOn(ms, c) == Queue(q', c)
    ensures forall c: nat :: MessagesOn(if IsLast(p, cs) then [p.msg] + ms else ms, c) == Queue(q, c)
  {
    forall c: nat
      ensures MessagesOn(if IsLast(p, cs) then [p.msg] + ms else ms, c) == Queue(q, c)
    {
      assert MessagesOn(ms, c) == Queue(q', c);
      assert ([p.msg] + ms)[1..] == ms;
    }
  }

  /** The general form: some streams may be in the middle of a message. */
  lemma {:induction false} ReadsInterleaving(w: seq<Piece>, q: map<nat, seq<Message>>, offs: map<nat, nat>,
                                             states: States, cs: nat)
    requires cs >= 1 && WritableQueues(q) && Interleaving(w, q, offs, cs) && Positioned(states, q, offs)
    ensures ReadAll(states, cs, Flatten(w, cs)) == InOrderOfLastChunk(w, cs)
    ensures forall c: nat :: MessagesOn(InOrderOfLastChunk(w, cs), c) == Queue(q, c)
    decreases |w|
  {
    if w == [] {
      forall c: nat ensures Queue(q, c) == [] {
        assert OnStream(w, c) == Pieces(Queue(q, c), Sent(offs, c), cs);
      }
    } else {
      var p, tail := w[0], Flatten(w[1..], cs);
      var q', offs' := NextQueues(q, p, cs), NextOffsets(offs, p, cs);
      var r := Step(states, cs, PieceBytes(p, cs) + tail);
      FirstPiece(w, q, offs, cs);
      NextPiece(w, q, offs, cs);
      StepOverPiece(states, p, cs, tail);
      NextPosition(states, q, offs, p, cs, r, tail);
      ReadAllByChunk(states, cs, PieceBytes(p, cs) + tail);
      ReadsInterleaving(w[1..], q', offs', r.states, cs);
      MessagesOnAll(InOrderOfLastChunk(w[1..], cs), q, q', p, cs);
    }
  }

  /**
   * Whatever the reader's states were before, it returns the messages in the order of their
   * last chunks, and on every chunk stream exactly the messages written there, in order.
   */
  lemma InterleavedMessagesReadBack(w: seq<Piece>, q: map<nat, seq<Message>>, states: States, cs: nat)
    requires cs >= 1 && WritableQueues(q) && Interleaving(w, q, map[], cs)
    ensures ReadAll(states, cs, Flatten(w, cs)) == InOrderOfLastChunk(w, cs)
    ensures forall c: nat :: MessagesOn(InOrderOfLastChunk(w, cs), c) == Queue(q, c)
  {
    ReadsInterleaving(w, q, map[], states, cs);
  }

  // ---- one writer, one message after another ----

  function EncodeAll(ms: seq<Message>, cs: nat): bytes
    requires cs >= 1
  {
    if ms == [] then [] else Encode(ms[0], cs) + EncodeAll(ms[1..], cs)
  }

  ghost function ByStream(ms: seq<Message>): map<nat, seq<Message>> {
    map c: nat | 2 <= c < 64 :: MessagesOn(ms, c)
  }

  lemma FlattenCons(p: Piece, rest: seq<Piece>, cs: nat)
    ensures Flatten([p] + rest, cs) == PieceBytes(p, cs) + Flatten(rest, cs)
  {
    assert ([p] + rest)[1..] == rest;
  }

  lemma {:induction false} InTurnBytes(ms: seq<Message>, off: nat, cs: nat)
    requires cs >= 1 && ms != [] && off <= |ms[0].payload|
    ensures Flatten(Pieces(ms, off, cs), cs) == EncodeFrom(ms[0], off, cs) + EncodeAll(ms[1..], cs)
    decreases |ms|, |ms[0].payload| - off, 1
  {
    var rest := PiecesCons(ms, off, cs);
    FlattenCons(Piece(ms[0], off), rest, cs);
    RestBytes(ms, off, cs, rest);
    Associative(EncodeChunk(ms[0], off, cs), Continuations(ms[0], off + cs, cs), EncodeAll(ms[1..], cs));
  }

  lemma {:induction false} RestBytes(ms: seq<Message>, off: nat, cs: nat, rest: seq<Piece>)
    requires cs >= 1 && ms != [] && off <= |ms[0].payload|
    requires rest == if IsLast(Piece(ms[0], off), cs) then Pieces(ms[1..], 0, cs) else Pieces(ms, off + cs, cs)
    ensures Flatten(rest, cs) == Continuations(ms[0], off + cs, cs) + EncodeAll(ms[1..], cs)
    decreases |ms|, |ms[0].payload| - off, 0
  {
    if !IsLast(Piece(ms[0], off), cs) {
      InTurnBytes(ms, off + cs, cs);
    } else {
      assert Continuations(ms[0], off + cs, cs) + EncodeAll(ms[1..], cs) == EncodeAll(ms[1..], cs);
      if ms[1..] != [] {
        InTurnBytes(ms[1..], 0, cs);
      }
    }
  }

  lemma {:induction false} InTurnOrder(ms: seq<Message>, off: nat, cs: nat)
    requires cs >= 1
    ensures InOrderOfLastChunk(Pieces(ms, off, cs), cs) == ms
    decreases |ms|, if ms == [] then 0 else |ms[0].payload| - off
  {
    if ms != [] {
      var rest := PiecesCons(ms, off, cs);
      if IsLast(Piece(ms[0], off), cs) {
        InTurnOrder(ms[1..], 0, cs);
      } else {
        InTurnOrder(ms, off + cs, cs);
      }
    }
  }

  lemma {:induction false} InTurnOnStream(ms: seq<Message>, off: nat, cs: nat, c: nat)
    requires cs >= 1
    ensures OnStream(Pieces(ms, off, cs), c) ==
            Pieces(MessagesOn(ms, c), if ms != [] && ms[0].csid == c then off else 0, cs)
    decreases |ms|, if ms == [] then 0 else |ms[0].payload| - off
  {
    if ms != [] {
      var p := Piece(ms[0], off);
      var rest := PiecesCons(ms, off, cs);
      if IsLast(p, cs) {
        InTurnOnStream(ms[1..], 0, cs, c);
      } else {
        InTurnOnStream(ms, off + cs, cs, c);
      }
      if ms[0].csid == c {
        assert MessagesOn(ms, c)[0] == ms[0] && MessagesOn(ms, c)[1..] == MessagesOn(ms[1..], c);
        var _ := PiecesCons(MessagesOn(ms, c), off, cs);
      } else {
        assert MessagesOn(ms, c) == MessagesOn(ms[1..], c);
      }
    }
  }

  lemma {:induction false} MessagesOnWritable(ms: seq<Message>, c: nat)
    requires forall m | m in ms :: Writable(m)
    ensures forall m | m in MessagesOn(ms, c) :: Writable(m) && m.csid == c
    ensures !(2 <= c < 64) ==> MessagesOn(ms, c) == []
  {
    if ms != [] {
      assert ms[0] in ms;
      MessagesOnWritable(ms[1..], c);
    }
  }

  lemma WrittenInTurn(ms: seq<Message>, cs: nat)
    requires cs >= 1 && forall m | m in ms :: Writable(m)
    ensures var w := Pieces(ms, 0, cs);
            && Flatten(w, cs) == EncodeAll(ms, cs) && InOrderOfLastChunk(w, cs) == ms
            && WritableQueues(ByStream(ms)) && Interleaving(w, ByStream(ms), map[], cs)
  {
    if ms != [] {
      InTurnBytes(ms, 0, cs);
    }
    InTurnOrder(ms, 0, cs);
    forall c: nat
      ensures forall k | 0 <= k < |MessagesOn(ms, c)| :: Writable(MessagesOn(ms, c)[k]) && MessagesOn(ms, c)[k].csid == c
      ensures OnStream(Pieces(ms, 0, cs), c) == Pieces(Queue(ByStream(ms), c), Sent(map[], c), cs)
    {
      MessagesOnWritable(ms, c);
      InTurnOnStream(ms, 0, cs, c);
    }
  }

  /** What successive calls to WriteMessage produce is read back message for message. */
  lemma WrittenMessagesReadBack(ms: seq<Message>, states: States, cs: nat)
    requires cs >= 1 && forall m | m in ms :: Writable(m)
    ensures ReadAll(states, cs, EncodeAll(ms, cs)) == ms
  {
    WrittenInTurn(ms, cs);
    InterleavedMessagesReadBack(Pieces(ms, 0, cs), ByStream(ms), states, cs);
  }

  /** The one thing lost on the wire: a message with an empty payload is never returned. */
  lemma ReadBackExceptEmpty(m: Message, states: States, cs: nat)
    requires cs >= 1 && 2 <= m.csid < 64 && |m.payload| < 0x100_0000
    ensures ReadAll(states, cs, Encode(m, cs)) == if m.payload == [] then [] else [m]
    ensures ReadAll(states, cs, Encode(m, cs)) == [m] <==> m.payload != []
  {
    if m.payload != [] {
      WrittenMessagesReadBack([m], states, cs);
      assert EncodeAll([m], cs) == Encode(m, cs) + [] == Encode(m, cs);
    } else {
      ReadEmpty(m, states, cs);
    }
  }

  lemma ReadEmpty(m: Message, states: States, cs: nat)
    requires cs >= 1 && 2 <= m.csid < 64 && m.payload == []
    ensures ReadAll(states, cs, Encode(m, cs)) == []
  {
    var inp := EncodeHeader(m);
    var h := Full(m.timestamp, 0, m.mtype, m.streamId);
    assert Encode(m, cs) == inp by {
      assert Continuations(m, 0 + cs, cs) == [] && m.payload[0..Min(0 + cs, |m.payload|)] == [];
    }
    HeaderParses(m, []);
    assert inp + [] == inp;
    StepOpens(states, cs, inp, m.csid, h, |inp|);
    var r := Step(states, cs, inp);
    assert r.out == More && r.rest == [];
    ReadAllByChunk(states, cs, inp);
    ReadAllByChunk(r.states, cs, []);
  }
}
