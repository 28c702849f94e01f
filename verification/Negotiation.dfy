/**
 * Chunk-size negotiation (section 5.4.1 of the RTMP 1.0 specification): a reader starts at 128
 * bytes a chunk and adopts what the peer announces, as `readUntilCommand` and `HandleOBS` do.
 */
module Negotiation {
  import opened Bytes
  import opened Chunks
  import opened Multiplexing

  /** The announcement a writer opens its connection with. */
  function Announcement(cs: uint32): Message {
    Message(SET_CHUNK_SIZE, 2, 0, 0, PutBE32(cs))
  }

  /** Section 5.4.1: type 1 on chunk stream 2 and message stream 0, a size in four bytes. */
  lemma AnnouncementIsControl()
    ensures Announcement(4096) == Message(1, 2, 0, 0, [0x00, 0x00, 0x10, 0x00])
    ensures forall cs: uint32 :: Announcement(cs).mtype == 1 && |Announcement(cs).payload| == 4
  {
  }

  lemma {:induction false} NothingToAdopt(states: States, cs: nat, inp: bytes)
    requires forall m | m in ReadAll(states, cs, inp) :: m.mtype != SET_CHUNK_SIZE
    ensures ReadAdopting(states, cs, inp) == ReadAll(states, cs, inp)
    decreases |inp|
  {
    var r := Read(states, cs, inp);
    if r.msg.Some? {
      assert r.msg.value in ReadAll(states, cs, inp);
      NothingToAdopt(r.states, cs, r.rest);
    }
  }

  /** An announcement fits one chunk at any chunk size of at least four bytes. */
  lemma AnnouncementReads(states: States, own: nat, cs: uint32, tail: bytes)
    requires own >= 4 && cs >= 4
    ensures var r := Read(states, own, Encode(Announcement(cs), cs) + tail);
            r.msg == Some(Announcement(cs)) && r.rest == tail
  {
    var m := Announcement(cs);
    assert Encode(m, cs) == EncodeChunk(m, 0, own) by {
      assert EncodeChunk(m, 0, cs) == EncodeChunk(m, 0, own);
      assert Continuations(m, 0 + cs, cs) == [];
    }
    StepOverFirst(states, m, own, tail);
  }

  lemma DeliveredFromPieces(w: seq<Piece>, cs: nat)
    ensures forall m | m in InOrderOfLastChunk(w, cs) :: exists k :: 0 <= k < |w| && w[k].msg == m
  {
    if w != [] {
      DeliveredFromPieces(w[1..], cs);
      forall m | m in InOrderOfLastChunk(w, cs) ensures exists k :: 0 <= k < |w| && w[k].msg == m {
        if m in InOrderOfLastChunk(w[1..], cs) {
          var k :| 0 <= k < |w[1..]| && w[1..][k].msg == m;
          assert w[k + 1].msg == m;
        } else {
          assert w[0].msg == m;
        }
      }
    }
  }

  /**
   * A reader at any chunk size of four or more, facing a writer at another one that announces it
   * first, stays framed: it returns the announcement and then, however the writer's streams are
   * interleaved, exactly what was written on each.
   */
  lemma NegotiatedStreamReadBack(states: States, own: nat, cs: uint32, w: seq<Piece>, q: map<nat, seq<Message>>)
    requires own >= 4 && cs >= 4
    requires WritableQueues(q) && Interleaving(w, q, map[], cs)
    requires forall k | 0 <= k < |w| :: w[k].msg.mtype != SET_CHUNK_SIZE
    ensures ReadAdopting(states, own, Encode(Announcement(cs), cs) + Flatten(w, cs)) ==
            [Announcement(cs)] + InOrderOfLastChunk(w, cs)
    ensures forall c: nat :: MessagesOn(InOrderOfLastChunk(w, cs), c) == Queue(q, c)
  {
    var inp := Encode(Announcement(cs), cs) + Flatten(w, cs);
    AnnouncementReads(states, own, cs, Flatten(w, cs));
    var r := Read(states, own, inp);
    BE32RoundTrip(cs);
    assert PutBE32(cs)[..4] == PutBE32(cs);
    InterleavedMessagesReadBack(w, q, r.states, cs);
    DeliveredFromPieces(w, cs);
    NothingToAdopt(r.states, cs, Flatten(w, cs));
  }

  /** The gateway's own case: a new reader at 128 and a writer at 4096 sending one message at a time. */
  lemma NegotiatedMessagesReadBack(ms: seq<Message>)
    requires forall m | m in ms :: Writable(m) && m.mtype != SET_CHUNK_SIZE
    ensures ReadAdopting(map[], 128, EncodeAll([Announcement(4096)] + ms, 4096)) == [Announcement(4096)] + ms
  {
    var first := Announcement(4096);
    assert ([first] + ms)[1..] == ms;
    AnnouncementReads(map[], 128, 4096, EncodeAll(ms, 4096));
    var r := Read(map[], 128, EncodeAll([first] + ms, 4096));
    BE32RoundTrip(4096);
    assert PutBE32(4096)[..4] == PutBE32(4096);
    WrittenMessagesReadBack(ms, r.states, 4096);
    NothingToAdopt(r.states, 4096, EncodeAll(ms, 4096));
  }

  // ---- announcements anywhere ----

  /** An announcement whose four bytes are not all there: the reader does not survive it. */
  predicate Malformed(m: Message) {
    m.mtype == SET_CHUNK_SIZE && |m.payload| < 4
  }

  /** The chunk size a writer goes on with after message `m`. */
  function SizeBehind(cs: nat, m: Message): nat {
    if m.mtype == SET_CHUNK_SIZE && |m.payload| >= 4 then BE32(m.payload[..4]) else cs
  }

  /** A message that fits the wire, and that announces no chunk size of zero. */
  ghost predicate Sendable(m: Message) {
    Writable(m) && (m.mtype == SET_CHUNK_SIZE && |m.payload| >= 4 ==> BE32(m.payload[..4]) >= 1)
  }

  /** What a writer sends that follows its own announcements. */
  function EncodeAdopting(ms: seq<Message>, cs: nat): bytes {
    if ms == [] || cs < 1 then [] else Encode(ms[0], cs) + EncodeAdopting(ms[1..], SizeBehind(cs, ms[0]))
  }

  /** The messages up to the first malformed announcement, and that one. */
  function Readable(ms: seq<Message>): seq<Message> {
    if ms == [] then [] else if Malformed(ms[0]) then [ms[0]] else [ms[0]] + Readable(ms[1..])
  }

  /** From any point in a message, the reader's next message is this one, and the rest is left. */
  lemma {:induction false} ReadFrom(states: States, m: Message, off: nat, cs: nat, tail: bytes)
    requires cs >= 1 && Writable(m) && off < |m.payload|
    requires off == 0 || Holding(Lookup(states, m.csid), m, off)
    ensures var r := Read(states, cs, EncodeFrom(m, off, cs) + tail); r.msg == Some(m) && r.rest == tail
    decreases |m.payload| - off
  {
    var rest := Continuations(m, off + cs, cs) + tail;
    Associative(EncodeChunk(m, off, cs), Continuations(m, off + cs, cs), tail);
    StepOverPiece(states, Piece(m, off), cs, rest);
    var r := Step(states, cs, EncodeChunk(m, off, cs) + rest);
    if off + cs < |m.payload| {
      ReadFrom(r.states, m, off + cs, cs, tail);
    } else {
      assert [] + tail == tail;
    }
  }

  /**
   * A reader and a writer that both follow the announcements stay framed, wherever those stand and
   * however often: the reader returns exactly what was sent, up to a malformed announcement if any.
   */
  lemma {:induction false} AnnouncedMessagesReadBack(ms: seq<Message>, states: States, cs: nat)
    requires cs >= 1 && forall m | m in ms :: Sendable(m)
    ensures ReadAdopting(states, cs, EncodeAdopting(ms, cs)) == Readable(ms)
    decreases |ms|
  {
    if ms != [] {
      var m, tail := ms[0], EncodeAdopting(ms[1..], SizeBehind(cs, ms[0]));
      assert m in ms;
      ReadFrom(states, m, 0, cs, tail);
      if !Malformed(m) {
        AnnouncedMessagesReadBack(ms[1..], Read(states, cs, Encode(m, cs) + tail).states, SizeBehind(cs, m));
      }
    } else {
      assert Read(states, cs, []).msg == None;
    }
  }

  // ---- a reader that adopts nothing ----

  /** Each message sent while the writer's size is not the reader's fits one chunk at both sizes. */
  ghost predicate Framed(ms: seq<Message>, cs: nat, own: nat) {
    ms == [] || (&& (cs == own || |ms[0].payload| <= Min(cs, own))
                 && Framed(ms[1..], SizeBehind(cs, ms[0]), own))
  }

  lemma OneChunkAtBoth(m: Message, cs: nat, own: nat)
    requires cs >= 1 && own >= 1 && |m.payload| <= Min(cs, own)
    ensures Encode(m, cs) == Encode(m, own)
  {
    assert Continuations(m, 0 + cs, cs) == [] == Continuations(m, 0 + own, own);
    assert EncodeChunk(m, 0, cs) == EncodeChunk(m, 0, own);
  }

  /** Then the writer might as well have kept to the reader's size. */
  lemma {:induction false} FramedIsUnchanged(ms: seq<Message>, cs: nat, own: nat)
    requires cs >= 1 && own >= 1 && Framed(ms, cs, own) && forall m | m in ms :: Sendable(m)
    ensures EncodeAdopting(ms, cs) == EncodeAll(ms, own)
  {
    if ms != [] {
      assert ms[0] in ms;
      if cs != own {
        OneChunkAtBoth(ms[0], cs, own);
      }
      FramedIsUnchanged(ms[1..], SizeBehind(cs, ms[0]), own);
    }
  }

  lemma ReadsFirst(m: Message, states: States, cs: nat, tail: bytes) returns (after: States)
    requires cs >= 1 && Writable(m)
    ensures ReadAll(states, cs, Encode(m, cs) + tail) == [m] + ReadAll(after, cs, tail)
  {
    ReadFrom(states, m, 0, cs, tail);
    after := Read(states, cs, Encode(m, cs) + tail).states;
  }

  lemma FirstInFront(ms: seq<Message>, rest: seq<Message>)
    requires ms != []
    ensures [ms[0]] + (ms[1..] + rest) == ms + rest
  {
  }

  /** Whole messages are read in turn, whatever bytes follow them. */
  lemma {:induction false} ReadsOn(ms: seq<Message>, states: States, cs: nat, tail: bytes) returns (after: States)
    requires cs >= 1 && forall m | m in ms :: Writable(m)
    ensures ReadAll(states, cs, EncodeAll(ms, cs) + tail) == ms + ReadAll(after, cs, tail)
  {
    if ms == [] {
      after := states;
      assert [] + tail == tail;
    } else {
      assert ms[0] in ms;
      Associative(Encode(ms[0], cs), EncodeAll(ms[1..], cs), tail);
      var next := ReadsFirst(ms[0], states, cs, EncodeAll(ms[1..], cs) + tail);
      after := ReadsOn(ms[1..], next, cs, tail);
      FirstInFront(ms, ReadAll(after, cs, tail));
    }
  }

  lemma {:induction false} ReadableIsAll(ms: seq<Message>)
    requires forall m | m in ms :: !Malformed(m)
    ensures Readable(ms) == ms
  {
    if ms != [] {
      assert ms[0] in ms;
      ReadableIsAll(ms[1..]);
    }
  }
}
