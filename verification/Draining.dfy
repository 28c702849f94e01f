/**
 * A drain keeps the chunk size it starts with. What becomes of a status error from a server that
 * announces another size in mid-stream (section 5.4.1 of the RTMP 1.0 specification), and follows it.
 */
module Draining {
  import opened Bytes
  import opened Chunks
  import opened Multiplexing
  import opened Negotiation
  import opened Amf0
  import opened StatusBytes
  import opened AmfQuotes
  import opened Upstream
  import opened Starvation

  /** What the drain makes of the announcement, followed by the status. */
  ghost function DeathSeen(states: States, own: nat, cs: uint32, csid: nat, code: bytes, desc: bytes): Death
    requires own >= 1 && cs >= 1
  {
    DeathIn(ReadAll(states, own, EncodeAdopting([Announcement(cs), StatusMessage(csid, code, desc)], own)))
  }

  /** A status error whose code and description have n bytes together. */
  ghost predicate Status(n: nat, csid: nat, code: bytes, desc: bytes) {
    && 2 <= csid < 64 && |code| + |desc| == n
    && 1 <= |code| < 0x1_0000 && |desc| < 0x1_0000 && code != PUBLISH_START
  }

  /** The bytes of such a status, as a command. */
  function StatusLength(n: nat): nat { n + 65 }

  // ---- the first chunk of a message whose body need not be framed as the reader expects ----

  /** The chunks of a message without the header of the first. */
  function Chunked(m: Message, cs: nat): bytes
    requires cs >= 1
  {
    m.payload[..Min(cs, |m.payload|)] + Continuations(m, cs, cs)
  }

  lemma EncodeIsChunked(m: Message, cs: nat)
    requires cs >= 1
    ensures Encode(m, cs) == EncodeHeader(m) + Chunked(m, cs)
  {
    var data := m.payload[0..Min(0 + cs, |m.payload|)];
    assert data == m.payload[..Min(cs, |m.payload|)];
    Associative(EncodeHeader(m), data, Continuations(m, cs, cs));
  }

  function Opened(m: Message, buf: bytes): ChunkState
    requires |m.payload| < 0x100_0000
  {
    ChunkState(m.timestamp, |m.payload|, m.timestamp, m.mtype, m.streamId, buf)
  }

  lemma AbsorbFresh(states: States, m: Message, own: nat, body: bytes)
    requires own >= 1 && Writable(m) && |body| >= Min(|m.payload|, own)
    ensures var n, r := |m.payload|, Absorb(states, m.csid, Opened(m, []), own, body);
            if n <= own then
              r == StepResult(states[m.csid := Opened(m, [])], body[n..], Deliver(m.(payload := body[..n])))
            else r == StepResult(states[m.csid := Opened(m, body[..own])], body[own..], More)
  {
    var k := Min(|m.payload|, own);
    assert [] + body[..k] == body[..k] && body[..k][..k] == body[..k];
  }

  /** The reader takes what it takes for the first chunk. */
  lemma FirstTake(states: States, m: Message, own: nat, body: bytes)
    requires own >= 1 && Writable(m) && |body| >= Min(|m.payload|, own)
    ensures var n, r := |m.payload|, Step(states, own, EncodeHeader(m) + body);
            if n <= own then
              r == StepResult(states[m.csid := Opened(m, [])], body[n..], Deliver(m.(payload := body[..n])))
            else r == StepResult(states[m.csid := Opened(m, body[..own])], body[own..], More)
  {
    var h := Full(m.timestamp, |m.payload|, m.mtype, m.streamId);
    var inp := EncodeHeader(m) + body;
    HeaderParses(m, body);
    StepOpens(states, own, inp, m.csid, h, |EncodeHeader(m)|);
    assert inp[1..][|EncodeHeader(m)| - 1..] == body;
    AbsorbFresh(states, m, own, body);
  }

  /** The byte that stands before each chunk but the first. */
  function Mark(csid: nat): byte
    requires csid < 64
  {
    0xC0 + csid
  }

  lemma CountBetween(u: bytes, i: nat, j: nat, c: byte)
    requires i <= j <= |u|
    ensures Count(u[i..], c) == Count(u[i..j], c) + Count(u[j..], c)
  {
    assert u[i..] == u[i..j] + u[j..];
    CountSum(u[i..j], u[j..], c);
  }

  lemma NextChunk(m: Message, off: nat, cs: nat)
    requires cs >= 1 && m.csid < 64 && 1 <= off < |m.payload|
    ensures Continuations(m, off, cs) ==
            ([Mark(m.csid)] + m.payload[off..Min(off + cs, |m.payload|)]) + Continuations(m, off + cs, cs)
  {
    assert Continuations(m, off, cs) == EncodeFrom(m, off, cs);
  }

  lemma CountMarked(k: byte, data: bytes, rest: bytes, c: byte)
    requires k != c
    ensures Count(([k] + data) + rest, c) == Count(data, c) + Count(rest, c)
  {
    CountSum([k] + data, rest, c);
    CountSum([k], data, c);
    CountAbsent([k], c);
  }

  lemma {:induction false} ContinuationsLength(m: Message, off: nat, cs: nat)
    requires cs >= 1 && m.csid < 64 && 1 <= off <= |m.payload|
    ensures |Continuations(m, off, cs)| >= |m.payload| - off
    decreases |m.payload| - off
  {
    if off < |m.payload| {
      NextChunk(m, off, cs);
      if off + cs <= |m.payload| {
        ContinuationsLength(m, off + cs, cs);
      }
    }
  }

  lemma {:induction false} ContinuationsHold(m: Message, off: nat, cs: nat, c: byte)
    requires cs >= 1 && m.csid < 64 && c != Mark(m.csid) && 1 <= off <= |m.payload|
    ensures Count(Continuations(m, off, cs), c) == Count(m.payload[off..], c)
    decreases |m.payload| - off
  {
    var end := Min(off + cs, |m.payload|);
    assert m.payload[|m.payload|..] == [];
    if off < |m.payload| {
      NextChunk(m, off, cs);
      CountMarked(Mark(m.csid), m.payload[off..end], Continuations(m, off + cs, cs), c);
      CountBetween(m.payload, off, end, c);
      if off + cs <= |m.payload| {
        ContinuationsHold(m, off + cs, cs, c);
      }
    }
  }

  lemma ChunkedHolds(m: Message, cs: nat, c: byte)
    requires cs >= 1 && m.csid < 64 && c != Mark(m.csid)
    ensures Count(Chunked(m, cs), c) == Count(m.payload, c) && |Chunked(m, cs)| >= |m.payload|
  {
    var k := Min(cs, |m.payload|);
    CountRest(m.payload, k, c);
    CountSum(m.payload[..k], Continuations(m, cs, cs), c);
    if cs <= |m.payload| {
      ContinuationsLength(m, cs, cs);
      ContinuationsHold(m, cs, cs, c);
    } else {
      assert m.payload[k..] == [];
    }
  }

  lemma ChunkedStarts(m: Message, cs: nat)
    requires 1 <= cs < |m.payload| && m.csid < 64
    ensures |Chunked(m, cs)| > cs && Chunked(m, cs)[..cs] == m.payload[..cs] && Chunked(m, cs)[cs] == Mark(m.csid)
  {
    var rest := Continuations(m, cs, cs);
    assert rest == EncodeFrom(m, cs, cs);
    assert rest[0] == Mark(m.csid);
  }

  lemma ChunkedInTwo(m: Message, cs: nat)
    requires 1 <= cs < |m.payload| <= 2 * cs && m.csid < 64
    ensures Chunked(m, cs) == m.payload[..cs] + ([Mark(m.csid)] + m.payload[cs..])
  {
    assert Continuations(m, cs + cs, cs) == [];
    assert m.payload[cs..Min(cs + cs, |m.payload|)] == m.payload[cs..];
    assert Continuations(m, cs, cs) == ([Mark(m.csid)] + m.payload[cs..]) + [];
  }


  // ---- up to the first chunk of the status ----

  lemma SentBytes(m: Message, own: nat, cs: uint32)
    requires own >= 4 && cs >= 1
    ensures var a := Announcement(cs);
            EncodeAdopting([a, m], own) == EncodeHeader(a) + (a.payload + (EncodeHeader(m) + Chunked(m, cs)))
  {
    var a, rest := Announcement(cs), EncodeHeader(m) + Chunked(m, cs);
    EncodeIsChunked(m, cs);
    EncodeIsChunked(a, own);
    BE32RoundTrip(cs);
    assert a.payload[..4] == a.payload && Continuations(a, own, own) == [];
    assert [a, m][1..] == [m] && [m][1..] == [];
    assert EncodeAdopting([m], cs) == rest + [] == rest;
    assert Chunked(a, own) == a.payload;
    Associative(EncodeHeader(a), a.payload, rest);
  }

  lemma AnnouncementRead(states: States, own: nat, cs: uint32, rest: bytes)
    requires own >= 4 && cs >= 1
    ensures var a := Announcement(cs);
            ReadAll(states, own, EncodeHeader(a) + (a.payload + rest)) ==
            [a] + ReadAll(states[2 := Opened(a, [])], own, rest)
  {
    var a := Announcement(cs);
    FirstTake(states, a, own, a.payload + rest);
    assert (a.payload + rest)[4..] == rest && (a.payload + rest)[..4] == a.payload;
    ReadAllByChunk(states, own, EncodeHeader(a) + (a.payload + rest));
  }

  lemma HarmlessFirst(a: Message, ms: seq<Message>)
    requires !IsCommand(a)
    ensures DeathIn([a] + ms) == DeathIn(ms)
  {
    assert ([a] + ms)[1..] == ms;
  }

  /** The announcement is read as it should be; then the status is there, chunked as announced. */
  lemma AnnouncementTaken(states: States, own: nat, cs: uint32, csid: nat, code: bytes, desc: bytes)
    returns (after: States)
    requires own >= 4 && cs >= 1
    ensures after == states[2 := Opened(Announcement(cs), [])]
    ensures var m := StatusMessage(csid, code, desc);
            DeathSeen(states, own, cs, csid, code, desc) ==
            DeathIn(ReadAll(after, own, EncodeHeader(m) + Chunked(m, cs)))
  {
    var a, m := Announcement(cs), StatusMessage(csid, code, desc);
    after := states[2 := Opened(a, [])];
    SentBytes(m, own, cs);
    AnnouncementRead(states, own, cs, EncodeHeader(m) + Chunked(m, cs));
    HarmlessFirst(a, ReadAll(after, own, EncodeHeader(m) + Chunked(m, cs)));
  }

  lemma PayloadOf(n: nat, csid: nat, code: bytes, desc: bytes)
    requires Status(n, csid, code, desc)
    ensures var m := StatusMessage(csid, code, desc);
            && Writable(m) && |m.payload| == StatusLength(n)
            && m.payload == StatusHead(code, |desc|) + desc + OBJECT_END
            && m.payload[n + 62] == 0 && m.payload[n + 63] == 0 && m.payload[n + 64] == 9
  {
    StatusShape(code, desc);
    HeadLength(code, |desc|);
  }

  // ---- a cut in the three bytes that end the object ----

  /** Under twelve bytes are no full header. */
  lemma ShortHeaderIsCut(states: States, cs: nat, inp: bytes)
    requires 1 <= |inp| < 12 && inp[0] < 64
    ensures ReadAll(states, cs, inp) == []
  {
    var b := ParseBasic(inp);
    assert b.Parsed? ==> b.value.0 == 0 && ParseHeader(0, inp[b.size..]) == Cut;
    ReadAllByChunk(states, cs, inp);
  }

  /** What is left when the first take ends in the last three bytes, or just behind a cut there. */
  lemma LeftAtTheEnd(m: Message, own: nat, cs: nat)
    requires cs >= 1 && own >= 1 && m.csid < 64 && |m.payload| >= 6 && |m.payload| - 3 <= own < |m.payload|
    requires own < cs || |m.payload| - 3 <= cs < own
    ensures var body := Chunked(m, cs);
            && |m.payload| <= |body| && 1 <= |body| - own <= 4
            && exists i :: |m.payload| - 3 <= i < |m.payload| && body[own] == m.payload[i]
  {
    if cs < |m.payload| {
      ChunkedInTwo(m, cs);
      assert Chunked(m, cs)[own] == m.payload[if own < cs then own else own - 1];
    } else {
      assert Continuations(m, cs, cs) == [] && Chunked(m, cs) == m.payload + [];
      assert Chunked(m, cs)[own] == m.payload[own];
    }
  }

  lemma NothingAtTheEnd(states: States, m: Message, own: nat, cs: nat)
    requires cs >= 1 && own >= 1 && Writable(m) && |m.payload| >= 6 && |m.payload| - 3 <= own < |m.payload|
    requires own < cs || |m.payload| - 3 <= cs < own
    requires forall i :: |m.payload| - 3 <= i < |m.payload| ==> m.payload[i] < 64
    ensures ReadAll(states, own, EncodeHeader(m) + Chunked(m, cs)) == []
  {
    var body := Chunked(m, cs);
    LeftAtTheEnd(m, own, cs);
    FirstTake(states, m, own, body);
    ReadAllByChunk(states, own, EncodeHeader(m) + body);
    ShortHeaderIsCut(states[m.csid := Opened(m, body[..own])], own, body[own..]);
  }

  /** If the reader's chunk ends there, and the server's does not, the status is lost, whatever it says. */
  lemma CutEndLosesStatus(states: States, own: nat, cs: uint32, n: nat, csid: nat, code: bytes, desc: bytes)
    requires cs >= 1 && Status(n, csid, code, desc)
    requires StatusLength(n) - 3 <= own < StatusLength(n) && (own < cs || StatusLength(n) - 3 <= cs < own)
    ensures DeathSeen(states, own, cs, csid, code, desc) == ConnectionDied
  {
    PayloadOf(n, csid, code, desc);
    var states' := AnnouncementTaken(states, own, cs, csid, code, desc);
    NothingAtTheEnd(states', StatusMessage(csid, code, desc), own, cs);
  }

  lemma TakenWhole(states: States, m: Message, own: nat, cs: nat) returns (after: States, left: bytes)
    requires cs >= 1 && own >= 1 && Writable(m) && cs < |m.payload| <= own && |m.payload| <= 2 * cs
    ensures var got := m.payload[..cs] + ([Mark(m.csid)] + m.payload[cs..]);
            ReadAll(states, own, EncodeHeader(m) + Chunked(m, cs)) ==
            [m.(payload := got[..|m.payload|])] + ReadAll(after, own, left)
  {
    ChunkedInTwo(m, cs);
    FirstTake(states, m, own, Chunked(m, cs));
    ReadAllByChunk(states, own, EncodeHeader(m) + Chunked(m, cs));
    after, left := states[m.csid := Opened(m, [])], Chunked(m, cs)[|m.payload|..];
  }

  lemma DamagedStatus(n: nat, csid: nat, code: bytes, desc: bytes, cs: nat)
    requires Status(n, csid, code, desc) && StatusLength(n) - 3 <= cs < StatusLength(n)
    requires |StatusMessage(csid, code, desc).payload| == StatusLength(n)
    ensures var p := StatusMessage(csid, code, desc).payload;
            var got := p[..cs] + ([Mark(csid)] + p[cs..]);
            DecodeAll(got[..|p|]) == DecodeAll(CmdOnStatusError(code, desc))
  {
    var p := StatusMessage(csid, code, desc).payload;
    PayloadOf(n, csid, code, desc);
    DamagedEnd(p, cs, Mark(csid));
    HeadLength(code, |desc|);
    assert p[..|p| - 3] == StatusHead(code, |desc|) + desc;
    DamagedEndReadsTheSame(code, desc, (p[..cs] + ([Mark(csid)] + p[cs..]))[|p| - 3..|p|]);
  }

  lemma FirstDeath(m: Message, ms: seq<Message>, code: bytes, desc: bytes)
    requires IsCommand(m) && code != [] && code != PUBLISH_START && Verdict(DecodeAll(m.payload)) == (code, desc)
    ensures DeathIn([m] + ms) == StatusError(code, desc)
  {
  }

  /** If the server's chunk ends there, and all of it fits the reader's, the damage does no harm. */
  lemma DamagedEndIsHarmless(states: States, own: nat, cs: uint32, n: nat, csid: nat, code: bytes, desc: bytes)
    requires cs >= 1 && Status(n, csid, code, desc) && cs < StatusLength(n) <= own && StatusLength(n) <= cs + 3
    ensures DeathSeen(states, own, cs, csid, code, desc) == StatusError(code, desc)
  {
    var m := StatusMessage(csid, code, desc);
    PayloadOf(n, csid, code, desc);
    DamagedStatus(n, csid, code, desc, cs);
    OnStatusErrorVerdict(code, desc);
    var states' := AnnouncementTaken(states, own, cs, csid, code, desc);
    var after, left := TakenWhole(states', m, own, cs);
    var got := m.payload[..cs] + ([Mark(csid)] + m.payload[cs..]);
    FirstDeath(m.(payload := got[..|m.payload|]), ReadAll(after, own, left), code, desc);
  }

  lemma DamagedEnd(p: bytes, cs: nat, k: byte)
    requires |p| >= 3 && p[|p| - 3] == 0 && p[|p| - 2] == 0 && |p| - 3 <= cs < |p| && k >= 0xC0
    ensures var body := p[..cs] + ([k] + p[cs..]);
            NoKey(body[|p| - 3..|p|]) && body[..|p|] == p[..|p| - 3] + body[|p| - 3..|p|]
  {
    var body := p[..cs] + ([k] + p[cs..]);
    var g := body[|p| - 3..|p|];
    var n := |p| - 3;
    assert g[0] == body[n] && g[1] == body[n + 1];
    if cs == n {
      assert body[n] == k && body[n + 1] == p[n];
    } else if cs == n + 1 {
      assert body[n] == p[n] && body[n + 1] == k;
    } else {
      assert body[n] == p[n] && body[n + 1] == p[n + 1];
    }
    assert BE16(g[..2]) == g[0] as int * 0x100 + g[1];
  }

  // ---- a cut in the description ----

  /** A byte that is not in the length field of a description of d bytes. */
  function Filler(d: uint16): (c: byte)
    ensures c >= 0xFD && c !in PutBE16(d)
  {
    var hi, lo: byte := d / 0x100, d % 0x100;
    assert PutBE16(d) == [hi, lo];
    if hi != 0xFF && lo != 0xFF then 0xFF else if hi != 0xFE && lo != 0xFE then 0xFE else 0xFD
  }

  /** A status whose description is one byte over and over. */
  function Monotone(d: uint16): Message {
    StatusMessage(5, [1], Run(Filler(d), d))
  }

  lemma MonotoneIsStatus(d: uint16)
    ensures Status(d + 1, 5, [1], Run(Filler(d), d))
  {
  }

  lemma {:induction false} AllRun(u: bytes, c: byte)
    requires forall i :: 0 <= i < |u| ==> u[i] == c
    ensures Count(u, c) == |u|
  {
    if u != [] {
      AllRun(u[..|u| - 1], c);
    }
  }

  /** The first j bytes of the description, and the whole, counted. */
  lemma MonotoneCounts(d: uint16, j: nat)
    requires j <= d
    ensures var p, c := Monotone(d).payload, Filler(d);
            |p| == d + 66 && Count(p[..63 + j], c) == j && Count(p, c) == d && (j < d ==> p[63 + j] == c)
  {
    var p, c, head := Monotone(d).payload, Filler(d), StatusHead([1], d);
    MonotoneIsStatus(d);
    PayloadOf(d + 1, 5, [1], Run(c, d));
    HeadLength([1], d);
    HighOnlyInLength(d, c);
    assert p[..63 + j] == head + Run(c, d)[..j];
    CountAbsent(head, c);
    CountSum(head, Run(c, d)[..j], c);
    AllRun(Run(c, d)[..j], c);
    CountSum(head + Run(c, d), OBJECT_END, c);
    CountSum(head, Run(c, d), c);
    CountRun(c, d);
    CountAbsent(OBJECT_END, c);
  }

  lemma OneStarved(m: Message, buf: bytes, cs: uint32, r: nat, c: byte, d: nat)
    requires |m.payload| < 0x100_0000 && r < d && Short(buf, r, c, d)
    ensures Starved(map[2 := Opened(Announcement(cs), [])][m.csid := Opened(m, buf)], r, c, d)
  {
    FewAreShort([], r, c, d);
    assert Starved(map[], r, c, d) by {
      assert forall s: nat :: StreamStarved(map[], s, r, c, d);
    }
    PutStarved(map[], 2, Opened(Announcement(cs), []), r, c, d);
    PutStarved(map[2 := Opened(Announcement(cs), [])], m.csid, Opened(m, buf), r, c, d);
  }

  /** The run comes in no message that a reader at `own` gets of `m`, chunked at `cs`. */
  ghost predicate Withheld(m: Message, own: nat, cs: uint32, c: byte, d: nat)
    requires cs >= 1
  {
    forall x | x in ReadAll(map[2 := Opened(Announcement(cs), [])], own, EncodeHeader(m) + Chunked(m, cs)) ::
      !HasRun(x.payload, c, d)
  }

  lemma TakenAndLeft(m: Message, own: nat, cs: nat, c: byte)
    requires 1 <= own < |m.payload| && own < cs && m.csid < 64 && c != Mark(m.csid) && m.payload[own] == c
    ensures var body := Chunked(m, cs);
            && |body| >= |m.payload| && body[..own] == m.payload[..own]
            && Count(body[..own], c) + Count(body[own..][1..], c) + 1 == Count(m.payload, c)
  {
    var body := Chunked(m, cs);
    ChunkedHolds(m, cs, c);
    assert body[own] == m.payload[own];
    CountRest(body, own, c);
    CountRest(body[own..], 1, c);
    assert body[own..][..1] == [c] && Count([c], c) == 1;
  }

  /** The server's chunks are larger: the reader takes a byte of the run for a header. */
  lemma LargerChunksWithhold(m: Message, own: nat, cs: uint32, c: byte, d: nat)
    requires Writable(m) && 1 <= own < |m.payload| && own < cs && c != Mark(m.csid) && m.payload[own] == c
    requires Count(m.payload, c) == d
    ensures Withheld(m, own, cs, c, d)
  {
    var states, body := map[2 := Opened(Announcement(cs), [])], Chunked(m, cs);
    TakenAndLeft(m, own, cs, c);
    FirstTake(states, m, own, body);
    ReadAllByChunk(states, own, EncodeHeader(m) + body);
    var r := Count(body[own..][1..], c);
    FewAreShort(body[..own], r, c, d);
    OneStarved(m, body[..own], cs, r, c, d);
    NoRunIsRead(states[m.csid := Opened(m, body[..own])], own, body[own..], c, d);
  }

  lemma MarkedIsShort(m: Message, own: nat, cs: nat, c: byte, d: nat)
    requires 1 <= cs < |m.payload| && cs < own && m.csid < 64 && c != Mark(m.csid)
    requires Count(m.payload, c) == d && 0 < Count(m.payload[..cs], c) < d
    ensures var body, k := Chunked(m, cs), Min(|m.payload|, own);
            k <= |body| && Count(body[k..], c) < d && Short(body[..k], Count(body[k..], c), c, d)
  {
    var body, k := Chunked(m, cs), Min(|m.payload|, own);
    ChunkedHolds(m, cs, c);
    ChunkedStarts(m, cs);
    var a, b := body[..cs], body[cs + 1..k];
    assert body[..k] == a + [body[cs]] + b;
    CountRest(body, k, c);
    CountSum(a + [body[cs]], b, c);
    CountSum(a, [body[cs]], c);
    InterruptedIsShort(a, body[cs], b, Count(body[k..], c), c, d);
  }

  lemma RestHasNoRun(states: States, own: nat, rest: bytes, c: byte, d: nat)
    requires Starved(states, Count(rest, c), c, d)
    ensures forall x | x in ReadAll(states, own, rest) :: !HasRun(x.payload, c, d)
  {
    if rest != [] {
      CountBehindAll(rest, c);
      StarvedLess(states, Count(rest, c), Count(rest[1..], c), c, d);
    }
    NoRunIsRead(states, own, rest, c, d);
  }

  /** The server's chunks are smaller: a mark gets into the run. */
  lemma SmallerChunksWithhold(m: Message, own: nat, cs: uint32, c: byte, d: nat)
    requires Writable(m) && 1 <= cs < |m.payload| && cs < own && c != Mark(m.csid)
    requires Count(m.payload, c) == d && 0 < Count(m.payload[..cs], c) < d
    ensures Withheld(m, own, cs, c, d)
  {
    var states, body, k := map[2 := Opened(Announcement(cs), [])], Chunked(m, cs), Min(|m.payload|, own);
    MarkedIsShort(m, own, cs, c, d);
    FirstTake(states, m, own, body);
    ReadAllByChunk(states, own, EncodeHeader(m) + body);
    var r := Count(body[k..], c);
    if own < |m.payload| {
      OneStarved(m, body[..k], cs, r, c, d);
      RestHasNoRun(states[m.csid := Opened(m, body[..k])], own, body[k..], c, d);
    } else {
      FewAreShort([], r, c, d);
      ShortNow(body[..k], k, r, c, d);
      assert body[..k][..k] == body[..k];
      OneStarved(m, [], cs, r, c, d);
      RestHasNoRun(states[m.csid := Opened(m, [])], own, body[k..], c, d);
    }
  }

  /** The status with that description is not reported. */
  ghost predicate Unreported(own: nat, cs: uint32, d: uint16)
    requires own >= 1 && cs >= 1
  {
    DeathSeen(map[], own, cs, 5, [1], Run(Filler(d), d)) != StatusError([1], Run(Filler(d), d))
  }

  lemma WithheldIsUnreported(own: nat, cs: uint32, d: uint16)
    requires own >= 4 && cs >= 1 && Withheld(Monotone(d), own, cs, Filler(d), d)
    ensures Unreported(own, cs, d)
  {
    var states := AnnouncementTaken(map[], own, cs, 5, [1], Run(Filler(d), d));
    var ms := ReadAll(states, own, EncodeHeader(Monotone(d)) + Chunked(Monotone(d), cs));
    if DeathIn(ms) == StatusError([1], Run(Filler(d), d)) {
      DeathQuoted(ms, [1], Filler(d), d);
    }
  }

  lemma CutDescriptionIsUnreported(own: nat, cs: uint32, d: uint16)
    requires own >= 64 && cs >= 64 && own != cs && Min(own, cs) < 63 + d
    ensures Unreported(own, cs, d)
  {
    MonotoneIsStatus(d);
    PayloadOf(d + 1, 5, [1], Run(Filler(d), d));
    MonotoneCounts(d, Min(own, cs) - 63);
    if own < cs {
      LargerChunksWithhold(Monotone(d), own, cs, Filler(d), d);
    } else {
      SmallerChunksWithhold(Monotone(d), own, cs, Filler(d), d);
    }
    WithheldIsUnreported(own, cs, d);
  }

  // ---- exactly when ----

  /** The drain's chunk size and the server's, and a status of `len` bytes that survives the difference. */
  predicate Survives(own: nat, cs: nat, len: nat) {
    cs == own || len <= Min(own, cs) || (cs < own && len <= own && len <= cs + 3)
  }

  lemma SurvivingIsReported(states: States, own: nat, cs: uint32, n: nat, csid: nat, code: bytes, desc: bytes)
    requires own >= 4 && cs >= 1 && Status(n, csid, code, desc) && Survives(own, cs, StatusLength(n))
    ensures DeathSeen(states, own, cs, csid, code, desc) == StatusError(code, desc)
  {
    if cs != own && StatusLength(n) > Min(own, cs) {
      DamagedEndIsHarmless(states, own, cs, n, csid, code, desc);
    } else {
      var a, m := Announcement(cs), StatusMessage(csid, code, desc);
      PayloadOf(n, csid, code, desc);
      BE32RoundTrip(cs);
      assert a.payload[..4] == a.payload && [a] + [m] == [a, m] && [a, m][1..] == [m];
      assert Framed([m], cs, own) && Framed([a, m], own, own);
      var sent := EncodeAdopting([a, m], own);
      DrainReportsStatusError(states, own, own, [a], [], csid, code, desc);
      assert sent + [] == sent;
    }
  }

  /** Of each other length some status is not reported. */
  lemma OthersAreLost(own: nat, cs: uint32, d: uint16)
    requires own >= 64 && cs >= 64 && !Survives(own, cs, StatusLength(d + 1))
    ensures Unreported(own, cs, d)
  {
    if Min(own, cs) < 63 + d {
      CutDescriptionIsUnreported(own, cs, d);
    } else {
      MonotoneIsStatus(d);
      CutEndLosesStatus(map[], own, cs, d + 1, 5, [1], Run(Filler(d), d));
    }
  }

  /**
   * A server goes over from the drain's chunk size to another one, which it announces, and then
   * writes a status error. For each length of code and description together: all such statuses are
   * reported as they were written, from every state of the reader, exactly when the server stays
   * with the drain's size, or the status fits one chunk at both sizes, or a smaller chunk of the
   * server's ends within the three bytes that close the object and the drain's takes in all of it.
   */
  lemma DrainReportsExactly(own: nat, cs: uint32, n: nat)
    requires own >= 64 && cs >= 64 && 1 <= n <= 0x1_0000
    ensures (forall states, csid, code, desc | Status(n, csid, code, desc) ::
               DeathSeen(states, own, cs, csid, code, desc) == StatusError(code, desc))
            <==> Survives(own, cs, StatusLength(n))
  {
    if Survives(own, cs, StatusLength(n)) {
      forall states, csid, code, desc | Status(n, csid, code, desc)
        ensures DeathSeen(states, own, cs, csid, code, desc) == StatusError(code, desc)
      {
        SurvivingIsReported(states, own, cs, n, csid, code, desc);
      }
    } else {
      var d: uint16 := n - 1;
      MonotoneIsStatus(d);
      OthersAreLost(own, cs, d);
    }
  }

  /** From the RTMP default of 128 bytes to 4096, and one byte too much: nothing is heard of the status. */
  lemma GrownChunkSilencesStatus(states: States, csid: nat, code: bytes, desc: bytes)
    requires Status(64, csid, code, desc)
    ensures DeathSeen(states, 128, 4096, csid, code, desc) == ConnectionDied
  {
    CutEndLosesStatus(states, 128, 4096, 64, csid, code, desc);
  }
}
