/**
 * The RTMP chunk layer (node/rtmp/chunk.go): a reader that reassembles messages from
 * chunks multiplexed over chunk streams, and a writer that splits messages into chunks.
 */
module Chunks {
  import opened Bytes

  datatype Message = Message(mtype: byte, csid: nat, streamId: uint32, timestamp: uint32, payload: bytes)

  /** What the reader remembers of one chunk stream. */
  datatype ChunkState = ChunkState(ts: uint32, mlen: uint32, delta: uint32, mtype: byte, msid: uint32, buf: bytes)

  const BLANK := ChunkState(0, 0, 0, 0, 0, [])

  type States = map<nat, ChunkState>

  function Lookup(states: States, csid: nat): ChunkState {
    if csid in states then states[csid] else BLANK
  }

  /** The four chunk message headers, fmt 0 to fmt 3, with any extended timestamp folded in. */
  datatype Header =
    | Full(ts: uint32, mlen: uint24, mtype: byte, msid: uint32)
    | Changed(delta: uint32, mlen: uint24, mtype: byte)
    | Delta(delta: uint32)
    | Bare

  // ---- the specification of the reader: one chunk at a time, on values ----

  datatype Parse<+T> = Cut | Parsed(value: T, size: nat)

  /** The basic header: fmt and chunk stream id, in one, two or three bytes. */
  function ParseBasic(inp: bytes): (p: Parse<(nat, nat)>)
    ensures p.Parsed? ==> 1 <= p.size <= |inp| && p.value.0 < 4
  {
    if |inp| < 1 then Cut
    else if inp[0] % 64 == 0 then
      if |inp| < 2 then Cut else Parsed((inp[0] / 64, inp[1] as int + 64), 2)
    else if inp[0] % 64 == 1 then
      if |inp| < 3 then Cut else Parsed((inp[0] / 64, inp[2] as int * 256 + inp[1] as int + 64), 3)
    else Parsed((inp[0] / 64, inp[0] % 64), 1)
  }

  /** The three-byte time field that opens a header of `size` bytes, or the extended one after it. */
  function ParseStamp(inp: bytes, size: nat): (p: Parse<uint32>)
    requires size >= 3
    ensures p.Parsed? ==> size <= p.size <= |inp|
  {
    if |inp| < size then Cut
    else if BE24(inp[..3]) != 0xFF_FFFF then Parsed(BE24(inp[..3]), size)
    else if |inp| < size + 4 then Cut
    else Parsed(BE32(inp[size..size + 4]), size + 4)
  }

  function ParseHeader(fmt: nat, inp: bytes): (p: Parse<Header>)
    ensures p.Parsed? ==> p.size <= |inp|
  {
    if fmt == 0 then
      match ParseStamp(inp, 11)
      case Cut => Cut
      case Parsed(t, n) => Parsed(Full(t, BE24(inp[3..6]), inp[6], LE32(inp[7..11])), n)
    else if fmt == 1 then
      match ParseStamp(inp, 7)
      case Cut => Cut
      case Parsed(t, n) => Parsed(Changed(t, BE24(inp[3..6]), inp[6]), n)
    else if fmt == 2 then
      match ParseStamp(inp, 3)
      case Cut => Cut
      case Parsed(t, n) => Parsed(Delta(t), n)
    else Parsed(Bare, 0)
  }

  function Plus(t: uint32, d: uint32): uint32 {
    (t as int + d as int) % 0x1_0000_0000
  }

  function Apply(st: ChunkState, h: Header): ChunkState {
    match h
    case Full(t, len, ty, sid) => ChunkState(t, len, t, ty, sid, [])
    case Changed(d, len, ty) => st.(ts := Plus(st.ts, d), delta := d, mlen := len, mtype := ty)
    case Delta(d) => st.(ts := Plus(st.ts, d), delta := d)
    case Bare => if st.buf == [] then st.(ts := Plus(st.ts, st.delta)) else st
  }

  datatype Outcome = Eof | More | Deliver(msg: Message)

  datatype StepResult = StepResult(states: States, rest: bytes, out: Outcome)

  function Finish(states: States, csid: nat, st: ChunkState, rest: bytes): StepResult {
    if st.mlen > 0 && |st.buf| >= st.mlen then
      StepResult(states[csid := st.(buf := [])], rest,
                 Deliver(Message(st.mtype, csid, st.msid, st.ts, st.buf[..st.mlen])))
    else StepResult(states[csid := st], rest, More)
  }

  function Absorb(states: States, csid: nat, st: ChunkState, cs: nat, inp: bytes): StepResult {
    var need := st.mlen - |st.buf|;
    if need <= 0 then Finish(states, csid, st, inp)
    else if |inp| < Min(need, cs) then StepResult(states[csid := st], [], Eof)
    else Finish(states, csid, st.(buf := st.buf + inp[..Min(need, cs)]), inp[Min(need, cs)..])
  }

  /** Reads one chunk. Every byte is consumed when the input ends inside it. */
  function Step(states: States, cs: nat, inp: bytes): (r: StepResult)
    ensures r.out == Eof ==> r.rest == []
    ensures r.out != Eof ==> |r.rest| < |inp|
  {
    match ParseBasic(inp)
    case Cut => StepResult(states, [], Eof)
    case Parsed((fmt, csid), n) =>
      match ParseHeader(fmt, inp[n..])
      case Cut => StepResult(states[csid := Lookup(states, csid)], [], Eof)
      case Parsed(h, k) => Absorb(states, csid, Apply(Lookup(states, csid), h), cs, inp[n..][k..])
  }

  datatype ReadResult = ReadResult(states: States, rest: bytes, msg: Option<Message>)

  /** Reads chunks up to the next complete message, or to the end of the input. */
  function Read(states: States, cs: nat, inp: bytes): (r: ReadResult)
    ensures r.msg.None? ==> r.rest == []
    ensures r.msg.Some? ==> |r.rest| < |inp|
    decreases |inp|
  {
    var r := Step(states, cs, inp);
    match r.out
    case Eof => ReadResult(r.states, r.rest, None)
    case More => Read(r.states, cs, r.rest)
    case Deliver(m) => ReadResult(r.states, r.rest, Some(m))
  }

  /** Every message that a caller who keeps reading gets out of `inp`. */
  function ReadAll(states: States, cs: nat, inp: bytes): seq<Message>
    decreases |inp|
  {
    var r := Read(states, cs, inp);
    match r.msg
    case None => []
    case Some(m) => [m] + ReadAll(r.states, cs, r.rest)
  }

  // ---- chunk sizes that change on the way ----

  const SET_CHUNK_SIZE: byte := 1

  /** The chunk size after message `m`; None when the four bytes of an announcement are not all there. */
  function Adopt(cs: nat, m: Message): Option<nat> {
    if m.mtype != SET_CHUNK_SIZE then Some(cs)
    else if |m.payload| < 4 then None
    else Some(BE32(m.payload[..4]))
  }

  /** The messages a peer receives when it adopts announcements as they come. */
  function ReadAdopting(states: States, cs: nat, inp: bytes): seq<Message>
    decreases |inp|
  {
    var r := Read(states, cs, inp);
    match r.msg
    case None => []
    case Some(m) =>
      match Adopt(cs, m)
      case None => [m]
      case Some(cs') => [m] + ReadAdopting(r.states, cs', r.rest)
  }

  // ---- leftovers ----

  lemma Overwrite(states: States, csid: nat, st0: ChunkState, st: ChunkState)
    ensures states[csid := st0][csid := st] == states[csid := st]
  {
  }

  lemma AbsorbForgets(states: States, csid: nat, st0: ChunkState, st: ChunkState, cs: nat, inp: bytes)
    ensures Absorb(states[csid := st0], csid, st, cs, inp) == Absorb(states, csid, st, cs, inp)
  {
    var n := Min(st.mlen - |st.buf|, cs);
    var grown := if 0 < st.mlen - |st.buf| && n <= |inp| then st.(buf := st.buf + inp[..n]) else st;
    Overwrite(states, csid, st0, st);
    Overwrite(states, csid, st0, grown);
    Overwrite(states, csid, st0, grown.(buf := []));
  }

  /** Behind a full header it makes no difference what the chunk stream held before, half a message included. */
  lemma FullHeaderForgets(states: States, csid: nat, left: ChunkState, cs: nat, inp: bytes)
    requires ParseBasic(inp).Parsed? && ParseBasic(inp).value == (0, csid)
    requires ParseHeader(0, inp[ParseBasic(inp).size..]).Parsed?
    ensures Step(states[csid := left], cs, inp) == Step(states, cs, inp)
  {
    var n := ParseBasic(inp).size;
    var p := ParseHeader(0, inp[n..]);
    AbsorbForgets(states, csid, left, Apply(left, p.value), cs, inp[n..][p.size..]);
  }

  // ---- the reader itself ----

  class ChunkReader {
    var input: bytes  // what the connection has yet to deliver before it ends
    var chunkSize: nat
    var states: States

    constructor (input: bytes)
      ensures this.input == input && chunkSize == 128 && states == map[]
    {
      this.input, chunkSize, states := input, 128, map[];
    }

    /** Exactly n bytes, or None when the connection ends first. */
    method ReadN(n: nat) returns (b: Option<bytes>)
      modifies this`input
      ensures n <= |old(input)| ==> b == Some(old(input)[..n]) && input == old(input)[n..]
      ensures n > |old(input)| ==> b == None && input == []
    {
      if n <= |input| {
        b, input := Some(input[..n]), input[n..];
      } else {
        b, input := None, [];
      }
    }

    method ReadBasicHeader() returns (h: Option<(nat, nat)>)
      modifies this`input
      ensures var p := ParseBasic(old(input));
              if p.Cut? then h == None && input == []
              else h == Some(p.value) && input == old(input)[p.size..]
    {
      var bh := ReadN(1);
      if bh.None? { return None; }
      var fmt, csid: nat := bh.value[0] / 64, bh.value[0] % 64;
      if csid == 0 {
        var b := ReadN(1);
        if b.None? { return None; }
        csid := b.value[0] as int + 64;
      } else if csid == 1 {
        var b2 := ReadN(2);
        if b2.None? { return None; }
        csid := b2.value[1] as int * 256 + b2.value[0] + 64;
      }
      return Some((fmt, csid));
    }

    /** Widens the header's three-byte time field with the extended timestamp when it is all ones. */
    method ReadStamp(stamp: uint24) returns (t: Option<uint32>)
      modifies this`input
      ensures stamp != 0xFF_FFFF ==> t == Some(stamp) && input == old(input)
      ensures stamp == 0xFF_FFFF && |old(input)| >= 4 ==>
                t == Some(BE32(old(input)[..4])) && input == old(input)[4..]
      ensures stamp == 0xFF_FFFF && |old(input)| < 4 ==> t == None && input == []
    {
      if stamp != 0xFF_FFFF { return Some(stamp); }
      var ext := ReadN(4);
      if ext.None? { return None; }
      return Some(BE32(ext.value));
    }

    method ReadMessageHeader(fmt: nat) returns (h: Option<Header>)
      requires fmt < 4
      modifies this`input
      ensures var p := ParseHeader(fmt, old(input));
              if p.Cut? then h == None && input == []
              else h == Some(p.value) && input == old(input)[p.size..]
    {
      if fmt == 3 { return Some(Bare); }
      var size := if fmt == 0 then 11 else if fmt == 1 then 7 else 3;
      var hdr := ReadN(size);
      if hdr.None? { return None; }
      var b := hdr.value;
      ghost var inp := old(input);
      assert b[..3] == inp[..3] && (fmt <= 1 ==> b[3..6] == inp[3..6]) && (fmt == 0 ==> b[7..11] == inp[7..11]);
      assert |inp| >= size + 4 ==> inp[size..][..4] == inp[size..size + 4] && inp[size..][4..] == inp[size + 4..];
      var t := ReadStamp(BE24(b[..3]));
      if t.None? { return None; }
      if fmt == 0 {
        h := Some(Full(t.value, BE24(b[3..6]), b[6], LE32(b[7..11])));
      } else if fmt == 1 {
        h := Some(Changed(t.value, BE24(b[3..6]), b[6]));
      } else {
        h := Some(Delta(t.value));
      }
    }

    /** One turn of the reading loop: a whole chunk, and the message it completes, if any. */
    method ReadChunk() returns (out: Outcome)
      modifies this
      ensures StepResult(states, input, out) == Step(old(states), old(chunkSize), old(input))
      ensures chunkSize == old(chunkSize)
    {
      var bh := ReadBasicHeader();
      if bh.None? { return Eof; }
      var (fmt, csid) := bh.value;
      var st := Lookup(states, csid);
      states := states[csid := st];
      var hdr := ReadMessageHeader(fmt);
      if hdr.None? { return Eof; }
      match hdr.value {
        case Full(ts, mlen, mtype, msid) =>
          st := ChunkState(ts, mlen, ts, mtype, msid, []);
        case Changed(d, mlen, mtype) =>
          st := st.(ts := Plus(st.ts, d), delta := d);
          st := st.(mlen := mlen, mtype := mtype);
        case Delta(d) =>
          st := st.(ts := Plus(st.ts, d), delta := d);
        case Bare =>
          if |st.buf| == 0 {
            st := st.(ts := Plus(st.ts, st.delta));
          }
      }
      assert st == Apply(Lookup(old(states), csid), hdr.value);
      AbsorbForgets(old(states), csid, Lookup(old(states), csid), st, chunkSize, input);
      out := ReadPayload(csid, st);
    }

    /** The payload part of a chunk on stream `csid`, whose header left the state `st`. */
    method ReadPayload(csid: nat, header: ChunkState) returns (out: Outcome)
      modifies this
      ensures StepResult(states, input, out) == Absorb(old(states), csid, header, chunkSize, old(input))
      ensures chunkSize == old(chunkSize)
    {
      ghost var before := states;
      var st := header;
      states := states[csid := st];
      var need := st.mlen - |st.buf|;
      if need > 0 {
        var n := if need > chunkSize then chunkSize else need;
        var chunk := ReadN(n);
        if chunk.None? { return Eof; }
        st := st.(buf := st.buf + chunk.value);
        states := states[csid := st];
      }
      Overwrite(before, csid, header, st);
      if st.mlen > 0 && |st.buf| >= st.mlen {
        out := Deliver(Message(st.mtype, csid, st.msid, st.ts, st.buf[..st.mlen]));
        states := states[csid := st.(buf := [])];
        Overwrite(before, csid, st, st.(buf := []));
      } else {
        out := More;
      }
    }

    /** Reassembles the next complete message across chunks; None when the input ends first. */
    method ReadMessage() returns (m: Option<Message>)
      modifies this
      ensures ReadResult(states, input, m) == Read(old(states), old(chunkSize), old(input))
      ensures chunkSize == old(chunkSize)
    {
      while true
        invariant chunkSize == old(chunkSize)
        invariant Read(states, chunkSize, input) == Read(old(states), old(chunkSize), old(input))
        decreases |input|
      {
        var out := ReadChunk();
        match out {
          case Eof => return None;
          case Deliver(msg) => return Some(msg);
          case More =>
        }
      }
    }
  }

  // ---- the writer ----

  /** The layout of a fmt-0 header. */
  function HeaderBytes(csid: byte, stamp: bytes, size: bytes, mtype: byte, sid: bytes, ext: bytes): bytes {
    [csid] + (stamp + (size + ([mtype] + (sid + ext))))
  }

  function EncodeHeader(m: Message): bytes {
    var extended := m.timestamp >= 0xFF_FFFF;
    HeaderBytes(m.csid % 64, PutBE24(if extended then 0xFF_FFFF else m.timestamp), PutBE24(|m.payload| % 0x100_0000),
                m.mtype, PutLE32(m.streamId), if extended then PutBE32(m.timestamp) else [])
  }

  /** The chunk of `m` that carries its payload from offset `off`: fmt 0 first, fmt 3 after. */
  function EncodeChunk(m: Message, off: nat, cs: nat): bytes
    requires off <= |m.payload|
  {
    (if off == 0 then EncodeHeader(m) else [0xC0 + m.csid % 64])
    + m.payload[off..Min(off + cs, |m.payload|)]
  }

  /** The chunks of `m` from offset `off` on. */
  function EncodeFrom(m: Message, off: nat, cs: nat): bytes
    requires cs >= 1 && off <= |m.payload|
    decreases |m.payload| - off, 0
  {
    EncodeChunk(m, off, cs) + Continuations(m, off + cs, cs)
  }

  function Continuations(m: Message, off: nat, cs: nat): bytes
    requires cs >= 1
    decreases |m.payload| - off, 1
  {
    if off < |m.payload| then EncodeFrom(m, off, cs) else []
  }

  function Encode(m: Message, cs: nat): bytes
    requires cs >= 1
  {
    EncodeFrom(m, 0, cs)
  }

  class ChunkWriter {
    var output: bytes  // what has been written to the connection
    const chunkSize := 4096

    constructor ()
      ensures output == []
    {
      output := [];
    }

    /** The always-full header of a message's first chunk. */
    method FirstHeader(m: Message) returns (hdr: bytes)
      ensures hdr == EncodeHeader(m)
    {
      hdr := [m.csid % 64];
      var ext := m.timestamp >= 0xFF_FFFF;
      var ts3 := m.timestamp;
      if ext {
        ts3 := 0xFF_FFFF;
      }
      hdr := hdr + PutBE24(ts3);
      hdr := hdr + PutBE24(|m.payload| % 0x100_0000);
      hdr := hdr + [m.mtype];
      hdr := hdr + PutLE32(m.streamId);
      if ext {
        hdr := hdr + PutBE32(m.timestamp);
      }
    }

    /** One fmt-0 chunk, then fmt-3 continuations, in a single write. */
    method WriteMessage(m: Message)
      modifies this
      ensures output == old(output) + Encode(m, chunkSize)
    {
      var out: bytes := FirstHeader(m);
      out := out + m.payload[..Min(chunkSize, |m.payload|)];
      assert out == EncodeChunk(m, 0, chunkSize);
      var off := chunkSize;
      while off < |m.payload|
        invariant off >= chunkSize
        invariant Encode(m, chunkSize) == out + Continuations(m, off, chunkSize)
      {
        ghost var before, chunk, rest := out, EncodeChunk(m, off, chunkSize), Continuations(m, off + chunkSize, chunkSize);
        out := out + [0xC0 + m.csid % 64];
        var end := off + chunkSize;
        if end > |m.payload| {
          end := |m.payload|;
        }
        out := out + m.payload[off..end];
        assert out == before + chunk;
        assert (before + chunk) + rest == before + (chunk + rest);
        off := off + chunkSize;
      }
      output := output + out;
    }
  }
}
