/**
 * Compressed chunk headers, as publishers send them (sections 5.3.1.1 and 5.3.1.2 of the RTMP 1.0
 * specification): a message may leave out of its header what it has in common with the one before
 * it on its chunk stream. What is written so, in any interleaving, is read back field for field.
 */
module Compression {
  import opened Bytes
  import opened Chunks
  import opened Multiplexing
  import opened Negotiation
  import R = ReaderSafety

  // ---- the writer ----

  /** Chunk stream ids take one, two or three bytes with the format. */
  function BasicHeader(fmt: nat, csid: nat): bytes
    requires fmt < 4 && 2 <= csid < 0x1_0040
  {
    if csid < 64 then [fmt * 64 + csid]
    else if csid < 320 then [fmt * 64, csid - 64]
    else [fmt * 64 + 1, (csid - 64) % 256, (csid - 64) / 256]
  }

  /** A time, or a time step, in three bytes, and in four more if they do not do. */
  function Stamp(t: uint32): bytes {
    PutBE24(if t >= 0xFF_FFFF then 0xFF_FFFF else t)
  }

  function Extension(t: uint32): bytes {
    if t >= 0xFF_FFFF then PutBE32(t) else []
  }

  /** The message that was opened last on a chunk stream, and the time step of its header. */
  datatype Last = Last(msg: Message, step: uint32)

  /** From one time to another, on a clock of 32 bits. */
  function Forward(t: uint32, now: uint32): uint32 {
    (now - t) % 0x1_0000_0000
  }

  function StepOf(fmt: nat, m: Message, last: Option<Last>): uint32 {
    if fmt == 0 || last.None? then m.timestamp else Forward(last.value.msg.timestamp, m.timestamp)
  }

  /** Type 1 repeats the stream id, type 2 also length and type, and type 3 the time step as well. */
  predicate MayUse(fmt: nat, m: Message, last: Option<Last>) {
    || fmt == 0
    || (&& fmt < 4 && last.Some? && m.streamId == last.value.msg.streamId
        && (fmt >= 2 ==> |m.payload| == |last.value.msg.payload| && m.mtype == last.value.msg.mtype)
        && (fmt == 3 ==> StepOf(fmt, m, last) == last.value.step))
  }

  function MessageHeader(fmt: nat, m: Message, step: uint32): bytes
    requires |m.payload| < 0x100_0000
  {
    if fmt == 0 then Stamp(step) + (PutBE24(|m.payload|) + ([m.mtype] + (PutLE32(m.streamId) + Extension(step))))
    else if fmt == 1 then Stamp(step) + (PutBE24(|m.payload|) + ([m.mtype] + Extension(step)))
    else if fmt == 2 then Stamp(step) + Extension(step)
    else []
  }

  /** A piece of a message, and the type of its chunk if it is the first one. */
  datatype Part = Part(piece: Piece, fmt: nat)

  predicate Transmittable(m: Message) {
    2 <= m.csid < 0x1_0040 && 1 <= |m.payload| < 0x100_0000
  }

  function LastOn(lasts: map<nat, Last>, c: nat): Option<Last> {
    if c in lasts then Some(lasts[c]) else None
  }

  /** What the part's message leaves behind for the next one on the stream. */
  function Opened(p: Part, last: Option<Last>): Last {
    if p.piece.off == 0 then Last(p.piece.msg, StepOf(p.fmt, p.piece.msg, last))
    else if last.Some? then last.value else Last(p.piece.msg, 0)
  }

  function Data(p: Piece, cs: nat): bytes {
    if p.off <= |p.msg.payload| then p.msg.payload[p.off..Min(p.off + cs, |p.msg.payload|)] else []
  }

  /** A chunk: the first of a message bears its header, the others only that they go on. */
  function PartBytes(p: Part, last: Option<Last>, cs: nat): bytes
    requires Transmittable(p.piece.msg) && p.fmt < 4
  {
    var m := p.piece.msg;
    if p.piece.off == 0 then
      BasicHeader(p.fmt, m.csid) + (MessageHeader(p.fmt, m, StepOf(p.fmt, m, last)) + Data(p.piece, cs))
    else BasicHeader(3, m.csid) + Data(p.piece, cs)
  }

  // ---- one chunk, read ----

  lemma BasicHeaderParses(fmt: nat, csid: nat, tail: bytes)
    requires fmt < 4 && 2 <= csid < 0x1_0040
    ensures ParseBasic(BasicHeader(fmt, csid) + tail) == Parsed((fmt, csid), |BasicHeader(fmt, csid)|)
  {
    var h := BasicHeader(fmt, csid);
    assert (h + tail)[..|h|] == h;
    if csid < 64 {
      assert (fmt * 64 + csid) / 64 == fmt && (fmt * 64 + csid) % 64 == csid;
    } else if csid < 320 {
      assert fmt * 64 / 64 == fmt && fmt * 64 % 64 == 0;
    } else {
      assert (fmt * 64 + 1) / 64 == fmt && (fmt * 64 + 1) % 64 == 1;
      assert (csid - 64) / 256 * 256 + (csid - 64) % 256 == csid - 64;
    }
  }

  /** The header as a reader should understand it. */
  function Understood(fmt: nat, m: Message, step: uint32): Header
    requires |m.payload| < 0x100_0000
  {
    if fmt == 0 then Full(step, |m.payload|, m.mtype, m.streamId)
    else if fmt == 1 then Changed(step, |m.payload|, m.mtype)
    else if fmt == 2 then Delta(step)
    else Bare
  }

  /** The time field of `inp`, with whatever fields stand between it and its extension. */
  lemma StampParses(t: uint32, fields: bytes, tail: bytes)
    ensures ParseStamp(Stamp(t) + (fields + (Extension(t) + tail)), 3 + |fields|) ==
            Parsed(t, 3 + |fields| + |Extension(t)|)
  {
    var inp := Stamp(t) + (fields + (Extension(t) + tail));
    BE24RoundTrip(if t >= 0xFF_FFFF then 0xFF_FFFF else t);
    BE32RoundTrip(t);
    assert inp[..3] == Stamp(t);
    if t >= 0xFF_FFFF {
      Middle(Stamp(t) + fields, Extension(t), tail);
      Associative(Stamp(t), fields, Extension(t) + tail);
      assert inp[3 + |fields|..3 + |fields| + 4] == PutBE32(t);
    }
  }

  lemma FieldsOf(m: Message, step: uint32, sid: bytes, rest: bytes)
    requires |m.payload| < 0x100_0000
    ensures var inp := Stamp(step) + (PutBE24(|m.payload|) + ([m.mtype] + (sid + rest)));
            && inp[3..6] == PutBE24(|m.payload|) && inp[6] == m.mtype && inp[7..7 + |sid|] == sid
  {
    var size := PutBE24(|m.payload|);
    Middle(Stamp(step), size, [m.mtype] + (sid + rest));
    var inp := Stamp(step) + (size + ([m.mtype] + (sid + rest)));
    assert inp == (Stamp(step) + size + [m.mtype]) + (sid + rest);
    Middle(Stamp(step) + size + [m.mtype], sid, rest);
  }

  lemma FullHeaderParses(m: Message, step: uint32, tail: bytes)
    requires |m.payload| < 0x100_0000
    ensures ParseHeader(0, MessageHeader(0, m, step) + tail) ==
            Parsed(Understood(0, m, step), |MessageHeader(0, m, step)|)
  {
    var size, sid := PutBE24(|m.payload|), PutLE32(m.streamId);
    var fields := size + ([m.mtype] + sid);
    var inp := Stamp(step) + (size + ([m.mtype] + (sid + (Extension(step) + tail))));
    assert MessageHeader(0, m, step) + tail == inp;
    assert Stamp(step) + (fields + (Extension(step) + tail)) == inp;
    StampParses(step, fields, tail);
    FieldsOf(m, step, sid, Extension(step) + tail);
    BE24RoundTrip(|m.payload|);
    LE32RoundTrip(m.streamId);
  }

  lemma ChangedHeaderParses(m: Message, step: uint32, tail: bytes)
    requires |m.payload| < 0x100_0000
    ensures ParseHeader(1, MessageHeader(1, m, step) + tail) ==
            Parsed(Understood(1, m, step), |MessageHeader(1, m, step)|)
  {
    var size := PutBE24(|m.payload|);
    var fields := size + [m.mtype];
    var inp := Stamp(step) + (size + ([m.mtype] + ([] + (Extension(step) + tail))));
    assert MessageHeader(1, m, step) + tail == inp;
    assert Stamp(step) + (fields + (Extension(step) + tail)) == inp;
    StampParses(step, fields, tail);
    FieldsOf(m, step, [], Extension(step) + tail);
    BE24RoundTrip(|m.payload|);
  }

  lemma DeltaHeaderParses(m: Message, step: uint32, tail: bytes)
    requires |m.payload| < 0x100_0000
    ensures ParseHeader(2, MessageHeader(2, m, step) + tail) ==
            Parsed(Understood(2, m, step), |MessageHeader(2, m, step)|)
  {
    var inp := Stamp(step) + ([] + (Extension(step) + tail));
    assert MessageHeader(2, m, step) + tail == inp;
    StampParses(step, [], tail);
  }

  lemma MessageHeaderParses(fmt: nat, m: Message, step: uint32, tail: bytes)
    requires fmt < 4 && |m.payload| < 0x100_0000
    ensures ParseHeader(fmt, MessageHeader(fmt, m, step) + tail) ==
            Parsed(Understood(fmt, m, step), |MessageHeader(fmt, m, step)|)
  {
    match fmt {
      case 0 => FullHeaderParses(m, step, tail);
      case 1 => ChangedHeaderParses(m, step, tail);
      case 2 => DeltaHeaderParses(m, step, tail);
      case _ =>
    }
  }

  /** The reader has been told all about a message, and has the first `off` bytes of it. */
  function Standing(l: Last, off: nat): ChunkState
    requires off <= |l.msg.payload| < 0x100_0000
  {
    ChunkState(l.msg.timestamp, |l.msg.payload|, l.step, l.msg.mtype, l.msg.streamId, l.msg.payload[..off])
  }

  lemma ForwardUndone(t: uint32, now: uint32)
    ensures Plus(t, Forward(t, now)) == now
  {
  }

  /** Whatever the header left out, the reader knows. */
  lemma HeaderIsComplete(st: ChunkState, fmt: nat, m: Message, last: Option<Last>)
    requires fmt < 4 && |m.payload| < 0x100_0000 && MayUse(fmt, m, last)
    requires fmt > 0 ==> |last.value.msg.payload| < 0x100_0000 && st == Standing(last.value, 0)
    ensures var step := StepOf(fmt, m, last);
            Apply(st, Understood(fmt, m, step)) == Standing(Last(m, step), 0)
  {
    if fmt > 0 {
      ForwardUndone(last.value.msg.timestamp, m.timestamp);
    }
  }

  /** What reading a chunk of `l` from `off` on must come to. */
  ghost predicate TakesPart(states: States, l: Last, off: nat, cs: nat, tail: bytes, r: StepResult)
    requires Transmittable(l.msg) && off < |l.msg.payload|
  {
    var m := l.msg;
    && r.rest == tail
    && r.out == (if off + cs >= |m.payload| then Deliver(m) else More)
    && r.states == states[m.csid := Standing(l, if off + cs >= |m.payload| then 0 else off + cs)]
  }

  lemma AbsorbStanding(states: States, l: Last, off: nat, cs: nat, tail: bytes)
    requires cs >= 1 && Transmittable(l.msg) && off < |l.msg.payload|
    ensures TakesPart(states, l, off, cs, tail,
                      Absorb(states, l.msg.csid, Standing(l, off), cs, Data(Piece(l.msg, off), cs) + tail))
  {
    var m, data := l.msg, Data(Piece(l.msg, off), cs);
    assert (data + tail)[..|data|] == data && (data + tail)[|data|..] == tail;
    assert m.payload[..off] + data == m.payload[..Min(off + cs, |m.payload|)];
    assert m.payload[..|m.payload|] == m.payload && m.payload[..0] == [];
  }

  lemma ReadsOpening(states: States, p: Part, last: Option<Last>, cs: nat, tail: bytes)
    requires cs >= 1 && Transmittable(p.piece.msg) && p.fmt < 4 && p.piece.off == 0
    requires MayUse(p.fmt, p.piece.msg, last)
    requires p.fmt > 0 ==>
               |last.value.msg.payload| < 0x100_0000 && Lookup(states, p.piece.msg.csid) == Standing(last.value, 0)
    ensures TakesPart(states, Opened(p, last), 0, cs, tail, Step(states, cs, PartBytes(p, last, cs) + tail))
  {
    var m, step := p.piece.msg, StepOf(p.fmt, p.piece.msg, last);
    var basic, header, data := BasicHeader(p.fmt, m.csid), MessageHeader(p.fmt, m, step), Data(p.piece, cs);
    var inp := basic + (header + (data + tail));
    Associative(header, data, tail);
    Associative(basic, header + data, tail);
    assert PartBytes(p, last, cs) + tail == inp;
    BasicHeaderParses(p.fmt, m.csid, header + (data + tail));
    assert inp[|basic|..] == header + (data + tail);
    MessageHeaderParses(p.fmt, m, step, data + tail);
    assert (header + (data + tail))[|header|..] == data + tail;
    var h := Understood(p.fmt, m, step);
    StepIs(states, cs, inp, p.fmt, m.csid, |basic|, h, |header|);
    HeaderIsComplete(Lookup(states, m.csid), p.fmt, m, last);
    AbsorbStanding(states, Last(m, step), 0, cs, tail);
  }

  lemma ReadsContinuation(states: States, p: Part, last: Option<Last>, cs: nat, tail: bytes)
    requires cs >= 1 && Transmittable(p.piece.msg) && p.fmt < 4 && 0 < p.piece.off < |p.piece.msg.payload|
    requires last.Some? && last.value.msg == p.piece.msg
    requires Lookup(states, p.piece.msg.csid) == Standing(last.value, p.piece.off)
    ensures TakesPart(states, last.value, p.piece.off, cs, tail, Step(states, cs, PartBytes(p, last, cs) + tail))
  {
    var m := p.piece.msg;
    var basic, data := BasicHeader(3, m.csid), Data(p.piece, cs);
    var inp := basic + (data + tail);
    Associative(basic, data, tail);
    BasicHeaderParses(3, m.csid, data + tail);
    assert inp[|basic|..] == data + tail && (data + tail)[0..] == data + tail;
    StepIs(states, cs, inp, 3, m.csid, |basic|, Bare, 0);
    AbsorbStanding(states, last.value, p.piece.off, cs, tail);
  }

  // ---- whole schedules ----

  /** The writer's size behind a part, if the reader adopts announcements, and if it does not. */
  ghost function SizeBehindPart(adopting: bool, cs: nat, p: Piece): nat {
    if adopting && IsLast(p, cs) then SizeBehind(cs, p.msg) else cs
  }

  ghost function NextLasts(lasts: map<nat, Last>, p: Part): map<nat, Last> {
    lasts[p.piece.msg.csid := Opened(p, LastOn(lasts, p.piece.msg.csid))]
  }

  /** The part is due next on its stream, and its header, if it is the first, leaves out no more than it may. */
  ghost predicate Due(p: Part, q: map<nat, seq<Message>>, offs: map<nat, nat>, lasts: map<nat, Last>) {
    var c := p.piece.msg.csid;
    && Queue(q, c) != [] && p.piece == Piece(Queue(q, c)[0], Sent(offs, c)) && p.fmt < 4
    && (p.piece.off == 0 ==> MayUse(p.fmt, p.piece.msg, LastOn(lasts, c)))
  }

  /** `w` sends the queued messages of all streams, whole, interleaved in some way. */
  ghost predicate Scheduled(w: seq<Part>, q: map<nat, seq<Message>>, offs: map<nat, nat>, lasts: map<nat, Last>,
                            adopting: bool, cs: nat)
    decreases |w|
  {
    if w == [] then forall c: nat :: Queue(q, c) == []
    else Due(w[0], q, offs, lasts)
         && Scheduled(w[1..], NextQueues(q, w[0].piece, cs), NextOffsets(offs, w[0].piece, cs), NextLasts(lasts, w[0]),
                      adopting, SizeBehindPart(adopting, cs, w[0].piece))
  }

  ghost function Wire(w: seq<Part>, lasts: map<nat, Last>, adopting: bool, cs: nat): bytes
    requires forall p | p in w :: Transmittable(p.piece.msg) && p.fmt < 4
    decreases |w|
  {
    if w == [] then []
    else PartBytes(w[0], LastOn(lasts, w[0].piece.msg.csid), cs)
         + Wire(w[1..], NextLasts(lasts, w[0]), adopting, SizeBehindPart(adopting, cs, w[0].piece))
  }

  /** The messages in the order in which their last chunks are sent. */
  ghost function Completed(w: seq<Part>, adopting: bool, cs: nat): seq<Message>
    decreases |w|
  {
    if w == [] then []
    else (if IsLast(w[0].piece, cs) then [w[0].piece.msg] else [])
         + Completed(w[1..], adopting, SizeBehindPart(adopting, cs, w[0].piece))
  }

  /** Messages that fit the wire, and if sizes are adopted announce none of zero. */
  ghost predicate QueuesFit(q: map<nat, seq<Message>>, adopting: bool) {
    forall c, k :: c in q && 0 <= k < |q[c]| ==> Fitting(q[c][k], adopting) && q[c][k].csid == c
  }

  ghost predicate Fitting(m: Message, adopting: bool) {
    Transmittable(m) && (adopting ==> SizeBehind(1, m) >= 1)
  }

  ghost predicate LastsFit(lasts: map<nat, Last>) {
    forall c :: c in lasts ==> Transmittable(lasts[c].msg)
  }

  /** How far a stream has come, as the reader knows it. */
  ghost predicate StreamKnown(states: States, q: map<nat, seq<Message>>, offs: map<nat, nat>, lasts: map<nat, Last>, c: nat)
    requires LastsFit(lasts)
  {
    && (c in lasts ==> Sent(offs, c) < |lasts[c].msg.payload| && Lookup(states, c) == Standing(lasts[c], Sent(offs, c)))
    && (Sent(offs, c) > 0 ==> c in lasts && Queue(q, c) != [] && lasts[c].msg == Queue(q, c)[0])
  }

  ghost predicate Known(states: States, q: map<nat, seq<Message>>, offs: map<nat, nat>, lasts: map<nat, Last>)
    requires LastsFit(lasts)
  {
    forall c: nat :: StreamKnown(states, q, offs, lasts, c)
  }

  lemma ReadsDue(states: States, p: Part, q: map<nat, seq<Message>>, offs: map<nat, nat>, lasts: map<nat, Last>,
                 cs: nat, tail: bytes)
    requires cs >= 1 && Transmittable(p.piece.msg) && LastsFit(lasts)
    requires Due(p, q, offs, lasts) && StreamKnown(states, q, offs, lasts, p.piece.msg.csid)
    ensures var last := LastOn(lasts, p.piece.msg.csid);
            && p.piece.off < |p.piece.msg.payload| && Opened(p, last).msg == p.piece.msg
            && TakesPart(states, Opened(p, last), p.piece.off, cs, tail, Step(states, cs, PartBytes(p, last, cs) + tail))
  {
    var last := LastOn(lasts, p.piece.msg.csid);
    if p.piece.off == 0 {
      ReadsOpening(states, p, last, cs, tail);
    } else {
      ReadsContinuation(states, p, last, cs, tail);
    }
  }

  lemma NextKnown(states: States, p: Part, q: map<nat, seq<Message>>, offs: map<nat, nat>, lasts: map<nat, Last>,
                  cs: nat, tail: bytes, r: StepResult)
    requires cs >= 1 && Transmittable(p.piece.msg) && LastsFit(lasts)
    requires Due(p, q, offs, lasts) && Known(states, q, offs, lasts) && p.piece.off < |p.piece.msg.payload|
    requires Opened(p, LastOn(lasts, p.piece.msg.csid)).msg == p.piece.msg
    requires TakesPart(states, Opened(p, LastOn(lasts, p.piece.msg.csid)), p.piece.off, cs, tail, r)
    ensures LastsFit(NextLasts(lasts, p))
    ensures Known(r.states, NextQueues(q, p.piece, cs), NextOffsets(offs, p.piece, cs), NextLasts(lasts, p))
  {
    var q', offs', lasts' := NextQueues(q, p.piece, cs), NextOffsets(offs, p.piece, cs), NextLasts(lasts, p);
    forall c: nat ensures StreamKnown(r.states, q', offs', lasts', c) {
      assert StreamKnown(states, q, offs, lasts, c);
    }
  }

  /** The next message returned, seen chunk by chunk. */
  lemma ReturnedByPart(adopting: bool, states: States, cs: nat, inp: bytes, m: Message, last: bool)
    requires Fitting(m, adopting) && Step(states, cs, inp).out == if last then Deliver(m) else More
    ensures var r := Step(states, cs, inp);
            R.Returned(adopting, states, cs, inp) ==
            if !last then R.Returned(adopting, r.states, cs, r.rest)
            else if adopting && Malformed(m) then [m]
            else [m] + R.Returned(adopting, r.states, if adopting then SizeBehind(cs, m) else cs, r.rest)
  {
    R.ReturnedByChunk(adopting, states, cs, inp);
  }

  /** A reader that adopts sizes does not survive a malformed announcement. */
  ghost function Survived(adopting: bool, ms: seq<Message>): seq<Message> {
    if adopting then Readable(ms) else ms
  }

  lemma SurvivedCons(adopting: bool, m: Message, ms: seq<Message>)
    ensures Survived(adopting, [m] + ms) == if adopting && Malformed(m) then [m] else [m] + Survived(adopting, ms)
  {
    assert ([m] + ms)[1..] == ms;
  }

  lemma NextFits(q: map<nat, seq<Message>>, p: Piece, cs: nat, adopting: bool)
    requires QueuesFit(q, adopting)
    ensures QueuesFit(NextQueues(q, p, cs), adopting)
  {
  }

  lemma DueFits(p: Part, q: map<nat, seq<Message>>, offs: map<nat, nat>, lasts: map<nat, Last>, adopting: bool)
    requires QueuesFit(q, adopting) && Due(p, q, offs, lasts)
    ensures Fitting(p.piece.msg, adopting)
  {
  }

  lemma {:induction false} ScheduleFits(w: seq<Part>, q: map<nat, seq<Message>>, offs: map<nat, nat>,
                                        lasts: map<nat, Last>, adopting: bool, cs: nat)
    requires QueuesFit(q, adopting) && Scheduled(w, q, offs, lasts, adopting, cs)
    ensures forall p | p in w :: Transmittable(p.piece.msg) && p.fmt < 4
    decreases |w|
  {
    if w != [] {
      DueFits(w[0], q, offs, lasts, adopting);
      NextFits(q, w[0].piece, cs, adopting);
      ScheduleFits(w[1..], NextQueues(q, w[0].piece, cs), NextOffsets(offs, w[0].piece, cs), NextLasts(lasts, w[0]),
                   adopting, SizeBehindPart(adopting, cs, w[0].piece));
    }
  }

  /** What is returned from here on, given what is returned behind part `p`. */
  ghost function WithPart(p: Piece, adopting: bool, cs: nat, rest: seq<Message>): seq<Message> {
    if !IsLast(p, cs) then rest else if adopting && Malformed(p.msg) then [p.msg] else [p.msg] + rest
  }

  lemma ReadsPart(states: States, p: Part, q: map<nat, seq<Message>>, offs: map<nat, nat>, lasts: map<nat, Last>,
                  adopting: bool, cs: nat, tail: bytes)
    returns (after: States)
    requires cs >= 1 && Fitting(p.piece.msg, adopting) && LastsFit(lasts)
    requires Due(p, q, offs, lasts) && Known(states, q, offs, lasts)
    ensures LastsFit(NextLasts(lasts, p))
    ensures Known(after, NextQueues(q, p.piece, cs), NextOffsets(offs, p.piece, cs), NextLasts(lasts, p))
    ensures R.Returned(adopting, states, cs, PartBytes(p, LastOn(lasts, p.piece.msg.csid), cs) + tail) ==
            WithPart(p.piece, adopting, cs, R.Returned(adopting, after, SizeBehindPart(adopting, cs, p.piece), tail))
  {
    var inp := PartBytes(p, LastOn(lasts, p.piece.msg.csid), cs) + tail;
    var r := Step(states, cs, inp);
    after := r.states;
    assert StreamKnown(states, q, offs, lasts, p.piece.msg.csid);
    ReadsDue(states, p, q, offs, lasts, cs, tail);
    NextKnown(states, p, q, offs, lasts, cs, tail, r);
    ReturnedByPart(adopting, states, cs, inp, p.piece.msg, IsLast(p.piece, cs));
  }

  lemma SurvivedWithPart(p: Piece, adopting: bool, cs: nat, ms: seq<Message>)
    ensures Survived(adopting, (if IsLast(p, cs) then [p.msg] else []) + ms) ==
            WithPart(p, adopting, cs, Survived(adopting, ms))
  {
    SurvivedCons(adopting, p.msg, ms);
    assert [] + ms == ms;
  }

  lemma {:induction false} ReadsSchedule(w: seq<Part>, q: map<nat, seq<Message>>, offs: map<nat, nat>,
                                         lasts: map<nat, Last>, states: States, adopting: bool, cs: nat)
    requires cs >= 1 && QueuesFit(q, adopting) && LastsFit(lasts) && Known(states, q, offs, lasts)
    requires Scheduled(w, q, offs, lasts, adopting, cs)
    requires forall p | p in w :: Transmittable(p.piece.msg) && p.fmt < 4
    ensures R.Returned(adopting, states, cs, Wire(w, lasts, adopting, cs)) == Survived(adopting, Completed(w, adopting, cs))
    decreases |w|
  {
    if w != [] {
      var p, size := w[0], SizeBehindPart(adopting, cs, w[0].piece);
      var q', offs', lasts' := NextQueues(q, p.piece, cs), NextOffsets(offs, p.piece, cs), NextLasts(lasts, p);
      assert p in w;
      DueFits(p, q, offs, lasts, adopting);
      NextFits(q, p.piece, cs, adopting);
      var after := ReadsPart(states, p, q, offs, lasts, adopting, cs, Wire(w[1..], lasts', adopting, size));
      SizeStays(adopting, cs, p.piece);
      ReadsSchedule(w[1..], q', offs', lasts', after, adopting, size);
      SurvivedWithPart(p.piece, adopting, cs, Completed(w[1..], adopting, size));
    } else {
      NothingReturned(adopting, states, cs);
    }
  }

  lemma SizeStays(adopting: bool, cs: nat, p: Piece)
    requires cs >= 1 && Fitting(p.msg, adopting)
    ensures SizeBehindPart(adopting, cs, p) >= 1
  {
  }

  lemma NothingReturned(adopting: bool, states: States, cs: nat)
    ensures R.Returned(adopting, states, cs, []) == []
  {
    R.ReturnedByChunk(adopting, states, cs, []);
  }

  lemma {:induction false} CompletesQueues(w: seq<Part>, q: map<nat, seq<Message>>, offs: map<nat, nat>,
                                           lasts: map<nat, Last>, adopting: bool, cs: nat)
    requires cs >= 1 && QueuesFit(q, adopting) && Scheduled(w, q, offs, lasts, adopting, cs)
    ensures forall c: nat :: MessagesOn(Completed(w, adopting, cs), c) == Queue(q, c)
    decreases |w|
  {
    if w != [] {
      var p, size := w[0].piece, SizeBehindPart(adopting, cs, w[0].piece);
      DueFits(w[0], q, offs, lasts, adopting);
      NextFits(q, p, cs, adopting);
      CompletesQueues(w[1..], NextQueues(q, p, cs), NextOffsets(offs, p, cs), NextLasts(lasts, w[0]), adopting, size);
      MessagesOnAll(Completed(w[1..], adopting, size), q, NextQueues(q, p, cs), p, cs);
      assert [] + Completed(w[1..], adopting, size) == Completed(w[1..], adopting, size);
    }
  }

  /**
   * Messages on any chunk streams, under any headers that leave out no more than they may, their
   * chunks interleaved in any way, with the sizes announced on the way if the reader adopts them and
   * with one size if it does not: from any states it was in before, the reader returns the messages
   * as they were meant, in the order of their last chunks, up to a malformed announcement if any; and
   * these are, on every chunk stream, exactly the messages written there, in order.
   */
  lemma CompressedMessagesReadBack(w: seq<Part>, q: map<nat, seq<Message>>, states: States, adopting: bool, cs: nat)
    requires cs >= 1 && QueuesFit(q, adopting) && Scheduled(w, q, map[], map[], adopting, cs)
    ensures forall p | p in w :: Transmittable(p.piece.msg) && p.fmt < 4
    ensures R.Returned(adopting, states, cs, Wire(w, map[], adopting, cs)) == Survived(adopting, Completed(w, adopting, cs))
    ensures forall c: nat :: MessagesOn(Completed(w, adopting, cs), c) == Queue(q, c)
  {
    ScheduleFits(w, q, map[], map[], adopting, cs);
    ReadsSchedule(w, q, map[], map[], states, adopting, cs);
    CompletesQueues(w, q, map[], map[], adopting, cs);
  }

  /** The gateway's own full header is this writer's. */
  lemma OwnHeaderIsFull(m: Message)
    requires Writable(m)
    ensures EncodeHeader(m) == BasicHeader(0, m.csid) + MessageHeader(0, m, StepOf(0, m, None))
  {
    assert |m.payload| % 0x100_0000 == |m.payload| && m.csid % 64 == m.csid;
  }
}
