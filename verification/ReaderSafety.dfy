/**
 * What the chunk reader guarantees on arbitrary input bytes, written by anybody:
 * the size of what it buffers and returns, and the meaning of its timestamps
 * (section 5.3.1.2 of the RTMP 1.0 specification).
 */
module ReaderSafety {
  import opened Bytes
  import opened Chunks

  // ---- sizes ----

  /** Between two chunks a buffer never holds a whole message, and announced lengths fit 24 bits. */
  ghost predicate Sound(states: States) {
    forall c :: c in states ==> SoundState(states[c])
  }

  ghost predicate SoundState(st: ChunkState) {
    st.mlen < 0x100_0000 && (st.mlen > 0 ==> |st.buf| < st.mlen)
  }

  lemma AbsorbSound(states: States, csid: nat, st: ChunkState, cs: nat, inp: bytes)
    requires Sound(states) && st.mlen < 0x100_0000
    ensures var r := Absorb(states, csid, st, cs, inp);
            Sound(r.states) && (r.out.Deliver? ==> 1 <= |r.out.msg.payload| < 0x100_0000)
  {
  }

  lemma StepSound(states: States, cs: nat, inp: bytes)
    requires Sound(states)
    ensures var r := Step(states, cs, inp);
            Sound(r.states) && (r.out.Deliver? ==> 1 <= |r.out.msg.payload| < 0x100_0000)
  {
    var b := ParseBasic(inp);
    if b.Parsed? {
      var csid, st := b.value.1, Lookup(states, b.value.1);
      assert SoundState(st);
      var p := ParseHeader(b.value.0, inp[b.size..]);
      if p.Parsed? {
        AbsorbSound(states, csid, Apply(st, p.value), cs, inp[b.size..][p.size..]);
      }
    }
  }

  /** The chunk size after a chunk: a reader may adopt what it is told, and ends at a malformed announcement. */
  function SizeAfter(adopting: bool, cs: nat, out: Outcome): Option<nat> {
    if out.Deliver? && adopting then Adopt(cs, out.msg) else Some(cs)
  }

  /** The messages a reader returns, with one chunk size for good or with adopted ones. */
  function Returned(adopting: bool, states: States, cs: nat, inp: bytes): seq<Message> {
    if adopting then ReadAdopting(states, cs, inp) else ReadAll(states, cs, inp)
  }

  /** The same, seen chunk by chunk. */
  lemma ReturnedByChunk(adopting: bool, states: States, cs: nat, inp: bytes)
    ensures var r := Step(states, cs, inp);
            Returned(adopting, states, cs, inp) ==
            match r.out
            case Eof => []
            case More => Returned(adopting, r.states, cs, r.rest)
            case Deliver(m) =>
              match SizeAfter(adopting, cs, r.out)
              case None => [m]
              case Some(cs') => [m] + Returned(adopting, r.states, cs', r.rest)
  {
  }

  /** No input makes a reader return an empty message, or one longer than 24 bits can announce. */
  lemma {:induction false} DeliveredSizes(adopting: bool, states: States, cs: nat, inp: bytes)
    requires Sound(states)
    ensures forall m | m in Returned(adopting, states, cs, inp) :: 1 <= |m.payload| < 0x100_0000
    decreases |inp|
  {
    var r := Step(states, cs, inp);
    StepSound(states, cs, inp);
    ReturnedByChunk(adopting, states, cs, inp);
    var cs' := SizeAfter(adopting, cs, r.out);
    if r.out != Eof && cs'.Some? {
      DeliveredSizes(adopting, r.states, cs'.value, r.rest);
    }
  }

  // ---- timestamps ----

  /** One chunk of an input: its stream, its header, whether it opened a message, what it completed. */
  datatype Entry = Entry(csid: nat, header: Header, opens: bool, done: Option<Message>)

  /** The whole chunks found in `inp`, in order. */
  ghost function Log(adopting: bool, states: States, cs: nat, inp: bytes): seq<Entry>
    decreases |inp|
  {
    var r := Step(states, cs, inp);
    if r.out == Eof then []
    else
      var cs' := SizeAfter(adopting, cs, r.out);
      [EntryOf(states, inp, r.out)] + if cs'.None? then [] else Log(adopting, r.states, cs'.value, r.rest)
  }

  ghost function EntryOf(states: States, inp: bytes, out: Outcome): Entry
    requires ParseBasic(inp).Parsed? && ParseHeader(ParseBasic(inp).value.0, inp[ParseBasic(inp).size..]).Parsed?
  {
    var b := ParseBasic(inp);
    var h := ParseHeader(b.value.0, inp[b.size..]).value;
    Entry(b.value.1, h, h.Full? || Lookup(states, b.value.1).buf == [],
          if out.Deliver? then Some(out.msg) else None)
  }

  ghost function Delivered(log: seq<Entry>): seq<Message> {
    if log == [] then []
    else (if log[0].done.Some? then [log[0].done.value] else []) + Delivered(log[1..])
  }

  /** The headers that opened a message on chunk stream `c`. */
  ghost function Openers(log: seq<Entry>, c: nat): seq<Header> {
    if log == [] then []
    else
      var last := log[|log| - 1];
      Openers(log[..|log| - 1], c) + if last.csid == c && last.opens then [last.header] else []
  }

  /** The time step that the last of `hs` stands for: its own, or for fmt 3 the one before it. */
  ghost function TimeStep(hs: seq<Header>): nat {
    if hs == [] then 0
    else match hs[|hs| - 1]
      case Full(t, _, _, _) => t
      case Changed(d, _, _) => d
      case Delta(d) => d
      case Bare => TimeStep(hs[..|hs| - 1])
  }

  /** The time of the last message opened: the last absolute time plus every step since, unbounded. */
  ghost function Time(hs: seq<Header>): nat {
    if hs == [] then 0
    else if hs[|hs| - 1].Full? then hs[|hs| - 1].ts
    else Time(hs[..|hs| - 1]) + TimeStep(hs)
  }

  /** Chunks that continue a message on chunk stream `c` carry no header of their own. */
  ghost predicate Disciplined(log: seq<Entry>, c: nat) {
    forall k | 0 <= k < |log| && log[k].csid == c :: log[k].opens || log[k].header.Bare?
  }

  /** The state of the stream holds the time and step of its history. */
  ghost predicate Timed(states: States, past: seq<Entry>, c: nat) {
    && Lookup(states, c).ts == Time(Openers(past, c)) % 0x1_0000_0000
    && Lookup(states, c).delta == TimeStep(Openers(past, c))
  }

  lemma OpenersSnoc(past: seq<Entry>, e: Entry, c: nat)
    ensures Openers(past + [e], c) == Openers(past, c) + if e.csid == c && e.opens then [e.header] else []
  {
    assert (past + [e])[..|past|] == past;
  }

  lemma TimeSnoc(hs: seq<Header>, h: Header)
    ensures TimeStep(hs + [h]) ==
            match h { case Full(t, _, _, _) => t case Changed(d, _, _) => d case Delta(d) => d case Bare => TimeStep(hs) }
    ensures Time(hs + [h]) == if h.Full? then h.ts else Time(hs) + TimeStep(hs + [h])
  {
    assert (hs + [h])[..|hs|] == hs;
  }

  lemma AddsModulo(n: nat, k: nat)
    ensures (n % 0x1_0000_0000 + k) % 0x1_0000_0000 == (n + k) % 0x1_0000_0000
  {
  }

  /** Applying an opening header to a stream's state advances it as its history does. */
  lemma ApplyTimed(st: ChunkState, h: Header, hs: seq<Header>)
    requires st.ts == Time(hs) % 0x1_0000_0000 && st.delta == TimeStep(hs)
    requires h.Full? || st.buf == []
    ensures Apply(st, h).ts == Time(hs + [h]) % 0x1_0000_0000 && Apply(st, h).delta == TimeStep(hs + [h])
  {
    TimeSnoc(hs, h);
    if !h.Full? {
      AddsModulo(Time(hs), TimeStep(hs + [h]));
    }
  }

  lemma AbsorbKeepsTime(states: States, csid: nat, st: ChunkState, cs: nat, inp: bytes)
    ensures var r := Absorb(states, csid, st, cs, inp);
            && Lookup(r.states, csid).ts == st.ts && Lookup(r.states, csid).delta == st.delta
            && (forall c | c != csid :: Lookup(r.states, c) == Lookup(states, c))
            && (r.out.Deliver? ==> r.out.msg.csid == csid && r.out.msg.timestamp == st.ts)
  {
  }

  /** What a message completed by the last entry of `now` must bear. */
  ghost predicate BearsTime(m: Message, now: seq<Entry>) {
    m.timestamp == Time(Openers(now, m.csid)) % 0x1_0000_0000
  }

  lemma StepTimed(states: States, cs: nat, inp: bytes, past: seq<Entry>, c: nat)
    requires Timed(states, past, c) && Step(states, cs, inp).out != Eof
    requires var e := EntryOf(states, inp, Step(states, cs, inp).out); e.csid == c ==> e.opens || e.header.Bare?
    ensures var r := Step(states, cs, inp);
            var now := past + [EntryOf(states, inp, r.out)];
            && Timed(r.states, now, c)
            && (r.out.Deliver? && r.out.msg.csid == c ==> BearsTime(r.out.msg, now))
  {
    var r := Step(states, cs, inp);
    var e := EntryOf(states, inp, r.out);
    var b := ParseBasic(inp);
    var p := ParseHeader(b.value.0, inp[b.size..]);
    var st := Lookup(states, e.csid);
    AbsorbKeepsTime(states, e.csid, Apply(st, e.header), cs, inp[b.size..][p.size..]);
    OpenersSnoc(past, e, c);
    if e.csid == c && e.opens {
      ApplyTimed(st, e.header, Openers(past, c));
    } else {
      assert Openers(past + [e], c) == Openers(past, c);
    }
  }

  /** Every message completed on stream `c` in the log bears its time. */
  ghost predicate TimesAgree(past: seq<Entry>, log: seq<Entry>, c: nat) {
    forall k | 0 <= k < |log| && log[k].done.Some? && log[k].done.value.csid == c ::
      BearsTime(log[k].done.value, past + log[..k + 1])
  }

  lemma TimesAgreeCons(past: seq<Entry>, e: Entry, rest: seq<Entry>, c: nat)
    requires e.done.Some? && e.done.value.csid == c ==> BearsTime(e.done.value, past + [e])
    requires TimesAgree(past + [e], rest, c)
    ensures TimesAgree(past, [e] + rest, c)
  {
    var log := [e] + rest;
    forall k | 0 <= k < |log| && log[k].done.Some? && log[k].done.value.csid == c
      ensures BearsTime(log[k].done.value, past + log[..k + 1])
    {
      if k == 0 {
        assert past + log[..1] == past + [e];
      } else {
        assert rest[k - 1] == log[k] && past + log[..k + 1] == (past + [e]) + rest[..k - 1 + 1];
      }
    }
  }

  lemma DisciplinedTail(e: Entry, rest: seq<Entry>, c: nat)
    requires Disciplined([e] + rest, c)
    ensures (e.csid == c ==> e.opens || e.header.Bare?) && Disciplined(rest, c)
  {
    var log := [e] + rest;
    assert log[0] == e;
    forall k | 0 <= k < |rest| && rest[k].csid == c ensures rest[k].opens || rest[k].header.Bare? {
      assert rest[k] == log[k + 1];
    }
  }

  lemma {:induction false} LogTimed(adopting: bool, states: States, cs: nat, inp: bytes, past: seq<Entry>, c: nat)
    requires Timed(states, past, c) && Disciplined(Log(adopting, states, cs, inp), c)
    ensures TimesAgree(past, Log(adopting, states, cs, inp), c)
    decreases |inp|
  {
    var r := Step(states, cs, inp);
    if r.out != Eof {
      var e, cs' := EntryOf(states, inp, r.out), SizeAfter(adopting, cs, r.out);
      var rest := if cs'.None? then [] else Log(adopting, r.states, cs'.value, r.rest);
      DisciplinedTail(e, rest, c);
      StepTimed(states, cs, inp, past, c);
      if cs'.Some? {
        LogTimed(adopting, r.states, cs'.value, r.rest, past + [e], c);
      }
      TimesAgreeCons(past, e, rest, c);
    }
  }

  lemma DeliveredCons(e: Entry, rest: seq<Entry>)
    ensures Delivered([e] + rest) == (if e.done.Some? then [e.done.value] else []) + Delivered(rest)
  {
    assert ([e] + rest)[1..] == rest;
  }

  lemma {:induction false} LogDelivers(adopting: bool, states: States, cs: nat, inp: bytes)
    ensures Delivered(Log(adopting, states, cs, inp)) == Returned(adopting, states, cs, inp)
    decreases |inp|
  {
    var r := Step(states, cs, inp);
    ReturnedByChunk(adopting, states, cs, inp);
    if r.out != Eof {
      var e, cs' := EntryOf(states, inp, r.out), SizeAfter(adopting, cs, r.out);
      if cs'.Some? {
        LogDelivers(adopting, r.states, cs'.value, r.rest);
        DeliveredCons(e, Log(adopting, r.states, cs'.value, r.rest));
      } else {
        DeliveredCons(e, []);
      }
    }
  }

  lemma StartsTimed(c: nat)
    ensures Timed(map[], [], c)
  {
  }

  /**
   * On any input, with a fixed chunk size or with adopted ones, and for every chunk stream whose
   * continuations are all fmt 3, whatever the others do: each message a new reader returns on it
   * bears the time of section 5.3.1.2, the last absolute time on its stream plus all steps since, a
   * fmt-3 chunk that opens a message repeating the last step, modulo 2^32.
   */
  lemma TimestampsMatchSpecification(adopting: bool, cs: nat, inp: bytes, c: nat)
    requires Disciplined(Log(adopting, map[], cs, inp), c)
    ensures Delivered(Log(adopting, map[], cs, inp)) == Returned(adopting, map[], cs, inp)
    ensures TimesAgree([], Log(adopting, map[], cs, inp), c)
  {
    LogDelivers(adopting, map[], cs, inp);
    StartsTimed(c);
    LogTimed(adopting, map[], cs, inp, [], c);
  }
}
