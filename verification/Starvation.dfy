/**
 * A chunk reader on arbitrary bytes that can no longer come by a run of some byte: once too little
 * of it is left, no message it returns holds such a run.
 */
module Starvation {
  import opened Bytes
  import opened Chunks
  import opened Multiplexing
  import opened Negotiation
  import opened Amf0
  import opened AmfQuotes
  import opened Upstream

  // ---- runs of one byte ----

  function Run(c: byte, d: nat): bytes { seq(d, _ => c) }

  function Count(u: bytes, c: byte): nat {
    if u == [] then 0 else Count(u[..|u| - 1], c) + if u[|u| - 1] == c then 1 else 0
  }

  ghost predicate HasRun(u: bytes, c: byte, d: nat) {
    PartOf(Run(c, d), u)
  }

  lemma {:induction false} CountSum(a: bytes, b: bytes, c: byte)
    ensures Count(a + b, c) == Count(a, c) + Count(b, c)
  {
    if b == [] {
      assert a + [] == a;
    } else {
      assert (a + b)[..|a + b| - 1] == a + b[..|b| - 1];
      CountSum(a, b[..|b| - 1], c);
    }
  }

  lemma {:induction false} CountAbsent(u: bytes, c: byte)
    requires c !in u
    ensures Count(u, c) == 0
  {
    if u != [] {
      CountAbsent(u[..|u| - 1], c);
    }
  }

  lemma {:induction false} CountRun(c: byte, d: nat)
    ensures Count(Run(c, d), c) == d
  {
    if d > 0 {
      CountRun(c, d - 1);
      assert Run(c, d) == Run(c, d - 1) + [c];
    }
  }

  lemma RunCounts(u: bytes, c: byte, d: nat)
    requires HasRun(u, c, d)
    ensures Count(u, c) >= d
  {
    var i :| StandsAt(Run(c, d), u, i);
    assert u == u[..i] + Run(c, d) + u[i + d..];
    CountRun(c, d);
    CountSum(u[..i] + Run(c, d), u[i + d..], c);
    CountSum(u[..i], Run(c, d), c);
  }

  lemma RunBytes(u: bytes, i: nat, c: byte, d: nat)
    requires StandsAt(Run(c, d), u, i)
    ensures forall j :: i <= j < i + d ==> u[j] == c
  {
    forall j | i <= j < i + d ensures u[j] == c {
      assert u[j] == u[i..i + d][j - i] == Run(c, d)[j - i];
    }
  }

  lemma SliceOfPrefix(u: bytes, n: nat, i: nat, d: nat)
    requires i + d <= n <= |u|
    ensures u[..n][i..i + d] == u[i..i + d]
  {
  }

  lemma SliceOfSuffix(u: bytes, n: nat, i: nat, d: nat)
    requires n <= i && i + d <= |u|
    ensures u[n..][i - n..i - n + d] == u[i..i + d]
  {
  }

  /** A run does not cross another byte. */
  lemma SplitRun(a: bytes, k: byte, b: bytes, c: byte, d: nat)
    requires k != c && HasRun(a + [k] + b, c, d)
    ensures HasRun(a, c, d) || HasRun(b, c, d)
  {
    var u := a + [k] + b;
    var i :| StandsAt(Run(c, d), u, i);
    RunBytes(u, i, c, d);
    assert u[|a|] == k;
    if i + d <= |a| {
      assert u[..|a|] == a;
      SliceOfPrefix(u, |a|, i, d);
      assert StandsAt(Run(c, d), a, i);
    } else {
      assert u[|a| + 1..] == b;
      SliceOfSuffix(u, |a| + 1, i, d);
      assert StandsAt(Run(c, d), b, i - |a| - 1);
    }
  }

  // ---- a reader that can no longer come by a run ----

  /** However `u` is continued with at most r more of the byte, no run of d comes about. */
  ghost predicate Short(u: bytes, r: nat, c: byte, d: nat) {
    forall v :: Misses(u, v, r, c, d)
  }

  ghost predicate Misses(u: bytes, v: bytes, r: nat, c: byte, d: nat) {
    Count(v, c) <= r ==> !HasRun(u + v, c, d)
  }

  lemma FewAreShort(u: bytes, r: nat, c: byte, d: nat)
    requires Count(u, c) + r < d
    ensures Short(u, r, c, d)
  {
    forall v ensures Misses(u, v, r, c, d) {
      CountSum(u, v, c);
      if HasRun(u + v, c, d) { RunCounts(u + v, c, d); }
    }
  }

  lemma InterruptedIsShort(a: bytes, k: byte, b: bytes, r: nat, c: byte, d: nat)
    requires k != c && Count(a, c) < d && Count(b, c) + r < d
    ensures Short(a + [k] + b, r, c, d)
  {
    forall v ensures Misses(a + [k] + b, v, r, c, d) {
      Associative(a + [k], b, v);
      CountSum(b, v, c);
      if HasRun(a + [k] + (b + v), c, d) {
        SplitRun(a, k, b + v, c, d);
        if HasRun(a, c, d) { RunCounts(a, c, d); } else { RunCounts(b + v, c, d); }
      }
    }
  }

  lemma ShortMore(u: bytes, x: bytes, r: nat, c: byte, d: nat)
    requires Short(u, Count(x, c) + r, c, d)
    ensures Short(u + x, r, c, d)
  {
    forall v ensures Misses(u + x, v, r, c, d) {
      Associative(u, x, v);
      CountSum(x, v, c);
      assert Misses(u, x + v, Count(x, c) + r, c, d);
    }
  }

  lemma ShortLess(u: bytes, r: nat, r': nat, c: byte, d: nat)
    requires Short(u, r, c, d) && r' <= r
    ensures Short(u, r', c, d)
  {
    forall v ensures Misses(u, v, r', c, d) { assert Misses(u, v, r, c, d); }
  }

  lemma RunOfPrefix(u: bytes, n: nat, c: byte, d: nat)
    requires n <= |u| && HasRun(u[..n], c, d)
    ensures HasRun(u, c, d)
  {
    var i :| StandsAt(Run(c, d), u[..n], i);
    assert u[..n][i..i + d] == u[i..i + d];
    assert StandsAt(Run(c, d), u, i);
  }

  lemma ShortNow(u: bytes, n: nat, r: nat, c: byte, d: nat)
    requires Short(u, r, c, d) && n <= |u|
    ensures !HasRun(u[..n], c, d)
  {
    assert u + [] == u && Count([], c) == 0 && Misses(u, [], r, c, d);
    if HasRun(u[..n], c, d) { RunOfPrefix(u, n, c, d); }
  }

  ghost predicate Starved(states: States, r: nat, c: byte, d: nat) {
    r < d && forall s :: StreamStarved(states, s, r, c, d)
  }

  ghost predicate StreamStarved(states: States, s: nat, r: nat, c: byte, d: nat) {
    s in states ==> Short(states[s].buf, r, c, d)
  }

  lemma StarvedLess(states: States, r: nat, r': nat, c: byte, d: nat)
    requires Starved(states, r, c, d) && r' <= r
    ensures Starved(states, r', c, d)
  {
    forall s: nat ensures StreamStarved(states, s, r', c, d) {
      assert StreamStarved(states, s, r, c, d);
      if s in states { ShortLess(states[s].buf, r, r', c, d); }
    }
  }

  lemma CountRest(u: bytes, n: nat, c: byte)
    requires n <= |u|
    ensures Count(u[..n], c) + Count(u[n..], c) == Count(u, c)
  {
    assert u == u[..n] + u[n..];
    CountSum(u[..n], u[n..], c);
  }

  lemma LookupShort(states: States, s: nat, r: nat, c: byte, d: nat)
    requires Starved(states, r, c, d)
    ensures Short(Lookup(states, s).buf, r, c, d) && Short([], r, c, d)
  {
    FewAreShort([], r, c, d);
    assert StreamStarved(states, s, r, c, d);
  }

  /** A chunk after which still no run can come about. */
  ghost predicate Harmless(r: StepResult, c: byte, d: nat) {
    Starved(r.states, Count(r.rest, c), c, d) && (r.out.Deliver? ==> !HasRun(r.out.msg.payload, c, d))
  }

  lemma PutStarved(states: States, csid: nat, st: ChunkState, r: nat, c: byte, d: nat)
    requires Starved(states, r, c, d) && Short(st.buf, r, c, d)
    ensures Starved(states[csid := st], r, c, d)
  {
    var after := states[csid := st];
    forall s: nat ensures StreamStarved(after, s, r, c, d) { assert StreamStarved(states, s, r, c, d); }
  }

  lemma FinishStarved(states: States, csid: nat, st: ChunkState, rest: bytes, c: byte, d: nat)
    requires Starved(states, Count(rest, c), c, d) && Short(st.buf, Count(rest, c), c, d)
    ensures Harmless(Finish(states, csid, st, rest), c, d)
  {
    FewAreShort([], Count(rest, c), c, d);
    PutStarved(states, csid, st, Count(rest, c), c, d);
    PutStarved(states, csid, st.(buf := []), Count(rest, c), c, d);
    if st.mlen > 0 && |st.buf| >= st.mlen {
      ShortNow(st.buf, st.mlen, Count(rest, c), c, d);
    }
  }

  lemma TakeStarved(states: States, csid: nat, st: ChunkState, n: nat, inp: bytes, c: byte, d: nat)
    requires Starved(states, Count(inp, c), c, d) && Short(st.buf, Count(inp, c), c, d) && n <= |inp|
    ensures Harmless(Finish(states, csid, st.(buf := st.buf + inp[..n]), inp[n..]), c, d)
  {
    CountRest(inp, n, c);
    GrownStarved(states, csid, st, inp[..n], inp[n..], Count(inp, c), c, d);
  }

  lemma GrownStarved(states: States, csid: nat, st: ChunkState, x: bytes, rest: bytes, r: nat, c: byte, d: nat)
    requires Starved(states, r, c, d) && Short(st.buf, r, c, d) && r == Count(x, c) + Count(rest, c)
    ensures Harmless(Finish(states, csid, st.(buf := st.buf + x), rest), c, d)
  {
    StarvedLess(states, r, Count(rest, c), c, d);
    ShortMore(st.buf, x, Count(rest, c), c, d);
    FinishStarved(states, csid, st.(buf := st.buf + x), rest, c, d);
  }

  lemma EofStarved(states: States, csid: nat, st: ChunkState, r: nat, c: byte, d: nat)
    requires Starved(states, r, c, d) && Short(st.buf, r, c, d)
    ensures Harmless(StepResult(states[csid := st], [], Eof), c, d)
  {
    ShortLess(st.buf, r, 0, c, d);
    StarvedLess(states, r, 0, c, d);
    PutStarved(states, csid, st, 0, c, d);
    assert Count([], c) == 0;
  }

  lemma AbsorbStarved(states: States, csid: nat, st: ChunkState, cs: nat, inp: bytes, c: byte, d: nat)
    requires Starved(states, Count(inp, c), c, d) && Short(st.buf, Count(inp, c), c, d)
    ensures Harmless(Absorb(states, csid, st, cs, inp), c, d)
  {
    var need := st.mlen - |st.buf|;
    var n := Min(need, cs);
    if need <= 0 {
      FinishStarved(states, csid, st, inp, c, d);
      assert Absorb(states, csid, st, cs, inp) == Finish(states, csid, st, inp);
    } else if |inp| < n {
      EofStarved(states, csid, st, Count(inp, c), c, d);
      assert Absorb(states, csid, st, cs, inp) == StepResult(states[csid := st], [], Eof);
    } else {
      TakeStarved(states, csid, st, n, inp, c, d);
      assert Absorb(states, csid, st, cs, inp) == Finish(states, csid, st.(buf := st.buf + inp[..n]), inp[n..]);
    }
  }

  lemma CountBehind(u: bytes, n: nat, c: byte)
    requires 1 <= n <= |u|
    ensures Count(u[n..], c) <= Count(u[1..], c)
  {
    assert u[1..][n - 1..] == u[n..];
    CountRest(u[1..], n - 1, c);
  }

  lemma DataStarved(states: States, csid: nat, h: Header, cs: nat, r: nat, data: bytes, c: byte, d: nat)
    requires Starved(states, r, c, d) && Count(data, c) <= r
    ensures Harmless(Absorb(states, csid, Apply(Lookup(states, csid), h), cs, data), c, d)
  {
    StarvedLess(states, r, Count(data, c), c, d);
    LookupShort(states, csid, Count(data, c), c, d);
    AbsorbStarved(states, csid, Apply(Lookup(states, csid), h), cs, data, c, d);
  }

  lemma CutStarved(states: States, csid: nat, r: nat, c: byte, d: nat)
    requires Starved(states, r, c, d)
    ensures Harmless(StepResult(states, [], Eof), c, d)
    ensures Harmless(StepResult(states[csid := Lookup(states, csid)], [], Eof), c, d)
  {
    LookupShort(states, csid, r, c, d);
    EofStarved(states, csid, Lookup(states, csid), r, c, d);
    StarvedLess(states, r, 0, c, d);
    assert Count([], c) == 0;
  }

  /** A chunk uses up its first byte; with what is left behind that, no run can come about. */
  lemma StepStarved(states: States, cs: nat, inp: bytes, c: byte, d: nat)
    requires inp != [] && Starved(states, Count(inp[1..], c), c, d)
    ensures Harmless(Step(states, cs, inp), c, d)
  {
    var b, r := ParseBasic(inp), Count(inp[1..], c);
    var csid := if b.Parsed? then b.value.1 else 0;
    CutStarved(states, csid, r, c, d);
    if b.Parsed? {
      var p := ParseHeader(b.value.0, inp[b.size..]);
      if p.Parsed? {
        assert inp[b.size..][p.size..] == inp[b.size + p.size..];
        CountBehind(inp, b.size + p.size, c);
        StepIs(states, cs, inp, b.value.0, csid, b.size, p.value, p.size);
        DataStarved(states, csid, p.value, cs, r, inp[b.size..][p.size..], c, d);
      }
    }
  }

  lemma {:induction false} NoRunIsRead(states: States, cs: nat, inp: bytes, c: byte, d: nat)
    requires inp != [] ==> Starved(states, Count(inp[1..], c), c, d)
    ensures forall m | m in ReadAll(states, cs, inp) :: !HasRun(m.payload, c, d)
    decreases |inp|
  {
    var r := Step(states, cs, inp);
    ReadAllByChunk(states, cs, inp);
    if inp != [] {
      StepStarved(states, cs, inp, c, d);
      if r.out != Eof {
        if r.rest != [] {
          CountBehindAll(r.rest, c);
          StarvedLess(r.states, Count(r.rest, c), Count(r.rest[1..], c), c, d);
        }
        NoRunIsRead(r.states, cs, r.rest, c, d);
      }
    }
  }

  lemma CountBehindAll(u: bytes, c: byte)
    requires u != []
    ensures Count(u[1..], c) <= Count(u, c)
  {
    CountRest(u, 1, c);
  }

  // ---- what a death says was in some message ----

  lemma {:induction false} VerdictQuoted(vals: seq<Value>, b: bytes)
    requires forall v | v in vals :: Quoted(v, b)
    ensures PartOf(Verdict(vals).1, b)
  {
    NothingIsPart(b);
    if vals != [] {
      assert vals[0] in vals;
      VerdictQuoted(vals[1..], b);
    }
  }

  lemma {:induction false} DeathQuoted(ms: seq<Message>, code: bytes, c: byte, d: nat)
    requires DeathIn(ms) == StatusError(code, Run(c, d))
    ensures exists m :: m in ms && HasRun(m.payload, c, d)
  {
    var b := ms[0].payload;
    if IsCommand(ms[0]) && Fatal(DecodeAll(b)) {
      DecodedTextStandsInInput(b);
      VerdictQuoted(DecodeAll(b), b);
      assert ms[0] in ms;
    } else {
      DeathQuoted(ms[1..], code, c, d);
    }
  }
}
