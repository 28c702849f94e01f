/**
 * The recording relay: a node streams a file in chunks (node/node/relay.go, node/node/wsclient.go)
 * over one connection that all transfers share, and the control plane collects it by request id
 * (app/server/services/recordings.ts).
 */
module Relay {
  import opened Bytes

  const CAP := 2 * 1024 * 1024 * 1024
  const BUFFER := 256 * 1024

  // ---- the sender ----

  datatype End = More | Eof | Broken

  /** One read: how many bytes it gave, and what it reported. */
  datatype Read = Read(n: nat, end: End)

  predicate Legal(file: bytes, pos: nat, r: Read) {
    && r.n <= BUFFER && pos + r.n <= |file|
    && (r.end == Eof ==> pos + r.n == |file|)
  }

  /** Whether the loop goes on; if not, whether it returns an error. */
  datatype Verdict = Go | Stop(failed: bool)

  /** After a read that brought the total to `total`. A failed send ends the transfer as a success. */
  function After(total: nat, r: Read, sendOk: bool, canceled: bool): Verdict {
    if r.n > 0 && !sendOk then Stop(false)
    else if r.end != More then Stop(r.end == Broken && !canceled)
    else if total >= CAP then Stop(false)
    else Go
  }

  /** A read together with what happens around it. */
  datatype Turn = Turn(read: Read, sendOk: bool, canceled: bool)

  datatype Progress = Progress(pos: nat, sent: seq<bytes>, verdict: Verdict)

  function OneTurn(file: bytes, p: Progress, t: Turn): Progress
    requires Legal(file, p.pos, t.read)
  {
    var total := p.pos + t.read.n;
    Progress(total,
             if t.read.n > 0 && t.sendOk then p.sent + [file[p.pos..total]] else p.sent,
             After(total, t.read, t.sendOk, t.canceled))
  }

  /** The turns are possible reads of the file, one after the other. */
  predicate Possible(file: bytes, p: Progress, turns: seq<Turn>)
    decreases |turns|
  {
    turns == [] || p.verdict != Go
    || (Legal(file, p.pos, turns[0].read) && Possible(file, OneTurn(file, p, turns[0]), turns[1..]))
  }

  function Relayed(file: bytes, p: Progress, turns: seq<Turn>): Progress
    requires Possible(file, p, turns)
    decreases |turns|
  {
    if turns == [] || p.verdict != Go then p else Relayed(file, OneTurn(file, p, turns[0]), turns[1..])
  }

  const START := Progress(0, [], Go)

  /** How far a transfer is that goes on for as long as it may. */
  function Underway(total: nat, sent: seq<bytes>): Progress {
    Progress(total, sent, if total < CAP then Go else Stop(false))
  }

  lemma NextTurn(file: bytes, p: Progress, turns: seq<Turn>, k: nat)
    requires p.verdict == Go && k < |turns| && Possible(file, p, turns[k..])
    ensures Legal(file, p.pos, turns[k].read) && Possible(file, OneTurn(file, p, turns[k]), turns[k + 1..])
    ensures Relayed(file, p, turns[k..]) == Relayed(file, OneTurn(file, p, turns[k]), turns[k + 1..])
  {
    assert turns[k..][0] == turns[k] && turns[k..][1..] == turns[k + 1..];
  }

  lemma NothingAfterStop(file: bytes, p: Progress, turns: seq<Turn>)
    requires p.verdict != Go && Possible(file, p, turns)
    ensures Relayed(file, p, turns) == p
  {
  }

  method RelayFile(file: bytes, turns: seq<Turn>) returns (p: Progress)
    requires Possible(file, START, turns)
    ensures p == Relayed(file, START, turns)
  {
    var total, k := 0, 0;
    var sent: seq<bytes> := [];
    ghost var end := Relayed(file, START, turns);
    while total < CAP && k < |turns|
      invariant k <= |turns| && Possible(file, Underway(total, sent), turns[k..])
      invariant Relayed(file, Underway(total, sent), turns[k..]) == end
    {
      NextTurn(file, Underway(total, sent), turns, k);
      var t := turns[k];
      ghost var next := OneTurn(file, Underway(total, sent), t);
      var chunk := file[total..total + t.read.n];
      k := k + 1;
      if t.read.n > 0 {
        total := total + t.read.n;
        if !t.sendOk {
          NothingAfterStop(file, next, turns[k..]);
          return Progress(total, sent, Stop(false));
        }
        sent := sent + [chunk];
      }
      if t.read.end != More {
        NothingAfterStop(file, next, turns[k..]);
        if t.canceled {
          return Progress(total, sent, Stop(false));
        }
        return Progress(total, sent, Stop(t.read.end == Broken));
      }
      assert next == Underway(total, sent);
    }
    p := Underway(total, sent);
  }

  function Concat(chunks: seq<bytes>): bytes {
    if chunks == [] then [] else Concat(chunks[..|chunks| - 1]) + chunks[|chunks| - 1]
  }

  predicate NoLoss(turns: seq<Turn>) {
    forall t | t in turns :: t.sendOk && !t.canceled
  }

  ghost predicate Bounded(sent: seq<bytes>) {
    forall c | c in sent :: 1 <= |c| <= BUFFER
  }

  /** What holds after every turn: the chunks are a prefix of the file, at most one buffer over the cap. */
  ghost predicate Sane(file: bytes, p: Progress) {
    && p.pos <= |file| && p.pos <= CAP + BUFFER - 1
    && (p.verdict == Go ==> p.pos < CAP)
    && |Concat(p.sent)| <= p.pos && Concat(p.sent) == file[..|Concat(p.sent)|]
    && Bounded(p.sent)
    && (p.verdict == Go ==> |Concat(p.sent)| == p.pos)
  }

  lemma ConcatOneMore(sent: seq<bytes>, chunk: bytes)
    ensures Concat(sent + [chunk]) == Concat(sent) + chunk
  {
    assert (sent + [chunk])[..|sent|] == sent;
  }

  lemma NextSlice(file: bytes, i: nat, n: nat)
    requires i + n <= |file|
    ensures file[..i] + file[i..i + n] == file[..i + n]
  {
  }

  lemma SentOneMore(file: bytes, sent: seq<bytes>, i: nat, n: nat)
    requires i + n <= |file| && 1 <= n <= BUFFER && Bounded(sent) && Concat(sent) == file[..i]
    ensures var more := sent + [file[i..i + n]]; Bounded(more) && Concat(more) == file[..i + n]
  {
    ConcatOneMore(sent, file[i..i + n]);
    NextSlice(file, i, n);
  }

  lemma TurnIsSane(file: bytes, p: Progress, t: Turn)
    requires Sane(file, p) && p.verdict == Go && Legal(file, p.pos, t.read)
    ensures Sane(file, OneTurn(file, p, t))
    ensures t.sendOk ==> |Concat(OneTurn(file, p, t).sent)| == p.pos + t.read.n
  {
    if t.read.n > 0 && t.sendOk {
      SentOneMore(file, p.sent, p.pos, t.read.n);
    }
  }

  /**
   * Whatever the reads and the sends do, the chunks sent are a prefix of the file in order, each
   * within one buffer, 2^31 + 2^18 - 1 bytes at most.
   */
  lemma {:induction false} SentIsBoundedPrefix(file: bytes, p: Progress, turns: seq<Turn>)
    requires Sane(file, p) && Possible(file, p, turns)
    ensures Sane(file, Relayed(file, p, turns))
    decreases |turns|
  {
    if turns != [] && p.verdict == Go {
      TurnIsSane(file, p, turns[0]);
      SentIsBoundedPrefix(file, OneTurn(file, p, turns[0]), turns[1..]);
    }
  }

  /**
   * From the start, whatever the reads and the sends do: the chunks sent are a prefix of the file in
   * order, of one byte to 2^18 each and at most 2^31 + 2^18 - 1 in all.
   */
  lemma SentFromStart(file: bytes, turns: seq<Turn>)
    requires Possible(file, START, turns)
    ensures var sent := Relayed(file, START, turns).sent;
            && Concat(sent) <= file && |Concat(sent)| < 0x8000_0000 + 0x4_0000
            && forall c | c in sent :: 1 <= |c| <= 0x4_0000
  {
    assert Concat([]) == file[..0];
    SentIsBoundedPrefix(file, START, turns);
  }

  // ---- when it fails ----

  predicate GotOut(t: Turn) {
    t.read.n > 0 ==> t.sendOk
  }

  function TotalRead(turns: seq<Turn>): nat {
    if turns == [] then 0 else turns[0].read.n + TotalRead(turns[1..])
  }

  /** From `total` bytes on: everything went out up to turn i, below the cap, and there the read breaks. */
  ghost predicate BreaksAt(total: nat, turns: seq<Turn>, i: nat) {
    && i < |turns| && total + TotalRead(turns[..i]) < CAP
    && (forall j | 0 <= j < i :: turns[j].read.end == More && GotOut(turns[j]))
    && turns[i].read.end == Broken && GotOut(turns[i]) && !turns[i].canceled
  }

  lemma FirstRead(turns: seq<Turn>, i: nat)
    requires 0 < i <= |turns|
    ensures TotalRead(turns[..i]) == turns[0].read.n + TotalRead(turns[1..][..i - 1])
  {
    assert turns[..i][1..] == turns[1..][..i - 1];
  }

  lemma BreaksLater(total: nat, turns: seq<Turn>, i: nat)
    requires turns != [] && turns[0].read.end == More && GotOut(turns[0])
    ensures BreaksAt(total, turns, i + 1) <==> BreaksAt(total + turns[0].read.n, turns[1..], i)
  {
    if i < |turns| - 1 {
      FirstRead(turns, i + 1);
      assert forall j | 0 <= j < i :: turns[1..][j] == turns[j + 1];
      if BreaksAt(total + turns[0].read.n, turns[1..], i) {
        forall j | 0 <= j < i + 1 ensures turns[j].read.end == More && GotOut(turns[j]) {
          if j > 0 { assert turns[j] == turns[1..][j - 1]; }
        }
      }
    }
  }

  lemma BreaksInFirst(total: nat, turns: seq<Turn>, i: nat)
    requires turns != [] && BreaksAt(total, turns, i)
    requires turns[0].read.end != More || !GotOut(turns[0]) || total + turns[0].read.n >= CAP
    ensures i == 0
  {
    if i > 0 {
      FirstRead(turns, i);
    }
  }

  /**
   * A transfer returns an error if and only if a read breaks below the cap, with everything sent so
   * far, and it was not cancelled. A failed send, a cancellation and the cap all pass for success.
   */
  lemma {:induction false} FailsExactly(file: bytes, p: Progress, turns: seq<Turn>)
    requires p.verdict == Go && p.pos < CAP && Possible(file, p, turns)
    ensures Relayed(file, p, turns).verdict == Stop(true) <==> exists i: nat :: BreaksAt(p.pos, turns, i)
    decreases |turns|
  {
    if turns != [] {
      var q := OneTurn(file, p, turns[0]);
      if q.verdict == Go {
        FailsExactly(file, q, turns[1..]);
        if i: nat :| BreaksAt(q.pos, turns[1..], i) { BreaksLater(p.pos, turns, i); }
        if i: nat :| BreaksAt(p.pos, turns, i) { BreaksLater(p.pos, turns, i - 1); }
      } else if q.verdict == Stop(true) {
        assert BreaksAt(p.pos, turns, 0);
      } else if i: nat :| BreaksAt(p.pos, turns, i) {
        BreaksInFirst(p.pos, turns, i);
      }
    }
  }

  /** When nothing is lost or cancelled, a transfer that ends in success sent everything up to the end or the cap. */
  lemma {:induction false} SuccessReachesEndOrCap(file: bytes, p: Progress, turns: seq<Turn>)
    requires Sane(file, p) && p.verdict == Go && Possible(file, p, turns) && NoLoss(turns)
    ensures var q := Relayed(file, p, turns);
            q.verdict == Stop(false) ==> |Concat(q.sent)| == q.pos && (q.pos == |file| || q.pos >= CAP)
    decreases |turns|
  {
    if turns != [] {
      var t := turns[0];
      assert t in turns;
      TurnIsSane(file, p, t);
      var q := OneTurn(file, p, t);
      if q.verdict == Go {
        assert NoLoss(turns[1..]) by {
          forall u | u in turns[1..] ensures u.sendOk && !u.canceled { assert u in turns; }
        }
        SuccessReachesEndOrCap(file, q, turns[1..]);
      } else {
        assert Relayed(file, q, turns[1..]) == q;
      }
    }
  }

  ghost predicate SentWhole(file: bytes, turns: seq<Turn>)
    requires Possible(file, START, turns)
  {
    Relayed(file, START, turns).verdict == Stop(false) ==> Concat(Relayed(file, START, turns).sent) == file
  }

  function FullTurns(n: nat): (turns: seq<Turn>)
    ensures |turns| == n && forall i | 0 <= i < n :: turns[i] == Turn(Read(BUFFER, More), true, false)
  {
    seq(n, _ => Turn(Read(BUFFER, More), true, false))
  }

  lemma {:induction false} FullTurnsStopAtCap(file: bytes, p: Progress, n: nat)
    requires |file| > CAP && p.pos + n * BUFFER == CAP && p.verdict == (if n == 0 then Stop(false) else Go)
    ensures Possible(file, p, FullTurns(n))
    ensures Relayed(file, p, FullTurns(n)).verdict == Stop(false) && Relayed(file, p, FullTurns(n)).pos == CAP
    decreases n
  {
    if n > 0 {
      assert FullTurns(n)[1..] == FullTurns(n - 1);
      FullTurnsStopAtCap(file, OneTurn(file, p, FullTurns(n)[0]), n - 1);
    }
  }

  /** Every loss-free transfer that ends in success is whole, exactly for files up to the cap. */
  lemma WholeExactlyUpToCap(file: bytes)
    ensures (forall turns | Possible(file, START, turns) && NoLoss(turns) :: SentWhole(file, turns))
            <==> |file| <= 0x8000_0000
  {
    assert Sane(file, START) && file[..|file|] == file;
    if |file| <= CAP {
      forall turns | Possible(file, START, turns) && NoLoss(turns)
        ensures SentWhole(file, turns)
      {
        SentIsBoundedPrefix(file, START, turns);
        SuccessReachesEndOrCap(file, START, turns);
      }
    } else {
      var turns := FullTurns(8192);
      FullTurnsStopAtCap(file, START, 8192);
      SentIsBoundedPrefix(file, START, turns);
      assert NoLoss(turns) && !SentWhole(file, turns);
    }
  }
}
