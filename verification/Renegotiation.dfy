/**
 * Chunk sizes announced in the middle of everything (section 5.4.1 of the RTMP 1.0 specification):
 * the chunks of any number of streams interleaved in any way, an announcement among them wherever
 * the writer likes, also between two chunks of another message.
 */
module Renegotiation {
  import opened Bytes
  import opened Chunks
  import opened Multiplexing
  import opened Negotiation
  import R = ReaderSafety

  /** The writer's size behind a piece: a new one once the last chunk of an announcement is out. */
  ghost function SizeBehindPiece(cs: nat, p: Piece): nat {
    if IsLast(p, cs) then SizeBehind(cs, p.msg) else cs
  }

  /** The piece is the next one due on its stream. */
  ghost predicate Due(p: Piece, q: map<nat, seq<Message>>, offs: map<nat, nat>) {
    Queue(q, p.msg.csid) != [] && p == Piece(Queue(q, p.msg.csid)[0], Sent(offs, p.msg.csid))
  }

  /** `w` sends the queued messages of every stream, each piece at the size announced last. */
  ghost predicate Scheduled(w: seq<Piece>, q: map<nat, seq<Message>>, offs: map<nat, nat>, cs: nat)
    decreases |w|
  {
    if w == [] then forall c: nat :: Queue(q, c) == []
    else Due(w[0], q, offs)
         && Scheduled(w[1..], NextQueues(q, w[0], cs), NextOffsets(offs, w[0], cs), SizeBehindPiece(cs, w[0]))
  }

  ghost function Wire(w: seq<Piece>, cs: nat): bytes
    decreases |w|
  {
    if w == [] then [] else PieceBytes(w[0], cs) + Wire(w[1..], SizeBehindPiece(cs, w[0]))
  }

  /** The messages in the order in which their last chunks are sent. */
  ghost function Completed(w: seq<Piece>, cs: nat): seq<Message>
    decreases |w|
  {
    if w == [] then []
    else (if IsLast(w[0], cs) then [w[0].msg] else []) + Completed(w[1..], SizeBehindPiece(cs, w[0]))
  }

  ghost predicate SendableQueues(q: map<nat, seq<Message>>) {
    forall c, k :: c in q && 0 <= k < |q[c]| ==> Sendable(q[c][k]) && q[c][k].csid == c
  }

  lemma NextSendable(q: map<nat, seq<Message>>, p: Piece, cs: nat)
    requires SendableQueues(q)
    ensures SendableQueues(NextQueues(q, p, cs))
  {
  }

  lemma DueIsSendable(p: Piece, q: map<nat, seq<Message>>, offs: map<nat, nat>)
    requires SendableQueues(q) && Due(p, q, offs)
    ensures Sendable(p.msg)
  {
  }

  /** Reading while adopting, one chunk on. */
  lemma AdoptingStep(states: States, p: Piece, cs: nat, tail: bytes)
    requires cs >= 1 && Sendable(p.msg) && (p.off == 0 || Holding(Lookup(states, p.msg.csid), p.msg, p.off))
    ensures var r := Step(states, cs, PieceBytes(p, cs) + tail);
            && ReadsPiece(states, p.msg, p.off, cs, tail, r)
            && ReadAdopting(states, cs, PieceBytes(p, cs) + tail) ==
               if !IsLast(p, cs) then ReadAdopting(r.states, cs, tail)
               else if Malformed(p.msg) then [p.msg]
               else [p.msg] + ReadAdopting(r.states, SizeBehind(cs, p.msg), tail)
  {
    StepOverPiece(states, p, cs, tail);
    R.ReturnedByChunk(true, states, cs, PieceBytes(p, cs) + tail);
  }

  lemma ReadableCons(m: Message, ms: seq<Message>)
    ensures Readable([m] + ms) == if Malformed(m) then [m] else [m] + Readable(ms)
  {
    assert ([m] + ms)[1..] == ms;
  }

  lemma {:induction false} ReadsSchedule(w: seq<Piece>, q: map<nat, seq<Message>>, offs: map<nat, nat>,
                                         states: States, cs: nat)
    requires cs >= 1 && SendableQueues(q) && Scheduled(w, q, offs, cs) && Positioned(states, q, offs)
    ensures ReadAdopting(states, cs, Wire(w, cs)) == Readable(Completed(w, cs))
    decreases |w|
  {
    if w != [] {
      var p, size := w[0], SizeBehindPiece(cs, w[0]);
      var tail := Wire(w[1..], size);
      var r := Step(states, cs, PieceBytes(p, cs) + tail);
      DueIsSendable(p, q, offs);
      NextSendable(q, p, cs);
      AdoptingStep(states, p, cs, tail);
      NextPosition(states, q, offs, p, cs, r, tail);
      ReadsSchedule(w[1..], NextQueues(q, p, cs), NextOffsets(offs, p, cs), r.states, size);
      if IsLast(p, cs) {
        ReadableCons(p.msg, Completed(w[1..], size));
      } else {
        assert [] + Completed(w[1..], size) == Completed(w[1..], size);
      }
    } else {
      assert Read(states, cs, []).msg == None;
    }
  }

  lemma {:induction false} CompletesQueues(w: seq<Piece>, q: map<nat, seq<Message>>, offs: map<nat, nat>, cs: nat)
    requires cs >= 1 && SendableQueues(q) && Scheduled(w, q, offs, cs)
    ensures forall c: nat :: MessagesOn(Completed(w, cs), c) == Queue(q, c)
    decreases |w|
  {
    if w != [] {
      var p, size := w[0], SizeBehindPiece(cs, w[0]);
      DueIsSendable(p, q, offs);
      NextSendable(q, p, cs);
      CompletesQueues(w[1..], NextQueues(q, p, cs), NextOffsets(offs, p, cs), size);
      MessagesOnAll(Completed(w[1..], size), q, NextQueues(q, p, cs), p, cs);
      assert [] + Completed(w[1..], size) == Completed(w[1..], size);
    }
  }

  /**
   * Whatever the reader's states were before, and wherever announcements stand: a reader that adopts
   * them returns the messages in the order of their last chunks, up to a malformed announcement if
   * any; and these are, on every chunk stream, exactly the messages written there, in order.
   */
  lemma InterleavedAnnouncementsReadBack(w: seq<Piece>, q: map<nat, seq<Message>>, states: States, cs: nat)
    requires cs >= 1 && SendableQueues(q) && Scheduled(w, q, map[], cs)
    ensures ReadAdopting(states, cs, Wire(w, cs)) == Readable(Completed(w, cs))
    ensures forall c: nat :: MessagesOn(Completed(w, cs), c) == Queue(q, c)
  {
    ReadsSchedule(w, q, map[], states, cs);
    CompletesQueues(w, q, map[], cs);
  }

  /** Every interleaving at one size is such a schedule, if it announces nothing. */
  lemma {:induction false} InterleavingIsScheduled(w: seq<Piece>, q: map<nat, seq<Message>>, offs: map<nat, nat>, cs: nat)
    requires cs >= 1 && WritableQueues(q) && Interleaving(w, q, offs, cs)
    requires forall k | 0 <= k < |w| :: w[k].msg.mtype != SET_CHUNK_SIZE
    ensures Scheduled(w, q, offs, cs) && Wire(w, cs) == Flatten(w, cs)
    decreases |w|
  {
    if w == [] {
      forall c: nat ensures Queue(q, c) == [] {
        assert OnStream(w, c) == Pieces(Queue(q, c), Sent(offs, c), cs);
      }
    } else {
      assert OnStream(w, w[0].msg.csid) == Pieces(Queue(q, w[0].msg.csid), Sent(offs, w[0].msg.csid), cs);
      FirstPiece(w, q, offs, cs);
      NextPiece(w, q, offs, cs);
      InterleavingIsScheduled(w[1..], NextQueues(q, w[0], cs), NextOffsets(offs, w[0], cs), cs);
    }
  }
}
