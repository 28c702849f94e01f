/**
 * Many recording transfers over one connection, end to end: the pulls the control plane waits for
 * (app/server/services/recordings.ts), the frames in flight, and the node's senders. Request ids
 * are fresh.
 */
module Transfers {
  import opened Bytes
  import opened Relay

  type Id = string

  datatype Outcome = Saved(data: bytes) | Failed

  /** What the control plane keeps for one pull; `outcomes` records how its promise was settled. */
  datatype Pull = Pull(received: bytes, settled: bool, outcomes: seq<Outcome>)

  /** The node's side of a transfer: how far it read, how much of that is lost, whether it sent its end. */
  datatype Sender = Sender(file: bytes, pos: nat, lost: nat, verdict: Verdict, ended: bool)

  datatype Frame =
    | Started(id: Id)              // the RPC response
    | Chunk(id: Id, data: bytes)
    | End(id: Id, failed: bool)

  // ---- the control plane's hub ----

  datatype Hub = Hub(pulls: map<Id, Pull>, pending: set<Id>)

  /** Settles the promise once; later calls do nothing. */
  function Finish(h: Hub, id: Id, failed: bool): Hub
    requires id in h.pulls
  {
    var p := h.pulls[id];
    if p.settled then h
    else
      Hub(h.pulls[id := p.(settled := true, outcomes := p.outcomes + [if failed then Failed else Saved(p.received)])],
          h.pending - {id})
  }

  ghost predicate Wellformed(h: Hub) {
    h.pending <= h.pulls.Keys
  }

  function OnFrame(h: Hub, f: Frame): Hub
    requires Wellformed(h)
  {
    if f.id !in h.pending then h
    else match f
      case Started(_) => h
      case Chunk(id, data) => h.(pulls := h.pulls[id := h.pulls[id].(received := h.pulls[id].received + data)])
      case End(id, failed) =>
        var h' := Finish(h, id, failed);
        h'.(pending := h'.pending - {id})
  }

  class RecordingHub {
    var pulls: map<Id, Pull>
    var pending: set<Id>

    function Abs(): Hub
      reads this
    {
      Hub(pulls, pending)
    }

    constructor ()
      ensures Abs() == Hub(map[], {})
    {
      pulls, pending := map[], {};
    }

    method FinishPull(id: Id, failed: bool)
      requires id in pulls
      modifies this
      ensures Abs() == Finish(old(Abs()), id, failed)
    {
      var p := pulls[id];
      if p.settled { return; }
      pending := pending - {id};
      pulls := pulls[id := p.(settled := true, outcomes := p.outcomes + [if failed then Failed else Saved(p.received)])];
    }

    method DispatchChunk(id: Id, data: bytes)
      requires Wellformed(Abs())
      modifies this
      ensures Abs() == OnFrame(old(Abs()), Chunk(id, data))
    {
      if id in pending {
        pulls := pulls[id := pulls[id].(received := pulls[id].received + data)];
      }
    }

    method DispatchEnd(id: Id, failed: bool)
      requires Wellformed(Abs())
      modifies this
      ensures Abs() == OnFrame(old(Abs()), End(id, failed))
    {
      if id in pending {
        FinishPull(id, failed);
        pending := pending - {id};
      }
    }
  }

  // ---- the whole system ----

  datatype State = State(hub: Hub, senders: map<Id, Sender>, wire: seq<Frame>)

  const NOTHING := State(Hub(map[], {}), map[], [])

  datatype Event =
    | Request(id: Id)                           // a pull is registered and its RPC sent
    | Start(id: Id, file: Option<bytes>)        // the node begins; None when the file cannot be opened
    | Respond(id: Id)                           // the RPC response is sent
    | Turn(id: Id, turn: Relay.Turn)            // one turn of the relay loop
    | SendEnd(id: Id, sendOk: bool)             // the end notice is sent, or fails to be
    | Deliver                                   // the oldest frame arrives
    | GiveUp(id: Id)                            // the stall watchdog fires, or the RPC is rejected
    | Drop                                      // the connection closes: what is in flight is lost

  function Data(wire: seq<Frame>, id: Id): bytes {
    if wire == [] then []
    else
      var rest := Data(wire[..|wire| - 1], id);
      var f := wire[|wire| - 1];
      if f.Chunk? && f.id == id then rest + f.data else rest
  }

  predicate Enabled(s: State, e: Event) {
    match e
    case Request(id) => id !in s.hub.pulls
    case Start(id, _) => id in s.hub.pulls && id !in s.senders
    case Respond(id) => id in s.senders
    case Turn(id, t) =>
      && id in s.senders && s.senders[id].verdict == Go && id in s.hub.pulls
      && Legal(s.senders[id].file, s.senders[id].pos, t.read)
      // a cancel is only ever sent by the watchdog of the same pull, right before it settles
      && (t.canceled ==> s.hub.pulls[id].settled)
    case SendEnd(id, _) => id in s.senders && s.senders[id].verdict.Stop? && !s.senders[id].ended
    case Deliver => s.wire != []
    case GiveUp(id) => id in s.hub.pulls
    case Drop => true
  }

  function Stepped(x: Sender, t: Relay.Turn): Sender
    requires Legal(x.file, x.pos, t.read)
  {
    x.(pos := x.pos + t.read.n, lost := if t.sendOk then x.lost else x.lost + t.read.n,
       verdict := After(x.pos + t.read.n, t.read, t.sendOk, t.canceled))
  }

  function Sent(x: Sender, id: Id, t: Relay.Turn): seq<Frame>
    requires Legal(x.file, x.pos, t.read)
  {
    if t.read.n > 0 && t.sendOk then [Chunk(id, x.file[x.pos..x.pos + t.read.n])] else []
  }

  function WithLosses(senders: map<Id, Sender>, wire: seq<Frame>): map<Id, Sender> {
    map id | id in senders :: senders[id].(lost := senders[id].lost + |Data(wire, id)|)
  }

  function Next(s: State, e: Event): State
    requires Enabled(s, e) && Wellformed(s.hub)
  {
    match e
    case Request(id) => s.(hub := Hub(s.hub.pulls[id := Pull([], false, [])], s.hub.pending + {id}))
    case Start(id, None) => s.(senders := s.senders[id := Sender([], 0, 0, Stop(true), false)])
    case Start(id, Some(file)) => s.(senders := s.senders[id := Sender(file, 0, 0, Go, false)])
    case Respond(id) => s.(wire := s.wire + [Started(id)])
    case Turn(id, t) =>
      s.(senders := s.senders[id := Stepped(s.senders[id], t)], wire := s.wire + Sent(s.senders[id], id, t))
    case SendEnd(id, sendOk) =>
      s.(senders := s.senders[id := s.senders[id].(ended := true)],
         wire := if sendOk then s.wire + [Frame.End(id, s.senders[id].verdict.failed)] else s.wire)
    case Deliver => s.(hub := OnFrame(s.hub, s.wire[0]), wire := s.wire[1..])
    case GiveUp(id) => s.(hub := Finish(s.hub, id, true))
    case Drop => s.(senders := WithLosses(s.senders, s.wire), wire := [])
  }

  // ---- one transfer at a time ----

  /** Everything about one id: its pull, its sender and its frames in flight. */
  datatype View = View(pull: Option<Pull>, pending: bool, sender: Option<Sender>, frames: seq<Frame>)

  function Only(wire: seq<Frame>, id: Id): (r: seq<Frame>)
    ensures forall f | f in r :: f.id == id
  {
    if wire == [] then []
    else Only(wire[..|wire| - 1], id) + if wire[|wire| - 1].id == id then [wire[|wire| - 1]] else []
  }

  function Lookup<T>(m: map<Id, T>, id: Id): Option<T> {
    if id in m then Some(m[id]) else None
  }

  function ViewOf(s: State, id: Id): View {
    View(Lookup(s.hub.pulls, id), id in s.hub.pending, Lookup(s.senders, id), Only(s.wire, id))
  }

  function Payload(frames: seq<Frame>): bytes {
    if frames == [] then []
    else Payload(frames[..|frames| - 1])
         + if frames[|frames| - 1].Chunk? then frames[|frames| - 1].data else []
  }

  /** An end notice is the last but for RPC responses. */
  ghost predicate EndIsLast(frames: seq<Frame>) {
    forall i, j | 0 <= i < j < |frames| && frames[i].End? :: frames[j].Started?
  }

  ghost predicate Quiet(frames: seq<Frame>) {
    forall f | f in frames :: f.Started?
  }

  /** Bytes read = received + in flight + lost; and with none lost they are the file's own, in order. */
  ghost predicate Conserved(got: bytes, x: Sender) {
    |got| + x.lost == x.pos <= |x.file| && (x.lost == 0 ==> got == x.file[..x.pos])
  }

  /** A sender that stopped in success without loss has read to the end or to the cap. */
  ghost predicate ReadAll(x: Sender) {
    x.verdict == Stop(false) && x.lost == 0 ==> x.pos == |x.file| || x.pos >= CAP
  }

  ghost predicate SenderSane(x: Sender, frames: seq<Frame>) {
    && x.pos <= |x.file|
    && (x.verdict == Go ==> !x.ended && x.pos < CAP)
    && EndIsLast(frames)
    && (forall f | f in frames && f.End? :: x.ended && x.verdict == Stop(f.failed))
  }

  ghost predicate OpenSane(p: Pull, x: Sender, frames: seq<Frame>) {
    p.outcomes == [] && Conserved(p.received + Payload(frames), x) && ReadAll(x)
  }

  ghost predicate SettledSane(p: Pull, x: Sender, frames: seq<Frame>) {
    && |p.outcomes| == 1
    && (p.outcomes[0].Saved? ==>
          x.ended && x.verdict == Stop(false) && Quiet(frames) && Conserved(p.outcomes[0].data, x) && ReadAll(x))
  }

  ghost predicate Sane(v: View) {
    if v.pull.None? then !v.pending && v.sender.None? && v.frames == []
    else
      var p := v.pull.value;
      && v.pending == !p.settled
      && if v.sender.None? then
           v.frames == [] && p.received == [] && p.outcomes == (if p.settled then [Failed] else [])
         else
           && SenderSane(v.sender.value, v.frames)
           && if p.settled then SettledSane(p, v.sender.value, v.frames)
              else OpenSane(p, v.sender.value, v.frames)
  }

  ghost predicate Inv(s: State) {
    Wellformed(s.hub) && forall id :: Sane(ViewOf(s, id))
  }

  // ---- frames of one id ----

  lemma OnlySnoc(wire: seq<Frame>, f: Frame, id: Id)
    ensures Only(wire + [f], id) == if f.id == id then Only(wire, id) + [f] else Only(wire, id)
  {
    assert (wire + [f])[..|wire|] == wire;
  }

  /** A frame, if it is one of that id. */
  function Matching(f: Frame, id: Id): seq<Frame> {
    if f.id == id then [f] else []
  }

  lemma OnlyEnd(wire: seq<Frame>, f: Frame, id: Id)
    ensures Only(wire + [f], id) == Only(wire, id) + Matching(f, id)
  {
    assert (wire + [f])[..|wire|] == wire;
  }

  lemma Regroup(a: seq<Frame>, b: seq<Frame>, c: seq<Frame>)
    ensures a + (b + c) == (a + b) + c
  {
  }

  lemma {:induction false} OnlyCons(f: Frame, rest: seq<Frame>, id: Id)
    ensures Only([f] + rest, id) == Matching(f, id) + Only(rest, id)
    decreases |rest|
  {
    if rest == [] {
      assert [f] + [] == [] + [f];
      OnlyEnd([], f, id);
    } else {
      var front, last := rest[..|rest| - 1], rest[|rest| - 1];
      OnlyCons(f, front, id);
      assert rest == front + [last];
      Regroup([f], front, [last]);
      OnlyEnd([f] + front, last, id);
      OnlyEnd(front, last, id);
      Regroup(Matching(f, id), Only(front, id), Matching(last, id));
    }
  }

  lemma OnlyHead(wire: seq<Frame>, id: Id)
    requires wire != []
    ensures Only(wire, id) == (if wire[0].id == id then [wire[0]] else []) + Only(wire[1..], id)
    ensures wire[0].id != id ==> Only(wire[1..], id) == Only(wire, id)
  {
    assert wire == [wire[0]] + wire[1..];
    OnlyCons(wire[0], wire[1..], id);
    assert [] + Only(wire[1..], id) == Only(wire[1..], id);
  }

  lemma PayloadSnoc(frames: seq<Frame>, f: Frame)
    ensures Payload(frames + [f]) == Payload(frames) + if f.Chunk? then f.data else []
  {
    assert (frames + [f])[..|frames|] == frames;
  }

  lemma {:induction false} PayloadHead(frames: seq<Frame>)
    requires frames != []
    ensures Payload(frames) == (if frames[0].Chunk? then frames[0].data else []) + Payload(frames[1..])
  {
    var n := |frames| - 1;
    if n > 0 {
      PayloadHead(frames[..n]);
      assert frames[..n][1..] == frames[1..][..n - 1];
    }
  }

  lemma {:induction false} QuietHasNoPayload(frames: seq<Frame>)
    requires Quiet(frames)
    ensures Payload(frames) == []
  {
    if frames != [] {
      assert frames[|frames| - 1] in frames;
      QuietHasNoPayload(frames[..|frames| - 1]);
    }
  }

  lemma {:induction false} DataIsPayload(wire: seq<Frame>, id: Id)
    ensures Data(wire, id) == Payload(Only(wire, id))
  {
    if wire != [] {
      var n := |wire| - 1;
      DataIsPayload(wire[..n], id);
      PayloadSnoc(Only(wire[..n], id), wire[n]);
      assert Only(wire[..n], id) + [] == Only(wire[..n], id);
    }
  }

  // ---- every step keeps every transfer sane ----

  lemma RequestKeeps(s: State, id: Id, k: Id)
    requires Wellformed(s.hub) && Enabled(s, Request(id)) && Sane(ViewOf(s, k))
    ensures Sane(ViewOf(Next(s, Request(id)), k))
  {
  }

  lemma StartKeeps(s: State, id: Id, file: Option<bytes>, k: Id)
    requires Wellformed(s.hub) && Enabled(s, Start(id, file)) && Sane(ViewOf(s, k))
    ensures Sane(ViewOf(Next(s, Start(id, file)), k))
  {
    assert Payload([]) == [];
  }

  /** A frame that carries no data joins the others. */
  lemma SignalKeeps(v: View, x: Sender, f: Frame)
    requires Sane(v) && v.sender == Some(x)
    requires f.Started? || (f.End? && x.verdict == Stop(f.failed) && !x.ended)
    ensures Sane(v.(sender := Some(x.(ended := x.ended || f.End?)), frames := v.frames + [f]))
  {
    PayloadSnoc(v.frames, f);
    assert forall g | g in v.frames + [f] :: g in v.frames || g == f;
  }

  lemma RespondKeeps(s: State, id: Id, k: Id)
    requires Wellformed(s.hub) && Enabled(s, Respond(id)) && Sane(ViewOf(s, k))
    ensures Sane(ViewOf(Next(s, Respond(id)), k))
  {
    OnlySnoc(s.wire, Started(id), k);
    if k == id {
      SignalKeeps(ViewOf(s, k), s.senders[id], Started(id));
    }
  }

  lemma EndedKeeps(v: View, x: Sender)
    requires Sane(v) && v.sender == Some(x) && x.verdict.Stop?
    ensures Sane(v.(sender := Some(x.(ended := true))))
  {
  }

  lemma SendEndKeeps(s: State, id: Id, sendOk: bool, k: Id)
    requires Wellformed(s.hub) && Enabled(s, SendEnd(id, sendOk)) && Sane(ViewOf(s, k))
    ensures Sane(ViewOf(Next(s, SendEnd(id, sendOk)), k))
  {
    var f := Frame.End(id, s.senders[id].verdict.failed);
    OnlySnoc(s.wire, f, k);
    if k == id {
      if sendOk {
        SignalKeeps(ViewOf(s, k), s.senders[id], f);
      } else {
        EndedKeeps(ViewOf(s, k), s.senders[id]);
      }
    }
  }

  /** One turn of an open transfer: what is read is in flight or lost. */
  lemma TurnConserves(got: bytes, x: Sender, t: Relay.Turn)
    requires Conserved(got, x) && Legal(x.file, x.pos, t.read)
    ensures Conserved(if t.sendOk then got + x.file[x.pos..x.pos + t.read.n] else got, Stepped(x, t))
  {
    assert x.file[..x.pos] + x.file[x.pos..x.pos + t.read.n] == x.file[..x.pos + t.read.n];
    if t.sendOk && t.read.n == 0 {
      assert got + x.file[x.pos..x.pos] == got;
    }
  }

  lemma TurnReadsAll(x: Sender, t: Relay.Turn)
    requires x.verdict == Go && Legal(x.file, x.pos, t.read) && !t.canceled
    ensures ReadAll(Stepped(x, t))
  {
  }

  lemma SentFrames(wire: seq<Frame>, x: Sender, id: Id, t: Relay.Turn, k: Id)
    requires Legal(x.file, x.pos, t.read)
    ensures Only(wire + Sent(x, id, t), k) == if k == id then Only(wire, k) + Sent(x, id, t) else Only(wire, k)
  {
    if Sent(x, id, t) == [] {
      assert wire + [] == wire && Only(wire, k) + [] == Only(wire, k);
    } else {
      OnlySnoc(wire, Sent(x, id, t)[0], k);
    }
  }

  lemma SentPayload(frames: seq<Frame>, x: Sender, id: Id, t: Relay.Turn)
    requires Legal(x.file, x.pos, t.read)
    ensures Payload(frames + Sent(x, id, t)) ==
            Payload(frames) + if t.sendOk then x.file[x.pos..x.pos + t.read.n] else []
  {
    if Sent(x, id, t) == [] {
      assert frames + [] == frames;
    } else {
      PayloadSnoc(frames, Sent(x, id, t)[0]);
    }
  }

  lemma BytesAssociative(a: bytes, b: bytes, c: bytes)
    ensures (a + b) + c == a + (b + c)
  {
  }

  lemma TurnOpen(p: Pull, x: Sender, frames: seq<Frame>, id: Id, t: Relay.Turn)
    requires OpenSane(p, x, frames) && x.verdict == Go && Legal(x.file, x.pos, t.read) && !t.canceled
    ensures OpenSane(p, Stepped(x, t), frames + Sent(x, id, t))
  {
    TurnReadsAll(x, t);
    TurnConserves(p.received + Payload(frames), x, t);
    SentPayload(frames, x, id, t);
    if t.sendOk {
      BytesAssociative(p.received, Payload(frames), x.file[x.pos..x.pos + t.read.n]);
    } else {
      assert Payload(frames) + [] == Payload(frames);
    }
  }

  lemma TurnSenderSane(x: Sender, frames: seq<Frame>, id: Id, t: Relay.Turn)
    requires SenderSane(x, frames) && x.verdict == Go && Legal(x.file, x.pos, t.read)
    ensures SenderSane(Stepped(x, t), frames + Sent(x, id, t))
  {
    assert forall f | f in frames + Sent(x, id, t) :: !f.End?;
  }

  lemma TurnKeeps(s: State, id: Id, t: Relay.Turn, k: Id)
    requires Wellformed(s.hub) && Enabled(s, Event.Turn(id, t)) && Sane(ViewOf(s, k))
    ensures Sane(ViewOf(Next(s, Event.Turn(id, t)), k))
  {
    var x := s.senders[id];
    SentFrames(s.wire, x, id, t, k);
    if k == id {
      TurnSenderSane(x, Only(s.wire, id), id, t);
      if !s.hub.pulls[id].settled {
        TurnOpen(s.hub.pulls[id], x, Only(s.wire, id), id, t);
      }
    }
  }

  lemma GiveUpKeeps(s: State, id: Id, k: Id)
    requires Wellformed(s.hub) && Enabled(s, GiveUp(id)) && Sane(ViewOf(s, k))
    ensures Sane(ViewOf(Next(s, GiveUp(id)), k))
  {
  }

  lemma DropKeeps(s: State, k: Id)
    requires Wellformed(s.hub) && Sane(ViewOf(s, k))
    ensures Sane(ViewOf(Next(s, Drop), k))
  {
    DataIsPayload(s.wire, k);
    if k in s.senders {
      var p, x, frames := s.hub.pulls[k], s.senders[k], Only(s.wire, k);
      var x' := x.(lost := x.lost + |Payload(frames)|);
      assert Next(s, Drop).senders[k] == x';
      if p.settled {
        if p.outcomes[0].Saved? { QuietHasNoPayload(frames); }
      } else {
        if Payload(frames) == [] { assert p.received + [] == p.received; }
        assert p.received + Payload([]) == p.received;
      }
    }
  }

  lemma RestSane(x: Sender, frames: seq<Frame>)
    requires SenderSane(x, frames) && frames != []
    ensures SenderSane(x, frames[1..]) && (frames[0].End? ==> Quiet(frames[1..]))
    ensures Quiet(frames) ==> Quiet(frames[1..])
  {
    var rest := frames[1..];
    forall i | 0 <= i < |rest| ensures rest[i] == frames[i + 1] && rest[i] in frames {}
    if frames[0].End? {
      forall g | g in rest ensures g.Started? {
        var i :| 0 <= i < |rest| && rest[i] == g;
        assert frames[i + 1] == g;
      }
    }
  }

  lemma OpenDelivered(p: Pull, x: Sender, frames: seq<Frame>)
    requires OpenSane(p, x, frames) && SenderSane(x, frames) && frames != []
    ensures frames[0].Started? ==> OpenSane(p, x, frames[1..])
    ensures frames[0].Chunk? ==> OpenSane(p.(received := p.received + frames[0].data), x, frames[1..])
    ensures frames[0].End? ==> Conserved(p.received, x)
  {
    var rest := frames[1..];
    PayloadHead(frames);
    if frames[0].Chunk? {
      assert p.received + (frames[0].data + Payload(rest)) == (p.received + frames[0].data) + Payload(rest);
    } else {
      assert [] + Payload(rest) == Payload(rest);
      if frames[0].End? {
        RestSane(x, frames);
        QuietHasNoPayload(rest);
        assert p.received + [] == p.received;
      }
    }
  }

  lemma DeliverHere(v: View, h: Hub, f: Frame)
    requires Sane(v) && Wellformed(h) && v.frames != [] && v.frames[0] == f && v.pull == Lookup(h.pulls, f.id)
    requires v.pending == (f.id in h.pending)
    ensures var h' := OnFrame(h, f); Sane(View(Lookup(h'.pulls, f.id), f.id in h'.pending, v.sender, v.frames[1..]))
  {
    var p, x := v.pull.value, v.sender.value;
    assert f in v.frames;
    RestSane(x, v.frames);
    if !p.settled {
      OpenDelivered(p, x, v.frames);
    }
  }

  lemma DeliverElsewhere(h: Hub, f: Frame, k: Id)
    requires Wellformed(h) && k != f.id
    ensures var h' := OnFrame(h, f); Lookup(h'.pulls, k) == Lookup(h.pulls, k) && (k in h'.pending <==> k in h.pending)
  {
  }

  lemma DeliverKeeps(s: State, k: Id)
    requires Wellformed(s.hub) && Enabled(s, Deliver) && Sane(ViewOf(s, k))
    ensures Sane(ViewOf(Next(s, Deliver), k))
  {
    var v, f := ViewOf(s, k), s.wire[0];
    OnlyHead(s.wire, k);
    if f.id == k {
      assert v.frames[1..] == Only(s.wire[1..], k);
      DeliverHere(v, s.hub, f);
    } else {
      assert ViewOf(Next(s, Deliver), k) == v;
      DeliverElsewhere(s.hub, f, k);
    }
  }

  lemma NextIsWellformed(s: State, e: Event)
    requires Wellformed(s.hub) && Enabled(s, e)
    ensures Wellformed(Next(s, e).hub)
  {
  }

  lemma NextKeeps(s: State, e: Event)
    requires Inv(s) && Enabled(s, e)
    ensures Inv(Next(s, e))
  {
    NextIsWellformed(s, e);
    forall k ensures Sane(ViewOf(Next(s, e), k)) {
      assert Sane(ViewOf(s, k));
      OneKeeps(s, e, k);
    }
  }

  lemma OneKeeps(s: State, e: Event, k: Id)
    requires Wellformed(s.hub) && Enabled(s, e) && Sane(ViewOf(s, k))
    ensures Sane(ViewOf(Next(s, e), k))
  {
    match e {
      case Request(id) => RequestKeeps(s, id, k);
      case Start(id, file) => StartKeeps(s, id, file, k);
      case Respond(id) => RespondKeeps(s, id, k);
      case Turn(id, t) => TurnKeeps(s, id, t, k);
      case SendEnd(id, sendOk) => SendEndKeeps(s, id, sendOk, k);
      case Deliver => DeliverKeeps(s, k);
      case GiveUp(id) => GiveUpKeeps(s, id, k);
      case Drop => DropKeeps(s, k);
    }
  }

  // ---- whole runs ----

  /** `t` is reached from `s` by the events of `run`, each possible when it happens. */
  ghost predicate Reaches(s: State, run: seq<Event>, t: State)
    requires Inv(s)
    decreases |run|
  {
    if run == [] then t == s
    else Enabled(s, run[0]) && (NextKeeps(s, run[0]); Reaches(Next(s, run[0]), run[1..], t))
  }

  lemma NothingIsSane()
    ensures Inv(NOTHING)
  {
  }

  ghost predicate Reachable(run: seq<Event>, t: State) {
    NothingIsSane();
    Reaches(NOTHING, run, t)
  }

  lemma {:induction false} ReachesInv(s: State, run: seq<Event>, t: State)
    requires Inv(s) && Reaches(s, run, t)
    ensures Inv(t)
    decreases |run|
  {
    if run != [] {
      NextKeeps(s, run[0]);
      ReachesInv(Next(s, run[0]), run[1..], t);
    }
  }

  lemma {:induction false} ReachesMore(s: State, run: seq<Event>, t: State, e: Event)
    requires Inv(s) && Reaches(s, run, t) && Enabled(t, e) && Wellformed(t.hub)
    ensures Reaches(s, run + [e], Next(t, e))
    decreases |run|
  {
    var more := run + [e];
    if run == [] {
      assert more[1..] == [];
      NextKeeps(s, e);
    } else {
      NextKeeps(s, run[0]);
      ReachesMore(Next(s, run[0]), run[1..], t, e);
      assert more[1..] == run[1..] + [e];
    }
  }

  /** In every run a promise is settled at most once, and the pull is registered exactly until then. */
  lemma SettledAtMostOnce(run: seq<Event>, s: State, id: Id)
    requires Reachable(run, s) && id in s.hub.pulls
    ensures |s.hub.pulls[id].outcomes| == if id in s.hub.pending then 0 else 1
  {
    NothingIsSane();
    ReachesInv(NOTHING, run, s);
    assert Sane(ViewOf(s, id));
  }

  lemma SenderStays(s: State, e: Event, id: Id)
    requires Inv(s) && Enabled(s, e) && id in s.senders
    ensures var t := Next(s, e);
            && id in t.senders && t.senders[id].file == s.senders[id].file
            && (s.senders[id].verdict.Stop? ==> t.senders[id].verdict == s.senders[id].verdict)
  {
  }

  lemma {:induction false} SenderKeepsFile(s: State, run: seq<Event>, t: State, id: Id)
    requires Inv(s) && Reaches(s, run, t) && id in s.senders
    ensures id in t.senders && t.senders[id].file == s.senders[id].file
    ensures s.senders[id].verdict.Stop? ==> t.senders[id].verdict == s.senders[id].verdict
    decreases |run|
  {
    if run != [] {
      NextKeeps(s, run[0]);
      SenderStays(s, run[0], id);
      SenderKeepsFile(Next(s, run[0]), run[1..], t, id);
    }
  }

  /** A sender has the file it was started with, or has failed. */
  lemma {:induction false} StartedWith(s: State, run: seq<Event>, t: State, id: Id) returns (file: Option<bytes>)
    requires Inv(s) && Reaches(s, run, t) && id !in s.senders && id in t.senders
    ensures Start(id, file) in run
    ensures if file.None? then t.senders[id].verdict == Stop(true) else t.senders[id].file == file.value
    decreases |run|
  {
    var s1 := Next(s, run[0]);
    NextKeeps(s, run[0]);
    if id in s1.senders {
      assert run[0].Start? && run[0].id == id;
      file := run[0].file;
      SenderKeepsFile(s1, run[1..], t, id);
    } else {
      file := StartedWith(s1, run[1..], t, id);
    }
  }

  /**
   * In every run, whatever fails: something is saved only for a file that could be opened; and it is
   * that file exactly when the sender read all of it and nothing of it was lost, which for a file up
   * to the cap is exactly when nothing was lost.
   */
  lemma SavedIsFileExactlyWithoutLoss(run: seq<Event>, s: State, id: Id, data: bytes) returns (file: bytes)
    requires Reachable(run, s) && id in s.hub.pulls && s.hub.pulls[id].outcomes == [Saved(data)]
    ensures id in s.senders && Start(id, Some(file)) in run
    ensures var x := s.senders[id]; data == file <==> x.lost == 0 && x.pos == |file|
    ensures var x := s.senders[id]; |file| <= 0x8000_0000 ==> (data == file <==> x.lost == 0)
  {
    NothingIsSane();
    ReachesInv(NOTHING, run, s);
    assert Sane(ViewOf(s, id));
    var x := s.senders[id];
    var started := StartedWith(NOTHING, run, s, id);
    assert started.Some?;
    file := started.value;
    assert x.file[..|x.file|] == x.file;
  }

  /** A failed send looks like success: the promise of this one-byte file is fulfilled with nothing. */
  lemma FailedSendLooksLikeSuccess(id: Id) returns (run: seq<Event>, s: State)
    ensures Reachable(run, s) && id in s.senders && id in s.hub.pulls
    ensures s.senders[id].file == [7] && s.hub.pulls[id].outcomes == [Saved([])]
  {
    NothingIsSane();
    run, s := [], NOTHING;
    run, s := OneMore(run, s, Request(id));
    run, s := OneMore(run, s, Start(id, Some([7])));
    run, s := OneMore(run, s, Event.Turn(id, Relay.Turn(Read(1, More), false, false)));
    run, s := OneMore(run, s, SendEnd(id, true));
    assert s.wire == [Frame.End(id, false)];
    run, s := OneMore(run, s, Deliver);
  }

  lemma OneMore(run: seq<Event>, s: State, e: Event) returns (run': seq<Event>, s': State)
    requires Reachable(run, s) && Enabled(s, e) && Wellformed(s.hub)
    ensures Reachable(run', s') && s' == Next(s, e)
  {
    NothingIsSane();
    ReachesMore(NOTHING, run, s, e);
    run', s' := run + [e], Next(s, e);
  }

  // ---- runs in which nothing fails ----

  predicate Good(e: Event) {
    match e
    case Start(_, file) => file.Some?
    case Turn(_, t) => t.sendOk && t.read.end != Broken && !t.canceled
    case SendEnd(_, sendOk) => sendOk
    case GiveUp(_) => false
    case Drop => false
    case _ => true
  }

  ghost predicate Fine(v: View) {
    && (v.pull.Some? ==> forall o | o in v.pull.value.outcomes :: o.Saved?)
    && (v.sender.Some? ==>
          var x := v.sender.value;
          && x.lost == 0 && x.verdict != Stop(true)
          && (x.ended && v.pending ==> exists f | f in v.frames :: f.End?))
  }

  lemma FineAppend(v: View, f: Frame)
    requires Fine(v)
    ensures Fine(v.(frames := v.frames + [f]))
  {
    forall g | g in v.frames ensures g in v.frames + [f] {}
  }

  lemma FineTurn(s: State, id: Id, t: Relay.Turn, k: Id)
    requires Inv(s) && Enabled(s, Event.Turn(id, t)) && Good(Event.Turn(id, t)) && Fine(ViewOf(s, k))
    ensures Fine(ViewOf(Next(s, Event.Turn(id, t)), k))
  {
    var x := s.senders[id];
    SentFrames(s.wire, x, id, t, k);
    assert Sane(ViewOf(s, k));
  }

  lemma FineHere(v: View, h: Hub, f: Frame)
    requires Sane(v) && Fine(v) && Wellformed(h) && v.frames != [] && v.frames[0] == f
    requires v.pull == Lookup(h.pulls, f.id) && v.pending == (f.id in h.pending)
    ensures var h' := OnFrame(h, f); Fine(View(Lookup(h'.pulls, f.id), f.id in h'.pending, v.sender, v.frames[1..]))
  {
    assert f in v.frames;
    if !f.End? && exists g | g in v.frames :: g.End? {
      var g :| g in v.frames && g.End?;
      assert g in v.frames[1..];
    }
  }

  lemma FineDeliver(s: State, k: Id)
    requires Inv(s) && Enabled(s, Deliver) && Fine(ViewOf(s, k))
    ensures Fine(ViewOf(Next(s, Deliver), k))
  {
    var v, f := ViewOf(s, k), s.wire[0];
    assert Sane(v);
    OnlyHead(s.wire, k);
    if f.id == k {
      assert v.frames[1..] == Only(s.wire[1..], k);
      FineHere(v, s.hub, f);
    } else {
      DeliverElsewhere(s.hub, f, k);
      assert ViewOf(Next(s, Deliver), k) == v;
    }
  }

  lemma FineSendEnd(s: State, id: Id, k: Id)
    requires Inv(s) && Enabled(s, SendEnd(id, true)) && Fine(ViewOf(s, k))
    ensures Fine(ViewOf(Next(s, SendEnd(id, true)), k))
  {
    var f := Frame.End(id, s.senders[id].verdict.failed);
    OnlySnoc(s.wire, f, k);
    FineAppend(ViewOf(s, k), f);
    assert f in Only(s.wire, k) + [f];
  }

  lemma FineNext(s: State, e: Event, k: Id)
    requires Inv(s) && Enabled(s, e) && Good(e) && Fine(ViewOf(s, k))
    ensures Fine(ViewOf(Next(s, e), k))
  {
    match e {
      case Respond(id) =>
        OnlySnoc(s.wire, Started(id), k);
        FineAppend(ViewOf(s, k), Started(id));
      case Turn(id, t) => FineTurn(s, id, t, k);
      case SendEnd(id, _) => FineSendEnd(s, id, k);
      case Deliver => FineDeliver(s, k);
      case _ =>
    }
  }

  lemma {:induction false} GoodRunIsFine(s: State, run: seq<Event>, t: State, k: Id)
    requires Inv(s) && Reaches(s, run, t) && (forall e | e in run :: Good(e)) && Fine(ViewOf(s, k))
    ensures Fine(ViewOf(t, k))
    decreases |run|
  {
    if run != [] {
      NextKeeps(s, run[0]);
      FineNext(s, run[0], k);
      forall e | e in run[1..] ensures Good(e) { assert e in run; }
      GoodRunIsFine(Next(s, run[0]), run[1..], t, k);
    }
  }

  /**
   * In a run in which nothing fails, with any number of transfers interleaved and the RPC
   * responses anywhere among the chunks: once a sender has sent its end and nothing of it is in
   * flight, its pull has been settled, once, with exactly the file (up to the cap).
   */
  lemma GoodRunDelivers(run: seq<Event>, s: State, id: Id) returns (file: bytes)
    requires Reachable(run, s) && forall e | e in run :: Good(e)
    requires id in s.senders && s.senders[id].ended && Only(s.wire, id) == [] && |s.senders[id].file| <= CAP
    ensures Start(id, Some(file)) in run
    ensures id in s.hub.pulls && s.hub.pulls[id].outcomes == [Saved(file)]
  {
    NothingIsSane();
    ReachesInv(NOTHING, run, s);
    assert Sane(ViewOf(s, id));
    GoodRunIsFine(NOTHING, run, s, id);
    var o := s.hub.pulls[id].outcomes;
    assert o[0] in o && o == [o[0]];
    var started := StartedWith(NOTHING, run, s, id);
    file := started.value;
    FineIsSaved(s, id);
  }

  /** How many good steps a transfer needs at most, given what is in flight. */
  function Distance(x: Sender, inFlight: nat): nat {
    if x.ended then inFlight
    else if x.verdict.Stop? then inFlight + 3
    else 2 * (if x.pos <= |x.file| then |x.file| - x.pos else 0) + inFlight + 4
  }

  /** A started pull that is unsettled, in a state reached with nothing failing. */
  ghost predicate OnItsWay(s: State, id: Id) {
    Inv(s) && Fine(ViewOf(s, id)) && id in s.hub.pending && id in s.senders
  }

  function NextRead(x: Sender): Read {
    var n := Min(BUFFER, |x.file| - x.pos);
    if n <= 0 then Read(0, Eof) else Read(n, More)
  }

  /** What a transfer does next when nothing fails: read on, send its end, or wait for the wire. */
  function GoodStep(s: State, id: Id): Event
    requires id in s.senders
  {
    var x := s.senders[id];
    if x.verdict == Go then Event.Turn(id, Relay.Turn(NextRead(x), true, false))
    else if !x.ended then SendEnd(id, true)
    else Deliver
  }

  lemma GoodStepIsPossible(s: State, id: Id)
    requires OnItsWay(s, id)
    ensures Good(GoodStep(s, id)) && Enabled(s, GoodStep(s, id))
  {
    assert Sane(ViewOf(s, id));
    var x := s.senders[id];
    if x.ended {
      var f :| f in ViewOf(s, id).frames && f.End?;
      assert s.wire != [];
    }
  }

  lemma SentIsShort(x: Sender, id: Id, t: Relay.Turn)
    requires Legal(x.file, x.pos, t.read)
    ensures |Sent(x, id, t)| <= 1 && (t.read.n == 0 ==> Sent(x, id, t) == [])
  {
  }

  /** Every good step brings the transfer nearer. */
  lemma GoodStepApproaches(s: State, id: Id)
    requires OnItsWay(s, id) && Enabled(s, GoodStep(s, id))
    ensures var t := Next(s, GoodStep(s, id));
            && id in t.senders && t.senders[id].file == s.senders[id].file && id in t.hub.pulls
            && Distance(t.senders[id], |t.wire|) < Distance(s.senders[id], |s.wire|)
  {
    assert Sane(ViewOf(s, id));
    var x := s.senders[id];
    if x.verdict == Go {
      SentIsShort(x, id, Relay.Turn(NextRead(x), true, false));
    }
  }

  lemma StaysOnItsWay(s: State, id: Id)
    requires OnItsWay(s, id) && Enabled(s, GoodStep(s, id)) && Good(GoodStep(s, id))
    ensures var t := Next(s, GoodStep(s, id)); Inv(t) && Fine(ViewOf(t, id))
  {
    NextKeeps(s, GoodStep(s, id));
    FineNext(s, GoodStep(s, id), id);
  }

  /** A settled transfer that nothing failed on was saved whole. */
  lemma FineIsSaved(s: State, id: Id)
    requires Inv(s) && Fine(ViewOf(s, id)) && id in s.senders && id in s.hub.pulls && id !in s.hub.pending
    requires |s.senders[id].file| <= CAP
    ensures s.hub.pulls[id].outcomes == [Saved(s.senders[id].file)]
  {
    var v, x, o := ViewOf(s, id), s.senders[id], s.hub.pulls[id].outcomes;
    assert Sane(v);
    assert o[0] in o && o == [o[0]];
    assert x.file[..|x.file|] == x.file;
  }

  /**
   * From every state reached with nothing failing, a started transfer has a continuation in which
   * nothing fails, of bounded length, that settles it with exactly its file (up to the cap).
   */
  lemma {:induction false} GoodContinuation(s: State, id: Id) returns (run: seq<Event>, t: State)
    requires OnItsWay(s, id) && |s.senders[id].file| <= CAP
    ensures Reaches(s, run, t) && (forall e | e in run :: Good(e))
    ensures |run| <= Distance(s.senders[id], |s.wire|)
    ensures id in t.hub.pulls && t.hub.pulls[id].outcomes == [Saved(s.senders[id].file)]
    decreases Distance(s.senders[id], |s.wire|)
  {
    var e := GoodStep(s, id);
    GoodStepIsPossible(s, id);
    GoodStepApproaches(s, id);
    StaysOnItsWay(s, id);
    var s1 := Next(s, e);
    if id in s1.hub.pending {
      var rest;
      rest, t := GoodContinuation(s1, id);
      run := [e] + rest;
      assert run[1..] == rest;
    } else {
      FineIsSaved(s1, id);
      run, t := [e], s1;
      assert run[1..] == [];
    }
  }

  /** The same, from the start: it takes at most two steps a byte, and one a frame in flight, and four. */
  lemma GoodRunSettles(run: seq<Event>, s: State, id: Id) returns (more: seq<Event>, t: State)
    requires Reachable(run, s) && forall e | e in run :: Good(e)
    requires id in s.hub.pending && id in s.senders && |s.senders[id].file| <= CAP
    ensures Inv(s) && Reaches(s, more, t) && (forall e | e in more :: Good(e))
    ensures |more| <= 2 * |s.senders[id].file| + |s.wire| + 4
    ensures id in t.hub.pulls && t.hub.pulls[id].outcomes == [Saved(s.senders[id].file)]
  {
    NothingIsSane();
    ReachesInv(NOTHING, run, s);
    GoodRunIsFine(NOTHING, run, s, id);
    more, t := GoodContinuation(s, id);
  }
}
