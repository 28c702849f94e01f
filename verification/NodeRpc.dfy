/**
 * The node's end of its RPCs (node/node/wsclient.go): concurrent calls take numbers from a 32-bit
 * counter, wait on a channel of their own, and are found again by the number in the response. A
 * call is known here by its position in the order of allocation; its number is that modulo 2^32.
 */
module NodeRpc {
  import opened Bytes

  type Id = nat  // the n-th call made; ids start at 1

  const WRAP := 0x1_0000_0000

  function Number(k: Id): uint32 {
    k % WRAP
  }

  /** `Got(j)` is the response to the request of call j. */
  datatype Result = Got(j: Id) | SendFailed | TimedOut | ShutDown

  /** Number taken; channel stored; request sent; select left with a result; entry deleted. */
  datatype Phase = Allocated | Stored | Waiting | Returning(result: Result) | Done(result: Result)

  /** `box` is the channel: it holds at most one response, named by the request it answers. */
  datatype Call = Call(phase: Phase, box: Option<Id>)

  /** `asked` are the requests on the current connection that the app has not answered yet. */
  datatype State = State(counter: nat, calls: map<Id, Call>, pending: map<uint32, Id>, asked: set<Id>)

  const FRESH := State(0, map[], map[], {})

  datatype Event =
    | Alloc
    | Store(k: Id)
    | Send(k: Id, ok: bool)
    | Receive(k: Id)                   // the select takes the response
    | Abandon(k: Id, shutDown: bool)   // the select takes the timer, or the shutdown
    | Delete(k: Id)
    | Answer(j: Id)                    // the response to request j is dispatched
    | Reconnect                        // unanswered requests are gone with their connection

  predicate In(s: State, k: Id, phase: Phase) {
    k in s.calls && s.calls[k].phase == phase
  }

  predicate Enabled(s: State, e: Event) {
    match e
    case Alloc => true
    case Store(k) => In(s, k, Allocated)
    case Send(k, _) => In(s, k, Stored)
    case Receive(k) => In(s, k, Waiting) && s.calls[k].box.Some?
    case Abandon(k, _) => In(s, k, Waiting)
    case Delete(k) => k in s.calls && s.calls[k].phase.Returning?
    case Answer(j) => j in s.asked
    case Reconnect => true
  }

  function SetPhase(s: State, k: Id, phase: Phase): State
    requires k in s.calls
  {
    s.(calls := s.calls[k := s.calls[k].(phase := phase)])
  }

  /** The response is put into the channel found under its number, if that is still empty. */
  function Dispatch(s: State, j: Id): State {
    var n := Number(j);
    if n !in s.pending then s
    else
      var k := s.pending[n];
      var s' := s.(pending := s.pending - {n});
      if k in s.calls && s.calls[k].box.None? then s'.(calls := s.calls[k := s.calls[k].(box := Some(j))]) else s'
  }

  function Next(s: State, e: Event): State
    requires Enabled(s, e)
  {
    match e
    case Alloc => s.(counter := s.counter + 1, calls := s.calls[s.counter + 1 := Call(Allocated, None)])
    case Store(k) => SetPhase(s.(pending := s.pending[Number(k) := k]), k, Stored)
    case Send(k, ok) =>
      if ok then SetPhase(s.(asked := s.asked + {k}), k, Waiting) else SetPhase(s, k, Returning(SendFailed))
    case Receive(k) => SetPhase(s, k, Returning(Got(s.calls[k].box.value)))
    case Abandon(k, shutDown) => SetPhase(s, k, Returning(if shutDown then ShutDown else TimedOut))
    case Delete(k) => SetPhase(s.(pending := s.pending - {Number(k)}), k, Done(s.calls[k].phase.result))
    case Answer(j) => Dispatch(s.(asked := s.asked - {j}), j)
    case Reconnect => s.(asked := {})
  }

  /** A call that has not finished, or whose request may still be answered. */
  predicate Live(s: State, k: Id) {
    k in s.asked || (k in s.calls && !s.calls[k].phase.Done?)
  }

  /** The next number is not that of a live call. */
  ghost predicate NumberFree(s: State) {
    forall j :: Live(s, j) ==> Number(j) != Number(s.counter + 1)
  }

  /** It is enough that fewer than 2^32 calls were made since every live one. */
  lemma FewCallsLeaveNumbersFree(s: State)
    requires forall j: Id :: Live(s, j) ==> j <= s.counter && s.counter + 1 < j + WRAP
    ensures NumberFree(s)
  {
    forall j | Live(s, j) ensures Number(j) != Number(s.counter + 1) {
      DifferentNumbers(j, s.counter + 1);
    }
  }

  lemma DifferentNumbers(j: nat, k: nat)
    requires j < k < j + WRAP
    ensures Number(j) != Number(k)
  {
  }

  // ---- invariant ----

  ghost predicate CallSane(s: State, k: Id) {
    && (k in s.calls ==>
          && k <= s.counter
          && (s.calls[k].box.Some? ==> s.calls[k].box.value == k)
          && (s.calls[k].phase == Allocated || s.calls[k].phase == Stored ==> s.calls[k].box.None?)
          // a stored call is found under its number until it is answered
          && (s.calls[k].phase == Stored || s.calls[k].phase == Waiting ==>
                s.calls[k].box.Some? || (Number(k) in s.pending && s.pending[Number(k)] == k))
          && (s.calls[k].phase.Returning? && s.calls[k].phase.result.Got? ==> s.calls[k].phase.result.j == k)
          && (s.calls[k].phase.Done? && s.calls[k].phase.result.Got? ==> s.calls[k].phase.result.j == k))
    && (k in s.asked ==> k in s.calls && k <= s.counter && s.calls[k].box.None? &&
                         s.calls[k].phase != Allocated && s.calls[k].phase != Stored)
  }

  ghost predicate EntrySane(s: State, n: uint32) {
    n in s.pending ==>
      var k := s.pending[n];
      && Number(k) == n && k in s.calls && !s.calls[k].phase.Done? && s.calls[k].phase != Allocated
      && s.calls[k].box.None?
  }

  ghost predicate Distinct(s: State, j: Id, k: Id) {
    Live(s, j) && Live(s, k) && j != k ==> Number(j) != Number(k)
  }

  ghost predicate Sane(s: State) {
    && (forall k :: CallSane(s, k))
    && (forall n :: EntrySane(s, n))
    && (forall j, k :: Distinct(s, j, k))
  }

  lemma CallsStaySane(s: State, e: Event)
    requires Sane(s) && Enabled(s, e) && (e == Alloc ==> NumberFree(s))
    ensures forall k :: CallSane(Next(s, e), k)
  {
    var s' := Next(s, e);
    forall k ensures CallSane(s', k) {
      assert CallSane(s, k);
      match e {
        case Alloc => assert CallSane(s, s.counter + 1);
        case Store(i) => assert Distinct(s, i, k);
        case Delete(i) => assert Distinct(s, i, k) && CallSane(s, i);
        case Answer(j) =>
          assert EntrySane(s, Number(j)) && CallSane(s, j);
          if Number(j) in s.pending { assert Distinct(s, j, s.pending[Number(j)]) && Distinct(s, j, k); }
        case _ =>
      }
    }
  }

  lemma EntriesStaySane(s: State, e: Event)
    requires Sane(s) && Enabled(s, e) && (e == Alloc ==> NumberFree(s))
    ensures forall n :: EntrySane(Next(s, e), n)
  {
    var s' := Next(s, e);
    forall n ensures EntrySane(s', n) {
      assert EntrySane(s, n);
      match e {
        case Alloc => assert CallSane(s, s.counter + 1);
        case Store(i) => assert CallSane(s, i);
        case Delete(i) => if n in s.pending { assert Distinct(s, i, s.pending[n]); }
        case Answer(j) => assert EntrySane(s, Number(j));
        case _ =>
      }
    }
  }

  lemma NumbersStayDistinct(s: State, e: Event)
    requires Sane(s) && Enabled(s, e) && (e == Alloc ==> NumberFree(s))
    ensures forall j, k :: Distinct(Next(s, e), j, k)
  {
    var s' := Next(s, e);
    forall j, k ensures Distinct(s', j, k) {
      assert Distinct(s, j, k);
      if e == Alloc {
        assert Live(s, j) ==> Number(j) != Number(s.counter + 1);
        assert Live(s, k) ==> Number(k) != Number(s.counter + 1);
      }
    }
  }

  lemma NextKeeps(s: State, e: Event)
    requires Sane(s) && Enabled(s, e) && (e == Alloc ==> NumberFree(s))
    ensures Sane(Next(s, e))
  {
    CallsStaySane(s, e);
    EntriesStaySane(s, e);
    NumbersStayDistinct(s, e);
  }

  // ---- whole runs ----

  /** Every number is free when it is taken. */
  ghost predicate Reaches(s: State, run: seq<Event>, t: State)
    decreases |run|
  {
    if run == [] then t == s
    else Enabled(s, run[0]) && (run[0] == Alloc ==> NumberFree(s)) && Reaches(Next(s, run[0]), run[1..], t)
  }

  lemma {:induction false} ReachesSane(s: State, run: seq<Event>, t: State)
    requires Sane(s) && Reaches(s, run, t)
    ensures Sane(t)
    decreases |run|
  {
    if run != [] {
      NextKeeps(s, run[0]);
      ReachesSane(Next(s, run[0]), run[1..], t);
    }
  }

  /**
   * Across reconnects and any ordering: a response only ever reaches the call whose request it
   * answers, and the table holds exactly calls that have not returned and were not answered.
   */
  lemma ResponsesReachTheirCalls(run: seq<Event>, s: State, k: Id)
    requires Reaches(FRESH, run, s) && k in s.calls
    ensures s.calls[k].phase.Done? && s.calls[k].phase.result.Got? ==> s.calls[k].phase.result == Got(k)
    ensures s.calls[k].box.Some? ==> s.calls[k].box == Some(k)
    ensures s.calls[k].phase == Waiting ==>
              (s.calls[k].box.None? <==> Number(k) in s.pending && s.pending[Number(k)] == k)
    ensures s.calls[k].phase.Done? ==> forall n | n in s.pending :: s.pending[n] != k
  {
    ReachesSane(FRESH, run, s);
    assert CallSane(s, k) && EntrySane(s, Number(k));
    forall n | n in s.pending ensures s.pending[n] != k || !s.calls[k].phase.Done? {
      assert EntrySane(s, n);
    }
  }

  /** The result a call has returned, or is returning. */
  function ResultOf(s: State, k: Id): Option<Result> {
    if k !in s.calls then None
    else match s.calls[k].phase
      case Returning(r) => Some(r)
      case Done(r) => Some(r)
      case _ => None
  }

  /** A call returns once: its result never changes again. */
  lemma {:induction false} ResultIsFinal(s: State, run: seq<Event>, t: State, k: Id)
    requires Sane(s) && Reaches(s, run, t) && ResultOf(s, k).Some?
    ensures ResultOf(t, k) == ResultOf(s, k)
    decreases |run|
  {
    if run != [] {
      assert CallSane(s, k) && CallSane(s, s.counter + 1);
      NextKeeps(s, run[0]);
      assert ResultOf(Next(s, run[0]), k) == ResultOf(s, k);
      ResultIsFinal(Next(s, run[0]), run[1..], t, k);
    }
  }

  // ---- where results come from ----

  /** The events that are behind a result of call k. */
  predicate Caused(run: seq<Event>, k: Id, r: Result) {
    match r
    case Got(j) => j == k && Answer(k) in run && Receive(k) in run
    case SendFailed => Send(k, false) in run
    case TimedOut => Abandon(k, false) in run
    case ShutDown => Abandon(k, true) in run
  }

  /** What a single step adds to a call. */
  lemma NewResult(s: State, e: Event, k: Id)
    requires Sane(s) && Enabled(s, e) && (e == Alloc ==> NumberFree(s))
    requires ResultOf(s, k).None? && ResultOf(Next(s, e), k).Some?
    ensures match ResultOf(Next(s, e), k).value
            case Got(j) => j == k && e == Receive(k) && s.calls[k].box == Some(k)
            case SendFailed => e == Send(k, false)
            case TimedOut => e == Abandon(k, false)
            case ShutDown => e == Abandon(k, true)
  {
    assert CallSane(s, k) && CallSane(s, s.counter + 1);
  }

  lemma NewBox(s: State, e: Event, k: Id)
    requires Sane(s) && Enabled(s, e) && (e == Alloc ==> NumberFree(s))
    requires k in Next(s, e).calls && Next(s, e).calls[k].box == Some(k)
    ensures e == Answer(k) || (k in s.calls && s.calls[k].box == Some(k))
  {
    assert CallSane(s, k) && CallSane(s, s.counter + 1);
  }

  /** So far, each answer in a channel was dispatched, and each result has its cause. */
  ghost predicate CallCaused(past: seq<Event>, s: State, k: Id) {
    && (k in s.calls && s.calls[k].box == Some(k) ==> Answer(k) in past)
    && (ResultOf(s, k).Some? ==> Caused(past, k, ResultOf(s, k).value))
  }

  lemma NextCaused(past: seq<Event>, s: State, e: Event, k: Id)
    requires Sane(s) && Enabled(s, e) && (e == Alloc ==> NumberFree(s)) && CallCaused(past, s, k)
    ensures CallCaused(past + [e], Next(s, e), k)
  {
    var t := Next(s, e);
    if k in t.calls && t.calls[k].box == Some(k) { NewBox(s, e, k); }
    if ResultOf(s, k).Some? {
      ResultIsFinal(s, [e], t, k);
    } else if ResultOf(t, k).Some? {
      NewResult(s, e, k);
    }
  }

  lemma {:induction false} ReachesCaused(past: seq<Event>, s: State, run: seq<Event>, t: State, k: Id)
    requires Sane(s) && Reaches(s, run, t) && CallCaused(past, s, k)
    ensures CallCaused(past + run, t, k)
    decreases |run|
  {
    if run == [] {
      assert past + [] == past;
    } else {
      NextKeeps(s, run[0]);
      NextCaused(past, s, run[0], k);
      ReachesCaused(past + [run[0]], Next(s, run[0]), run[1..], t, k);
      assert past + [run[0]] + run[1..] == past + run;
    }
  }

  /**
   * In every run a call returns the answer only if its own request was answered, a failed send only if
   * its send failed, a timeout only if its timer fired, and a shutdown only on shutdown.
   */
  lemma ResultHasItsCause(run: seq<Event>, s: State, k: Id)
    requires Reaches(FRESH, run, s) && ResultOf(s, k).Some?
    ensures match ResultOf(s, k).value
            case Got(j) => j == k && Answer(k) in run && Receive(k) in run
            case SendFailed => Send(k, false) in run
            case TimedOut => Abandon(k, false) in run
            case ShutDown => Abandon(k, true) in run
  {
    ReachesCaused([], FRESH, run, s, k);
    assert [] + run == run;
  }

  lemma {:induction false} UnaskedIsUnanswered(s: State, run: seq<Event>, t: State, k: Id)
    requires Reaches(s, run, t) && k !in s.asked && Send(k, true) !in run
    ensures Answer(k) !in run
    decreases |run|
  {
    if run != [] {
      assert run[0] in run && forall e | e in run[1..] :: e in run;
      UnaskedIsUnanswered(Next(s, run[0]), run[1..], t, k);
    }
  }

  /**
   * A request is answered at most once, and only on the connection it was sent on: from an answer to
   * it or a reconnect on, no answer to it comes unless it is sent again.
   */
  lemma AnsweredOnceOnItsConnection(s: State, e: Event, run: seq<Event>, t: State, k: Id)
    requires Enabled(s, e) && Reaches(Next(s, e), run, t)
    requires e == Reconnect || e == Answer(k)
    ensures Answer(k) in run ==> Send(k, true) in run
  {
    if Send(k, true) !in run {
      UnaskedIsUnanswered(Next(s, e), run, t, k);
    }
  }

  ghost predicate AllDone(s: State) {
    forall k | k in s.calls :: s.calls[k].phase.Done?
  }

  /** No entry is left behind. */
  lemma NothingLeaks(run: seq<Event>, s: State)
    requires Reaches(FRESH, run, s) && AllDone(s)
    ensures s.pending == map[]
  {
    ReachesSane(FRESH, run, s);
    forall n ensures n !in s.pending {
      assert EntrySane(s, n);
    }
  }

  /**
   * The exact condition: with call j waiting, let another call take the next number before j is
   * answered. The answer reaches j exactly when the numbers differ.
   */
  lemma AnswerArrivesExactlyWhenNumbersDiffer(s: State, j: Id)
    requires Sane(s) && In(s, j, Waiting) && j in s.asked
    ensures var k := s.counter + 1;
            var s1 := Next(s, Alloc);
            var s2 := Next(s1, Store(k));
            var s3 := Next(s2, Answer(j));
            && (s3.calls[j].box == Some(j) <==> (k - j) % 0x1_0000_0000 != 0)
            && ((k - j) % 0x1_0000_0000 == 0 ==> s3.calls[k].box == Some(j))
  {
    assert CallSane(s, j) && CallSane(s, s.counter + 1);
    SameNumber(j, s.counter + 1);
  }

  lemma SameNumber(j: nat, k: nat)
    ensures Number(j) == Number(k) <==> (k - j) % 0x1_0000_0000 == 0
  {
  }

  // ---- the client's own fields ----

  class Client {
    var nextSeq: uint32
    var pending: map<uint32, Id>
    var calls: map<Id, Call>
    var made: nat  // how many calls were made: names them in this model
    ghost var asked: set<Id>

    ghost predicate Valid()
      reads this
    {
      nextSeq == Number(made)
    }

    ghost function Abs(): State
      reads this
    {
      State(made, calls, pending, asked)
    }

    constructor ()
      ensures Valid() && Abs() == FRESH
    {
      nextSeq, pending, calls, made := 0, map[], map[], 0;
      asked := {};
    }

    /** The atomic increment; it wraps around. */
    method TakeNumber() returns (k: Id, number: uint32)
      requires Valid()
      modifies this
      ensures Valid() && k == old(made) + 1 && number == Number(k)
      ensures Abs() == Next(old(Abs()), Alloc)
    {
      nextSeq := if nextSeq == 0xFFFF_FFFF then 0 else nextSeq + 1;
      made := made + 1;
      k, number := made, nextSeq;
      calls := calls[k := Call(Allocated, None)];
    }

    method StoreChannel(k: Id)
      requires Valid() && Enabled(Abs(), Store(k))
      modifies this
      ensures Valid() && Abs() == Next(old(Abs()), Store(k))
    {
      pending := pending[Number(k) := k];
      calls := calls[k := calls[k].(phase := Stored)];
    }

    /** The deferred delete when the call returns. */
    method Release(k: Id)
      requires Valid() && Enabled(Abs(), Event.Delete(k))
      modifies this
      ensures Valid() && Abs() == Next(old(Abs()), Event.Delete(k))
    {
      pending := pending - {Number(k)};
      calls := calls[k := calls[k].(phase := Done(calls[k].phase.result))];
    }

    /** A response arrives, and its number alone says whose it is. Returns the call that got it. */
    method DispatchResponse(j: Id) returns (to: Option<Id>)
      requires Valid() && j in asked
      modifies this
      ensures Valid() && Abs() == Next(old(Abs()), Answer(j))
      ensures Sane(old(Abs())) ==> to.None? || to == Some(j)
    {
      to := None;
      var number := Number(j);
      assert Sane(Abs()) ==> CallSane(Abs(), j) && EntrySane(Abs(), number);
      asked := asked - {j};
      if number in pending {
        var k := pending[number];
        assert Sane(old(Abs())) ==> Distinct(old(Abs()), j, k);
        pending := pending - {number};
        if k in calls && calls[k].box.None? {
          calls := calls[k := calls[k].(box := Some(j))];
          to := Some(k);
        }
      }
    }
  }
}
