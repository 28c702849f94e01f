/**
 * The resizable FIFO semaphore (app/server/utils/semaphore.ts). A waiter is known by the task
 * that waits; granting it resolves its promise, and the task resumes in a later turn.
 */
module Semaphore {

  type Task = nat

  /** The grants `pump` makes: as many waiters, in order, as there are free slots. */
  function Grants(active: int, max: real, waiters: seq<Task>): (n: nat)
    ensures n <= |waiters|
    ensures n > 0 ==> (active + n - 1) as real < max
    ensures n < |waiters| ==> (active + n) as real >= max
    decreases |waiters|
  {
    if waiters != [] && (active as real) < max then 1 + Grants(active + 1, max, waiters[1..]) else 0
  }

  class AsyncSemaphore {
    var waiters: seq<Task>
    var active: int
    var max: real

    constructor (max: real)
      ensures this.max == max && active == 0 && waiters == []
    {
      this.max, active, waiters := max, 0, [];
    }

    /** Hands free slots to waiters, first come first served; returns those granted. */
    method Pump() returns (granted: seq<Task>)
      modifies this
      ensures max == old(max)
      ensures var n := Grants(old(active), max, old(waiters));
              granted == old(waiters)[..n] && waiters == old(waiters)[n..] && active == old(active) + n
    {
      granted := [];
      while (active as real) < max && |waiters| > 0
        invariant max == old(max)
        invariant granted + waiters == old(waiters) && active == old(active) + |granted|
        invariant |granted| + Grants(active, max, waiters) == Grants(old(active), max, old(waiters))
        decreases |waiters|
      {
        active := active + 1;
        var next := waiters[0];
        waiters := waiters[1..];
        granted := granted + [next];
      }
      assert old(waiters)[..|granted|] == granted;
    }

    method SetMax(n: real) returns (granted: seq<Task>)
      modifies this
      ensures max == NewMax(n)
      ensures var k := Grants(old(active), max, old(waiters));
              granted == old(waiters)[..k] && waiters == old(waiters)[k..] && active == old(active) + k
    {
      max := if n.Floor < 1 then 1.0 else n.Floor as real;
      granted := Pump();
    }

    /** The start of `run`: take a slot at once, or queue up. */
    method Enter(t: Task) returns (admitted: bool)
      modifies this
      ensures max == old(max) && admitted == (old(active) as real < max)
      ensures active == old(active) + (if admitted then 1 else 0)
      ensures waiters == old(waiters) + (if admitted then [] else [t])
    {
      if active as real >= max {
        waiters := waiters + [t];
        admitted := false;
      } else {
        active := active + 1;
        admitted := true;
      }
    }

    /** The end of `run`, however the task ended. */
    method Leave() returns (granted: seq<Task>)
      modifies this
      ensures max == old(max)
      ensures var k := Grants(old(active) - 1, max, old(waiters));
              granted == old(waiters)[..k] && waiters == old(waiters)[k..] && active == old(active) - 1 + k
    {
      active := active - 1;
      granted := Pump();
    }
  }

  function NewMax(n: real): real {
    if n.Floor < 1 then 1.0 else n.Floor as real
  }

  /** A new limit is the largest whole number that the request reaches, but at least one. */
  lemma NewMaxIsWhole(n: real) returns (k: int)
    ensures NewMax(n) == k as real && k >= 1
    ensures if n < 1.0 then k == 1 else k as real <= n < (k + 1) as real
  {
    k := if n.Floor < 1 then 1 else n.Floor;
  }

  // ---- runs: tasks arrive, resume and finish, and the limit changes, in any order ----

  /**
   * The semaphore with its tasks: `granted` hold a slot but have not resumed yet, `running` hold
   * one and run; `arrived` and `admitted` list all tasks ever, in order.
   */
  datatype State = State(active: int, max: real, waiters: seq<Task>,
                         granted: set<Task>, running: set<Task>, arrived: seq<Task>, admitted: seq<Task>)

  datatype Event = Arrive(t: Task) | Resume(t: Task) | Finish(t: Task) | SetMax(n: real)

  function Init(max: real): State {
    State(0, max, [], {}, {}, [], [])
  }

  predicate Enabled(s: State, e: Event) {
    match e
    case Arrive(t) => t !in s.arrived
    case Resume(t) => t in s.granted
    case Finish(t) => t in s.running
    case SetMax(_) => true
  }

  /** One grant: the slot is counted before the waiter resumes. */
  function GrantFirst(s: State): State
    requires s.waiters != []
  {
    var t := s.waiters[0];
    s.(active := s.active + 1, waiters := s.waiters[1..], granted := s.granted + {t}, admitted := s.admitted + [t])
  }

  /** The effect of `pump` on the state. */
  function Pumped(s: State): State
    decreases |s.waiters|
  {
    if s.waiters != [] && (s.active as real) < s.max then Pumped(GrantFirst(s)) else s
  }

  /** The state's `pump` is the one of the class. */
  lemma {:induction false} PumpedIsPump(s: State)
    ensures var n, p := Grants(s.active, s.max, s.waiters), Pumped(s);
            && p.active == s.active + n && p.max == s.max && p.waiters == s.waiters[n..]
            && p.admitted == s.admitted + s.waiters[..n]
    decreases |s.waiters|
  {
    if s.waiters != [] && (s.active as real) < s.max {
      PumpedIsPump(GrantFirst(s));
      var n := Grants(s.active, s.max, s.waiters);
      assert s.waiters[..n] == [s.waiters[0]] + s.waiters[1..][..n - 1];
    }
  }

  function Next(s: State, e: Event): State {
    match e
    case Arrive(t) =>
      if s.active as real >= s.max then s.(waiters := s.waiters + [t], arrived := s.arrived + [t])
      else s.(active := s.active + 1, running := s.running + {t}, arrived := s.arrived + [t], admitted := s.admitted + [t])
    case Resume(t) => s.(granted := s.granted - {t}, running := s.running + {t})
    case Finish(t) => Pumped(s.(active := s.active - 1, running := s.running - {t}))
    case SetMax(n) => Pumped(s.(max := NewMax(n)))
  }

  predicate Possible(s: State, run: seq<Event>)
    decreases |run|
  {
    run == [] || (Enabled(s, run[0]) && Possible(Next(s, run[0]), run[1..]))
  }

  function After(s: State, run: seq<Event>): State
    decreases |run|
  {
    if run == [] then s else After(Next(s, run[0]), run[1..])
  }

  ghost predicate Distinct(ts: seq<Task>) {
    forall i, j | 0 <= i < j < |ts| :: ts[i] != ts[j]
  }

  /** Slots and order; true also in the middle of `pump`. */
  ghost predicate SlotsInv(s: State) {
    && s.active == |s.granted| + |s.running|              // no slot is leaked or handed out twice
    && s.granted !! s.running
    && s.admitted + s.waiters == s.arrived                // admission in order of arrival
    && Distinct(s.arrived)
    && (forall t | t in s.granted + s.running :: t in s.admitted)
  }

  /** What every reachable state satisfies. */
  ghost predicate Inv(s: State) {
    SlotsInv(s) && (s.waiters != [] ==> s.active as real >= s.max)    // nobody waits while a slot is free
  }

  lemma FirstWaiterIsNew(admitted: seq<Task>, waiters: seq<Task>, arrived: seq<Task>)
    requires admitted + waiters == arrived && Distinct(arrived) && waiters != []
    ensures waiters[0] !in admitted && (admitted + [waiters[0]]) + waiters[1..] == arrived
  {
    var n := |admitted|;
    assert arrived[n] == waiters[0];
    assert forall i | 0 <= i < n :: admitted[i] == arrived[i];
  }

  lemma GrantKeeps(s: State)
    requires SlotsInv(s) && s.waiters != []
    ensures SlotsInv(GrantFirst(s))
  {
    FirstWaiterIsNew(s.admitted, s.waiters, s.arrived);
    var s' := GrantFirst(s);
    assert s.waiters[0] !in s.granted + s.running;
    forall t | t in s'.granted + s'.running ensures t in s'.admitted {
      assert t == s.waiters[0] || t in s.granted + s.running;
    }
  }

  lemma {:induction false} PumpKeeps(s: State)
    requires SlotsInv(s)
    ensures Inv(Pumped(s))
    decreases |s.waiters|
  {
    if s.waiters != [] && (s.active as real) < s.max {
      GrantKeeps(s);
      PumpKeeps(GrantFirst(s));
    }
  }

  lemma ArrivalIsLast(admitted: seq<Task>, waiters: seq<Task>, arrived: seq<Task>, t: Task)
    requires admitted + waiters == arrived && Distinct(arrived) && t !in arrived
    ensures admitted + (waiters + [t]) == arrived + [t] && Distinct(arrived + [t])
    ensures waiters == [] ==> (admitted + [t]) + waiters == arrived + [t]
    ensures t !in admitted
  {
    assert forall u | u in admitted :: u in arrived;
  }

  lemma ArriveKeeps(s: State, t: Task)
    requires Inv(s) && t !in s.arrived
    ensures Inv(Next(s, Arrive(t)))
  {
    ArrivalIsLast(s.admitted, s.waiters, s.arrived, t);
    if s.active as real < s.max {
      assert t !in s.granted + s.running;
    }
  }

  lemma ResumeKeeps(s: State, t: Task)
    requires Inv(s) && t in s.granted
    ensures Inv(Next(s, Resume(t)))
  {
  }

  lemma FinishKeeps(s: State, t: Task)
    requires Inv(s) && t in s.running
    ensures Inv(Next(s, Finish(t)))
  {
    PumpKeeps(s.(active := s.active - 1, running := s.running - {t}));
  }

  lemma NextKeeps(s: State, e: Event)
    requires Inv(s) && Enabled(s, e)
    ensures Inv(Next(s, e))
  {
    match e {
      case Arrive(t) => ArriveKeeps(s, t);
      case Resume(t) => ResumeKeeps(s, t);
      case Finish(t) => FinishKeeps(s, t);
      case SetMax(n) => PumpKeeps(s.(max := NewMax(n)));
    }
  }

  /** Over every interleaving from the start, the invariant holds. */
  lemma {:induction false} ReachableInv(s: State, run: seq<Event>)
    requires Inv(s) && Possible(s, run)
    ensures Inv(After(s, run))
    decreases |run|
  {
    if run != [] {
      NextKeeps(s, run[0]);
      ReachableInv(Next(s, run[0]), run[1..]);
    }
  }

  /** Admission is in arrival order, and every task is queued, holds a slot, or has had its turn. */
  lemma AdmissionIsFifo(max: real, run: seq<Event>)
    requires Possible(Init(max), run)
    ensures var s := After(Init(max), run);
            && s.admitted <= s.arrived && s.waiters == s.arrived[|s.admitted|..]
            && s.active == |s.granted + s.running|
            && (s.waiters != [] ==> s.active as real >= s.max)
  {
    ReachableInv(Init(max), run);
    var s := After(Init(max), run);
    assert s.arrived[|s.admitted|..] == s.waiters;
  }

  /** With a positive limit nobody is forgotten: once no task holds a slot, no task waits. */
  lemma NoLostWakeup(max: real, run: seq<Event>)
    requires Possible(Init(max), run)
    ensures var s := After(Init(max), run);
            s.granted + s.running == {} && s.max > 0.0 ==> s.waiters == [] && s.admitted == s.arrived
  {
    ReachableInv(Init(max), run);
    var s := After(Init(max), run);
    if s.granted + s.running == {} && s.max > 0.0 {
      assert s.granted == {} && s.running == {};
      assert s.admitted + [] == s.admitted;
    }
  }

  /** A limit of zero or less, which only the constructor accepts, admits nobody until it is changed. */
  lemma {:induction false} NonPositiveLimitBlocks(s: State, run: seq<Event>)
    requires s.max <= 0.0 && s.active == 0 && s.granted == {} && s.running == {} && s.admitted == []
    requires Possible(s, run) && forall e | e in run :: !e.SetMax?
    ensures After(s, run).admitted == [] && After(s, run).max <= 0.0
    decreases |run|
  {
    if run != [] {
      assert run[0] in run;
      NonPositiveLimitBlocks(Next(s, run[0]), run[1..]);
    }
  }

  /** `active` grows only into free slots. */
  lemma GrowthStaysBelow(s: State, e: Event)
    requires Inv(s) && Enabled(s, e)
    ensures var s' := Next(s, e);
            && (s'.active > s.active ==> (s'.active - 1) as real < s'.max)
            && (!e.SetMax? ==> s'.max == s.max)
  {
    match e {
      case Arrive(t) =>
      case Resume(t) =>
      case Finish(t) => PumpedIsPump(s.(active := s.active - 1, running := s.running - {t}));
      case SetMax(n) => PumpedIsPump(s.(max := NewMax(n)));
    }
  }

  /** After a shrink: until the limit changes again, `active` never rises while it is at or over the limit. */
  lemma {:induction false} NoGrowthOverLimit(s: State, run: seq<Event>)
    requires Inv(s) && Possible(s, run) && forall e | e in run :: !e.SetMax?
    ensures var t := After(s, run);
            t.max == s.max && (t.active <= s.active || (t.active - 1) as real < s.max)
    decreases |run|
  {
    if run != [] {
      assert run[0] in run;
      NextKeeps(s, run[0]);
      GrowthStaysBelow(s, run[0]);
      NoGrowthOverLimit(Next(s, run[0]), run[1..]);
    }
  }
}
