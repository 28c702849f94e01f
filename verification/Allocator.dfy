/**
 * The quota allocator (app/server/services/node-assignment.ts): the best free node by latency and
 * then load ratio, or with every node full, the one with the lowest ratio.
 */
module Allocator {
  import opened Bytes

  /** A registered node as a candidate; an unmeasured latency counts as infinite. */
  datatype Candidate = Candidate(latency: Option<int>, users: nat, max: nat)

  function Capacity(max: nat): (m: nat)
    ensures m >= 1
  {
    if max < 1 then 1 else max
  }

  predicate UnderQuota(c: Candidate) {
    c.users < c.max
  }

  /** The sign of the latency difference; of two unmeasured ones it is not a number, which counts as zero. */
  function CompareLatency(a: Candidate, b: Candidate): int {
    if a.latency.None? && b.latency.None? then 0
    else if a.latency.None? then 1
    else if b.latency.None? then -1
    else a.latency.value - b.latency.value
  }

  /** The sign of the difference of the ratios users / max, cross-multiplied. */
  function CompareRatio(a: Candidate, b: Candidate): int {
    a.users * Capacity(b.max) - b.users * Capacity(a.max)
  }

  /** The sort order: latency first among free nodes, ratio first among full ones. */
  function Compare(free: bool, a: Candidate, b: Candidate): int {
    if free then (if CompareLatency(a, b) != 0 then CompareLatency(a, b) else CompareRatio(a, b))
    else (if CompareRatio(a, b) != 0 then CompareRatio(a, b) else CompareLatency(a, b))
  }

  predicate Considered(free: bool, c: Candidate) {
    free ==> UnderQuota(c)
  }

  /** The head of the stable sort of those considered among the first n candidates. */
  function SortedFirst(cs: seq<Candidate>, free: bool, n: nat): Option<nat>
    requires n <= |cs|
  {
    if n == 0 then None
    else
      var best := SortedFirst(cs, free, n - 1);
      if !Considered(free, cs[n - 1]) then best
      else if best.None? || (best.value < |cs| && Compare(free, cs[n - 1], cs[best.value]) < 0) then Some(n - 1)
      else best
  }

  /** The index of the node a user is assigned to. */
  function Allocate(cs: seq<Candidate>): Option<nat> {
    var free := SortedFirst(cs, true, |cs|);
    if free.Some? then free else SortedFirst(cs, false, |cs|)
  }

  // ---- the order is a total preorder ----

  lemma RatioTransitive(a: nat, ma: nat, b: nat, mb: nat, c: nat, mc: nat)
    requires ma >= 1 && mb >= 1 && mc >= 1
    requires a * mb <= b * ma && b * mc <= c * mb
    ensures a * mc <= c * ma
    ensures a * mb < b * ma || b * mc < c * mb ==> a * mc < c * ma
  {
    Scaled(a * mb, b * ma, mc);
    Scaled(b * mc, c * mb, ma);
    Swapped(a, mb, mc);
    Swapped(b, ma, mc);
    Swapped(c, mb, ma);
    Unscaled(a * mc, c * ma, mb);
  }

  lemma Scaled(x: int, y: int, k: nat)
    requires x <= y
    ensures x * k <= y * k && (k >= 1 && x < y ==> x * k < y * k)
  {
    Distributed(x, y, k);
    if k >= 1 && x < y { AtLeast(y - x, k); }
  }

  lemma Distributed(x: int, y: int, k: int)
    ensures (y - x) * k == y * k - x * k
  {
  }

  lemma AtLeast(n: nat, k: nat)
    requires n >= 1 && k >= 1
    ensures n * k >= 1
  {
  }

  lemma Swapped(x: int, y: int, z: int)
    ensures (x * y) * z == (x * z) * y
  {
  }

  lemma Unscaled(x: int, y: int, k: nat)
    requires k >= 1
    ensures (x * k <= y * k ==> x <= y) && (x * k < y * k ==> x < y)
  {
    if x > y { Scaled(y, x, k); }
    if x >= y { Scaled(y, x, k); }
  }

  lemma CompareAntisymmetric(free: bool, a: Candidate, b: Candidate)
    ensures Compare(free, a, b) == -Compare(free, b, a)
  {
  }

  lemma CompareTransitive(free: bool, a: Candidate, b: Candidate, c: Candidate)
    requires Compare(free, a, b) <= 0 && Compare(free, b, c) <= 0
    ensures Compare(free, a, c) <= 0
    ensures Compare(free, a, b) < 0 || Compare(free, b, c) < 0 ==> Compare(free, a, c) < 0
  {
    if CompareRatio(a, b) <= 0 && CompareRatio(b, c) <= 0 {
      RatioTransitive(a.users, Capacity(a.max), b.users, Capacity(b.max), c.users, Capacity(c.max));
    }
  }

  /** The pick is minimal among those considered, and the earliest of the minimal ones. */
  ghost predicate IsFirstMinimal(cs: seq<Candidate>, free: bool, n: nat, i: nat)
    requires n <= |cs|
  {
    && i < n && Considered(free, cs[i])
    && (forall j | 0 <= j < n && Considered(free, cs[j]) :: Compare(free, cs[i], cs[j]) <= 0)
    && (forall j | 0 <= j < i && Considered(free, cs[j]) :: Compare(free, cs[i], cs[j]) < 0)
  }

  lemma {:induction false} SortedFirstIsMinimal(cs: seq<Candidate>, free: bool, n: nat)
    requires n <= |cs|
    ensures match SortedFirst(cs, free, n)
            case None => forall j | 0 <= j < n :: !Considered(free, cs[j])
            case Some(i) => IsFirstMinimal(cs, free, n, i)
  {
    if n > 0 {
      SortedFirstIsMinimal(cs, free, n - 1);
      var best, c := SortedFirst(cs, free, n - 1), cs[n - 1];
      if best.Some? && Considered(free, c) {
        CompareAntisymmetric(free, c, cs[best.value]);
        if Compare(free, c, cs[best.value]) < 0 {
          forall j | 0 <= j < n - 1 && Considered(free, cs[j])
            ensures Compare(free, c, cs[j]) < 0
          {
            CompareTransitive(free, c, cs[best.value], cs[j]);
          }
        }
      }
    }
  }

  /** Every pick is lexicographically minimal, and over quota only when no node has room. */
  lemma AllocateIsMinimal(cs: seq<Candidate>)
    ensures match Allocate(cs)
            case None => cs == []
            case Some(i) =>
              && i < |cs|
              && if exists j :: 0 <= j < |cs| && UnderQuota(cs[j])
                 then IsFirstMinimal(cs, true, |cs|, i)
                 else IsFirstMinimal(cs, false, |cs|, i)
  {
    SortedFirstIsMinimal(cs, true, |cs|);
    SortedFirstIsMinimal(cs, false, |cs|);
    if cs != [] {
      assert Considered(false, cs[0]);
    }
  }

  // ---- the same, on the candidates' own fields ----

  /** Measured at no more than the other, or the other is not measured. */
  predicate NoSlower(a: Candidate, b: Candidate) {
    b.latency.None? || (a.latency.Some? && a.latency.value <= b.latency.value)
  }

  function AtLeastOne(n: nat): nat {
    if n == 0 then 1 else n
  }

  /** No more users for its quota than the other, a quota of zero counting as one. */
  predicate NoFuller(a: Candidate, b: Candidate) {
    a.users * AtLeastOne(b.max) <= b.users * AtLeastOne(a.max)
  }

  /** Among nodes with room, lower latency comes first, and then the lower load. */
  predicate FreeOrder(a: Candidate, b: Candidate) {
    NoSlower(a, b) && (a.latency == b.latency ==> NoFuller(a, b))
  }

  /** Among full ones it is the other way round. */
  predicate FullOrder(a: Candidate, b: Candidate) {
    NoFuller(a, b) && (NoFuller(b, a) ==> NoSlower(a, b))
  }

  predicate InOrder(free: bool, a: Candidate, b: Candidate) {
    if free then FreeOrder(a, b) else FullOrder(a, b)
  }

  lemma CompareIsOrder(free: bool, a: Candidate, b: Candidate)
    ensures Compare(free, a, b) <= 0 <==> InOrder(free, a, b)
  {
    assert Capacity(a.max) == AtLeastOne(a.max) && Capacity(b.max) == AtLeastOne(b.max);
  }

  /** The candidate at i has room, or need not; it comes before all others of that kind, and is the first that does. */
  ghost predicate IsBest(cs: seq<Candidate>, free: bool, i: nat) {
    && i < |cs| && (free ==> cs[i].users < cs[i].max)
    && (forall j | 0 <= j < |cs| && (free ==> cs[j].users < cs[j].max) ::
          InOrder(free, cs[i], cs[j]) && (j < i ==> !InOrder(free, cs[j], cs[i])))
  }

  /**
   * While some node has room, a user goes to a node with room: to the measured one of the lowest
   * latency, to an unmeasured one only if there is no other, and among equals to the one with the
   * least load for its quota. When all are full, the load decides, and then the latency. The first in
   * the list wins a tie.
   */
  lemma AllocateIsBest(cs: seq<Candidate>)
    ensures match Allocate(cs)
            case None => cs == []
            case Some(i) => IsBest(cs, exists j :: 0 <= j < |cs| && cs[j].users < cs[j].max, i)
  {
    AllocateIsMinimal(cs);
    var pick := Allocate(cs);
    if pick.Some? {
      var free := exists j :: 0 <= j < |cs| && UnderQuota(cs[j]);
      var i := pick.value;
      assert free <==> exists j :: 0 <= j < |cs| && cs[j].users < cs[j].max by {
        assert forall j :: 0 <= j < |cs| ==> (UnderQuota(cs[j]) <==> cs[j].users < cs[j].max);
      }
      forall j | 0 <= j < |cs| && (free ==> cs[j].users < cs[j].max)
        ensures InOrder(free, cs[i], cs[j]) && (j < i ==> !InOrder(free, cs[j], cs[i]))
      {
        assert Considered(free, cs[j]);
        CompareIsOrder(free, cs[i], cs[j]);
        CompareIsOrder(free, cs[j], cs[i]);
        CompareAntisymmetric(free, cs[i], cs[j]);
      }
    }
  }

  // ---- runs of automatic assignments over a fixed set of nodes ----

  /** The load of every node: how many users it has, and its quota. */
  datatype Load = Load(users: nat, max: nat)

  function Candidates(loads: seq<Load>, latencies: seq<Option<int>>): (cs: seq<Candidate>)
    requires |latencies| == |loads|
    ensures |cs| == |loads|
  {
    seq(|loads|, i requires 0 <= i < |loads| => Candidate(latencies[i], loads[i].users, loads[i].max))
  }

  function Assign(loads: seq<Load>, latencies: seq<Option<int>>): (r: seq<Load>)
    requires |latencies| == |loads|
    ensures |r| == |loads|
  {
    var pick := Allocate(Candidates(loads, latencies));
    if pick.None? || pick.value >= |loads| then loads
    else loads[pick.value := loads[pick.value].(users := loads[pick.value].users + 1)]
  }

  function AssignAll(loads: seq<Load>, visits: seq<seq<Option<int>>>): (r: seq<Load>)
    requires forall v | v in visits :: |v| == |loads|
    ensures |r| == |loads|
    decreases |visits|
  {
    if visits == [] then loads else AssignAll(Assign(loads, visits[0]), visits[1..])
  }

  predicate Over(l: Load) { l.users > l.max }

  /** Next to an overfull node no node has room, and its load less one is within any other's share. */
  predicate InBalance(over: Load, other: Load) {
    other.users >= other.max && (over.users - 1) * Capacity(other.max) <= other.users * Capacity(over.max)
  }

  ghost predicate Balanced(loads: seq<Load>) {
    forall i, j | 0 <= i < |loads| && 0 <= j < |loads| && Over(loads[i]) :: InBalance(loads[i], loads[j])
  }

  ghost predicate HasRoom(loads: seq<Load>) {
    exists j :: 0 <= j < |loads| && loads[j].users < loads[j].max
  }

  /** While any node has room, an assignment makes no node overfull. */
  lemma AssignWithinQuota(loads: seq<Load>, latencies: seq<Option<int>>)
    requires |latencies| == |loads| && HasRoom(loads)
    ensures forall i | 0 <= i < |loads| && Over(Assign(loads, latencies)[i]) :: Over(loads[i])
  {
    var cs := Candidates(loads, latencies);
    AllocateIsMinimal(cs);
    var j :| 0 <= j < |loads| && loads[j].users < loads[j].max;
    assert UnderQuota(cs[j]);
    assert UnderQuota(cs[Allocate(cs).value]);
  }

  lemma AssignBalanced(loads: seq<Load>, latencies: seq<Option<int>>)
    requires |latencies| == |loads| && Balanced(loads)
    ensures Balanced(Assign(loads, latencies))
  {
    var after := Assign(loads, latencies);
    if HasRoom(loads) {
      AssignWithinQuota(loads, latencies);
      assert forall i | 0 <= i < |loads| :: !Over(loads[i]);
    } else if loads != [] {
      AssignFullBalanced(loads, latencies);
    }
  }

  lemma AssignFullBalanced(loads: seq<Load>, latencies: seq<Option<int>>)
    requires |latencies| == |loads| && Balanced(loads) && !HasRoom(loads) && loads != []
    ensures Balanced(Assign(loads, latencies))
  {
    var cs := Candidates(loads, latencies);
    AllocateIsMinimal(cs);
    var p := Allocate(cs).value;
    var after := Assign(loads, latencies);
    assert forall j | 0 <= j < |cs| :: cs[j].users == loads[j].users && cs[j].max == loads[j].max;
    assert forall j | 0 <= j < |cs| :: !UnderQuota(cs[j]);
    assert forall j | 0 <= j < |loads| :: loads[j].users >= loads[j].max;
    assert IsFirstMinimal(cs, false, |cs|, p);
    assert after == loads[p := loads[p].(users := loads[p].users + 1)];
    forall i, j | 0 <= i < |loads| && 0 <= j < |loads| && Over(after[i])
      ensures InBalance(after[i], after[j])
    {
      OverflowStep(loads, cs, p, after, i, j);
    }
  }

  /** With every node full, an assignment to the node of least ratio keeps the balance. */
  lemma OverflowStep(loads: seq<Load>, cs: seq<Candidate>, p: nat, after: seq<Load>, i: nat, j: nat)
    requires Balanced(loads) && |cs| == |loads| == |after| && p < |loads| && i < |loads| && j < |loads|
    requires forall k | 0 <= k < |loads| :: cs[k].users == loads[k].users && cs[k].max == loads[k].max
    requires forall k | 0 <= k < |loads| :: loads[k].users >= loads[k].max
    requires IsFirstMinimal(cs, false, |cs|, p)
    requires after == loads[p := loads[p].(users := loads[p].users + 1)] && Over(after[i])
    ensures InBalance(after[i], after[j])
  {
    Scaled(loads[j].users, after[j].users, Capacity(loads[i].max));
    if i == p {
      assert Considered(false, cs[j]) && Compare(false, cs[p], cs[j]) <= 0;
      assert loads[p].users * Capacity(loads[j].max) <= loads[j].users * Capacity(loads[p].max);
    } else {
      assert InBalance(loads[i], loads[j]);
    }
  }

  lemma {:induction false} AssignmentsStayBalanced(loads: seq<Load>, visits: seq<seq<Option<int>>>)
    requires forall v | v in visits :: |v| == |loads|
    requires Balanced(loads)
    ensures Balanced(AssignAll(loads, visits))
    decreases |visits|
  {
    if visits != [] {
      assert visits[0] in visits;
      AssignBalanced(loads, visits[0]);
      AssignmentsStayBalanced(Assign(loads, visits[0]), visits[1..]);
    }
  }

  lemma QuotasRespectedIsBalanced(loads: seq<Load>)
    requires forall l | l in loads :: l.users <= l.max
    ensures Balanced(loads)
  {
    forall i | 0 <= i < |loads| ensures !Over(loads[i]) {
      assert loads[i] in loads;
    }
  }

  function Users(loads: seq<Load>): nat {
    if loads == [] then 0 else Users(loads[..|loads| - 1]) + loads[|loads| - 1].users
  }

  lemma {:induction false} OneMoreUser(loads: seq<Load>, p: nat)
    requires p < |loads|
    ensures Users(loads[p := loads[p].(users := loads[p].users + 1)]) == Users(loads) + 1
  {
    var n, after := |loads| - 1, loads[p := loads[p].(users := loads[p].users + 1)];
    if p == n {
      assert after[..n] == loads[..n];
    } else {
      OneMoreUser(loads[..n], p);
      assert after[..n] == loads[..n][p := loads[p].(users := loads[p].users + 1)];
    }
  }

  lemma {:induction false} EveryVisitIsPlaced(loads: seq<Load>, visits: seq<seq<Option<int>>>)
    requires loads != [] && forall v | v in visits :: |v| == |loads|
    ensures Users(AssignAll(loads, visits)) == Users(loads) + |visits|
    decreases |visits|
  {
    if visits != [] {
      assert visits[0] in visits;
      var cs := Candidates(loads, visits[0]);
      AllocateIsMinimal(cs);
      OneMoreUser(loads, Allocate(cs).value);
      EveryVisitIsPlaced(Assign(loads, visits[0]), visits[1..]);
    }
  }

  /**
   * From quotas respected, after any number of automatic assignments with any latencies: every
   * visit was placed, and if any node is overfull then no node has room, and each overfull node is
   * at most one assignment out of balance with every other.
   */
  lemma AssignmentsSpreadEvenly(loads: seq<Load>, visits: seq<seq<Option<int>>>)
    requires loads != [] && forall v | v in visits :: |v| == |loads|
    requires forall l | l in loads :: l.users <= l.max
    ensures Balanced(AssignAll(loads, visits)) && Users(AssignAll(loads, visits)) == Users(loads) + |visits|
  {
    QuotasRespectedIsBalanced(loads);
    AssignmentsStayBalanced(loads, visits);
    EveryVisitIsPlaced(loads, visits);
  }
}
