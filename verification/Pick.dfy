/** Weighted choice among healthy instances. */
module Pick {
  import opened Sequences
  import opened Domain
  import Int64

  predicate IsHealthy(i: ToolInstance) {
    i.healthy
  }

  function HealthyOf(insts: seq<ToolInstance>): seq<ToolInstance> {
    Filter(insts, IsHealthy)
  }

  /** The weight an instance counts with: at least 1. */
  function Weight(i: ToolInstance): (w: nat)
    ensures w >= 1
  {
    if i.weight <= 0 then 1 else i.weight
  }

  /** The weight of the first k instances. */
  function Prefix(insts: seq<ToolInstance>, k: nat): nat
    requires k <= |insts|
  {
    if k == 0 then 0 else Prefix(insts, k - 1) + Weight(insts[k - 1])
  }

  function Total(insts: seq<ToolInstance>): nat {
    Prefix(insts, |insts|)
  }

  /** Target falls into the interval of instance i: (Prefix(i), Prefix(i + 1)], the first one closed at 0. */
  ghost predicate Covers(insts: seq<ToolInstance>, i: nat, target: real)
    requires i < |insts|
  {
    && (i == 0 || (Prefix(insts, i) as real) < target)
    && target <= Prefix(insts, i + 1) as real
  }

  // ----- the algorithm -----

  method Healthy(insts: seq<ToolInstance>) returns (out: seq<ToolInstance>)
    ensures out == HealthyOf(insts)
  {
    out := [];
    for k := 0 to |insts|
      invariant out == Filter(insts[..k], IsHealthy)
    {
      FilterSnoc(insts[..k], insts[k], IsHealthy);
      assert insts[..k + 1] == insts[..k] + [insts[k]];
      if insts[k].healthy {
        out := out + [insts[k]];
      }
    }
    assert insts[..|insts|] == insts;
  }

  // A positive weight counts as it is, and any other as 1.
  lemma TotalSnoc(insts: seq<ToolInstance>, inst: ToolInstance)
    ensures Total([]) == 0
    ensures Total(insts + [inst]) == Total(insts) + if inst.weight > 0 then inst.weight else 1
  {
    PrefixOfFront(insts, inst, |insts|);
  }

  lemma {:induction false} PrefixOfFront(insts: seq<ToolInstance>, inst: ToolInstance, k: nat)
    requires k <= |insts|
    ensures Prefix(insts + [inst], k) == Prefix(insts, k)
  {
    if k > 0 { PrefixOfFront(insts, inst, k - 1); }
  }

  method TotalWeight(insts: seq<ToolInstance>) returns (sum: int)
    ensures sum == Int64.Wrap(Total(insts))
  {
    sum := 0;
    for k := 0 to |insts|
      invariant sum == Int64.Wrap(Prefix(insts, k))
    {
      var w := insts[k].weight;
      if w <= 0 {
        w := 1;
      }
      Int64.WrapAdd(Prefix(insts, k), w);
      sum := Int64.Wrap(sum + w);
    }
  }

  /** i is the first instance with which the running sum, on 64-bit ints, reaches the target. */
  ghost predicate ReachesFirst(insts: seq<ToolInstance>, target: real, i: nat) {
    && i < |insts|
    && target <= Int64.Wrap(Prefix(insts, i + 1)) as real
    && forall k :: 0 < k <= i ==> Int64.Wrap(Prefix(insts, k)) as real < target
  }

  /** Pick may choose healthy[i] on rng value r: any instance when the total wrapped to 0 or below. */
  ghost predicate MayPick(healthy: seq<ToolInstance>, r: real, i: nat)
    requires 0.0 <= r < 1.0
  {
    && i < |healthy|
    && var total := Int64.Wrap(Total(healthy));
       total > 0 ==> ReachesFirst(healthy, Point(r, total), i)
  }

  lemma OnlyOneToPick(inst: ToolInstance)
    ensures MayPick([inst], 0.0, 0)
  {
    assert Prefix([inst], 1) == Total([inst]);
  }

  method PickInstance(insts: seq<ToolInstance>, r: real) returns (picked: Option<ToolInstance>)
    requires 0.0 <= r < 1.0
    ensures picked.None? <==> HealthyOf(insts) == []
    ensures picked.Some? ==>
      exists i: nat :: MayPick(HealthyOf(insts), r, i) && picked.value == HealthyOf(insts)[i]
    ensures picked.Some? && Int64.Fits(Total(HealthyOf(insts))) ==>
      picked.value == HealthyOf(insts)[ChosenIndex(HealthyOf(insts), Target(HealthyOf(insts), r))]
  {
    var healthy := Healthy(insts);
    if |healthy| == 0 {
      return None;
    }
    TotalPositive(healthy);
    var total := TotalWeight(healthy);
    if total <= 0 {
      var k :| 0 <= k < |healthy|;
      assert MayPick(healthy, r, k);
      return Some(healthy[k]);
    }
    var target := Point(r, total);
    var i := Walk(healthy, total, target);
    assert MayPick(healthy, r, i);
    if Int64.Fits(Total(healthy)) { ReachesFirstIsChosen(healthy, target, i); }
    return Some(healthy[i]);
  }

  /** The loop of Pick. It returns before its fallback: acc reaches total, and the target is below it. */
  method Walk(healthy: seq<ToolInstance>, ghost total: int, target: real) returns (i: nat)
    requires healthy != [] && total == Int64.Wrap(Total(healthy))
    requires 0.0 <= target < total as real
    ensures ReachesFirst(healthy, target, i)
  {
    var acc := 0;
    i := 0;
    while i < |healthy|
      invariant i <= |healthy| && acc == Int64.Wrap(Prefix(healthy, i))
      invariant forall k :: 0 < k <= i ==> Int64.Wrap(Prefix(healthy, k)) as real < target
    {
      var w := healthy[i].weight;
      if w <= 0 {
        w := 1;
      }
      Int64.WrapAdd(Prefix(healthy, i), w);
      acc := Int64.Wrap(acc + w);
      if acc as real >= target {
        return i;
      }
      i := i + 1;
    }
    assert false;
  }

  // ----- what is chosen -----

  lemma {:induction false} PrefixMonotone(insts: seq<ToolInstance>, j: nat, k: nat)
    requires j <= k <= |insts|
    ensures Prefix(insts, j) + (k - j) <= Prefix(insts, k)
    decreases k
  {
    if j < k { PrefixMonotone(insts, j, k - 1); }
  }

  lemma TotalPositive(insts: seq<ToolInstance>)
    ensures Total(insts) >= |insts|
  {
    PrefixMonotone(insts, 0, |insts|);
  }

  /** r * total, which an rng value below 1 keeps below total. */
  function Point(r: real, total: int): (target: real)
    requires 0.0 <= r < 1.0 && total > 0
    ensures 0.0 <= target < total as real
  {
    r * total as real
  }

  /** Where rng value r points on the scale of weights. */
  function Target(insts: seq<ToolInstance>, r: real): (target: real)
    requires insts != [] && 0.0 <= r < 1.0
    ensures 0.0 <= target < Total(insts) as real
  {
    TotalPositive(insts);
    Point(r, Total(insts))
  }

  // A target is in the interval of one instance only.
  lemma CoversUnique(insts: seq<ToolInstance>, i: nat, j: nat, target: real)
    requires i < |insts| && j < |insts|
    requires Covers(insts, i, target) && Covers(insts, j, target)
    ensures i == j
  {
    if i < j {
      PrefixMonotone(insts, i + 1, j);
    } else if j < i {
      PrefixMonotone(insts, j + 1, i);
    }
  }

  /** The first index, below k, whose weights added up reach the target. */
  function FirstReaching(insts: seq<ToolInstance>, k: nat, target: real): (i: nat)
    requires 0 < k <= |insts| && 0.0 <= target <= Prefix(insts, k) as real
    ensures i < k && Covers(insts, i, target)
  {
    if k == 1 || Prefix(insts, k - 1) as real < target then k - 1
    else FirstReaching(insts, k - 1, target)
  }

  function ChosenIndex(insts: seq<ToolInstance>, target: real): (i: nat)
    requires insts != [] && 0.0 <= target < Total(insts) as real
    ensures i < |insts| && Covers(insts, i, target)
  {
    FirstReaching(insts, |insts|, target)
  }

  // The intervals partition the scale: i is chosen exactly when it covers the target.
  lemma ChosenIsCovering(insts: seq<ToolInstance>, target: real, i: nat)
    requires insts != [] && 0.0 <= target < Total(insts) as real && i < |insts|
    ensures ChosenIndex(insts, target) == i <==> Covers(insts, i, target)
  {
    if Covers(insts, i, target) {
      CoversUnique(insts, i, ChosenIndex(insts, target), target);
    }
  }

  // Without overflow the running sum stops at the interval of the target.
  lemma ReachesFirstIsChosen(insts: seq<ToolInstance>, target: real, i: nat)
    requires insts != [] && Int64.Fits(Total(insts)) && 0.0 <= target < Total(insts) as real
    requires ReachesFirst(insts, target, i)
    ensures i == ChosenIndex(insts, target)
  {
    PrefixMonotone(insts, i, i + 1);
    PrefixMonotone(insts, i + 1, |insts|);
    ChosenIsCovering(insts, target, i);
  }

  /** Pick draws every instance from its own interval, whatever rng returns. */
  ghost predicate FollowsWeights(insts: seq<ToolInstance>)
    requires insts != []
  {
    forall r: real, i: nat :: 0.0 <= r < 1.0 && MayPick(insts, r, i) ==>
      i == ChosenIndex(insts, Target(insts, r))
  }

  // Pick follows the weights exactly when their sum is an int.
  lemma FollowsWeightsExactly(insts: seq<ToolInstance>)
    requires insts != [] && forall i :: 0 <= i < |insts| ==> Int64.Fits(insts[i].weight)
    ensures FollowsWeights(insts) <==> Int64.Fits(Total(insts))
  {
    TotalPositive(insts);
    if Int64.Fits(Total(insts)) {
      forall r: real, i: nat | 0.0 <= r < 1.0 && MayPick(insts, r, i)
        ensures i == ChosenIndex(insts, Target(insts, r))
      {
        ReachesFirstIsChosen(insts, Target(insts, r), i);
      }
    } else {
      var k := FirstOverflow(insts, |insts|);
      var r := EveryInstanceChosen(insts, k);
      var i := Deviation(insts, k, r);
    }
  }

  // The instance whose weight takes the sum past the ints: the sum is negative there.
  lemma {:induction false} FirstOverflow(insts: seq<ToolInstance>, n: nat) returns (k: nat)
    requires n <= |insts| && !Int64.Fits(Prefix(insts, n))
    requires forall i :: 0 <= i < |insts| ==> Int64.Fits(insts[i].weight)
    ensures 0 < k < n && Int64.Wrap(Prefix(insts, k + 1)) < 0
  {
    k := n - 1;
    if Int64.Fits(Prefix(insts, k)) {
      Int64.WrapShift(Prefix(insts, n), -1);
    } else {
      k := FirstOverflow(insts, n - 1);
    }
  }

  // That instance is never picked by the running sum, and never the only choice of the uniform branch.
  lemma Deviation(insts: seq<ToolInstance>, k: nat, r: real) returns (i: nat)
    requires 0 < k < |insts| && 0.0 <= r < 1.0 && Int64.Wrap(Prefix(insts, k + 1)) < 0
    ensures i != k && MayPick(insts, r, i)
  {
    var total := Int64.Wrap(Total(insts));
    if total > 0 {
      i := SomeReaches(insts, Point(r, total), |insts|);
    } else {
      i := 0;
    }
  }

  lemma {:induction false} SomeReaches(insts: seq<ToolInstance>, target: real, n: nat) returns (i: nat)
    requires 0 < n <= |insts| && target <= Int64.Wrap(Prefix(insts, n)) as real
    ensures ReachesFirst(insts, target, i)
  {
    if k: nat :| 0 < k < n && target <= Int64.Wrap(Prefix(insts, k)) as real {
      i := SomeReaches(insts, target, k);
    } else {
      i := n - 1;
    }
  }

  // A greater rng value never chooses an earlier instance.
  lemma ChosenMonotone(insts: seq<ToolInstance>, r: real, r': real)
    requires insts != [] && 0.0 <= r <= r' < 1.0
    ensures ChosenIndex(insts, Target(insts, r)) <= ChosenIndex(insts, Target(insts, r'))
  {
    TotalPositive(insts);
    PointMonotone(r, r', Total(insts));
    TargetMonotone(insts, Target(insts, r), Target(insts, r'));
  }

  lemma PointMonotone(r: real, r': real, total: int)
    requires 0.0 <= r <= r' < 1.0 && total > 0
    ensures Point(r, total) <= Point(r', total)
  {
    var n := total as real;
    OrderByProduct(r, r', n);
    assert r * n <= r' * n by {
      if r == r' {
      } else {
        assert r < r';
      }
    }
  }

  lemma TargetMonotone(insts: seq<ToolInstance>, target: real, target': real)
    requires insts != [] && 0.0 <= target <= target' < Total(insts) as real
    ensures ChosenIndex(insts, target) <= ChosenIndex(insts, target')
  {
    var i, j := ChosenIndex(insts, target), ChosenIndex(insts, target');
    if j < i { PrefixMonotone(insts, j + 1, i); }
  }

  // Every healthy instance is the choice of some r.
  lemma EveryInstanceChosen(insts: seq<ToolInstance>, i: nat) returns (r: real)
    requires i < |insts|
    ensures 0.0 <= r < 1.0 && ChosenIndex(insts, Target(insts, r)) == i
  {
    var target := MiddleTarget(insts, i);
    r := PointingAt(target, Total(insts) as real);
    assert Target(insts, r) == target;
  }

  lemma MiddleTarget(insts: seq<ToolInstance>, i: nat) returns (target: real)
    requires i < |insts|
    ensures 0.0 <= target < Total(insts) as real && ChosenIndex(insts, target) == i
  {
    PrefixMonotone(insts, i, i + 1);
    PrefixMonotone(insts, i + 1, |insts|);
    target := Prefix(insts, i) as real + 0.5;
    ChosenIsCovering(insts, target, i);
  }

  lemma PointingAt(target: real, t: real) returns (r: real)
    requires 0.0 <= target < t
    ensures 0.0 <= r < 1.0 && r * t == target
  {
    r := target / t;
  }

  // ----- how often each instance is chosen on an even grid -----

  /** The j-th of the m * Total evenly spaced rng values. */
  ghost function Grid(insts: seq<ToolInstance>, m: nat, j: int): (r: real)
    requires m > 0 && insts != [] && 0 <= j < m * Total(insts)
    ensures 0.0 <= r < 1.0
    ensures Target(insts, r) == j as real / m as real
  {
    TotalPositive(insts);
    GridPoint(m, Total(insts), j);
    j as real / (m * Total(insts)) as real
  }

  lemma GridPoint(m: nat, t: nat, j: int)
    requires m > 0 && t > 0 && 0 <= j < m * t
    ensures 0.0 <= j as real / (m * t) as real < 1.0
    ensures j as real / (m * t) as real * t as real == j as real / m as real
  {
    var n, q := (m * t) as real, j as real / (m * t) as real;
    assert q * n == j as real;
    OrderByProduct(0.0, q, n);
    OrderByProduct(q, 1.0, n);
    assert n == m as real * t as real;
    Quotients(q, m as real, t as real, j as real);
  }

  lemma OrderByProduct(x: real, y: real, n: real)
    requires n > 0.0
    ensures x < y <==> x * n < y * n
    ensures x == y <==> x * n == y * n
  {
    assert (y - x) * n == y * n - x * n;
  }

  lemma Quotients(q: real, m: real, t: real, j: real)
    requires m > 0.0 && q * (m * t) == j
    ensures q * t == j / m
  {
    assert q * (m * t) == (q * t) * m;
    assert (j / m) * m == j;
    OrderByProduct(q * t, j / m, m);
  }

  lemma Scale(p: nat, m: nat, j: int)
    requires m > 0
    ensures p as real < j as real / m as real <==> m * p < j
  {
    var q := j as real / m as real;
    assert q * m as real == j as real;
    assert (m * p) as real == p as real * m as real;
    OrderByProduct(p as real, q, m as real);
  }

  // At grid point j the target is j / m, so instance i takes the points after m * Prefix(i) up to
  // m * Prefix(i + 1), and the first instance also takes 0.
  lemma GridChoice(insts: seq<ToolInstance>, m: nat, i: nat, j: int)
    requires m > 0 && i < |insts| && 0 <= j < m * Total(insts)
    ensures ChosenIndex(insts, Target(insts, Grid(insts, m, j))) == i
       <==> (i == 0 || m * Prefix(insts, i) < j) && j <= m * Prefix(insts, i + 1)
  {
    Scale(Prefix(insts, i), m, j);
    Scale(Prefix(insts, i + 1), m, j);
    ChosenIsCovering(insts, Target(insts, Grid(insts, m, j)), i);
  }

  /** The grid points that choose instance i. */
  ghost function Votes(insts: seq<ToolInstance>, m: nat, i: nat): set<int>
    requires m > 0 && i < |insts|
  {
    set j | j in Interval(0, m * Total(insts)) && ChosenIndex(insts, Target(insts, Grid(insts, m, j))) == i
  }

  // The exact distribution: m times the weight, or m for a weight that is not positive, one more for the first
  // instance and one less for the last.
  lemma Distribution(insts: seq<ToolInstance>, m: nat, i: nat)
    requires m > 0 && i < |insts|
    ensures |Votes(insts, m, i)|
         == (if insts[i].weight > 0 then m * insts[i].weight else m)
          + (if i == 0 then 1 else 0) - (if i == |insts| - 1 then 1 else 0)
  {
    ScaledPrefixes(insts, m, i);
    var lo := if i == 0 then 0 else m * Prefix(insts, i) + 1;
    var hi := if i == |insts| - 1 then m * Total(insts) else m * Prefix(insts, i + 1) + 1;
    VotesAreInterval(insts, m, i, lo, hi);
  }

  lemma ScaledPrefixes(insts: seq<ToolInstance>, m: nat, i: nat)
    requires m > 0 && i < |insts|
    ensures 0 < m * Weight(insts[i])
    ensures m * Prefix(insts, i + 1) == m * Prefix(insts, i) + m * Weight(insts[i])
    ensures i == 0 ==> m * Prefix(insts, i) == 0
    ensures if i == |insts| - 1 then m * Prefix(insts, i + 1) == m * Total(insts)
            else m * Prefix(insts, i + 1) < m * Total(insts)
  {
    PrefixMonotone(insts, i + 1, |insts|);
    Scaled(m, 0, Weight(insts[i]));
    Scaled(m, Prefix(insts, i), Prefix(insts, i + 1));
    Scaled(m, Prefix(insts, i + 1), Total(insts));
  }

  lemma VotesAreInterval(insts: seq<ToolInstance>, m: nat, i: nat, lo: int, hi: int)
    requires m > 0 && i < |insts| && 0 <= lo <= hi <= m * Total(insts)
    requires lo == if i == 0 then 0 else m * Prefix(insts, i) + 1
    requires hi == if i == |insts| - 1 then m * Total(insts) else m * Prefix(insts, i + 1) + 1
    ensures Votes(insts, m, i) == Interval(lo, hi)
  {
    forall j | 0 <= j < m * Total(insts) ensures j in Votes(insts, m, i) <==> lo <= j < hi {
      GridChoice(insts, m, i, j);
    }
  }

  lemma Scaled(m: nat, p: nat, q: nat)
    requires m > 0 && p <= q
    ensures m * q == m * p + m * (q - p)
    ensures if p < q then m * p < m * q else m * p == m * q
  {
    if p < q { assert m * (q - p) > 0; }
  }
}
