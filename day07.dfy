/**
 * The Treachery of Whales (day 7): crabs at integer positions must line up on
 * one position; moving costs fuel given by a cost function of the start and
 * the target.  The generic search tries every target from 0 to the largest
 * position; the linear cost is minimised at a median, found by quickselect
 * over a copy of the positions with a Lomuto partition.
 */
module Day07 {
  import opened Common

  /** `linear_fuel_cost`: |crab - target|. */
  function LinearFuelCost(crab: int, target: int): (r: int)
    ensures r >= 0
    ensures r == 0 <==> crab == target
    ensures r == crab - target || r == target - crab
    ensures crab - target <= r && target - crab <= r
  {
    if crab >= target then crab - target else target - crab
  }

  lemma LinearCostSymmetric(a: int, b: int)
    ensures LinearFuelCost(a, b) == LinearFuelCost(b, a)
  {
  }

  /** 1 + 2 + ... + n, the cost of moving n steps when every step costs one more than the last. */
  function Triangle(n: nat): nat
  {
    if n == 0 then 0 else Triangle(n - 1) + n
  }

  lemma {:induction false} TriangleClosedForm(n: nat)
    ensures 2 * Triangle(n) == (1 + n) * n
  {
    if n > 0 {
      TriangleClosedForm(n - 1);
      assert (1 + n) * n == n * (n - 1) + 2 * n;
    }
  }

  /** `increasing_fuel_cost`: the closed form n(n+1)/2 of the step-by-step sum for n = |crab - target|. */
  function IncreasingFuelCost(crab: int, target: int): (r: int)
    ensures r == Triangle(LinearFuelCost(crab, target))
    ensures r == 0 <==> crab == target
  {
    var linearCost := LinearFuelCost(crab, target);
    TriangleClosedForm(linearCost);
    if linearCost > 0 then ((1 + linearCost) * linearCost) / 2 else 0
  }

  /** `fuel_cost_for_move`: the fuel all crabs spend to reach `target`. */
  function FuelCostForMove(positions: seq<int>, target: int, cost: (int, int) -> int): int
  {
    if positions == [] then 0
    else FuelCostForMove(positions[..|positions| - 1], target, cost) + cost(positions[|positions| - 1], target)
  }

  /** The sum of |x - target| over the positions, the cost the median minimises. */
  function LinearCost(positions: seq<int>, target: int): int
  {
    FuelCostForMove(positions, target, LinearFuelCost)
  }

  function MaxPosition(positions: seq<int>): (m: int)
    requires positions != []
    ensures forall i :: 0 <= i < |positions| ==> positions[i] <= m
    ensures exists i :: 0 <= i < |positions| && positions[i] == m
  {
    if |positions| == 1 then positions[0]
    else
      var rest := MaxPosition(positions[..|positions| - 1]);
      assert forall i :: 0 <= i < |positions| - 1 ==> positions[..|positions| - 1][i] == positions[i];
      Max(rest, positions[|positions| - 1])
  }

  /**
   * `min_by_key` over an enumeration: the index of the first smallest entry
   * (a later entry replaces the candidate only when strictly smaller).
   */
  function FirstMinimum(costs: seq<int>): (i: nat)
    requires costs != []
    ensures i < |costs|
    ensures forall j :: 0 <= j < |costs| ==> costs[i] <= costs[j]
    ensures forall j :: 0 <= j < i ==> costs[j] > costs[i]
  {
    if |costs| == 1 then 0
    else
      var front := costs[..|costs| - 1];
      var best := FirstMinimum(front);
      assert forall j :: 0 <= j < |front| ==> front[j] == costs[j];
      if costs[|costs| - 1] < costs[best] then |costs| - 1 else best
  }

  /**
   * `optimal_crab_alignment_generic`: the first target in 0..=max with the
   * least total fuel, and that fuel.  The program panics when there are no
   * crabs or when the range 0..=max is empty.
   */
  function OptimalCrabAlignmentGeneric(positions: seq<int>, cost: (int, int) -> int): (r: (nat, int))
    requires positions != [] && MaxPosition(positions) >= 0
    ensures r.0 <= MaxPosition(positions)
    ensures r.1 == FuelCostForMove(positions, r.0, cost)
    ensures forall p :: 0 <= p <= MaxPosition(positions) ==> r.1 <= FuelCostForMove(positions, p, cost)
    ensures forall p :: 0 <= p < r.0 ==> FuelCostForMove(positions, p, cost) > r.1
  {
    var maxX := MaxPosition(positions);
    var positionCosts := seq(maxX + 1, p => FuelCostForMove(positions, p, cost));
    var best := FirstMinimum(positionCosts);
    assert forall p :: 0 <= p <= maxX ==> positionCosts[p] == FuelCostForMove(positions, p, cost);
    (best, positionCosts[best])
  }

  // Counting below a value: the order statistics used by quickselect.

  /** The number of elements of `s` strictly below `v`; `Below(s, v + 1)` counts those at most `v`. */
  function Below(s: seq<int>, v: int): (n: nat)
    ensures n <= |s|
  {
    if s == [] then 0 else Below(s[..|s| - 1], v) + (if s[|s| - 1] < v then 1 else 0)
  }

  /** `v` is the k-th smallest element (0-based) of `s`. */
  predicate IsKth(s: seq<int>, k: nat, v: int)
  {
    Below(s, v) <= k < Below(s, v + 1)
  }

  lemma {:induction false} BelowConcat(a: seq<int>, b: seq<int>, v: int)
    ensures Below(a + b, v) == Below(a, v) + Below(b, v)
    decreases |b|
  {
    if b == [] {
      assert a + b == a;
    } else {
      var b' := b[..|b| - 1];
      assert (a + b)[..|a + b| - 1] == a + b';
      BelowConcat(a, b', v);
    }
  }

  lemma {:induction false} BelowPermutation(s: seq<int>, t: seq<int>, v: int)
    requires multiset(s) == multiset(t)
    ensures Below(s, v) == Below(t, v)
    decreases |s|
  {
    if s == [] {
      assert |t| == |multiset(t)| == 0;
    } else {
      var s' := s[..|s| - 1];
      var j := RemoveLast(s, t);
      BelowPermutation(s', t[..j] + t[j + 1..], v);
      BelowRemove(t, j, v);
    }
  }

  /** The last element of s sits at some j in its permutation t, and the rests are permutations of each other. */
  lemma RemoveLast(s: seq<int>, t: seq<int>) returns (j: nat)
    requires s != [] && multiset(s) == multiset(t)
    ensures j < |t| && t[j] == s[|s| - 1]
    ensures multiset(s[..|s| - 1]) == multiset(t[..j] + t[j + 1..])
  {
    var x := s[|s| - 1];
    assert s == s[..|s| - 1] + [x];
    assert x in multiset(t);
    j :| 0 <= j < |t| && t[j] == x;
    assert t == t[..j] + [x] + t[j + 1..];
    assert multiset(t[..j] + t[j + 1..]) == multiset(t) - multiset{x};
  }

  /** Taking out the element at j removes exactly its own contribution. */
  lemma BelowRemove(t: seq<int>, j: nat, v: int)
    requires j < |t|
    ensures Below(t, v) == Below(t[..j] + t[j + 1..], v) + (if t[j] < v then 1 else 0)
  {
    assert t == t[..j] + ([t[j]] + t[j + 1..]);
    BelowConcat(t[..j], [t[j]] + t[j + 1..], v);
    BelowConcat([t[j]], t[j + 1..], v);
    BelowConcat(t[..j], t[j + 1..], v);
    assert [t[j]][..0] == [];
  }

  lemma {:induction false} BelowMonotone(s: seq<int>, v: int, w: int)
    requires v <= w
    ensures Below(s, v) <= Below(s, w)
  {
    if s != [] {
      BelowMonotone(s[..|s| - 1], v, w);
    }
  }

  /** When every element from position k on is at least v, at most k elements lie below v. */
  lemma {:induction false} BelowAtMost(s: seq<int>, v: int, k: nat)
    requires k <= |s|
    requires forall j :: k <= j < |s| ==> v <= s[j]
    ensures Below(s, v) <= k
  {
    if |s| > k {
      var s' := s[..|s| - 1];
      assert forall j :: k <= j < |s'| ==> s'[j] == s[j];
      BelowAtMost(s', v, k);
    }
  }

  /** When every element before position k is below v, at least k elements lie below v. */
  lemma {:induction false} BelowAtLeast(s: seq<int>, v: int, k: nat)
    requires k <= |s|
    requires forall i :: 0 <= i < k ==> s[i] < v
    ensures k <= Below(s, v)
  {
    if |s| > 0 {
      var s' := s[..|s| - 1];
      if k == |s| {
        assert forall i :: 0 <= i < k - 1 ==> s'[i] == s[i];
        BelowAtLeast(s', v, k - 1);
      } else {
        assert forall i :: 0 <= i < k ==> s'[i] == s[i];
        BelowAtLeast(s', v, k);
      }
    }
  }

  /** Every element before position m is at most every element from m on. */
  ghost predicate SplitAt(s: seq<int>, m: nat)
  {
    forall i, j :: 0 <= i < m <= j < |s| ==> s[i] <= s[j]
  }

  /** An element that no element before it exceeds and no element after it undercuts sits at its rank. */
  lemma RankOfSplit(s: seq<int>, k: nat)
    requires k < |s|
    requires SplitAt(s, k) && SplitAt(s, k + 1)
    ensures IsKth(s, k, s[k])
  {
    BelowAtMost(s, s[k], k);
    BelowAtLeast(s, s[k] + 1, k + 1);
  }

  /** Ranks are ordered: a smaller rank never has a larger value. */
  lemma KthOrdered(s: seq<int>, k1: nat, v1: int, k2: nat, v2: int)
    requires k1 <= k2 && IsKth(s, k1, v1) && IsKth(s, k2, v2)
    ensures v1 <= v2
  {
    if v2 < v1 {
      BelowMonotone(s, v2 + 1, v1);
    }
  }

  // The Lomuto partition and quickselect, on an array as the program's slices.

  /** `slice.swap` on a[lo..hi]: exchanges two entries, so the slice keeps its elements. */
  method Swap(a: array<int>, lo: nat, hi: nat, i: nat, j: nat)
    requires lo <= i < hi && lo <= j < hi && hi <= a.Length
    modifies a
    ensures a[i] == old(a[j]) && a[j] == old(a[i])
    ensures forall k :: 0 <= k < a.Length && k != i && k != j ==> a[k] == old(a[k])
    ensures multiset(a[lo..hi]) == old(multiset(a[lo..hi]))
  {
    ghost var s := a[..];
    a[i], a[j] := a[j], a[i];
    assert a[..] == s[i := s[j]][j := s[i]];
    assert a[lo..hi] == s[lo..hi][i - lo := s[j]][j - lo := s[i]];
  }

  /**
   * `partition_pivot` on the slice a[lo..hi] with the pivot at offset
   * `pivotIdx`: the pivot ends at the returned offset p, everything before it
   * is at most the pivot and everything after it is larger; the slice is
   * permuted and the rest of the array untouched.
   */
  method PartitionPivot(a: array<int>, lo: nat, hi: nat, pivotIdx: nat) returns (p: nat)
    requires lo + pivotIdx < hi <= a.Length
    modifies a
    ensures p < hi - lo
    ensures a[lo + p] == old(a[lo + pivotIdx])
    ensures forall i :: lo <= i < lo + p ==> a[i] <= a[lo + p]
    ensures forall i :: lo + p < i < hi ==> a[i] > a[lo + p]
    ensures multiset(a[lo..hi]) == old(multiset(a[lo..hi]))
    ensures forall i :: 0 <= i < a.Length && !(lo <= i < hi) ==> a[i] == old(a[i])
  {
    var pivotVal := a[lo + pivotIdx];
    Swap(a, lo, hi, lo + pivotIdx, hi - 1);
    var nextIdx := 0;
    for idx := 0 to hi - lo - 1
      invariant nextIdx <= idx
      invariant a[hi - 1] == pivotVal
      invariant forall i :: lo <= i < lo + nextIdx ==> a[i] <= pivotVal
      invariant forall i :: lo + nextIdx <= i < lo + idx ==> a[i] > pivotVal
      invariant multiset(a[lo..hi]) == old(multiset(a[lo..hi]))
      invariant forall i :: 0 <= i < a.Length && !(lo <= i < hi) ==> a[i] == old(a[i])
    {
      if a[lo + idx] <= pivotVal {
        Swap(a, lo, hi, lo + idx, lo + nextIdx);
        nextIdx := nextIdx + 1;
      }
    }
    Swap(a, lo, hi, lo + nextIdx, hi - 1);
    p := nextIdx;
  }

  /** Permuting a[lo..hi] keeps the whole array's multiset and the splits at lo and hi. */
  lemma SlicePermuted(s: seq<int>, t: seq<int>, lo: nat, hi: nat)
    requires lo <= hi <= |s| == |t|
    requires multiset(t[lo..hi]) == multiset(s[lo..hi])
    requires forall i :: 0 <= i < |s| && !(lo <= i < hi) ==> t[i] == s[i]
    requires SplitAt(s, lo) && SplitAt(s, hi)
    ensures multiset(t) == multiset(s)
    ensures SplitAt(t, lo) && SplitAt(t, hi)
  {
    assert s == s[..lo] + s[lo..hi] + s[hi..];
    assert t == t[..lo] + t[lo..hi] + t[hi..];
    assert t[..lo] == s[..lo] && t[hi..] == s[hi..];
    forall j | lo <= j < hi
      ensures exists j' :: lo <= j' < hi && t[j] == s[j']
    {
      assert t[j] == t[lo..hi][j - lo];
      assert t[j] in multiset(s[lo..hi]);
      var k :| 0 <= k < hi - lo && s[lo..hi][k] == t[j];
      assert s[lo + k] == t[j];
    }
  }

  /** A partitioned slice splits the array just before and just after its pivot. */
  lemma PivotSplits(t: seq<int>, lo: nat, hi: nat, q: nat)
    requires lo <= q < hi <= |t|
    requires SplitAt(t, lo) && SplitAt(t, hi)
    requires forall i :: lo <= i < q ==> t[i] <= t[q]
    requires forall i :: q < i < hi ==> t[i] > t[q]
    ensures SplitAt(t, q) && SplitAt(t, q + 1)
  {
  }

  /** The element at position k of a split permutation of `s` is the k-th smallest of `s`. */
  lemma KthFound(t: seq<int>, s: seq<int>, k: nat)
    requires k < |t| && multiset(t) == multiset(s)
    requires SplitAt(t, k) && SplitAt(t, k + 1)
    ensures IsKth(s, k, t[k])
  {
    RankOfSplit(t, k);
    BelowPermutation(t, s, t[k]);
    BelowPermutation(t, s, t[k] + 1);
  }

  /** One round of quickselect: partition a[lo..hi], which then splits the array around the pivot. */
  method PartitionRound(a: array<int>, lo: nat, hi: nat, pivotIdx: nat) returns (p: nat)
    requires lo + pivotIdx < hi <= a.Length
    requires SplitAt(a[..], lo) && SplitAt(a[..], hi)
    modifies a
    ensures lo + p < hi
    ensures multiset(a[..]) == old(multiset(a[..]))
    ensures SplitAt(a[..], lo) && SplitAt(a[..], hi)
    ensures SplitAt(a[..], lo + p) && SplitAt(a[..], lo + p + 1)
  {
    ghost var before := a[..];
    p := PartitionPivot(a, lo, hi, pivotIdx);
    SlicePermuted(before, a[..], lo, hi);
    PivotSplits(a[..], lo, hi, lo + p);
  }

  /** Quickselect's loop: `draws` are the random pivot choices, one per partition. */
  method Select(a: array<int>, k: nat, draws: seq<nat>) returns (r: Option<int>, used: nat)
    requires a.Length > 0
    modifies a
    ensures r.Some? ==> IsKth(old(a[..]), Min(k, a.Length - 1), r.value)
    ensures used <= |draws| && (r.None? ==> used == |draws|)
  {
    ghost var original := a[..];
    ghost var target := Min(k, a.Length - 1);
    var lo, hi, rank := 0, a.Length, k;
    var d := 0;
    while true
      invariant 0 <= lo < hi <= a.Length && d <= |draws|
      invariant lo + Min(rank, hi - lo - 1) == target
      invariant multiset(a[..]) == multiset(original)
      invariant SplitAt(a[..], lo) && SplitAt(a[..], hi)
      decreases |draws| - d
    {
      if hi - lo == 1 {
        var v := a[lo];
        ghost var t := a[..];
        assert t[lo] == v && lo == target;
        KthFound(t, original, lo);
        return Some(v), d;
      }
      if d == |draws| {
        return None, d;
      }
      var pivotIdx := draws[d] % (hi - lo);
      d := d + 1;
      var p := PartitionRound(a, lo, hi, pivotIdx);
      if p > rank {
        hi := lo + p;
      } else if p == rank {
        var v := a[lo + p];
        assert Min(rank, hi - lo - 1) == p;
        ghost var t := a[..];
        assert t[lo + p] == v && lo + p == target;
        KthFound(t, original, lo + p);
        return Some(v), d;
      } else {
        lo := lo + p;
        rank := rank - p;
      }
    }
  }

  /**
   * `find_kth_element` as written: the early exit for k = 0 returns the
   * first element of the collection rather than the smallest.  Later rounds
   * keep k positive, so that exit is only ever taken before any partition.
   * `draws` are the random pivot choices; None when they run out.
   */
  method FindKthElement(collection: seq<int>, k: nat, draws: seq<nat>) returns (r: Option<int>, used: nat)
    requires collection != []
    ensures k == 0 ==> r == Some(collection[0]) && used == 0
    ensures k > 0 && r.Some? ==> IsKth(collection, Min(k, |collection| - 1), r.value)
    ensures used <= |draws| && (r.None? ==> used == |draws|)
  {
    var copied := new int[|collection|](i requires 0 <= i < |collection| => collection[i]);
    assert copied[..] == collection;
    if k == 0 {
      return Some(copied[0]), 0;
    }
    r, used := Select(copied, k, draws);
  }

  /** The early exit of `FindKthElement` gives 5 as the 0-th smallest of [5, 1], whose 0-th smallest is 1. */
  lemma FirstIsNotSmallest()
    ensures !IsKth([5, 1], 0, 5) && IsKth([5, 1], 0, 1)
  {
    assert [5, 1][..1] == [5];
    assert [5][..0] == [];
  }

  /**
   * `find_kth_element` without the early exit: the k-th smallest element
   * (the largest for k past the end) whenever the pivot choices suffice.
   */
  method FindKthElementCorrected(collection: seq<int>, k: nat, draws: seq<nat>) returns (r: Option<int>, used: nat)
    requires collection != []
    ensures r.Some? ==> IsKth(collection, Min(k, |collection| - 1), r.value)
    ensures used <= |draws| && (r.None? ==> used == |draws|)
  {
    var copied := new int[|collection|](i requires 0 <= i < |collection| => collection[i]);
    assert copied[..] == collection;
    r, used := Select(copied, k, draws);
  }

  /** `lower` and `upper` are the two middle elements of a list of even length. */
  predicate MiddlePair(positions: seq<int>, lower: int, upper: int)
  {
    |positions| >= 2 && IsKth(positions, |positions| / 2 - 1, lower) && IsKth(positions, |positions| / 2, upper)
  }

  /** isize division, which truncates towards zero. */
  function HalfTowardsZero(x: int): int
  {
    if x >= 0 then x / 2 else -((-x) / 2)
  }

  lemma HalfBetween(lower: int, upper: int)
    requires lower <= upper
    ensures lower <= HalfTowardsZero(lower + upper) <= upper
  {
  }

  /** One crab at x: moving the target up from v to m costs m - v more when x <= v and at most m - v less otherwise. */
  lemma {:induction false} MoveUp(positions: seq<int>, v: int, m: int)
    requires v <= m
    ensures LinearCost(positions, m) - LinearCost(positions, v)
            >= (m - v) * (2 * Below(positions, v + 1) - |positions|)
  {
    if positions != [] {
      var front, x := positions[..|positions| - 1], positions[|positions| - 1];
      MoveUp(front, v, m);
      var b := if x < v + 1 then 1 else 0;
      assert LinearCost(positions, m) == LinearCost(front, m) + LinearFuelCost(x, m);
      assert LinearCost(positions, v) == LinearCost(front, v) + LinearFuelCost(x, v);
      assert 2 * Below(positions, v + 1) - |positions| == (2 * Below(front, v + 1) - |front|) + (2 * b - 1);
      Distribute(m - v, 2 * Below(front, v + 1) - |front|, 2 * b - 1);
      assert LinearFuelCost(x, m) - LinearFuelCost(x, v) >= (m - v) * (2 * b - 1) by {
        if b == 1 {
          assert (m - v) * (2 * b - 1) == m - v;
        } else {
          assert (m - v) * (2 * b - 1) == v - m;
        }
      }
    }
  }

  lemma {:induction false} MoveDown(positions: seq<int>, v: int, m: int)
    requires m <= v
    ensures LinearCost(positions, m) - LinearCost(positions, v)
            >= (v - m) * (2 * (|positions| - Below(positions, v)) - |positions|)
  {
    if positions != [] {
      var front, x := positions[..|positions| - 1], positions[|positions| - 1];
      MoveDown(front, v, m);
      var b := if x < v then 0 else 1;
      assert LinearCost(positions, m) == LinearCost(front, m) + LinearFuelCost(x, m);
      assert LinearCost(positions, v) == LinearCost(front, v) + LinearFuelCost(x, v);
      assert 2 * (|positions| - Below(positions, v)) - |positions| == (2 * (|front| - Below(front, v)) - |front|) + (2 * b - 1);
      Distribute(v - m, 2 * (|front| - Below(front, v)) - |front|, 2 * b - 1);
      assert LinearFuelCost(x, m) - LinearFuelCost(x, v) >= (v - m) * (2 * b - 1) by {
        if b == 1 {
          assert (v - m) * (2 * b - 1) == v - m;
        } else {
          assert (v - m) * (2 * b - 1) == m - v;
        }
      }
    }
  }

  lemma Distribute(d: int, a: int, b: int)
    ensures d * (a + b) == d * a + d * b
  {
  }

  lemma NonNegativeProduct(x: int, y: int)
    requires x >= 0 && y >= 0
    ensures x * y >= 0
  {
  }

  /** A target with at least half the crabs at or below it and at least half at or above it minimises the linear cost. */
  lemma MedianOptimal(positions: seq<int>, v: int, m: int)
    requires 2 * Below(positions, v + 1) >= |positions|
    requires 2 * (|positions| - Below(positions, v)) >= |positions|
    ensures LinearCost(positions, v) <= LinearCost(positions, m)
  {
    if v <= m {
      MoveUp(positions, v, m);
      NonNegativeProduct(m - v, 2 * Below(positions, v + 1) - |positions|);
    } else {
      MoveDown(positions, v, m);
      NonNegativeProduct(v - m, 2 * (|positions| - Below(positions, v)) - |positions|);
    }
  }

  /**
   * `optimal_crab_alignment_l1`: the median (the middle element, or the
   * truncated average of the two middle ones) and the linear cost there,
   * which no other target beats.  `draws` feed the quickselect runs (None
   * when they run out).  The program panics on an empty list.
   */
  method OptimalCrabAlignmentL1(positions: seq<int>, draws1: seq<nat>, draws2: seq<nat>) returns (r: Option<(int, int)>)
    requires positions != []
    ensures r.Some? ==> r.value.1 == LinearCost(positions, r.value.0)
    ensures r.Some? ==> forall m :: r.value.1 <= LinearCost(positions, m)
    ensures r.Some? && |positions| % 2 == 1 ==> IsKth(positions, |positions| / 2, r.value.0)
    ensures r.Some? && |positions| % 2 == 0 ==>
              exists lower, upper :: MiddlePair(positions, lower, upper) && r.value.0 == HalfTowardsZero(lower + upper)
  {
    var n := |positions|;
    var median;
    if n % 2 == 1 {
      var m, _ := FindKthElementCorrected(positions, n / 2, draws1);
      if m.None? {
        return None;
      }
      median := m.value;
    } else {
      var m1, _ := FindKthElementCorrected(positions, n / 2, draws1);
      var m2, _ := FindKthElementCorrected(positions, n / 2 - 1, draws2);
      if m1.None? || m2.None? {
        return None;
      }
      KthOrdered(positions, n / 2 - 1, m2.value, n / 2, m1.value);
      median := HalfTowardsZero(m1.value + m2.value);
      assert MiddlePair(positions, m2.value, m1.value) && median == HalfTowardsZero(m2.value + m1.value);
      HalfBetween(m2.value, m1.value);
      BelowMonotone(positions, m2.value + 1, median + 1);
      BelowMonotone(positions, median, m1.value);
    }
    forall m
      ensures LinearCost(positions, median) <= LinearCost(positions, m)
    {
      MedianOptimal(positions, median, m);
    }
    r := Some((median, LinearCost(positions, median)));
  }

  /**
   * The two searches agree: for crabs at non-negative positions the generic
   * search under the linear cost finds the same least fuel as the median.
   */
  lemma GenericMatchesMedian(positions: seq<int>, v: int)
    requires positions != []
    requires forall i :: 0 <= i < |positions| ==> positions[i] >= 0
    requires IsKth(positions, |positions| / 2, v)
    ensures 0 <= v <= MaxPosition(positions)
    ensures OptimalCrabAlignmentGeneric(positions, LinearFuelCost).1 == LinearCost(positions, v)
  {
    MedianInRange(positions, v);
    var r := OptimalCrabAlignmentGeneric(positions, LinearFuelCost);
    MedianOptimal(positions, v, r.0);
  }

  /** A median of non-negative positions lies between 0 and the largest position. */
  lemma MedianInRange(positions: seq<int>, v: int)
    requires positions != []
    requires forall i :: 0 <= i < |positions| ==> positions[i] >= 0
    requires IsKth(positions, |positions| / 2, v)
    ensures 0 <= v <= MaxPosition(positions)
  {
    if v < 0 {
      BelowMonotone(positions, v + 1, 0);
      BelowAtMost(positions, 0, 0);
    }
    if v > MaxPosition(positions) {
      BelowAtLeast(positions, v, |positions|);
    }
  }
}
