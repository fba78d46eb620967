/**
 * Sonar sweep (day 1): counting how often a depth reading, or a sum of three
 * consecutive readings, is larger than the one before.
 */
module Day01 {
  import opened Utils

  /** The fold step: one more increase when the next reading is larger. */
  function MeasureIncrease(total: nat, pair: (nat, nat)): (r: nat)
    ensures r == total || r == total + 1
    ensures r == total + 1 <==> pair.1 > pair.0
  {
    if pair.1 > pair.0 then total + 1 else total
  }

  /** Left fold of `MeasureIncrease` over the pairs, in order from the first. */
  function FoldIncreases(pairs: seq<(nat, nat)>, total: nat): nat
  {
    if pairs == [] then total
    else MeasureIncrease(FoldIncreases(pairs[..|pairs| - 1], total), pairs[|pairs| - 1])
  }

  function MeasurementIncreases(readings: seq<nat>): nat
  {
    FoldIncreases(ConsecutivePairs(readings), 0)
  }

  /** The sum of a window of readings. */
  function Sum(s: seq<nat>): nat
  {
    if s == [] then 0 else Sum(s[..|s| - 1]) + s[|s| - 1]
  }

  /** `slice::windows(3)`: every run of three consecutive readings, none when there are fewer. */
  function Windows3(readings: seq<nat>): (r: seq<seq<nat>>)
    ensures |readings| < 3 ==> r == []
    ensures |readings| >= 3 ==> |r| == |readings| - 2
    ensures forall i :: 0 <= i < |r| ==> r[i] == readings[i..i + 3]
  {
    if |readings| < 3 then [] else seq(|readings| - 2, i requires 0 <= i < |readings| - 2 => readings[i..i + 3])
  }

  /** Left fold over consecutive windows, comparing their sums. */
  function FoldWindowIncreases(pairs: seq<(seq<nat>, seq<nat>)>, total: nat): nat
  {
    if pairs == [] then total
    else
      var (w, next) := pairs[|pairs| - 1];
      MeasureIncrease(FoldWindowIncreases(pairs[..|pairs| - 1], total), (Sum(w), Sum(next)))
  }

  function MeasurementWindowIncreases(readings: seq<nat>): nat
  {
    FoldWindowIncreases(ConsecutivePairs(Windows3(readings)), 0)
  }

  predicate RiseAt(readings: seq<nat>, i: nat)
    requires i + 1 < |readings|
  {
    readings[i] < readings[i + 1]
  }

  /** Window i + 1 sums to more than window i exactly when readings[i + 3] > readings[i] (see `WindowSums`). */
  predicate WindowRiseAt(readings: seq<nat>, i: nat)
    requires i + 3 < |readings|
  {
    readings[i] < readings[i + 3]
  }

  /** The positions i < k whose successor reading is larger. */
  function RisesBefore(readings: seq<nat>, k: nat): set<nat>
    requires k < |readings|
  {
    set i: nat | i < k && RiseAt(readings, i)
  }

  function WindowRisesBefore(readings: seq<nat>, k: nat): set<nat>
    requires k + 3 <= |readings|
  {
    set i: nat | i < k && WindowRiseAt(readings, i)
  }

  /** Folding over the first k pairs counts the rises among them. */
  lemma {:induction false} FoldCounts(readings: seq<nat>, k: nat)
    requires k < |readings|
    ensures FoldIncreases(ConsecutivePairs(readings)[..k], 0) == |RisesBefore(readings, k)|
  {
    if k > 0 {
      FoldCounts(readings, k - 1);
      FoldStep(readings, k - 1);
      RisesStep(readings, k - 1);
    } else {
      assert RisesBefore(readings, 0) == {};
    }
  }

  lemma FoldStep(readings: seq<nat>, j: nat)
    requires j + 1 < |readings|
    ensures FoldIncreases(ConsecutivePairs(readings)[..j + 1], 0)
         == MeasureIncrease(FoldIncreases(ConsecutivePairs(readings)[..j], 0), (readings[j], readings[j + 1]))
  {
    PairsOf(readings);
    var pairs := ConsecutivePairs(readings);
    assert pairs[..j + 1][..j] == pairs[..j];
  }

  lemma RisesStep(readings: seq<nat>, j: nat)
    requires j + 1 < |readings|
    ensures |RisesBefore(readings, j + 1)| == |RisesBefore(readings, j)| + (if RiseAt(readings, j) then 1 else 0)
  {
    var before, after := RisesBefore(readings, j), RisesBefore(readings, j + 1);
    if RiseAt(readings, j) {
      assert after == before + {j} by {
        assert forall i :: i in after <==> i in before || i == j;
      }
      assert j !in before;
    } else {
      assert after == before by {
        assert forall i :: i in after <==> i in before;
      }
    }
  }

  /** `measurement_increases` counts the positions whose next reading is larger. */
  lemma IncreasesAreRises(readings: seq<nat>)
    requires |readings| >= 1
    ensures MeasurementIncreases(readings) == |RisesBefore(readings, |readings| - 1)|
  {
    PairsOf(readings);
    FoldCounts(readings, |readings| - 1);
    assert ConsecutivePairs(readings)[..|readings| - 1] == ConsecutivePairs(readings);
  }

  lemma {:induction false} FoldBound(pairs: seq<(nat, nat)>, total: nat)
    ensures total <= FoldIncreases(pairs, total) <= total + |pairs|
  {
    if pairs != [] {
      FoldBound(pairs[..|pairs| - 1], total);
    }
  }

  /** At most one increase per adjacent pair, none for fewer than two readings. */
  lemma IncreasesBound(readings: seq<nat>)
    ensures |readings| < 2 ==> MeasurementIncreases(readings) == 0
    ensures |readings| >= 1 ==> MeasurementIncreases(readings) <= |readings| - 1
  {
    PairsOf(readings);
    FoldBound(ConsecutivePairs(readings), 0);
  }

  /** Two overlapping windows share their middle readings, so the later sum is larger iff its new reading beats the dropped one. */
  lemma WindowSums(readings: seq<nat>, i: nat)
    requires i + 3 < |readings|
    ensures Sum(readings[i + 1..i + 4]) > Sum(readings[i..i + 3]) <==> WindowRiseAt(readings, i)
  {
    Sum3(readings[i..i + 3]);
    Sum3(readings[i + 1..i + 4]);
  }

  lemma Sum3(w: seq<nat>)
    requires |w| == 3
    ensures Sum(w) == w[0] + w[1] + w[2]
  {
    assert Sum(w) == Sum(w[..2]) + w[2];
    assert Sum(w[..2]) == Sum(w[..2][..1]) + w[1];
    assert Sum(w[..2][..1]) == Sum(w[..2][..1][..0]) + w[0];
    assert w[..2][..1][..0] == [];
  }

  /** The j-th pair of consecutive windows. */
  lemma WindowPairAt(readings: seq<nat>, j: nat)
    requires j + 4 <= |readings|
    ensures |ConsecutivePairs(Windows3(readings))| == |readings| - 3
    ensures ConsecutivePairs(Windows3(readings))[j] == (readings[j..j + 3], readings[j + 1..j + 4])
  {
    PairsOf(Windows3(readings));
  }

  /** Folding over the first k window pairs counts the window rises among them. */
  lemma {:induction false} WindowFoldCounts(readings: seq<nat>, k: nat)
    requires k + 3 <= |readings|
    ensures FoldWindowIncreases(ConsecutivePairs(Windows3(readings))[..k], 0) == |WindowRisesBefore(readings, k)|
  {
    if k > 0 {
      var pairs := ConsecutivePairs(Windows3(readings));
      var before := FoldWindowIncreases(pairs[..k - 1], 0);
      WindowFoldCounts(readings, k - 1);
      assert before == |WindowRisesBefore(readings, k - 1)|;
      WindowFoldStep(readings, k - 1);
      WindowRisesStep(readings, k - 1);
    } else {
      assert WindowRisesBefore(readings, 0) == {};
    }
  }

  lemma WindowFoldStep(readings: seq<nat>, j: nat)
    requires j + 4 <= |readings|
    ensures FoldWindowIncreases(ConsecutivePairs(Windows3(readings))[..j + 1], 0)
         == MeasureIncrease(FoldWindowIncreases(ConsecutivePairs(Windows3(readings))[..j], 0),
                            (Sum(readings[j..j + 3]), Sum(readings[j + 1..j + 4])))
  {
    var pairs := ConsecutivePairs(Windows3(readings));
    WindowPairAt(readings, j);
    assert pairs[..j + 1][..j] == pairs[..j];
    assert pairs[..j + 1][j] == (readings[j..j + 3], readings[j + 1..j + 4]);
  }

  lemma WindowRisesStep(readings: seq<nat>, j: nat)
    requires j + 4 <= |readings|
    ensures |WindowRisesBefore(readings, j + 1)| == |WindowRisesBefore(readings, j)| + (if Sum(readings[j + 1..j + 4]) > Sum(readings[j..j + 3]) then 1 else 0)
  {
    WindowSums(readings, j);
    if WindowRiseAt(readings, j) {
      assert WindowRisesBefore(readings, j + 1) == WindowRisesBefore(readings, j) + {j};
    } else {
      assert WindowRisesBefore(readings, j + 1) == WindowRisesBefore(readings, j);
    }
  }

  /** `measurement_window_increases` counts the positions i with readings[i + 3] > readings[i]; none for fewer than four readings. */
  lemma WindowIncreasesAreRises(readings: seq<nat>)
    requires |readings| >= 3
    ensures MeasurementWindowIncreases(readings) == |WindowRisesBefore(readings, |readings| - 3)|
    ensures |readings| == 3 ==> MeasurementWindowIncreases(readings) == 0
  {
    var windows := Windows3(readings);
    PairsOf(windows);
    WindowFoldCounts(readings, |readings| - 3);
    assert ConsecutivePairs(windows)[..|readings| - 3] == ConsecutivePairs(windows);
    assert WindowRisesBefore(readings, 0) == {};
  }

  /** Fewer than three readings give no window at all. */
  lemma WindowIncreasesShort(readings: seq<nat>)
    requires |readings| < 3
    ensures MeasurementWindowIncreases(readings) == 0
  {
  }
}
