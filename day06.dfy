/**
 * Lanternfish (day 6): the school is kept as a histogram of timer values 0..8;
 * each day every timer drops by one and each fish at 0 restarts at 6 and adds
 * a newborn at 8.
 */
module Day06 {
  /** Sum of a sequence of counts. */
  function Sum(s: seq<nat>): nat
  {
    if s == [] then 0 else Sum(s[..|s| - 1]) + s[|s| - 1]
  }

  predicate ValidAges(fishes: seq<nat>)
  {
    forall i :: 0 <= i < |fishes| ==> fishes[i] <= 8
  }

  /** The number of fish per timer value. */
  function Histogram(fishes: seq<nat>): (h: seq<nat>)
    requires ValidAges(fishes)
    ensures |h| == 9
  {
    if fishes == [] then seq(9, _ => 0)
    else
      var h := Histogram(fishes[..|fishes| - 1]);
      var age := fishes[|fishes| - 1];
      h[age := h[age] + 1]
  }

  /** One day: every timer moves down by one, timer 0 goes back to 6 and spawns a fish at 8. */
  function Day(h: seq<nat>): (r: seq<nat>)
    requires |h| == 9
    ensures |r| == 9
  {
    seq(9, i requires 0 <= i < 9 => if i == 8 then h[0] else if i == 6 then h[7] + h[0] else h[i + 1])
  }

  function Grow(h: seq<nat>, days: nat): (r: seq<nat>)
    requires |h| == 9
    ensures |r| == 9
  {
    if days == 0 then h else Day(Grow(h, days - 1))
  }

  /** `simulate_growth`: the number of fish after `days` days. */
  method SimulateGrowth(fishes: seq<nat>, days: nat) returns (total: nat)
    requires ValidAges(fishes)
    ensures total == Sum(Grow(Histogram(fishes), days))
  {
    var histogram := new nat[9](_ => 0);
    for k := 0 to |fishes|
      invariant histogram[..] == Histogram(fishes[..k])
    {
      assert fishes[..k + 1][..k] == fishes[..k];
      ghost var before := histogram[..];
      histogram[fishes[k]] := histogram[fishes[k]] + 1;
      assert histogram[..] == before[fishes[k] := before[fishes[k]] + 1];
    }
    assert fishes[..|fishes|] == fishes;
    var dayNo := 1;
    while dayNo <= days
      invariant 1 <= dayNo <= days + 1 && histogram.Length == 9
      invariant histogram[..] == Grow(Histogram(fishes), dayNo - 1)
    {
      histogram := NextDay(histogram);
      dayNo := dayNo + 1;
    }
    total := 0;
    for k := 0 to 9
      invariant total == Sum(histogram[..k])
    {
      assert histogram[..k + 1][..k] == histogram[..k];
      total := total + histogram[k];
    }
    assert histogram[..9] == histogram[..];
  }

  /** One iteration of the day loop: the histogram of the next day, in a new array. */
  method NextDay(histogram: array<nat>) returns (next: array<nat>)
    requires histogram.Length == 9
    ensures fresh(next) && next[..] == Day(histogram[..])
  {
    next := new nat[9](_ => 0);
    var born := histogram[0];
    for idx := 1 to 9
      invariant forall j :: 0 <= j < idx - 1 ==> next[j] == histogram[j + 1]
      invariant forall j :: idx - 1 <= j < 9 ==> next[j] == 0
    {
      next[idx - 1] := histogram[idx];
    }
    next[8] := next[8] + born;
    next[6] := next[6] + born;
    assert forall j :: 0 <= j < 9 ==> next[j] == Day(histogram[..])[j];
  }

  /** The histogram counts each timer value: entry a is the number of fish with timer a. */
  lemma {:induction false} HistogramCounts(fishes: seq<nat>, a: nat)
    requires ValidAges(fishes) && a <= 8
    ensures Histogram(fishes)[a] == multiset(fishes)[a]
  {
    if fishes != [] {
      var n := |fishes|;
      HistogramCounts(fishes[..n - 1], a);
      assert fishes == fishes[..n - 1] + [fishes[n - 1]];
    }
  }

  lemma {:induction false} SumUpdate(h: seq<nat>, i: nat, v: nat)
    requires i < |h|
    ensures Sum(h[i := v]) == Sum(h) - h[i] + v
  {
    var n := |h|;
    if i < n - 1 {
      assert h[i := v][..n - 1] == h[..n - 1][i := v];
      SumUpdate(h[..n - 1], i, v);
    } else {
      assert h[i := v][..n - 1] == h[..n - 1];
    }
  }

  /** Every fish is counted once: the histogram holds as many fish as the input. */
  lemma {:induction false} HistogramSize(fishes: seq<nat>)
    requires ValidAges(fishes)
    ensures Sum(Histogram(fishes)) == |fishes|
  {
    if fishes == [] {
      SumNine(seq(9, _ => 0));
    } else {
      var n := |fishes|;
      HistogramSize(fishes[..n - 1]);
      var h := Histogram(fishes[..n - 1]);
      SumUpdate(h, fishes[n - 1], h[fishes[n - 1]] + 1);
    }
  }

  function Sum9(h: seq<nat>): nat
    requires |h| == 9
  {
    h[0] + h[1] + h[2] + h[3] + h[4] + h[5] + h[6] + h[7] + h[8]
  }

  lemma SumNine(h: seq<nat>)
    requires |h| == 9
    ensures Sum(h) == Sum9(h)
  {
    assert h[..0] == [];
    SumPrefix(h, 0); SumPrefix(h, 1); SumPrefix(h, 2); SumPrefix(h, 3); SumPrefix(h, 4);
    SumPrefix(h, 5); SumPrefix(h, 6); SumPrefix(h, 7); SumPrefix(h, 8);
    assert h[..9] == h;
  }

  lemma SumPrefix(h: seq<nat>, k: nat)
    requires k < |h|
    ensures Sum(h[..k + 1]) == Sum(h[..k]) + h[k]
  {
    assert h[..k + 1][..k] == h[..k];
  }

  /** A day adds exactly one newborn per fish whose timer was 0, so the school never shrinks. */
  lemma DayGrowth(h: seq<nat>)
    requires |h| == 9
    ensures Sum(Day(h)) == Sum(h) + h[0]
  {
    SumNine(h);
    SumNine(Day(h));
  }

  /** With no days to simulate, the result is the number of fish given. */
  lemma NoDays(fishes: seq<nat>)
    requires ValidAges(fishes)
    ensures Sum(Grow(Histogram(fishes), 0)) == |fishes|
  {
    HistogramSize(fishes);
  }

  /** The population after d + 1 days is the one after d days plus the fish at timer 0 on day d. */
  lemma GrowthStep(h: seq<nat>, days: nat)
    requires |h| == 9
    ensures Sum(Grow(h, days + 1)) == Sum(Grow(h, days)) + Grow(h, days)[0] >= Sum(Grow(h, days))
  {
    DayGrowth(Grow(h, days));
  }
}
