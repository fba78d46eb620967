/**
 * The search for model numbers (day 24).  The program does not run the
 * puzzle's MONAD program digit by digit: it relies on MONAD being fourteen
 * blocks of eighteen instructions, one per digit, each reading the digit
 * into w and leaving only z live.  Block i divides z by 1 or by 26 and adds
 * the constants `SUBROUTINE_COEFFS[i]`; the search tries digits depth first
 * and gives up on a branch when z has grown more often than the remaining
 * blocks can shrink it.
 */
module Day24Search {
  import opened Common
  import opened Day24

  const SUBROUTINE_COEFFS: seq<(int, int)> := [
    (12, 6), (10, 6), (13, 3), (-11, 11), (13, 9), (-1, 3), (10, 13),
    (11, 6), (0, 14), (10, 10), (-5, 12), (-16, 10), (-7, 11), (-11, 15)]

  const REMAINING_DROPS: seq<int> := [7, 7, 7, 7, 6, 6, 5, 4, 4, 4, 4, 3, 2, 1]

  /** The digits whose block divides z by 1 ("prog a"); the blocks of the others divide it by 26 ("prog b"). */
  predicate Pushes(depth: int)
  {
    depth == 1 || depth == 2 || depth == 3 || depth == 5 || depth == 7 || depth == 8 || depth == 10
  }

  /**
   * z after the block of digit `depth` reads w, as the program's notes state
   * it: unchanged (prog a) or divided by 26 (prog b) when z % 26 plus the
   * first constant is w; otherwise 26 times that plus w plus the second
   * constant.
   */
  function NextZ(depth: int, z: int, w: int): int
    requires 1 <= depth <= 14 && z >= 0
  {
    var (px, py) := SUBROUTINE_COEFFS[depth - 1];
    var kept := if Pushes(depth) then z else z / 26;
    if z % 26 + px == w then kept else 26 * kept + w + py
  }

  /** How a search ends: with the digits from `depth` on, with nothing found, or in the panic of `bad_branches - 1` at 0. */
  datatype Outcome = Solved(digits: seq<int>) | Failed | Underflow

  /**
   * `search_solution_space` at `depth` with digit w: at depth 15 it succeeds
   * exactly when z is 0; it fails at once when `bad_branches` exceeds
   * `REMAINING_DROPS[depth - 1]`; otherwise w is the digit at `depth` and
   * every digit of the order is tried for the next depth until one succeeds.
   */
  function Search(depth: nat, bad: nat, order: seq<int>, z: int, w: int): Outcome
    requires 1 <= depth <= 15
    decreases 15 - depth, |order| + 1
  {
    if depth == 15 then (if z == 0 then Solved([]) else Failed)
    else if bad > REMAINING_DROPS[depth - 1] then Failed
    else
      match TryDigits(depth, bad, order, z, w, 0)
      case Solved(ds) => Solved([w] + ds)
      case other => other
  }

  /** The loop over the search order, from its k-th digit on; a panic below ends it. */
  function TryDigits(depth: nat, bad: nat, order: seq<int>, z: int, w: int, k: nat): Outcome
    requires 1 <= depth <= 14 && k <= |order|
    decreases 15 - depth, |order| - k
  {
    if k == |order| then Failed
    else
      match Child(depth, bad, order, z, w, order[k])
      case Failed => TryDigits(depth, bad, order, z, w, k + 1)
      case other => other
  }

  /** One turn of that loop: the search one level down, with the branch the program's notes give. */
  function Child(depth: nat, bad: nat, order: seq<int>, z: int, w: int, next: int): Outcome
    requires 1 <= depth <= 14
    decreases 15 - depth, 0
  {
    var (px, py) := SUBROUTINE_COEFFS[depth - 1];
    var c := Rem(z, 26) + px;
    if c == w then
      if Pushes(depth) then Search(depth + 1, bad, order, z, next)
      else if bad == 0 then Underflow
      else Search(depth + 1, bad - 1, order, Quot(z, 26), next)
    else if Pushes(depth) then Search(depth + 1, bad + 1, order, 26 * z + w + py, next)
    else Search(depth + 1, bad, order, 26 * Quot(z, 26) + w + py, next)
  }

  /** What the program's `bool` says of an outcome; None for the panic. */
  function Verdict(o: Outcome): Option<bool>
  {
    match o
    case Solved(_) => Some(true)
    case Failed => Some(false)
    case Underflow => None
  }

  /**
   * `search_solution_space`: writes w to `path[depth - 1]` and recurses.  On
   * success `path` holds the digits from `depth` on; the digits before
   * `depth` are never touched.
   */
  method SearchSolutionSpace(depth: nat, bad: nat, order: seq<int>, z: int, w: int, path: array<int>)
    returns (found: Option<bool>)
    requires 1 <= depth <= 15 && path.Length == 14
    modifies path
    ensures found == Verdict(Search(depth, bad, order, z, w))
    ensures Search(depth, bad, order, z, w).Solved? ==> path[depth - 1..] == Search(depth, bad, order, z, w).digits
    ensures path[..depth - 1] == old(path[..depth - 1])
    decreases 15 - depth
  {
    if depth == 15 {
      return Some(z == 0);
    }
    if bad > REMAINING_DROPS[depth - 1] {
      return Some(false);
    }
    path[depth - 1] := w;
    for k := 0 to |order|
      invariant TryDigits(depth, bad, order, z, w, 0) == TryDigits(depth, bad, order, z, w, k)
      invariant path[..depth] == old(path[..depth - 1]) + [w]
    {
      var result := TryDigit(depth, bad, order, z, w, order[k], path);
      if result != Some(false) {
        SearchStopsAt(depth, bad, order, z, w, k);
        assert path[..depth][depth - 1] == w;
        assert path[depth - 1..] == [w] + path[depth..];
        assert path[..depth - 1] == path[..depth][..depth - 1];
        return result;
      }
    }
    assert path[..depth - 1] == path[..depth][..depth - 1];
    return Some(false);
  }

  /** The search at `depth` ends as the turn of the loop for the k-th digit does when that one does not fail. */
  lemma SearchStopsAt(depth: nat, bad: nat, order: seq<int>, z: int, w: int, k: nat)
    requires 1 <= depth <= 14 && bad <= REMAINING_DROPS[depth - 1] && k < |order|
    requires TryDigits(depth, bad, order, z, w, 0) == TryDigits(depth, bad, order, z, w, k)
    requires !Child(depth, bad, order, z, w, order[k]).Failed?
    ensures Verdict(Search(depth, bad, order, z, w)) == Verdict(Child(depth, bad, order, z, w, order[k]))
    ensures Child(depth, bad, order, z, w, order[k]).Solved?
      ==> Search(depth, bad, order, z, w).digits == [w] + Child(depth, bad, order, z, w, order[k]).digits
  {
    assert TryDigits(depth, bad, order, z, w, k) == Child(depth, bad, order, z, w, order[k]);
  }

  /** The body of the loop of `search_solution_space` for one next digit. */
  method TryDigit(depth: nat, bad: nat, order: seq<int>, z: int, w: int, next: int, path: array<int>)
    returns (result: Option<bool>)
    requires 1 <= depth <= 14 && path.Length == 14
    modifies path
    ensures result == Verdict(Child(depth, bad, order, z, w, next))
    ensures Child(depth, bad, order, z, w, next).Solved? ==> path[depth..] == Child(depth, bad, order, z, w, next).digits
    ensures path[..depth] == old(path[..depth])
    decreases 15 - depth, 0
  {
    var (px, py) := SUBROUTINE_COEFFS[depth - 1];
    var c := Rem(z, 26) + px;
    if c == w {
      if Pushes(depth) {
        result := SearchSolutionSpace(depth + 1, bad, order, z, next, path);
      } else {
        if bad == 0 {
          return None;
        }
        result := SearchSolutionSpace(depth + 1, bad - 1, order, Quot(z, 26), next, path);
      }
    } else {
      if Pushes(depth) {
        result := SearchSolutionSpace(depth + 1, bad + 1, order, 26 * z + w + py, next, path);
      } else {
        result := SearchSolutionSpace(depth + 1, bad, order, 26 * Quot(z, 26) + w + py, next, path);
      }
    }
  }

  /** The loop of `main`: the first digit of the order from which the search succeeds. */
  function FirstSolution(order: seq<int>, k: nat): Outcome
    requires k <= |order|
    decreases |order| - k
  {
    if k == |order| then Failed
    else
      match Search(1, 0, order, 0, order[k])
      case Failed => FirstSolution(order, k + 1)
      case other => other
  }

  /** `main`'s search for a model number: on success `path` holds its fourteen digits. */
  method FindModelNumber(order: seq<int>, path: array<int>) returns (found: Option<bool>)
    requires path.Length == 14
    modifies path
    ensures found == Verdict(FirstSolution(order, 0))
    ensures FirstSolution(order, 0).Solved? ==> path[..] == FirstSolution(order, 0).digits
  {
    for k := 0 to |order|
      invariant FirstSolution(order, 0) == FirstSolution(order, k)
    {
      var result := SearchSolutionSpace(1, 0, order, 0, order[k], path);
      if result != Some(false) {
        assert path[..] == path[0..];
        return result;
      }
    }
    return Some(false);
  }

  // The MONAD program the search assumes

  /** The eighteen instructions of a block dividing z by d, with constants px and py. */
  function BlockOf(d: int, px: int, py: int): (p: seq<Operation>)
    ensures |p| == 18
  {
    [Inp(W), Mul(X, C(0)), Add(X, Z), Mod(X, C(26)), Div(Z, C(d)), Add(X, C(px)), Eql(X, W), Eql(X, C(0)),
     Mul(Y, C(0)), Add(Y, C(25)), Mul(Y, X), Add(Y, C(1)), Mul(Z, Y), Mul(Y, C(0)), Add(Y, W), Add(Y, C(py)),
     Mul(Y, X), Add(Z, Y)]
  }

  /** The block of digit `depth`. */
  function Block(depth: int): (p: seq<Operation>)
    requires 1 <= depth <= 14
    ensures |p| == 18
  {
    BlockOf(if Pushes(depth) then 1 else 26, SUBROUTINE_COEFFS[depth - 1].0, SUBROUTINE_COEFFS[depth - 1].1)
  }

  /** The blocks of the digits from `depth` to 14. */
  function Monad(depth: int): seq<Operation>
    requires 1 <= depth <= 15
    decreases 15 - depth
  {
    if depth == 15 then [] else Block(depth) + Monad(depth + 1)
  }

  function Pow26(n: nat): (r: nat)
    ensures r >= 1
  {
    if n == 0 then 1 else 26 * Pow26(n - 1)
  }

  /** A bound on z under which a block cannot overflow. */
  const Z_BOUND: int := 0x1_0000_0000_0000

  lemma RunStep(p: seq<Operation>, k: nat, m: Memory, tape: seq<int>)
    requires k < |p|
    ensures RunFrom(p[k..], m, tape) == Then(Exec(p[k], m, tape), p[k + 1..])
  {
    assert p[k..][0] == p[k] && p[k..][1..] == p[k + 1..];
  }

  /** The instruction k of a block, when it goes on, hands its registers and tape to the rest of the block. */
  lemma StepOf(d: int, px: int, py: int, k: nat, m: Memory, tape: seq<int>, m': Memory, tape': seq<int>)
    requires k < 18
    requires Exec(BlockOf(d, px, py)[k], m, tape) == Going(m', tape')
    ensures RunFrom(BlockOf(d, px, py)[k..], m, tape) == RunFrom(BlockOf(d, px, py)[k + 1..], m', tape')
  {
    RunStep(BlockOf(d, px, py), k, m, tape);
  }

  /** The first two instructions of a block: w is the digit and x is cleared. */
  lemma BlockInput(d: int, px: int, py: int, m: Memory, w: int, rest: seq<int>)
    requires 1 <= w <= 9
    ensures RunFrom(BlockOf(d, px, py), m, [w] + rest) == RunFrom(BlockOf(d, px, py)[2..], m.(w := w, x := 0), rest)
  {
    assert ([w] + rest)[1..] == rest;
    StepOf(d, px, py, 0, m, [w] + rest, m.(w := w), rest);
    StepOf(d, px, py, 1, m.(w := w), rest, m.(w := w, x := 0), rest);
  }

  /** Instructions 2 and 3 of a block: x is z % 26. */
  lemma BlockRemainder(d: int, px: int, py: int, m: Memory, rest: seq<int>)
    requires 0 <= m.z < Z_BOUND && m.x == 0
    ensures RunFrom(BlockOf(d, px, py)[2..], m, rest) == RunFrom(BlockOf(d, px, py)[4..], m.(x := m.z % 26), rest)
  {
    NonNegativeQuotRem(m.z, 26);
    StepOf(d, px, py, 2, m, rest, m.(x := m.z), rest);
    StepOf(d, px, py, 3, m.(x := m.z), rest, m.(x := m.z % 26), rest);
  }

  /** Instruction 4 of a block: z is divided by d. */
  lemma BlockDivide(d: int, px: int, py: int, m: Memory, rest: seq<int>)
    requires d == 1 || d == 26
    requires 0 <= m.z < Z_BOUND
    ensures RunFrom(BlockOf(d, px, py)[4..], m, rest)
      == RunFrom(BlockOf(d, px, py)[5..], m.(z := if d == 1 then m.z else m.z / 26), rest)
  {
    NonNegativeQuotRem(m.z, d);
    StepOf(d, px, py, 4, m, rest, m.(z := if d == 1 then m.z else m.z / 26), rest);
  }

  /** Instructions 5 to 7 of a block: x is 1 exactly when the digit differs from x plus px. */
  lemma BlockCompare(d: int, px: int, py: int, m: Memory, rest: seq<int>)
    requires -100 <= px <= 100 && 0 <= m.x < 26
    ensures var e := if m.x + px == m.w then 0 else 1;
      RunFrom(BlockOf(d, px, py)[5..], m, rest) == RunFrom(BlockOf(d, px, py)[8..], m.(x := e), rest)
  {
    var e := if m.x + px == m.w then 0 else 1;
    StepOf(d, px, py, 5, m, rest, m.(x := m.x + px), rest);
    StepOf(d, px, py, 6, m.(x := m.x + px), rest, m.(x := 1 - e), rest);
    StepOf(d, px, py, 7, m.(x := 1 - e), rest, m.(x := e), rest);
  }

  /** The first eight instructions of a block: z is divided by d and x is 1 exactly when the test fails. */
  lemma BlockTest(d: int, px: int, py: int, m: Memory, w: int, rest: seq<int>)
    requires d == 1 || d == 26
    requires -100 <= px <= 100 && 0 <= m.z < Z_BOUND && 1 <= w <= 9
    ensures var e := if m.z % 26 + px == w then 0 else 1;
      RunFrom(BlockOf(d, px, py), m, [w] + rest)
        == RunFrom(BlockOf(d, px, py)[8..], m.(w := w, x := e, z := if d == 1 then m.z else m.z / 26), rest)
  {
    var m1 := m.(w := w, x := 0);
    BlockInput(d, px, py, m, w, rest);
    BlockRemainder(d, px, py, m1, rest);
    var m2 := m1.(x := m.z % 26);
    BlockDivide(d, px, py, m2, rest);
    BlockCompare(d, px, py, m2.(z := if d == 1 then m.z else m.z / 26), rest);
  }

  /** Instructions 8 and 9 of a block: y is 25. */
  lemma BlockClear(d: int, px: int, py: int, m: Memory, rest: seq<int>)
    ensures RunFrom(BlockOf(d, px, py)[8..], m, rest) == RunFrom(BlockOf(d, px, py)[10..], m.(y := 25), rest)
  {
    StepOf(d, px, py, 8, m, rest, m.(y := 0), rest);
    StepOf(d, px, py, 9, m.(y := 0), rest, m.(y := 25), rest);
  }

  /** Instructions 10 and 11 of a block: y is 26 when the test failed and 1 otherwise. */
  lemma BlockFactor(d: int, px: int, py: int, m: Memory, rest: seq<int>)
    requires m.y == 25 && (m.x == 0 || m.x == 1)
    ensures var y := if m.x == 0 then 1 else 26;
      RunFrom(BlockOf(d, px, py)[10..], m, rest) == RunFrom(BlockOf(d, px, py)[12..], m.(y := y), rest)
  {
    var y := if m.x == 0 then 1 else 26;
    StepOf(d, px, py, 10, m, rest, m.(y := y - 1), rest);
    StepOf(d, px, py, 11, m.(y := y - 1), rest, m.(y := y), rest);
  }

  /** Instructions 12 to 14 of a block: z is scaled by y, then y is the digit. */
  lemma BlockScale(d: int, px: int, py: int, m: Memory, rest: seq<int>)
    requires 0 <= m.z < Z_BOUND && (m.y == 1 || m.y == 26) && 1 <= m.w <= 9
    ensures RunFrom(BlockOf(d, px, py)[12..], m, rest)
      == RunFrom(BlockOf(d, px, py)[15..], m.(y := m.w, z := if m.y == 1 then m.z else 26 * m.z), rest)
  {
    var m1 := m.(z := if m.y == 1 then m.z else 26 * m.z);
    StepOf(d, px, py, 12, m, rest, m1, rest);
    StepOf(d, px, py, 13, m1, rest, m1.(y := 0), rest);
    StepOf(d, px, py, 14, m1.(y := 0), rest, m1.(y := m.w), rest);
  }

  /** The last three instructions of a block: w plus py is added to z when the test failed. */
  lemma BlockAdd(d: int, px: int, py: int, m: Memory, rest: seq<int>)
    requires 0 <= py <= 100 && 0 <= m.z <= 26 * Z_BOUND && 1 <= m.y <= 9 && (m.x == 0 || m.x == 1)
    ensures var s := RunFrom(BlockOf(d, px, py)[15..], m, rest);
      s.Going? && s.tape == rest && s.mem.z == if m.x == 0 then m.z else m.z + m.y + py
  {
    var y := if m.x == 0 then 0 else m.y + py;
    StepOf(d, px, py, 15, m, rest, m.(y := m.y + py), rest);
    StepOf(d, px, py, 16, m.(y := m.y + py), rest, m.(y := y), rest);
    StepOf(d, px, py, 17, m.(y := y), rest, m.(y := y, z := m.z + y), rest);
    assert BlockOf(d, px, py)[18..] == [];
  }

  /** A block with free constants: z is divided by d, then grows by a factor 26 plus w plus py when the test fails. */
  lemma BlockOfComputes(d: int, px: int, py: int, m: Memory, w: int, rest: seq<int>)
    requires d == 1 || d == 26
    requires -100 <= px <= 100 && 0 <= py <= 100 && 0 <= m.z < Z_BOUND && 1 <= w <= 9
    ensures var s := RunFrom(BlockOf(d, px, py), m, [w] + rest);
      s.Going? && s.tape == rest
      && s.mem.z == if m.z % 26 + px == w then m.z / d else 26 * (m.z / d) + w + py
  {
    var e := if m.z % 26 + px == w then 0 else 1;
    var q := if d == 1 then m.z else m.z / 26;
    assert q == m.z / d && 0 <= q <= m.z;
    BlockTest(d, px, py, m, w, rest);
    var m1 := m.(w := w, x := e, z := q);
    BlockClear(d, px, py, m1, rest);
    BlockFactor(d, px, py, m1.(y := 25), rest);
    var y := if e == 0 then 1 else 26;
    BlockScale(d, px, py, m1.(y := y), rest);
    BlockAdd(d, px, py, m1.(y := w, z := if y == 1 then q else 26 * q), rest);
  }

  /** The constants of every block are small. */
  lemma CoeffsSmall(depth: int)
    requires 1 <= depth <= 14
    ensures -16 <= SUBROUTINE_COEFFS[depth - 1].0 <= 13 && 3 <= SUBROUTINE_COEFFS[depth - 1].1 <= 15
  {
  }

  /** A block reads one digit and leaves in z what the program's notes say. */
  lemma BlockComputes(depth: int, m: Memory, w: int, rest: seq<int>)
    requires 1 <= depth <= 14 && 0 <= m.z < Z_BOUND && 1 <= w <= 9
    ensures var s := RunFrom(Block(depth), m, [w] + rest);
      s.Going? && s.tape == rest && s.mem.z == NextZ(depth, m.z, w)
  {
    var px := SUBROUTINE_COEFFS[depth - 1].0;
    var py := SUBROUTINE_COEFFS[depth - 1].1;
    var d := if Pushes(depth) then 1 else 26;
    CoeffsSmall(depth);
    BlockOfComputes(d, px, py, m, w, rest);
  }

  // Soundness of the search

  /** The outcome of the loop over the order, unless it failed, is that of one of its digits. */
  lemma {:induction false} TryDigitsSolved(depth: nat, bad: nat, order: seq<int>, z: int, w: int, k: nat) returns (j: nat)
    requires 1 <= depth <= 14 && k <= |order| && TryDigits(depth, bad, order, z, w, k).Solved?
    ensures k <= j < |order| && Child(depth, bad, order, z, w, order[j]) == TryDigits(depth, bad, order, z, w, k)
    decreases |order| - k
  {
    if Child(depth, bad, order, z, w, order[k]).Failed? {
      j := TryDigitsSolved(depth, bad, order, z, w, k + 1);
    } else {
      j := k;
    }
  }

  /**
   * Unless it panics, a turn of the search loop searches from the z that
   * the block leaves, and z stays below 26 to the power of one more than
   * the count of `bad_branches`.
   */
  lemma ChildIsNext(depth: nat, bad: nat, order: seq<int>, z: int, w: int, next: int) returns (bad': nat)
    requires 1 <= depth <= 14 && 0 <= z < Pow26(bad + 1) && 1 <= w <= 9
    ensures Child(depth, bad, order, z, w, next) == Underflow
      || (Child(depth, bad, order, z, w, next) == Search(depth + 1, bad', order, NextZ(depth, z, w), next)
          && 0 <= NextZ(depth, z, w) < Pow26(bad' + 1))
  {
    var (px, py) := SUBROUTINE_COEFFS[depth - 1];
    CoeffsSmall(depth);
    NonNegativeQuotRem(z, 26);
    StackBounds(z, Pow26(bad), w + py);
    if z % 26 + px == w {
      bad' := if Pushes(depth) || bad == 0 then bad else bad - 1;
    } else {
      bad' := if Pushes(depth) then bad + 1 else bad;
    }
  }

  /** Pushing onto, popping from or replacing the top of a stack of base-26 digits below p digits' worth. */
  lemma StackBounds(z: int, p: int, k: int)
    requires 0 <= z < 26 * p && 0 <= k < 26
    ensures z / 26 < p && 26 * (z / 26) + k < 26 * p && 26 * z + k < 26 * (26 * p)
  {
    assert 26 * (z / 26) <= z;
  }

  /** No block runs with more than seven `bad_branches`, and 26 to the eighth is below `Z_BOUND`. */
  lemma {:induction false} StackFits(n: nat)
    requires n <= 8
    ensures Pow26(n) <= Pow26(8) < Z_BOUND
    decreases 8 - n
  {
    if n < 8 {
      StackFits(n + 1);
    } else {
      assert Pow26(8) == 208827064576;
    }
  }

  /** The drops left never exceed seven. */
  lemma DropsSmall(depth: int)
    requires 1 <= depth <= 14
    ensures REMAINING_DROPS[depth - 1] <= 7
  {
  }

  /** The blocks from `depth` on: the block of `depth` reads the first digit and hands registers holding the z of `NextZ` to the blocks after it. */
  lemma MonadRead(depth: int, m: Memory, ds: seq<int>, rest: seq<int>) returns (m': Memory)
    requires 1 <= depth <= 14 && 0 <= m.z < Z_BOUND && |ds| > 0 && 1 <= ds[0] <= 9
    ensures m'.z == NextZ(depth, m.z, ds[0])
    ensures RunFrom(Monad(depth), m, ds + rest) == RunFrom(Monad(depth + 1), m', ds[1..] + rest)
  {
    var tail := ds[1..] + rest;
    assert ds + rest == [ds[0]] + tail;
    BlockComputes(depth, m, ds[0], tail);
    RunAppend(Block(depth), Monad(depth + 1), m, [ds[0]] + tail);
    m' := RunFrom(Block(depth), m, [ds[0]] + tail).mem;
  }

  /**
   * The same on accepted digits: the blocks after `depth` start from
   * registers whose z accepts the other digits.
   */
  lemma MonadStep(depth: int, m: Memory, ds: seq<int>, rest: seq<int>) returns (m': Memory)
    requires 1 <= depth <= 14 && Accepted(depth, m.z, ds)
    ensures Accepted(depth + 1, m'.z, ds[1..])
    ensures RunFrom(Monad(depth), m, ds + rest) == RunFrom(Monad(depth + 1), m', ds[1..] + rest)
  {
    m' := MonadRead(depth, m, ds, rest);
  }

  /**
   * A successful search below depth 15 took a digit of the order for the
   * next depth, and succeeded there from the z of `NextZ`, which stays under
   * the bound.
   */
  lemma SolvedStep(depth: nat, bad: nat, order: seq<int>, z: int, w: int) returns (j: nat, bad': nat)
    requires 1 <= depth <= 14 && 0 <= z < Pow26(bad + 1) && 1 <= w <= 9
    requires Search(depth, bad, order, z, w).Solved?
    ensures j < |order| && 0 <= z < Z_BOUND && 0 <= NextZ(depth, z, w) < Pow26(bad' + 1)
    ensures Search(depth + 1, bad', order, NextZ(depth, z, w), order[j]).Solved?
    ensures Search(depth, bad, order, z, w).digits == [w] + Search(depth + 1, bad', order, NextZ(depth, z, w), order[j]).digits
  {
    j := TryDigitsSolved(depth, bad, order, z, w, 0);
    bad' := ChildIsNext(depth, bad, order, z, w, order[j]);
    DropsSmall(depth);
    StackFits(bad + 1);
  }

  /**
   * The digits ds, read by the blocks from `depth` on starting from z, are
   * each from 1 to 9 and bring z to 0 by the program's notes, with z below
   * the bound before every block.
   */
  predicate Accepted(depth: int, z: int, ds: seq<int>)
    requires 1 <= depth <= 15
    decreases 15 - depth
  {
    if depth == 15 then ds == [] && z == 0
    else |ds| > 0 && 1 <= ds[0] <= 9 && 0 <= z < Z_BOUND && Accepted(depth + 1, NextZ(depth, z, ds[0]), ds[1..])
  }

  /** A successful search from `depth` found digits the blocks from `depth` on accept, the first being w. */
  lemma {:induction false} SolvedAccepted(depth: nat, bad: nat, order: seq<int>, z: int, w: int)
    requires 1 <= depth <= 15 && 0 <= z < Pow26(bad + 1)
    requires depth < 15 ==> 1 <= w <= 9
    requires forall i :: 0 <= i < |order| ==> 1 <= order[i] <= 9
    requires Search(depth, bad, order, z, w).Solved?
    ensures Accepted(depth, z, Search(depth, bad, order, z, w).digits)
    ensures depth < 15 ==> Search(depth, bad, order, z, w).digits[0] == w
    decreases 15 - depth
  {
    if depth < 15 {
      var ds := Search(depth, bad, order, z, w).digits;
      var j, bad' := SolvedStep(depth, bad, order, z, w);
      SolvedAccepted(depth + 1, bad', order, NextZ(depth, z, w), order[j]);
      assert ds[1..] == Search(depth + 1, bad', order, NextZ(depth, z, w), order[j]).digits;
    }
  }

  /** Accepted digits number one per block left, each from 1 to 9. */
  lemma {:induction false} AcceptedDigits(depth: int, z: int, ds: seq<int>)
    requires 1 <= depth <= 15 && Accepted(depth, z, ds)
    ensures |ds| == 15 - depth && forall i :: 0 <= i < |ds| ==> 1 <= ds[i] <= 9
    decreases 15 - depth
  {
    if depth < 15 {
      AcceptedDigits(depth + 1, NextZ(depth, z, ds[0]), ds[1..]);
      assert forall i :: 1 <= i < |ds| ==> ds[i] == ds[1..][i - 1];
    }
  }

  /**
   * The blocks from `depth` on, run by the ALU from registers holding z on
   * accepted digits, read every digit and end with z at 0.
   */
  lemma {:induction false} AcceptedRunsMonad(depth: int, m: Memory, ds: seq<int>, rest: seq<int>)
    requires 1 <= depth <= 15 && Accepted(depth, m.z, ds)
    ensures var s := RunFrom(Monad(depth), m, ds + rest);
      s.Going? && s.mem.z == 0 && s.tape == rest
    decreases 15 - depth
  {
    if depth == 15 {
      assert ds + rest == rest;
    } else {
      var m1 := MonadStep(depth, m, ds, rest);
      AcceptedRunsMonad(depth + 1, m1, ds[1..], rest);
    }
  }

  /** `main`'s outcome, unless it failed, is the search from one digit of the order. */
  lemma {:induction false} FirstSolutionSolved(order: seq<int>, k: nat) returns (j: nat)
    requires k <= |order| && FirstSolution(order, k).Solved?
    ensures k <= j < |order| && Search(1, 0, order, 0, order[j]) == FirstSolution(order, k)
    decreases |order| - k
  {
    if Search(1, 0, order, 0, order[k]).Failed? {
      j := FirstSolutionSolved(order, k + 1);
    } else {
      j := k;
    }
  }

  /**
   * MONAD, run by the ALU on fourteen accepted digits from registers whose z
   * is 0 (the zeroed registers of `execute` among them), reads them all and
   * ends with z at 0.
   */
  lemma MonadAccepts(m: Memory, ds: seq<int>)
    requires m.z == 0 && Accepted(1, m.z, ds)
    ensures var s := RunFrom(Monad(1), m, ds);
      s.Going? && s.tape == [] && s.mem.z == 0 && Day24.Outcome(s) == Ok(s.mem)
  {
    assert ds + [] == ds;
    AcceptedRunsMonad(1, m, ds, []);
  }

  /**
   * The model number the program prints is valid: fourteen digits from 1 to
   * 9 that the blocks accept, so that MONAD, run by the ALU, reads them all
   * and ends with z at 0 (`MonadAccepts`).
   */
  lemma ModelNumberAccepted(order: seq<int>)
    requires forall i :: 0 <= i < |order| ==> 1 <= order[i] <= 9
    requires FirstSolution(order, 0).Solved?
    ensures var ds := FirstSolution(order, 0).digits;
      Accepted(1, 0, ds) && |ds| == 14 && forall i :: 0 <= i < 14 ==> 1 <= ds[i] <= 9
  {
    var j := FirstSolutionSolved(order, 0);
    SolvedAccepted(1, 0, order, 0, order[j]);
    AcceptedDigits(1, 0, FirstSolution(order, 0).digits);
  }

  // The search never reaches the panic of `bad_branches - 1`

  /**
   * The number of blocks before `depth` whose block divides z by 1, less
   * the number of those that divide it by 26: how often z has grown, at
   * least, when every block dividing by 1 grows it.
   */
  function Height(depth: int): int
    requires 1 <= depth <= 15
    decreases depth
  {
    if depth == 1 then 0 else Height(depth - 1) + (if Pushes(depth - 1) then 1 else -1)
  }

  /** Before every block dividing z by 26, more blocks have divided it by 1 than by 26. */
  lemma PopsAfterPushes(depth: int)
    requires 1 <= depth <= 14 && !Pushes(depth)
    ensures Height(depth) >= 1
  {
    assert Height(4) == 3 && Height(6) == 3 && Height(9) == 4 && Height(11) == 4;
    assert Height(12) == 3 && Height(13) == 2 && Height(14) == 1;
  }

  /**
   * From a non-negative z, a block dividing z by 1 never passes its test:
   * its first constant is at least 10, above every digit.
   */
  lemma PushMisses(depth: int, z: int, w: int)
    requires 1 <= depth <= 14 && Pushes(depth) && z >= 0 && 1 <= w <= 9
    ensures Rem(z, 26) + SUBROUTINE_COEFFS[depth - 1].0 != w
  {
    NonNegativeQuotRem(z, 26);
  }

  /**
   * A search whose `bad_branches` is at least the `Height` of its depth,
   * from a non-negative z and digits from 1 to 9, never decrements a
   * `bad_branches` of 0.
   */
  lemma {:induction false} SearchNoUnderflow(depth: nat, bad: nat, order: seq<int>, z: int, w: int)
    requires 1 <= depth <= 15 && bad >= Height(depth) && z >= 0 && 1 <= w <= 9
    requires forall i :: 0 <= i < |order| ==> 1 <= order[i] <= 9
    ensures Search(depth, bad, order, z, w) != Underflow
    decreases 15 - depth, |order| + 1
  {
    if depth < 15 && bad <= REMAINING_DROPS[depth - 1] {
      TryDigitsNoUnderflow(depth, bad, order, z, w, 0);
    }
  }

  /** The loop over the order, under the same conditions, never panics. */
  lemma {:induction false} TryDigitsNoUnderflow(depth: nat, bad: nat, order: seq<int>, z: int, w: int, k: nat)
    requires 1 <= depth <= 14 && k <= |order| && bad >= Height(depth) && z >= 0 && 1 <= w <= 9
    requires forall i :: 0 <= i < |order| ==> 1 <= order[i] <= 9
    ensures TryDigits(depth, bad, order, z, w, k) != Underflow
    decreases 15 - depth, |order| - k
  {
    if k < |order| {
      ChildNoUnderflow(depth, bad, order, z, w, order[k]);
      TryDigitsNoUnderflow(depth, bad, order, z, w, k + 1);
    }
  }

  /**
   * One turn of the loop never panics: a block dividing by 1 always grows z
   * (`PushMisses`) and so `bad_branches`, and a block dividing by 26 is
   * reached with `bad_branches` at least 1 (`PopsAfterPushes`).
   */
  lemma {:induction false} ChildNoUnderflow(depth: nat, bad: nat, order: seq<int>, z: int, w: int, next: int)
    requires 1 <= depth <= 14 && bad >= Height(depth) && z >= 0 && 1 <= w <= 9 && 1 <= next <= 9
    requires forall i :: 0 <= i < |order| ==> 1 <= order[i] <= 9
    ensures Child(depth, bad, order, z, w, next) != Underflow
    decreases 15 - depth, 0
  {
    var (px, py) := SUBROUTINE_COEFFS[depth - 1];
    CoeffsSmall(depth);
    NonNegativeQuotRem(z, 26);
    if Pushes(depth) {
      PushMisses(depth, z, w);
      SearchNoUnderflow(depth + 1, bad + 1, order, 26 * z + w + py, next);
    } else {
      PopsAfterPushes(depth);
      if Rem(z, 26) + px == w {
        SearchNoUnderflow(depth + 1, bad - 1, order, Quot(z, 26), next);
      } else {
        SearchNoUnderflow(depth + 1, bad, order, 26 * Quot(z, 26) + w + py, next);
      }
    }
  }

  /**
   * `main`'s searches, started at depth 1 with `bad_branches` 0 and z 0 on
   * an order of digits from 1 to 9, never panic: the program's `bool` is
   * always defined.
   */
  lemma {:induction false} FirstSolutionNoUnderflow(order: seq<int>, k: nat)
    requires k <= |order| && forall i :: 0 <= i < |order| ==> 1 <= order[i] <= 9
    ensures FirstSolution(order, k) != Underflow
    ensures Verdict(FirstSolution(order, k)).Some?
    decreases |order| - k
  {
    if k < |order| {
      SearchNoUnderflow(1, 0, order, 0, order[k]);
      FirstSolutionNoUnderflow(order, k + 1);
    }
  }
}
