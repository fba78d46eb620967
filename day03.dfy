/**
 * Binary diagnostic (day 3): the report is read twice, as rows of bits
 * ("horizontals") and as columns ("verticals", the transpose).  Power
 * consumption takes the majority bit of every column; the life-support search
 * repeatedly partitions the candidate rows on one column, swapping the columns
 * along with the rows so that the two views stay transposes of each other.
 */
module Day03 {
  import opened Common
  import opened Text

  /** A row of the report as bits: '1' is set, every other character clear. */
  function Bits(line: string): (r: seq<bool>)
    ensures |r| == |line| && forall k :: 0 <= k < |line| ==> (r[k] <==> line[k] == '1')
  {
    seq(|line|, k requires 0 <= k < |line| => line[k] == '1')
  }

  /** `BitField::load` of a most-significant-first bit sequence. */
  function Load(bits: seq<bool>): nat
  {
    if bits == [] then 0 else 2 * Load(bits[..|bits| - 1]) + (if bits[|bits| - 1] then 1 else 0)
  }

  /** The number of set bits. */
  function CountOnes(bits: seq<bool>): (r: nat)
    ensures r <= |bits|
  {
    if bits == [] then 0 else CountOnes(bits[..|bits| - 1]) + (if bits[|bits| - 1] then 1 else 0)
  }

  /** Column `j` as `report_verticals` builds it: bit j of every line long enough to have one, in line order. */
  function Column(lines: seq<string>, j: nat): seq<bool>
  {
    if lines == [] then []
    else
      var last := lines[|lines| - 1];
      Column(lines[..|lines| - 1], j) + (if j < |last| then [last[j] == '1'] else [])
  }

  predicate Rectangular(rows: seq<seq<bool>>, width: nat)
  {
    forall i :: 0 <= i < |rows| ==> |rows[i]| == width
  }

  /** `cols` is the transpose of `rows`. */
  predicate Transposed(rows: seq<seq<bool>>, cols: seq<seq<bool>>)
  {
    Rectangular(rows, |cols|) &&
    (forall j :: 0 <= j < |cols| ==> |cols[j]| == |rows|) &&
    (forall i, j :: 0 <= i < |rows| && 0 <= j < |cols| ==> cols[j][i] == rows[i][j])
  }

  /** No line is longer than the first, so every character has a column. */
  predicate FitsFirstLine(lines: seq<string>)
  {
    lines != [] && forall i :: 0 <= i < |lines| ==> |lines[i]| <= |lines[0]|
  }

  /** `report_verticals`: one column per character of the first line, each collecting that bit of every line. */
  method ReportVerticals(report: string) returns (verticals: seq<seq<bool>>)
    requires FitsFirstLine(Lines(report))
    ensures |verticals| == |Lines(report)[0]|
    ensures forall j :: 0 <= j < |verticals| ==> verticals[j] == Column(Lines(report), j)
  {
    var lines := Lines(report);
    var width := |lines[0]|;
    verticals := seq(width, _ => []);
    for n := 0 to |lines|
      invariant |verticals| == width
      invariant forall j :: 0 <= j < width ==> verticals[j] == Column(lines[..n], j)
    {
      var line := lines[n];
      assert lines[..n + 1][..n] == lines[..n];
      for index := 0 to |line|
        invariant |verticals| == width
        invariant forall j :: 0 <= j < index ==> verticals[j] == Column(lines[..n + 1], j)
        invariant forall j :: index <= j < width ==> verticals[j] == Column(lines[..n], j)
      {
        verticals := verticals[index := verticals[index] + [line[index] == '1']];
      }
    }
    assert lines[..|lines|] == lines;
  }

  /** With lines of equal width, the columns are the transpose of the rows. */
  lemma {:induction false} ColumnsTranspose(lines: seq<string>, j: nat)
    requires forall i :: 0 <= i < |lines| ==> j < |lines[i]|
    ensures |Column(lines, j)| == |lines|
    ensures forall i :: 0 <= i < |lines| ==> (Column(lines, j)[i] <==> lines[i][j] == '1')
  {
    if lines != [] {
      ColumnsTranspose(lines[..|lines| - 1], j);
    }
  }

  /** `power_consumption`: gamma has bit j set when ones outnumber zeros in column j, epsilon when zeros outnumber ones. */
  method PowerConsumption(report: string) returns (power: nat)
    requires FitsFirstLine(Lines(report)) && 1 <= |Lines(report)[0]| <= 64
    ensures power == Product(Load(Gamma(Lines(report))), Load(Epsilon(Lines(report))))
  {
    var verticals := ReportVerticals(report);
    ghost var lines := Lines(report);
    var gamma, epsilon := [], [];
    for j := 0 to |verticals|
      invariant gamma == Rates(lines, j, true) && epsilon == Rates(lines, j, false)
    {
      var ones := CountOnes(verticals[j]);
      var zeros := |verticals[j]| - ones;
      assert verticals[j] == Column(lines, j);
      RatesAppend(lines, j, true);
      RatesAppend(lines, j, false);
      gamma := gamma + [ones > zeros];
      epsilon := epsilon + [zeros > ones];
    }
    power := Product(Load(gamma), Load(epsilon));
  }

  /** Bit `k` of gamma (majority is one) or of epsilon (majority is zero). */
  function RateBit(lines: seq<string>, k: nat, majority: bool): bool
  {
    var col := Column(lines, k);
    var ones := CountOnes(col);
    var zeros := |col| - ones;
    if majority then ones > zeros else zeros > ones
  }

  /** The first `j` bits of gamma or epsilon. */
  function Rates(lines: seq<string>, j: nat, majority: bool): (r: seq<bool>)
    ensures |r| == j
  {
    seq(j, k requires 0 <= k < j => RateBit(lines, k, majority))
  }

  lemma RatesAppend(lines: seq<string>, j: nat, majority: bool)
    ensures Rates(lines, j + 1, majority) == Rates(lines, j, majority) + [RateBit(lines, j, majority)]
  {
  }

  function Gamma(lines: seq<string>): seq<bool>
    requires lines != []
  {
    Rates(lines, |lines[0]|, true)
  }

  function Epsilon(lines: seq<string>): seq<bool>
    requires lines != []
  {
    Rates(lines, |lines[0]|, false)
  }

  /** A gamma bit and an epsilon bit are never both set; both are clear exactly on a tie. */
  lemma RatesExclusive(lines: seq<string>, j: nat, k: nat)
    requires k < j
    ensures !(Rates(lines, j, true)[k] && Rates(lines, j, false)[k])
    ensures !Rates(lines, j, true)[k] && !Rates(lines, j, false)[k] <==>
            2 * CountOnes(Column(lines, k)) == |Column(lines, k)|
  {
  }

  lemma LoadAppend(bits: seq<bool>, b: bool)
    ensures Load(bits + [b]) == 2 * Load(bits) + if b then 1 else 0
  {
    assert (bits + [b])[..|bits|] == bits;
  }

  /** Without ties, epsilon is the bitwise complement of gamma, so the two rates add up to 2^width - 1. */
  lemma {:induction false} ComplementRates(lines: seq<string>, j: nat)
    requires forall k :: 0 <= k < j ==> 2 * CountOnes(Column(lines, k)) != |Column(lines, k)|
    ensures Load(Rates(lines, j, true)) + Load(Rates(lines, j, false)) == Pow2(j) - 1
  {
    if j > 0 {
      ComplementRates(lines, j - 1);
      RatesAppend(lines, j - 1, true);
      RatesAppend(lines, j - 1, false);
      LoadAppend(Rates(lines, j - 1, true), RateBit(lines, j - 1, true));
      LoadAppend(Rates(lines, j - 1, false), RateBit(lines, j - 1, false));
    }
  }

  /** Swapping two entries of a sequence. */
  function Swap<T>(s: seq<T>, a: nat, b: nat): (r: seq<T>)
    requires a < |s| && b < |s|
    ensures |r| == |s| && multiset(r) == multiset(s)
  {
    s[a := s[b]][b := s[a]]
  }

  /**
   * `partition_report`: moves the first `len` rows whose bit `index` equals
   * `bit` to the front, swapping the same two entries of every column with
   * each row swap, and returns how many rows matched.
   */
  method PartitionReport(h: array<seq<bool>>, len: nat, v: array<seq<bool>>, index: nat, bit: bool) returns (c: nat)
    requires h != v && len <= h.Length
    requires forall i :: 0 <= i < len ==> index < |h[i]| <= v.Length
    requires forall j :: 0 <= j < v.Length ==> |v[j]| >= len
    modifies h, v
    ensures c <= len && h[len..] == old(h[len..])
    ensures multiset(h[..len]) == multiset(old(h[..len]))
    ensures forall i :: 0 <= i < len ==> index < |h[i]| <= v.Length
    ensures forall i :: 0 <= i < c ==> h[i][index] == bit
    ensures forall i :: c <= i < len ==> h[i][index] != bit
    ensures Transposed(old(h[..]), old(v[..])) ==> Transposed(h[..], v[..])
  {
    ghost var transposed := Transposed(h[..], v[..]);
    c := 0;
    for i := 0 to len
      invariant c <= i && h[len..] == old(h[len..])
      invariant multiset(h[..len]) == multiset(old(h[..len]))
      invariant forall k :: 0 <= k < len ==> index < |h[k]| <= v.Length
      invariant forall j :: 0 <= j < v.Length ==> |v[j]| == |old(v[j])|
      invariant forall k :: 0 <= k < c ==> h[k][index] == bit
      invariant forall k :: c <= k < i ==> h[k][index] != bit
      invariant transposed ==> Transposed(h[..], v[..])
    {
      c := PartitionStep(h, v, c, i, len, index, bit, transposed);
    }
  }

  /** One iteration of the partition loop: row i joins the matching prefix when its bit matches. */
  method PartitionStep(h: array<seq<bool>>, v: array<seq<bool>>, c: nat, i: nat, len: nat, index: nat, bit: bool, ghost transposed: bool)
    returns (c': nat)
    requires h != v && c <= i < len <= h.Length
    requires forall k :: 0 <= k < len ==> index < |h[k]| <= v.Length
    requires forall j :: 0 <= j < v.Length ==> |v[j]| >= len
    requires forall k :: 0 <= k < c ==> h[k][index] == bit
    requires forall k :: c <= k < i ==> h[k][index] != bit
    requires transposed ==> Transposed(h[..], v[..])
    modifies h, v
    ensures c' <= i + 1 && h[len..] == old(h[len..])
    ensures multiset(h[..len]) == multiset(old(h[..len]))
    ensures forall k :: 0 <= k < len ==> index < |h[k]| <= v.Length
    ensures forall j :: 0 <= j < v.Length ==> |v[j]| == |old(v[j])|
    ensures forall k :: 0 <= k < c' ==> h[k][index] == bit
    ensures forall k :: c' <= k < i + 1 ==> h[k][index] != bit
    ensures transposed ==> Transposed(h[..], v[..])
  {
    if h[i][index] == bit {
      ghost var before := h[..];
      SwapRows(h, v, c, i, len, transposed);
      SwapPrefix(before, c, i, len);
      c' := c + 1;
    } else {
      c' := c;
    }
  }

  /** A swap inside the first `len` entries permutes them and leaves the rest alone. */
  lemma SwapPrefix<T>(s: seq<T>, a: nat, b: nat, len: nat)
    requires a < len && b < len && len <= |s|
    ensures Swap(s, a, b)[..len] == Swap(s[..len], a, b)
    ensures Swap(s, a, b)[len..] == s[len..]
  {
  }

  /** One row swap of the partition, mirrored in every column. */
  method SwapRows(h: array<seq<bool>>, v: array<seq<bool>>, a: nat, b: nat, len: nat, ghost transposed: bool)
    requires h != v && a <= b < len <= h.Length
    requires forall k :: 0 <= k < len ==> |h[k]| <= v.Length
    requires forall j :: 0 <= j < v.Length ==> |v[j]| >= len
    requires transposed ==> Transposed(h[..], v[..])
    modifies h, v
    ensures h[..] == Swap(old(h[..]), a, b)
    ensures forall j :: 0 <= j < v.Length ==> |v[j]| == |old(v[j])|
    ensures transposed ==> Transposed(h[..], v[..])
  {
    var row := h[a];
    h[a] := h[b];
    h[b] := row;
    for j := 0 to |h[b]|
      invariant h[..] == Swap(old(h[..]), a, b)
      invariant forall k :: 0 <= k < v.Length ==> |v[k]| == |old(v[k])|
      invariant forall k :: 0 <= k < j ==> v[k] == Swap(old(v[k]), a, b)
      invariant forall k :: j <= k < v.Length ==> v[k] == old(v[k])
    {
      v[j] := Swap(v[j], a, b);
    }
    if transposed {
      assert |h[b]| == v.Length;
      forall i, j | 0 <= i < h.Length && 0 <= j < v.Length
        ensures v[j][i] == h[i][j]
      {
        assert v[j] == Swap(old(v[j]), a, b);
      }
    }
  }

  /** The rows of `rows` whose bit `index` equals `bit`, in order. */
  function Keep(rows: seq<seq<bool>>, index: nat, bit: bool): (r: seq<seq<bool>>)
    ensures |r| <= |rows|
  {
    if rows == [] then []
    else
      var last := rows[|rows| - 1];
      Keep(rows[..|rows| - 1], index, bit) + (if index < |last| && last[index] == bit then [last] else [])
  }

  lemma {:induction false} KeepCount(rows: seq<seq<bool>>, index: nat, bit: bool, x: seq<bool>)
    ensures multiset(Keep(rows, index, bit))[x] == if index < |x| && x[index] == bit then multiset(rows)[x] else 0
  {
    if rows != [] {
      var n := |rows|;
      var prefix, last := rows[..n - 1], rows[n - 1];
      KeepCount(prefix, index, bit, x);
      assert rows == prefix + [last];
      assert multiset(rows)[x] == multiset(prefix)[x] + multiset([last])[x];
      var tail := if index < |last| && last[index] == bit then [last] else [];
      assert Keep(rows, index, bit) == Keep(prefix, index, bit) + tail;
      assert multiset(Keep(rows, index, bit))[x] == multiset(Keep(prefix, index, bit))[x] + multiset(tail)[x];
    }
  }

  /** Which rows are kept depends only on which rows there are, not on their order. */
  lemma KeepPermutation(a: seq<seq<bool>>, b: seq<seq<bool>>, index: nat, bit: bool)
    requires multiset(a) == multiset(b)
    ensures multiset(Keep(a, index, bit)) == multiset(Keep(b, index, bit))
  {
    forall x ensures multiset(Keep(a, index, bit))[x] == multiset(Keep(b, index, bit))[x] {
      KeepCount(a, index, bit, x);
      KeepCount(b, index, bit, x);
    }
  }

  /**
   * The bit criteria of the search: the oxygen generator rating keeps the more
   * common bit (ones on a tie), the CO2 scrubber rating the less common one
   * (zeros on a tie).  `Co2` is the CO2 rule as `search_variable` writes it,
   * `Co2Intended` the rule it evidently means.
   */
  datatype Rule = Oxygen | Co2 | Co2Intended

  /** The rule `search_variable` applies: `inverse` selects CO2. */
  function Written(inverse: bool): Rule
  {
    if inverse then Co2 else Oxygen
  }

  /** The intended rules: CO2 keeps a bit that all remaining candidates share instead of dropping them all. */
  function Intended(inverse: bool): Rule
  {
    if inverse then Co2Intended else Oxygen
  }

  /** The bit to keep, given the ones and zeros among the candidates in the current column. */
  function Condition(ones: nat, zeros: nat, rule: Rule): bool
  {
    match rule
    case Oxygen => ones >= zeros
    case Co2 => ones < zeros
    case Co2Intended => if ones == 0 then false else if zeros == 0 then true else ones < zeros
  }

  /**
   * The candidate rows once the search has looked at i columns of a report
   * `width` columns wide: it stops narrowing when one candidate is left, and
   * looking at a column past the last one panics (None).
   */
  function Candidates(rows: seq<seq<bool>>, width: nat, i: nat, rule: Rule): Option<seq<seq<bool>>>
  {
    if i == 0 then Some(rows) else Step(Candidates(rows, width, i - 1, rule), width, i - 1, rule)
  }

  /** The search goes on from the candidates so far, unless it has already panicked. */
  function Step(o: Option<seq<seq<bool>>>, width: nat, col: nat, rule: Rule): Option<seq<seq<bool>>>
  {
    match o
    case None => None
    case Some(c) => Narrow(c, width, col, rule)
  }

  /** One step of the search at column `col`. */
  function Narrow(c: seq<seq<bool>>, width: nat, col: nat, rule: Rule): Option<seq<seq<bool>>>
  {
    if |c| == 1 then Some(c)
    else if col >= width then None
    else
      var ones := |Keep(c, col, true)|;
      Some(Keep(c, col, Condition(ones, |c| - ones, rule)))
  }


  /** The count of ones of a column prefix equals the number of rows with that bit set. */
  lemma {:induction false} OnesInColumn(rows: seq<seq<bool>>, col: seq<bool>, j: nat, n: nat)
    requires n <= |rows| && n <= |col|
    requires forall i :: 0 <= i < n ==> j < |rows[i]| && col[i] == rows[i][j]
    ensures CountOnes(col[..n]) == |Keep(rows[..n], j, true)|
  {
    if n > 0 {
      OnesInColumn(rows, col, j, n - 1);
      assert col[..n][..n - 1] == col[..n - 1];
      assert rows[..n][..n - 1] == rows[..n - 1];
    }
  }

  /** Rows partitioned on a bit: keeping that bit gives exactly the matching prefix. */
  lemma {:induction false} KeepPartitioned(rows: seq<seq<bool>>, index: nat, bit: bool, c: nat)
    requires c <= |rows|
    requires forall k :: 0 <= k < |rows| ==> index < |rows[k]|
    requires forall k :: 0 <= k < c ==> rows[k][index] == bit
    requires forall k :: c <= k < |rows| ==> rows[k][index] != bit
    ensures Keep(rows, index, bit) == rows[..c]
  {
    assert rows == rows[..c] + rows[c..];
    KeepConcat(rows[..c], rows[c..], index, bit);
    KeepAll(rows[..c], index, bit);
    KeepNone(rows[c..], index, bit);
  }

  lemma {:induction false} KeepConcat(a: seq<seq<bool>>, b: seq<seq<bool>>, index: nat, bit: bool)
    ensures Keep(a + b, index, bit) == Keep(a, index, bit) + Keep(b, index, bit)
  {
    if b != [] {
      var n := |b|;
      KeepConcat(a, b[..n - 1], index, bit);
      assert (a + b)[..|a + b| - 1] == a + b[..n - 1];
    } else {
      assert a + b == a;
    }
  }

  lemma {:induction false} KeepAll(rows: seq<seq<bool>>, index: nat, bit: bool)
    requires forall k :: 0 <= k < |rows| ==> index < |rows[k]| && rows[k][index] == bit
    ensures Keep(rows, index, bit) == rows
  {
    if rows != [] {
      KeepAll(rows[..|rows| - 1], index, bit);
    }
  }

  lemma {:induction false} KeepNone(rows: seq<seq<bool>>, index: nat, bit: bool)
    requires forall k :: 0 <= k < |rows| ==> index < |rows[k]| && rows[k][index] != bit
    ensures Keep(rows, index, bit) == []
  {
    if rows != [] {
      KeepNone(rows[..|rows| - 1], index, bit);
    }
  }



  /** Once one candidate is left, later columns change nothing. */
  lemma {:induction false} Settled(rows: seq<seq<bool>>, width: nat, i: nat, j: nat, rule: Rule)
    requires i <= j
    requires Candidates(rows, width, i, rule).Some? && |Candidates(rows, width, i, rule).value| == 1
    ensures Candidates(rows, width, j, rule) == Candidates(rows, width, i, rule)
  {
    if i < j {
      Settled(rows, width, i, j - 1, rule);
    }
  }

  /** A panic is final. */
  lemma {:induction false} Panicked(rows: seq<seq<bool>>, width: nat, i: nat, j: nat, rule: Rule)
    requires i <= j && Candidates(rows, width, i, rule).None?
    ensures Candidates(rows, width, j, rule).None?
  {
    if i < j {
      Panicked(rows, width, i, j - 1, rule);
    }
  }

  /** Looking at no more columns than there are never panics. */
  lemma {:induction false} WithinWidth(rows: seq<seq<bool>>, width: nat, i: nat, rule: Rule)
    requires i <= width
    ensures Candidates(rows, width, i, rule).Some?
  {
    if i > 0 {
      WithinWidth(rows, width, i - 1, rule);
    }
  }

  /**
   * `search_variable` with the loop bound as a parameter: it narrows the
   * candidate rows h[..searchSet] column by column until one is left or the
   * bound is reached, and loads the first row.  Indexing a column past the last
   * one panics, which is the None result.
   */
  method SearchColumns(v: array<seq<bool>>, h: array<seq<bool>>, rule: Rule, bound: nat) returns (r: Option<nat>)
    requires h != v && 1 <= h.Length && 1 <= v.Length <= 64
    requires Transposed(h[..], v[..])
    modifies h, v
    ensures Transposed(h[..], v[..]) && multiset(h[..]) == multiset(old(h[..]))
    ensures r.None? <==> Candidates(old(h[..]), v.Length, bound, rule).None?
    ensures r.Some? ==> r.value == Load(h[0]) && |Candidates(old(h[..]), v.Length, bound, rule).value| <= h.Length
    ensures r.Some? ==> multiset(h[..|Candidates(old(h[..]), v.Length, bound, rule).value|])
                         == multiset(Candidates(old(h[..]), v.Length, bound, rule).value)
  {
    ghost var rows := h[..];
    var searchSet := h.Length;
    var i := 0;
    assert h[..searchSet] == rows;
    while i < bound
      invariant i <= bound && searchSet <= h.Length
      invariant Transposed(h[..], v[..]) && multiset(h[..]) == multiset(rows)
      invariant Candidates(rows, v.Length, i, rule).Some?
      invariant searchSet == |Candidates(rows, v.Length, i, rule).value|
      invariant multiset(h[..searchSet]) == multiset(Candidates(rows, v.Length, i, rule).value)
    {
      if searchSet == 1 {
        Settled(rows, v.Length, i, bound, rule);
        break;
      }
      if i >= v.Length {
        Panicked(rows, v.Length, i + 1, bound, rule);
        return None;
      }
      searchSet := NarrowColumn(v, h, rule, i, searchSet, rows);
      i := i + 1;
    }
    r := Some(Load(h[0]));
  }

  /** The ones counted in a column prefix are the candidates with that bit set. */
  lemma CountCandidates(rows: seq<seq<bool>>, col: seq<bool>, c: seq<seq<bool>>, i: nat, n: nat)
    requires n <= |rows| && n <= |col| && multiset(rows[..n]) == multiset(c)
    requires forall k :: 0 <= k < n ==> i < |rows[k]| && col[k] == rows[k][i]
    ensures CountOnes(col[..n]) == |Keep(c, i, true)|
  {
    OnesInColumn(rows, col, i, n);
    KeepPermutation(rows[..n], c, i, true);
    assert |multiset(Keep(rows[..n], i, true))| == |multiset(Keep(c, i, true))|;
  }

  /** After partitioning the first `len` rows, the first `m` are the kept candidates and the rows as a whole are permuted. */
  lemma Narrowed(before: seq<seq<bool>>, after: seq<seq<bool>>, c: seq<seq<bool>>, i: nat, bit: bool, len: nat, m: nat)
    requires |before| == |after| && m <= len <= |before|
    requires multiset(before[..len]) == multiset(c)
    requires multiset(after[..len]) == multiset(before[..len]) && after[len..] == before[len..]
    requires forall k :: 0 <= k < len ==> i < |after[k]|
    requires forall k :: 0 <= k < m ==> after[k][i] == bit
    requires forall k :: m <= k < len ==> after[k][i] != bit
    ensures multiset(after) == multiset(before)
    ensures multiset(after[..m]) == multiset(Keep(c, i, bit)) && m == |Keep(c, i, bit)|
  {
    assert before == before[..len] + before[len..];
    assert after == after[..len] + after[len..];
    KeepPartitioned(after[..len], i, bit, m);
    assert after[..len][..m] == after[..m];
    KeepPermutation(after[..len], c, i, bit);
    assert |multiset(after[..m])| == |multiset(Keep(c, i, bit))|;
  }

  /** One pass of the search loop: count the ones of column i among the candidates and keep the chosen side. */
  method NarrowColumn(v: array<seq<bool>>, h: array<seq<bool>>, rule: Rule, i: nat, searchSet: nat, ghost rows: seq<seq<bool>>)
    returns (kept: nat)
    requires h != v && i < v.Length && searchSet <= h.Length && searchSet != 1
    requires Transposed(h[..], v[..]) && multiset(h[..]) == multiset(rows)
    requires Candidates(rows, v.Length, i, rule).Some?
    requires searchSet == |Candidates(rows, v.Length, i, rule).value|
    requires multiset(h[..searchSet]) == multiset(Candidates(rows, v.Length, i, rule).value)
    modifies h, v
    ensures kept <= h.Length
    ensures Transposed(h[..], v[..]) && multiset(h[..]) == multiset(rows)
    ensures Candidates(rows, v.Length, i + 1, rule).Some?
    ensures kept == |Candidates(rows, v.Length, i + 1, rule).value|
    ensures multiset(h[..kept]) == multiset(Candidates(rows, v.Length, i + 1, rule).value)
  {
    ghost var c := Candidates(rows, v.Length, i, rule).value;
    var vertical := v[i][..searchSet];
    var ones := CountOnes(vertical);
    CountCandidates(h[..], v[i], c, i, searchSet);
    var zeros := searchSet - ones;
    var condition := Condition(ones, zeros, rule);
    ghost var before := h[..];
    kept := PartitionReport(h, searchSet, v, i, condition);
    Narrowed(before, h[..], c, i, condition, searchSet, kept);
  }

  /**
   * `search_variable` as written: the loop runs over the length of column 0,
   * which is the number of rows, not the number of columns, and `inverse`
   * selects the CO2 rule as written.
   */
  method SearchVariable(v: array<seq<bool>>, h: array<seq<bool>>, inverse: bool) returns (r: Option<nat>)
    requires h != v && 1 <= h.Length && 1 <= v.Length <= 64
    requires Transposed(h[..], v[..])
    modifies h, v
    ensures Transposed(h[..], v[..]) && multiset(h[..]) == multiset(old(h[..]))
    ensures r.None? <==> Candidates(old(h[..]), v.Length, h.Length, Written(inverse)).None?
    ensures r.Some? ==> r.value == Load(h[0])
    ensures r.Some? && |Candidates(old(h[..]), v.Length, h.Length, Written(inverse)).value| == 1 ==>
              r.value == Load(Candidates(old(h[..]), v.Length, h.Length, Written(inverse)).value[0])
  {
    r := SearchColumns(v, h, Written(inverse), |v[0]|);
    if r.Some? {
      SoleCandidate(h[..], Candidates(old(h[..]), v.Length, h.Length, Written(inverse)).value);
    }
  }

  /** The search as evidently intended: over every column of the report, with the intended rules; it never panics. */
  method SearchAllColumns(v: array<seq<bool>>, h: array<seq<bool>>, inverse: bool) returns (r: nat)
    requires h != v && 1 <= h.Length && 1 <= v.Length <= 64
    requires Transposed(h[..], v[..])
    modifies h, v
    ensures Transposed(h[..], v[..]) && multiset(h[..]) == multiset(old(h[..]))
    ensures Candidates(old(h[..]), v.Length, v.Length, Intended(inverse)).Some?
    ensures r == Load(h[0])
    ensures |Candidates(old(h[..]), v.Length, v.Length, Intended(inverse)).value| == 1 ==>
              r == Load(Candidates(old(h[..]), v.Length, v.Length, Intended(inverse)).value[0])
  {
    WithinWidth(h[..], v.Length, v.Length, Intended(inverse));
    var found := SearchColumns(v, h, Intended(inverse), v.Length);
    r := found.value;
    SoleCandidate(h[..], Candidates(old(h[..]), v.Length, v.Length, Intended(inverse)).value);
  }

  /** A prefix holding exactly the one remaining candidate starts with it. */
  lemma SoleCandidate(rows: seq<seq<bool>>, c: seq<seq<bool>>)
    requires |c| <= |rows| && multiset(rows[..|c|]) == multiset(c)
    ensures |c| == 1 ==> rows[0] == c[0]
  {
    if |c| == 1 {
      assert rows[..1] == [rows[0]];
      assert rows[0] in multiset(c);
    }
  }

  /** The rows of the report as bits. */
  function Rows(lines: seq<string>): (r: seq<seq<bool>>)
    ensures |r| == |lines| && forall k :: 0 <= k < |lines| ==> r[k] == Bits(lines[k])
  {
    seq(|lines|, k requires 0 <= k < |lines| => Bits(lines[k]))
  }

  /** A report of equal-width lines, at most a usize wide. */
  predicate Square(lines: seq<string>)
  {
    lines != [] && 1 <= |lines[0]| <= 64 && forall k :: 0 <= k < |lines| ==> |lines[k]| == |lines[0]|
  }

  /** The search over all columns ends with a single candidate. */
  predicate Decided(rows: seq<seq<bool>>, width: nat, rule: Rule)
  {
    Candidates(rows, width, width, rule).Some? && |Candidates(rows, width, width, rule).value| == 1
  }

  /**
   * `life_support_rating` as written: the oxygen generator rating times the CO2
   * scrubber rating, each searched over as many columns as the report has rows;
   * the second search starts from the order the first one left.  None is the
   * panic of a search that indexes a column past the last.  Where a search ends
   * with one candidate, its rating is that row.
   */
  method LifeSupportRating(report: string) returns (rating: Option<nat>)
    requires Square(Lines(report))
    ensures var rows := Rows(Lines(report));
      var oxygen := Candidates(rows, |Lines(report)[0]|, |rows|, Oxygen);
      var co2 := Candidates(rows, |Lines(report)[0]|, |rows|, Co2);
      (rating.None? <==> oxygen.None? || co2.None?) &&
      (rating.Some? && |oxygen.value| == 1 && |co2.value| == 1 ==>
         rating.value == Product(Load(oxygen.value[0]), Load(co2.value[0])))
  {
    var v, h := ReportArrays(report);
    ghost var rows := h[..];
    var oxygen := SearchVariable(v, h, false);
    ghost var shuffled := h[..];
    var co2 := SearchVariable(v, h, true);
    SameCandidates(rows, shuffled, v.Length, h.Length, Co2);
    if oxygen.None? || co2.None? {
      rating := None;
    } else {
      rating := Some(Product(oxygen.value, co2.value));
    }
  }

  /**
   * `life_support_rating` as evidently intended: both searches run over every
   * column, and CO2 keeps a bit all candidates share.  On a report of distinct
   * rows each search ends with exactly one row, and the rating is their product.
   */
  method LifeSupportRatingIntended(report: string) returns (rating: nat)
    requires Square(Lines(report))
    ensures var rows, w := Rows(Lines(report)), |Lines(report)[0]|;
      Distinct(rows) ==>
        Decided(rows, w, Oxygen) && Decided(rows, w, Co2Intended) &&
        rating == Product(Load(Candidates(rows, w, w, Oxygen).value[0]), Load(Candidates(rows, w, w, Co2Intended).value[0]))
  {
    var v, h := ReportArrays(report);
    ghost var rows := h[..];
    var oxygen := SearchAllColumns(v, h, false);
    ghost var shuffled := h[..];
    var co2 := SearchAllColumns(v, h, true);
    SameCandidates(rows, shuffled, v.Length, v.Length, Co2Intended);
    if Distinct(rows) {
      Decides(rows, v.Length, Oxygen);
      Decides(rows, v.Length, Co2Intended);
    }
    rating := Product(oxygen, co2);
  }

  function Product(a: nat, b: nat): nat
  {
    a * b
  }

  /** The two views of the report that `life_support_rating` searches: the columns and the rows. */
  method ReportArrays(report: string) returns (v: array<seq<bool>>, h: array<seq<bool>>)
    requires Square(Lines(report))
    ensures fresh(v) && fresh(h) && v != h
    ensures v.Length == |Lines(report)[0]| && h[..] == Rows(Lines(report)) && Transposed(h[..], v[..])
  {
    var lines := Lines(report);
    var verticals := ReportVerticals(report);
    var rows := Rows(lines);
    v := new seq<bool>[|verticals|](j requires 0 <= j < |verticals| => verticals[j]);
    h := new seq<bool>[|rows|](k requires 0 <= k < |rows| => rows[k]);
    forall j | 0 <= j < v.Length
      ensures |v[j]| == |rows| && forall i :: 0 <= i < |rows| ==> v[j][i] == rows[i][j]
    {
      ColumnsTranspose(lines, j);
    }
    assert h[..] == rows;
  }

  /** Reordered rows lead the search to the same panic, or to the same single candidate. */
  lemma SameCandidates(a: seq<seq<bool>>, b: seq<seq<bool>>, width: nat, i: nat, rule: Rule)
    requires multiset(a) == multiset(b)
    ensures Candidates(a, width, i, rule).None? <==> Candidates(b, width, i, rule).None?
    ensures Candidates(a, width, i, rule).Some? && |Candidates(a, width, i, rule).value| == 1 ==>
              Candidates(b, width, i, rule).Some? && |Candidates(b, width, i, rule).value| == 1 &&
              Candidates(b, width, i, rule).value[0] == Candidates(a, width, i, rule).value[0]
  {
    CandidatesPermutation(a, b, width, i, rule);
    if Candidates(a, width, i, rule).Some? && |Candidates(a, width, i, rule).value| == 1 {
      var x := Candidates(a, width, i, rule).value;
      var y := Candidates(b, width, i, rule).value;
      assert multiset(y) == multiset(x);
      assert |y| == |multiset(y)| == |multiset(x)| == 1;
      assert x == [x[0]] && y == [y[0]];
      assert x[0] in multiset(y);
    }
  }

  lemma KeepSize(a: seq<seq<bool>>, b: seq<seq<bool>>, index: nat, bit: bool)
    requires multiset(a) == multiset(b)
    ensures |Keep(a, index, bit)| == |Keep(b, index, bit)|
  {
    KeepPermutation(a, b, index, bit);
    assert |multiset(Keep(a, index, bit))| == |multiset(Keep(b, index, bit))|;
  }

  /** The candidates as a multiset: which rows, not their order. */
  function Bag(o: Option<seq<seq<bool>>>): Option<multiset<seq<bool>>>
  {
    match o
    case None => None
    case Some(c) => Some(multiset(c))
  }

  /** The search depends only on which rows the report holds, not on their order. */
  lemma {:induction false} CandidatesPermutation(a: seq<seq<bool>>, b: seq<seq<bool>>, width: nat, i: nat, rule: Rule)
    requires multiset(a) == multiset(b)
    ensures Bag(Candidates(a, width, i, rule)) == Bag(Candidates(b, width, i, rule))
  {
    if i == 0 {
      assert Candidates(a, width, 0, rule) == Some(a) && Candidates(b, width, 0, rule) == Some(b);
    } else {
      CandidatesPermutation(a, b, width, i - 1, rule);
      StepPermutation(Candidates(a, width, i - 1, rule), Candidates(b, width, i - 1, rule), width, i - 1, rule);
    }
  }

  lemma StepPermutation(x: Option<seq<seq<bool>>>, y: Option<seq<seq<bool>>>, width: nat, col: nat, rule: Rule)
    requires Bag(x) == Bag(y)
    ensures Bag(Step(x, width, col, rule)) == Bag(Step(y, width, col, rule))
  {
    if x.Some? {
      assert multiset(x.value) == multiset(y.value);
      NarrowPermutation(x.value, y.value, width, col, rule);
    }
  }

  lemma NarrowPermutation(x: seq<seq<bool>>, y: seq<seq<bool>>, width: nat, col: nat, rule: Rule)
    requires multiset(x) == multiset(y)
    ensures Bag(Narrow(x, width, col, rule)) == Bag(Narrow(y, width, col, rule))
  {
    assert |x| == |y| by {
      assert |multiset(x)| == |multiset(y)|;
    }
    if |x| != 1 && col < width {
      KeepSize(x, y, col, true);
      var ones := |Keep(x, col, true)|;
      KeepPermutation(x, y, col, Condition(ones, |x| - ones, rule));
    }
  }



  lemma {:induction false} KeepRectangular(c: seq<seq<bool>>, width: nat, col: nat, bit: bool)
    requires Rectangular(c, width)
    ensures Rectangular(Keep(c, col, bit), width)
    ensures col < width ==> |Keep(c, col, true)| + |Keep(c, col, false)| == |c|
  {
    if c != [] {
      KeepRectangular(c[..|c| - 1], width, col, bit);
      KeepRectangular(c[..|c| - 1], width, col, !bit);
    }
  }

  /**
   * The oxygen search and the intended CO2 search never run out of candidates:
   * the bit they keep occurs among the candidates.
   */
  lemma {:induction false} KeepsCandidate(rows: seq<seq<bool>>, width: nat, i: nat, rule: Rule)
    requires rule != Co2 && rows != [] && Rectangular(rows, width)
    ensures Candidates(rows, width, i, rule).Some? ==>
              Candidates(rows, width, i, rule).value != [] && Rectangular(Candidates(rows, width, i, rule).value, width)
  {
    if i > 0 {
      KeepsCandidate(rows, width, i - 1, rule);
      var prev := Candidates(rows, width, i - 1, rule);
      if prev.Some? && |prev.value| != 1 && i - 1 < width {
        var c := prev.value;
        KeepRectangular(c, width, i - 1, true);
        KeepRectangular(c, width, i - 1, false);
      }
    }
  }

  /** No row occurs twice. */
  ghost predicate Distinct(rows: seq<seq<bool>>)
  {
    forall x :: multiset(rows)[x] <= 1
  }

  /** The candidates agree on every column before `i`. */
  ghost predicate Agree(c: seq<seq<bool>>, i: nat)
  {
    forall x, y, j :: x in c && y in c && 0 <= j < i && j < |x| && j < |y| ==> x[j] == y[j]
  }

  /** A kept row is a candidate with the kept bit. */
  lemma KeepIn(c: seq<seq<bool>>, index: nat, bit: bool, x: seq<bool>)
    requires x in Keep(c, index, bit)
    ensures x in c && index < |x| && x[index] == bit
  {
    KeepCount(c, index, bit, x);
    assert x in multiset(Keep(c, index, bit));
  }

  /**
   * After `i` columns the oxygen search and the intended CO2 search hold
   * distinct rows, at least one, that share their first `i` bits unless only
   * one is left.
   */
  lemma {:induction false} Narrowing(rows: seq<seq<bool>>, width: nat, i: nat, rule: Rule)
    requires rule != Co2 && rows != [] && Rectangular(rows, width) && Distinct(rows) && i <= width
    ensures Candidates(rows, width, i, rule).Some?
    ensures var c := Candidates(rows, width, i, rule).value;
      c != [] && Rectangular(c, width) && Distinct(c) && (|c| == 1 || Agree(c, i))
  {
    if i > 0 {
      Narrowing(rows, width, i - 1, rule);
      var c := Candidates(rows, width, i - 1, rule).value;
      if |c| != 1 {
        NarrowAgrees(c, width, i - 1, rule);
      }
    }
  }

  /** One step of `Narrowing`: the kept rows are candidates that also share bit `col`. */
  lemma NarrowAgrees(c: seq<seq<bool>>, width: nat, col: nat, rule: Rule)
    requires rule != Co2 && c != [] && |c| != 1 && col < width
    requires Rectangular(c, width) && Distinct(c) && Agree(c, col)
    ensures Narrow(c, width, col, rule).Some?
    ensures var k := Narrow(c, width, col, rule).value;
      k != [] && Rectangular(k, width) && Distinct(k) && Agree(k, col + 1)
  {
    var ones := |Keep(c, col, true)|;
    var bit := Condition(ones, |c| - ones, rule);
    var k := Keep(c, col, bit);
    KeepRectangular(c, width, col, true);
    KeepRectangular(c, width, col, false);
    assert Narrow(c, width, col, rule) == Some(k);
    forall x ensures multiset(k)[x] <= 1 {
      KeepCount(c, col, bit, x);
    }
    forall x, y, j | x in k && y in k && 0 <= j < col + 1 && j < |x| && j < |y| ensures x[j] == y[j] {
      KeepIn(c, col, bit, x);
      KeepIn(c, col, bit, y);
    }
  }

  /** A sequence whose every entry is `x` holds `x` as often as it is long. */
  lemma {:induction false} AllSame(c: seq<seq<bool>>, x: seq<bool>)
    requires forall y :: y in c ==> y == x
    ensures multiset(c)[x] == |c|
  {
    if c != [] {
      var prefix := c[..|c| - 1];
      assert forall y :: y in prefix ==> y in c;
      AllSame(prefix, x);
      assert c == prefix + [c[|c| - 1]];
      assert c[|c| - 1] in c;
      assert multiset(c) == multiset(prefix) + multiset{c[|c| - 1]};
    }
  }

  /** With distinct rows, the oxygen search and the intended CO2 search each end with exactly one row. */
  lemma Decides(rows: seq<seq<bool>>, width: nat, rule: Rule)
    requires rule != Co2 && rows != [] && Rectangular(rows, width) && Distinct(rows)
    ensures Decided(rows, width, rule)
  {
    Narrowing(rows, width, width, rule);
    var c := Candidates(rows, width, width, rule).value;
    forall y | y in c
      ensures y == c[0]
    {
      if |c| == 1 {
        assert c == [c[0]];
      } else {
        assert c[0] in c;
        assert |y| == |c[0]| == width;
      }
    }
    AllSame(c, c[0]);
    assert multiset(c)[c[0]] <= 1;
  }

  /** `Keep` on two rows. */
  lemma KeepTwo(a: seq<bool>, b: seq<bool>, index: nat, bit: bool)
    ensures Keep([a, b], index, bit) ==
              (if index < |a| && a[index] == bit then [a] else []) + (if index < |b| && b[index] == bit then [b] else [])
  {
    assert [a, b][..1] == [a] && [a][..0] == [];
  }

  /**
   * Finding: the CO2 rule as written drops every candidate when they all share
   * a bit, since it then keeps the bit nobody has.
   */
  lemma Co2CanEmpty()
    ensures Candidates([[false, true], [false, false]], 2, 1, Co2) == Some([])
  {
    KeepTwo([false, true], [false, false], 0, true);
  }

  /** The intended CO2 rule keeps the shared 0, then breaks the tie in the second column towards 0. */
  lemma Co2IntendedKeeps()
    ensures Candidates([[false, true], [false, false]], 2, 2, Co2Intended) == Some([[false, false]])
  {
    var a, b := [false, true], [false, false];
    KeepTwo(a, b, 0, true);
    KeepTwo(a, b, 0, false);
    assert Keep([a, b], 0, true) == [] && Keep([a, b], 0, false) == [a, b];
    assert Narrow([a, b], 2, 0, Co2Intended) == Some([a, b]);
    assert Candidates([a, b], 2, 1, Co2Intended) == Some([a, b]);
    KeepTwo(a, b, 1, true);
    KeepTwo(a, b, 1, false);
    assert Keep([a, b], 1, true) == [a] && Keep([a, b], 1, false) == [b];
    assert Narrow([a, b], 2, 1, Co2Intended) == Some([b]);
  }

  /**
   * Finding: the search loop is bounded by the number of rows.  Two three-bit
   * rows stop after two columns with both still candidates, where the third
   * column would decide between them.
   */
  lemma RowBoundStopsEarly()
    ensures Candidates([[false, false, false], [false, false, true]], 3, 2, Oxygen) == Some([[false, false, false], [false, false, true]])
    ensures Candidates([[false, false, false], [false, false, true]], 3, 3, Oxygen) == Some([[false, false, true]])
  {
    var a, b := [false, false, false], [false, false, true];
    KeepTwo(a, b, 0, true);
    KeepTwo(a, b, 0, false);
    assert Keep([a, b], 0, true) == [] && Keep([a, b], 0, false) == [a, b];
    assert Narrow([a, b], 3, 0, Oxygen) == Some([a, b]);
    assert Candidates([a, b], 3, 1, Oxygen) == Some([a, b]);
    KeepTwo(a, b, 1, true);
    KeepTwo(a, b, 1, false);
    assert Keep([a, b], 1, true) == [] && Keep([a, b], 1, false) == [a, b];
    assert Narrow([a, b], 3, 1, Oxygen) == Some([a, b]);
    assert Candidates([a, b], 3, 2, Oxygen) == Some([a, b]);
    KeepTwo(a, b, 2, true);
    assert Keep([a, b], 2, true) == [b];
    assert Narrow([a, b], 3, 2, Oxygen) == Some([b]);
  }

  /** Finding: two one-bit rows make the as-written loop index a second, absent column, which panics. */
  lemma RowBoundPanics()
    ensures Candidates([[false], [false]], 1, 2, Oxygen) == None
    ensures Candidates([[false], [false]], 1, 1, Oxygen) == Some([[false], [false]])
  {
    var a := [false];
    KeepTwo(a, a, 0, true);
    KeepTwo(a, a, 0, false);
    assert Keep([a, a], 0, true) == [] && Keep([a, a], 0, false) == [a, a];
    assert Narrow([a, a], 1, 0, Oxygen) == Some([a, a]);
    assert Candidates([a, a], 1, 1, Oxygen) == Some([a, a]);
    assert Narrow([a, a], 1, 1, Oxygen) == None;
  }
}
