/**
 * Giant squid bingo (day 4): 5 x 5 boards are read row by row through a
 * builder, then drawn numbers are marked; a board keeps a (total, marked) pair
 * per row and per column and wins when one of them is fully marked.  The board
 * code is written twice in the program, in its main file and in its `bingo`
 * module, with the same behaviour; this module models both, together with the
 * reader of the drawn numbers.
 */
module Day04 {
  import opened Common
  import opened Text

  /** Sum of the totals (first components) of row or column sums. */
  function Totals(sums: seq<(nat, nat)>): nat
  {
    if sums == [] then 0 else Totals(sums[..|sums| - 1]) + sums[|sums| - 1].0
  }

  /** Sum of the marked parts (second components) of row or column sums. */
  function MarkedTotal(sums: seq<(nat, nat)>): nat
  {
    if sums == [] then 0 else MarkedTotal(sums[..|sums| - 1]) + sums[|sums| - 1].1
  }

  function Sum(numbers: seq<nat>): nat
  {
    if numbers == [] then 0 else Sum(numbers[..|numbers| - 1]) + numbers[|numbers| - 1]
  }

  /** The value of a board: where each number sits, the column and row sums, and the win latch. */
  datatype Board = Board(cells: map<nat, (nat, nat)>, cols: seq<(nat, nat)>, rows: seq<(nat, nat)>, won: bool)

  /** The value of a builder: the next row to fill and the board so far. */
  datatype Builder = Builder(row: nat, cells: map<nat, (nat, nat)>, cols: seq<(nat, nat)>, rows: seq<(nat, nat)>)

  predicate OnBoard(cells: map<nat, (nat, nat)>)
  {
    forall n :: n in cells ==> cells[n].0 < 5 && cells[n].1 < 5
  }

  predicate BuilderOk(b: Builder)
  {
    b.row <= 5 && |b.cols| == 5 && |b.rows| == 5 && OnBoard(b.cells)
  }

  predicate BoardOk(b: Board)
  {
    |b.cols| == 5 && |b.rows| == 5 && OnBoard(b.cells)
  }

  const EMPTY_SUMS: seq<(nat, nat)> := [(0, 0), (0, 0), (0, 0), (0, 0), (0, 0)]

  /** `BingoBoardBuilder::new`. */
  function NewBuilder(): Builder
  {
    Builder(0, map[], EMPTY_SUMS, EMPTY_SUMS)
  }

  /** The numbers of one row inserted in column order; a repeated number keeps its last column. */
  function Place(cells: map<nat, (nat, nat)>, row: nat, numbers: seq<nat>): map<nat, (nat, nat)>
  {
    if numbers == [] then cells
    else Place(cells, row, numbers[..|numbers| - 1])[numbers[|numbers| - 1] := (row, |numbers| - 1)]
  }

  /** Column i's total grows by the row's i-th number. */
  function AddToColumns(cols: seq<(nat, nat)>, numbers: seq<nat>): (r: seq<(nat, nat)>)
    requires |cols| == 5 && |numbers| <= 5
    ensures |r| == 5
  {
    seq(5, i requires 0 <= i < 5 => if i < |numbers| then (cols[i].0 + numbers[i], cols[i].1) else cols[i])
  }

  /** Row `row`'s total grows by `total`. */
  function AddToRow(rows: seq<(nat, nat)>, row: nat, total: nat): (r: seq<(nat, nat)>)
    requires row < |rows|
    ensures |r| == |rows|
  {
    rows[row := (rows[row].0 + total, rows[row].1)]
  }

  lemma RowGrows(rows: seq<(nat, nat)>, row: nat, total: nat)
    requires row < |rows|
    ensures Totals(AddToRow(rows, row, total)) == Totals(rows) + total
    ensures MarkedTotal(AddToRow(rows, row, total)) == MarkedTotal(rows)
  {
    UpdateSums(rows, row, rows[row].0 + total, rows[row].1);
  }

  /** `fill_row` on the builder's value. */
  function Fill(b: Builder, numbers: seq<nat>): (r: Builder)
    requires BuilderOk(b) && b.row < 5 && |numbers| <= 5
    ensures BuilderOk(r)
  {
    PlaceOnBoard(b.cells, b.row, numbers);
    Builder(b.row + 1, Place(b.cells, b.row, numbers), AddToColumns(b.cols, numbers),
            AddToRow(b.rows, b.row, Sum(numbers)))
  }

  lemma {:induction false} PlaceOnBoard(cells: map<nat, (nat, nat)>, row: nat, numbers: seq<nat>)
    requires OnBoard(cells) && row < 5 && |numbers| <= 5
    ensures OnBoard(Place(cells, row, numbers))
  {
    if numbers != [] {
      PlaceOnBoard(cells, row, numbers[..|numbers| - 1]);
    }
  }

  /**
   * After a row is placed, a number is on the board iff it was before or is in
   * the row; a number of the row sits on that row, in a column holding it.
   */
  lemma {:induction false} PlaceContents(cells: map<nat, (nat, nat)>, row: nat, numbers: seq<nat>, n: nat)
    ensures n in Place(cells, row, numbers) <==> n in cells || n in numbers
    ensures n in numbers ==> Place(cells, row, numbers)[n].0 == row
    ensures n in numbers ==> Place(cells, row, numbers)[n].1 < |numbers| && numbers[Place(cells, row, numbers)[n].1] == n
    ensures n !in numbers && n in cells ==> Place(cells, row, numbers)[n] == cells[n]
  {
    if numbers != [] {
      var init := numbers[..|numbers| - 1];
      PlaceContents(cells, row, init, n);
      assert numbers == init + [numbers[|numbers| - 1]];
      assert n in numbers <==> n in init || n == numbers[|numbers| - 1];
    }
  }

  lemma {:induction false} UpdateSums(s: seq<(nat, nat)>, i: nat, total: nat, marked: nat)
    requires i < |s|
    ensures Totals(s[i := (total, marked)]) == Totals(s) - s[i].0 + total
    ensures MarkedTotal(s[i := (total, marked)]) == MarkedTotal(s) - s[i].1 + marked
  {
    var t := s[i := (total, marked)];
    if i < |s| - 1 {
      UpdateSums(s[..|s| - 1], i, total, marked);
      assert t[..|t| - 1] == s[..|s| - 1][i := (total, marked)];
    } else {
      assert t[..|t| - 1] == s[..|s| - 1];
    }
  }

  lemma {:induction false} ColumnsGrow(cols: seq<(nat, nat)>, numbers: seq<nat>)
    requires |cols| == 5 && |numbers| <= 5
    ensures Totals(AddToColumns(cols, numbers)) == Totals(cols) + Sum(numbers)
    ensures MarkedTotal(AddToColumns(cols, numbers)) == MarkedTotal(cols)
  {
    if numbers != [] {
      var init := numbers[..|numbers| - 1];
      var k := |numbers| - 1;
      var before := AddToColumns(cols, init);
      ColumnsGrow(cols, init);
      UpdateSums(before, k, before[k].0 + numbers[k], before[k].1);
      assert numbers[k] == numbers[|numbers| - 1];
      assert Sum(numbers) == Sum(init) + numbers[k];
      assert before[k] == cols[k];
      assert AddToColumns(cols, numbers) == before[k := (before[k].0 + numbers[k], before[k].1)] by {
        forall i | 0 <= i < 5
          ensures AddToColumns(cols, numbers)[i] == before[k := (before[k].0 + numbers[k], before[k].1)][i]
        {
        }
      }
    } else {
      assert AddToColumns(cols, numbers) == cols;
    }
  }

  /**
   * Filling a row adds the row's sum to both the row totals and the column
   * totals, so the two always agree; marked sums are untouched.
   */
  lemma FillBalanced(b: Builder, numbers: seq<nat>)
    requires BuilderOk(b) && b.row < 5 && |numbers| <= 5
    ensures Totals(Fill(b, numbers).rows) == Totals(b.rows) + Sum(numbers)
    ensures Totals(Fill(b, numbers).cols) == Totals(b.cols) + Sum(numbers)
    ensures MarkedTotal(Fill(b, numbers).rows) == MarkedTotal(b.rows)
    ensures MarkedTotal(Fill(b, numbers).cols) == MarkedTotal(b.cols)
  {
    ColumnsGrow(b.cols, numbers);
    RowGrows(b.rows, b.row, Sum(numbers));
  }

  /** `BingoBoard::mark` on the board's value: the new value and the score, if the board wins now. */
  function MarkValue(b: Board, number: nat): (r: (Board, Option<int>))
    requires BoardOk(b)
    ensures BoardOk(r.0) && r.0.cells == b.cells
  {
    if b.won then (b, None)
    else if number !in b.cells then (b, None)
    else
      var (row, col) := b.cells[number];
      var cols := b.cols[col := (b.cols[col].0, b.cols[col].1 + number)];
      var rows := b.rows[row := (b.rows[row].0, b.rows[row].1 + number)];
      if cols[col].0 == cols[col].1 || rows[row].0 == rows[row].1 then
        (Board(b.cells, cols, rows, true), Some((Totals(cols) - MarkedTotal(cols)) * number))
      else
        (Board(b.cells, cols, rows, false), None)
  }

  /**
   * Marking a number of the board adds it to the marked sum of exactly its row
   * and its column; totals never change, so balanced marked sums stay balanced.
   * A board that has won, or a number not on it, leaves everything unchanged.
   */
  lemma MarkBalanced(b: Board, number: nat)
    requires BoardOk(b)
    ensures Totals(MarkValue(b, number).0.rows) == Totals(b.rows)
    ensures Totals(MarkValue(b, number).0.cols) == Totals(b.cols)
    ensures MarkedTotal(MarkValue(b, number).0.rows) == MarkedTotal(b.rows) + (if !b.won && number in b.cells then number else 0)
    ensures MarkedTotal(MarkValue(b, number).0.cols) == MarkedTotal(b.cols) + (if !b.won && number in b.cells then number else 0)
    ensures forall i :: 0 <= i < 5 ==>
      MarkValue(b, number).0.rows[i] == (b.rows[i].0, b.rows[i].1 + (if !b.won && number in b.cells && i == b.cells[number].0 then number else 0))
    ensures forall i :: 0 <= i < 5 ==>
      MarkValue(b, number).0.cols[i] == (b.cols[i].0, b.cols[i].1 + (if !b.won && number in b.cells && i == b.cells[number].1 then number else 0))
  {
    if !b.won && number in b.cells {
      var (row, col) := b.cells[number];
      UpdateSums(b.cols, col, b.cols[col].0, b.cols[col].1 + number);
      UpdateSums(b.rows, row, b.rows[row].0, b.rows[row].1 + number);
    }
  }

  /** Marking the drawn numbers one after the other: the final board and each call's result. */
  function MarkAll(b: Board, guesses: seq<nat>): (r: (Board, seq<Option<int>>))
    requires BoardOk(b)
    ensures BoardOk(r.0) && |r.1| == |guesses|
    decreases |guesses|
  {
    if guesses == [] then (b, [])
    else
      var (next, score) := MarkValue(b, guesses[0]);
      var (last, scores) := MarkAll(next, guesses[1..]);
      (last, [score] + scores)
  }

  /** A board that has won answers None to every later number and stays as it is. */
  lemma {:induction false} WonStaysSilent(b: Board, guesses: seq<nat>)
    requires BoardOk(b) && b.won
    ensures MarkAll(b, guesses).0 == b
    ensures forall k :: 0 <= k < |guesses| ==> MarkAll(b, guesses).1[k].None?
    decreases |guesses|
  {
    if guesses != [] {
      WonStaysSilent(b, guesses[1..]);
    }
  }

  /** The win latches: a board reports a score for at most one drawn number. */
  lemma {:induction false} WinsOnce(b: Board, guesses: seq<nat>, i: nat, j: nat)
    requires BoardOk(b) && i < j < |guesses|
    requires MarkAll(b, guesses).1[i].Some?
    ensures MarkAll(b, guesses).1[j].None?
    decreases i
  {
    var next := MarkValue(b, guesses[0]).0;
    if i == 0 {
      assert next.won;
      WonStaysSilent(next, guesses[1..]);
      assert MarkAll(b, guesses).1[j] == MarkAll(next, guesses[1..]).1[j - 1];
    } else {
      assert MarkAll(b, guesses).1[i] == MarkAll(next, guesses[1..]).1[i - 1];
      WinsOnce(next, guesses[1..], i - 1, j - 1);
    }
  }

  class BingoBoardBuilder {
    var currentRow: nat
    var board: map<nat, (nat, nat)>
    var colSums: array<(nat, nat)>
    var rowSums: array<(nat, nat)>

    ghost predicate Valid()
      reads this
    {
      colSums.Length == 5 && rowSums.Length == 5 && colSums != rowSums && currentRow <= 5 && OnBoard(board)
    }

    function Value(): Builder
      reads this, colSums, rowSums
    {
      Builder(currentRow, board, colSums[..], rowSums[..])
    }

    /** An empty builder: row 0, no numbers, all sums (0, 0). */
    constructor ()
      ensures Valid() && fresh(colSums) && fresh(rowSums)
      ensures Value() == NewBuilder()
    {
      currentRow := 0;
      board := map[];
      colSums := new (nat, nat)[5](_ => (0, 0));
      rowSums := new (nat, nat)[5](_ => (0, 0));
      new;
      assert colSums[..] == EMPTY_SUMS && rowSums[..] == EMPTY_SUMS;
    }

    predicate IsComplete()
      reads this
    {
      currentRow == 5
    }

    /** Fills the current row with `numbers`, column by column (more than 5 numbers would index out of bounds). */
    method FillRow(numbers: seq<nat>)
      requires Valid() && currentRow < 5 && |numbers| <= 5
      modifies this, colSums, rowSums
      ensures Valid() && colSums == old(colSums) && rowSums == old(rowSums)
      ensures Value() == Fill(old(Value()), numbers)
    {
      ghost var start := Value();
      for col := 0 to |numbers|
        invariant Valid() && colSums == old(colSums) && rowSums == old(rowSums)
        invariant currentRow == start.row
        invariant board == Place(start.cells, start.row, numbers[..col])
        invariant colSums[..] == AddToColumns(start.cols, numbers[..col])
        invariant rowSums[..] == AddToRow(start.rows, start.row, Sum(numbers[..col]))
      {
        var number := numbers[col];
        assert numbers[..col + 1][..col] == numbers[..col];
        PlaceOnBoard(start.cells, start.row, numbers[..col + 1]);
        board := board[number := (currentRow, col)];
        rowSums[currentRow] := (rowSums[currentRow].0 + number, rowSums[currentRow].1);
        colSums[col] := (colSums[col].0 + number, colSums[col].1);
      }
      assert numbers[..|numbers|] == numbers;
      currentRow := currentRow + 1;
    }

    /** Hands the board over once five rows are filled; an incomplete builder gives None. */
    method Build() returns (b: Option<BingoBoard>)
      requires Valid()
      ensures b.Some? <==> currentRow == 5
      ensures b.Some? ==> fresh(b.value) && b.value.Valid()
      ensures b.Some? ==> b.value.Value() == Board(board, colSums[..], rowSums[..], false)
    {
      if IsComplete() {
        var built := new BingoBoard(board, colSums, rowSums);
        b := Some(built);
      } else {
        b := None;
      }
    }
  }

  class BingoBoard {
    var board: map<nat, (nat, nat)>
    var colSums: array<(nat, nat)>
    var rowSums: array<(nat, nat)>
    var won: bool

    ghost predicate Valid()
      reads this
    {
      colSums.Length == 5 && rowSums.Length == 5 && colSums != rowSums && OnBoard(board)
    }

    function Value(): Board
      reads this, colSums, rowSums
    {
      Board(board, colSums[..], rowSums[..], won)
    }

    /** A board that has not won yet, over the builder's cells and sums. */
    constructor (board: map<nat, (nat, nat)>, colSums: array<(nat, nat)>, rowSums: array<(nat, nat)>)
      requires colSums.Length == 5 && rowSums.Length == 5 && colSums != rowSums && OnBoard(board)
      ensures Valid() && this.colSums == colSums && this.rowSums == rowSums
      ensures Value() == Board(board, colSums[..], rowSums[..], false)
    {
      this.board := board;
      this.colSums := colSums;
      this.rowSums := rowSums;
      won := false;
    }

    /**
     * Marks a drawn number; returns the score (sum of the unmarked numbers,
     * counted by columns, times the number) when this mark completes a row or a
     * column of a board that had not won yet.
     */
    method Mark(number: nat) returns (score: Option<int>)
      requires Valid()
      modifies this`won, colSums, rowSums
      ensures Valid()
      ensures (Value(), score) == MarkValue(old(Value()), number)
    {
      if !won {
        if number in board {
          var (row, col) := board[number];
          colSums[col] := (colSums[col].0, colSums[col].1 + number);
          rowSums[row] := (rowSums[row].0, rowSums[row].1 + number);
          if colSums[col].0 == colSums[col].1 || rowSums[row].0 == rowSums[row].1 {
            var left := Totals(colSums[..]) - MarkedTotal(colSums[..]);
            won := true;
            score := Some(left * number);
          } else {
            score := None;
          }
        } else {
          score := None;
        }
      } else {
        score := None;
      }
    }
  }

  /** The numbers of a board line: its whitespace-separated words that parse as a usize. */
  function RowNumbers(line: string): seq<nat>
  {
    ParsedUsizes(Words(line))
  }

  /** No board line holds more than five numbers (a sixth would index past the column sums). */
  predicate RowsFit(lines: seq<string>)
  {
    forall k :: 0 <= k < |lines| ==> |RowNumbers(lines[k])| <= 5
  }

  /** The board reader on values: skip empty lines, fill rows until five are filled or the lines run out. */
  function ReadRows(b: Builder, lines: seq<string>, pos: nat): (r: (Option<Builder>, nat))
    requires BuilderOk(b) && pos <= |lines| && RowsFit(lines)
    ensures pos <= r.1 <= |lines|
    decreases |lines| - pos
  {
    if b.row == 5 then (Some(b), pos)
    else if pos == |lines| then (None, pos)
    else if lines[pos] == [] then ReadRows(b, lines, pos + 1)
    else ReadRows(Fill(b, RowNumbers(lines[pos])), lines, pos + 1)
  }

  /** The number of non-empty lines from `pos` on. */
  function NonEmptyFrom(lines: seq<string>, pos: nat): nat
    requires pos <= |lines|
    decreases |lines| - pos
  {
    if pos == |lines| then 0 else (if lines[pos] == [] then 0 else 1) + NonEmptyFrom(lines, pos + 1)
  }

  /** Reading succeeds exactly when enough non-empty lines remain, and the builder it returns is complete. */
  lemma {:induction false} ReadRowsIff(b: Builder, lines: seq<string>, pos: nat)
    requires BuilderOk(b) && pos <= |lines| && RowsFit(lines)
    ensures ReadRows(b, lines, pos).0.Some? <==> NonEmptyFrom(lines, pos) >= 5 - b.row
    ensures ReadRows(b, lines, pos).0.Some? ==> ReadRows(b, lines, pos).0.value.row == 5
    ensures ReadRows(b, lines, pos).0.None? ==> ReadRows(b, lines, pos).1 == |lines|
    decreases |lines| - pos
  {
    if b.row < 5 && pos < |lines| {
      if lines[pos] == [] {
        ReadRowsIff(b, lines, pos + 1);
      } else {
        ReadRowsIff(Fill(b, RowNumbers(lines[pos])), lines, pos + 1);
      }
    }
  }

  /** An `InvalidData` I/O error: the lines ran out before the board was complete. */
  datatype InvalidData = InvalidData

  /** `BingoBoard::try_from` over the remaining lines from `pos`; also returns where reading stopped. */
  method TryFrom(lines: seq<string>, pos: nat) returns (r: Result<BingoBoard, InvalidData>, next: nat)
    requires pos <= |lines| && RowsFit(lines)
    ensures r.Ok? <==> ReadRows(NewBuilder(), lines, pos).0.Some?
    ensures next == ReadRows(NewBuilder(), lines, pos).1
    ensures r.Ok? ==> fresh(r.value) && r.value.Valid()
    ensures r.Ok? ==> var b := ReadRows(NewBuilder(), lines, pos).0.value;
      r.value.Value() == Board(b.cells, b.cols, b.rows, false)
  {
    var builder := new BingoBoardBuilder();
    next := pos;
    while !builder.IsComplete()
      invariant builder.Valid() && fresh(builder.colSums) && fresh(builder.rowSums)
      invariant pos <= next <= |lines|
      invariant ReadRows(builder.Value(), lines, next) == ReadRows(NewBuilder(), lines, pos)
      decreases |lines| - next
    {
      if next == |lines| {
        return Err(InvalidData), next;
      }
      var line := lines[next];
      next := next + 1;
      if line != [] {
        builder.FillRow(RowNumbers(line));
      }
    }
    var built := builder.Build();
    match built
    case Some(board) => r := Ok(board);
    case None => assert false;
  }

  /** `read_guesses`: the comma-separated numbers of the next line, None when there is no line left. */
  function ReadGuesses(lines: seq<string>, pos: nat): (r: Option<seq<nat>>)
    ensures r.None? <==> pos >= |lines|
  {
    if pos < |lines| then Some(ParsedUsizes(Split(lines[pos], ","))) else None
  }

  /** The drawn numbers written comma-separated on one line are read back unchanged. */
  lemma GuessesRoundTrip(guesses: seq<nat>)
    requires guesses != [] && forall k :: 0 <= k < |guesses| ==> guesses[k] <= USIZE_MAX
    ensures ReadGuesses([Join(seq(|guesses|, k requires 0 <= k < |guesses| => Decimal(guesses[k])), ",")], 0) == Some(guesses)
  {
    var words := seq(|guesses|, k requires 0 <= k < |guesses| => Decimal(guesses[k]));
    forall k | 0 <= k < |words| ensures !(','  in words[k]) && ParseUsize(words[k]) == Some(guesses[k]) {
      ParseDecimal(guesses[k]);
      assert forall c :: c in words[k] ==> IsDigit(c);
    }
    JoinSplit(words, ",");
    ParsedAll(words);
    assert ParsedUsizes(words) == guesses;
  }
}
