/**
 * Transparent origami (day 13): dots on a sheet of paper, folded up along
 * horizontal and vertical lines.  A dot beyond the fold line lands on its
 * mirror image; the answers count the distinct dots left after the folds.
 */
module Day13 {
  import opened Common
  import opened Text

  /** A dot `(x, y)`: x grows to the right, y downwards. */
  type Dot = (nat, nat)

  /** `PageFold`: fold the bottom half up along y = line, or the right half left along x = line. */
  datatype Fold = FoldY(line: nat) | FoldX(line: nat)

  /** `ManualPage`. */
  datatype Page = Page(dots: seq<Dot>, folds: seq<Fold>)

  datatype ParseError =
    | MissingPrefix      // a fold line without "fold along "
    | MissingPoint       // a fold without `=`
    | UnknownAxis        // an axis other than x and y
    | MissingY           // a dot without `,`
    | InvalidNumber      // a coordinate that is not a `usize`

  // Parsing

  const FoldPrefix: string := "fold along "

  /** `PageFold::from_str`: the line number is read before the axis is checked. */
  function ParseFold(s: string): (r: Result<Fold, ParseError>)
    ensures !(FoldPrefix <= s) ==> r == Err(MissingPrefix)
    ensures r.Ok? ==> r.value.line <= USIZE_MAX
  {
    match StripPrefix(s, FoldPrefix)
    case None => Err(MissingPrefix)
    case Some(rest) =>
      var pieces := Split(rest, "=");
      if |pieces| < 2 then Err(MissingPoint)
      else match ParseUsize(pieces[1])
        case None => Err(InvalidNumber)
        case Some(point) =>
          if pieces[0] == "y" then Ok(FoldY(point))
          else if pieces[0] == "x" then Ok(FoldX(point))
          else Err(UnknownAxis)
  }

  /** A fold as the puzzle writes it. */
  function FoldText(f: Fold): string
  {
    FoldPrefix + (if f.FoldX? then "x" else "y") + "=" + Decimal(f.line)
  }

  /** Reading a fold written out gives it back. */
  lemma FoldRoundTrip(f: Fold)
    requires f.line <= USIZE_MAX
    ensures ParseFold(FoldText(f)) == Ok(f)
  {
    var axis := if f.FoldX? then "x" else "y";
    assert FoldText(f) == FoldPrefix + (axis + "=" + Decimal(f.line));
    SplitTwo(axis, "=", Decimal(f.line));
    ParseDecimal(f.line);
  }

  /** A dot line `x,y`: x is read before a missing y is noticed. */
  function ParseDot(line: string): (r: Result<Dot, ParseError>)
    ensures r.Ok? ==> r.value.0 <= USIZE_MAX && r.value.1 <= USIZE_MAX
  {
    var pieces := Split(line, ",");
    match ParseUsize(pieces[0])
    case None => Err(InvalidNumber)
    case Some(x) =>
      if |pieces| < 2 then Err(MissingY)
      else match ParseUsize(pieces[1])
        case None => Err(InvalidNumber)
        case Some(y) => Ok((x, y))
  }

  function DotText(d: Dot): string
  {
    Decimal(d.0) + "," + Decimal(d.1)
  }

  /** Reading a dot written out gives it back. */
  lemma DotRoundTrip(d: Dot)
    requires d.0 <= USIZE_MAX && d.1 <= USIZE_MAX
    ensures ParseDot(DotText(d)) == Ok(d)
  {
    SplitTwo(Decimal(d.0), ",", Decimal(d.1));
    ParseDecimal(d.0);
    ParseDecimal(d.1);
  }

  /** One line of the page: blank lines are skipped, fold lines go to the folds, the rest to the dots. */
  function AddLine(page: Page, line: string): Result<Page, ParseError>
  {
    if line == [] then Ok(page)
    else if "fold along" <= line then
      match ParseFold(line)
      case Err(e) => Err(e)
      case Ok(f) => Ok(Page(page.dots, page.folds + [f]))
    else
      match ParseDot(line)
      case Err(e) => Err(e)
      case Ok(d) => Ok(Page(page.dots + [d], page.folds))
  }

  /** The page the lines describe, or the error of the first line that does not parse. */
  function ParseLines(lines: seq<string>): Result<Page, ParseError>
  {
    if lines == [] then Ok(Page([], [])) else
    match ParseLines(lines[..|lines| - 1])
    case Err(e) => Err(e)
    case Ok(page) => AddLine(page, lines[|lines| - 1])
  }

  /** `ManualPage::from_str`: the folds and dots are pushed line by line. */
  method ParsePage(s: string) returns (r: Result<Page, ParseError>)
    ensures r == ParseLines(Lines(s))
  {
    var lines := Lines(s);
    var folds: seq<Fold> := [];
    var dots: seq<Dot> := [];
    for i := 0 to |lines|
      invariant ParseLines(lines[..i]) == Ok(Page(dots, folds))
    {
      assert lines[..i + 1][..i] == lines[..i];
      var line := lines[i];
      if line == [] {
        continue;
      }
      if "fold along" <= line {
        var f := ParseFold(line);
        if f.Err? {
          ParseFails(lines, i + 1);
          return Err(f.error);
        }
        folds := folds + [f.value];
      } else {
        var d := ParseDot(line);
        if d.Err? {
          ParseFails(lines, i + 1);
          return Err(d.error);
        }
        dots := dots + [d.value];
      }
    }
    assert lines[..|lines|] == lines;
    return Ok(Page(dots, folds));
  }

  /** An error stays the error of the whole input: later lines are never read. */
  lemma {:induction false} ParseFails(lines: seq<string>, k: nat)
    requires k <= |lines| && ParseLines(lines[..k]).Err?
    ensures ParseLines(lines) == ParseLines(lines[..k])
    decreases |lines| - k
  {
    if k < |lines| {
      assert lines[..k + 1][..k] == lines[..k];
      ParseFails(lines, k + 1);
    } else {
      assert lines[..k] == lines;
    }
  }

  function DotLines(dots: seq<Dot>): seq<string>
  {
    if dots == [] then [] else DotLines(dots[..|dots| - 1]) + [DotText(dots[|dots| - 1])]
  }

  function FoldLines(folds: seq<Fold>): seq<string>
  {
    if folds == [] then [] else FoldLines(folds[..|folds| - 1]) + [FoldText(folds[|folds| - 1])]
  }

  /** The lines of a page: its dots, a blank line, then its folds. */
  function PageLines(page: Page): seq<string>
  {
    DotLines(page.dots) + [""] + FoldLines(page.folds)
  }

  predicate Representable(page: Page)
  {
    (forall i :: 0 <= i < |page.dots| ==> page.dots[i].0 <= USIZE_MAX && page.dots[i].1 <= USIZE_MAX)
    && (forall i :: 0 <= i < |page.folds| ==> page.folds[i].line <= USIZE_MAX)
  }

  /** Reading the lines of a page gives the page back. */
  lemma PageRoundTrip(page: Page)
    requires Representable(page)
    ensures ParseLines(PageLines(page)) == Ok(page)
  {
    var dotLines := DotLines(page.dots);
    ReadDots(page.dots);
    var withBlank := dotLines + [""];
    assert withBlank[..|withBlank| - 1] == dotLines;
    assert AddLine(Page(page.dots, []), "") == Ok(Page(page.dots, []));
    assert ParseLines(withBlank) == Ok(Page(page.dots, []));
    ReadFolds(withBlank, page.dots, [], page.folds);
    assert PageLines(page) == withBlank + FoldLines(page.folds);
    assert [] + page.folds == page.folds;
  }

  /** A dot line written out adds its dot. */
  lemma AddDotLine(page: Page, d: Dot)
    requires d.0 <= USIZE_MAX && d.1 <= USIZE_MAX
    ensures AddLine(page, DotText(d)) == Ok(Page(page.dots + [d], page.folds))
  {
    DotRoundTrip(d);
    assert !("fold along" <= DotText(d)) by {
      assert DotText(d)[0] == Decimal(d.0)[0];
      assert IsDigit(Decimal(d.0)[0]);
    }
  }

  /** A fold line written out adds its fold. */
  lemma AddFoldLine(page: Page, f: Fold)
    requires f.line <= USIZE_MAX
    ensures AddLine(page, FoldText(f)) == Ok(Page(page.dots, page.folds + [f]))
  {
    var line := FoldText(f);
    FoldRoundTrip(f);
    assert "fold along" <= line by {
      assert line[..10] == "fold along";
    }
  }

  lemma {:induction false} ReadDots(dots: seq<Dot>)
    requires forall i :: 0 <= i < |dots| ==> dots[i].0 <= USIZE_MAX && dots[i].1 <= USIZE_MAX
    ensures ParseLines(DotLines(dots)) == Ok(Page(dots, []))
  {
    if dots != [] {
      var k := |dots| - 1;
      ReadDots(dots[..k]);
      var lines := DotLines(dots);
      assert lines[..|lines| - 1] == DotLines(dots[..k]);
      AddDotLine(Page(dots[..k], []), dots[k]);
      assert dots[..k] + [dots[k]] == dots;
    }
  }

  /** The last line is read into the page the lines before it give. */
  lemma ReadLine(lines: seq<string>, page: Page, line: string)
    requires lines != [] && ParseLines(lines[..|lines| - 1]) == Ok(page) && lines[|lines| - 1] == line
    ensures ParseLines(lines) == AddLine(page, line)
  {
  }

  /** Appending the last element of b after the rest of b. */
  lemma Snoc<T>(a: seq<T>, b: seq<T>)
    requires b != []
    ensures a + b[..|b| - 1] + [b[|b| - 1]] == a + b
  {
    assert b[..|b| - 1] + [b[|b| - 1]] == b;
  }

  lemma {:induction false} ReadFolds(prefix: seq<string>, dots: seq<Dot>, done: seq<Fold>, folds: seq<Fold>)
    requires ParseLines(prefix) == Ok(Page(dots, done))
    requires forall i :: 0 <= i < |folds| ==> folds[i].line <= USIZE_MAX
    ensures ParseLines(prefix + FoldLines(folds)) == Ok(Page(dots, done + folds))
  {
    if folds == [] {
      assert prefix + FoldLines(folds) == prefix;
      assert done + folds == done;
    } else {
      var k := |folds| - 1;
      ReadFolds(prefix, dots, done, folds[..k]);
      var lines := prefix + FoldLines(folds);
      assert lines[..|lines| - 1] == prefix + FoldLines(folds[..k]);
      var before := done + folds[..k];
      assert lines[|lines| - 1] == FoldText(folds[k]);
      ReadLine(lines, Page(dots, before), FoldText(folds[k]));
      AddFoldLine(Page(dots, before), folds[k]);
      Snoc(done, folds);
    }
  }

  // Folding

  /**
   * `PageFold::translate_dot`: a dot beyond the line moves to its mirror
   * image; None where `axis - (x - axis)` underflows and the program panics.
   */
  function Translate(f: Fold, d: Dot): (r: Option<Dot>)
    ensures r.Some? <==> (f.FoldX? ==> d.0 <= 2 * f.line) && (f.FoldY? ==> d.1 <= 2 * f.line)
    ensures r.Some? && f.FoldX? ==>
              r.value.1 == d.1 && r.value.0 <= f.line
              && (if d.0 <= f.line then r.value.0 == d.0 else r.value.0 + d.0 == 2 * f.line)
    ensures r.Some? && f.FoldY? ==>
              r.value.0 == d.0 && r.value.1 <= f.line
              && (if d.1 <= f.line then r.value.1 == d.1 else r.value.1 + d.1 == 2 * f.line)
  {
    match f
    case FoldX(axis) =>
      if d.0 > axis then (if d.0 - axis > axis then None else Some((axis - (d.0 - axis), d.1))) else Some(d)
    case FoldY(axis) =>
      if d.1 > axis then (if d.1 - axis > axis then None else Some((d.0, axis - (d.1 - axis)))) else Some(d)
  }

  /** Folding twice along the same line changes nothing more. */
  lemma TranslateIdempotent(f: Fold, d: Dot)
    requires Translate(f, d).Some?
    ensures Translate(f, Translate(f, d).value) == Translate(f, d)
  {
  }

  /** A dot and its mirror image across the line land on the same dot. */
  lemma TranslateMirror(f: Fold, d: Dot, e: Dot)
    requires f.FoldX? ==> d.1 == e.1 && d.0 + e.0 == 2 * f.line
    requires f.FoldY? ==> d.0 == e.0 && d.1 + e.1 == 2 * f.line
    ensures Translate(f, d) == Translate(f, e) != None
  {
  }

  /** A fold never moves a dot right or down. */
  lemma TranslateShrinks(f: Fold, d: Dot)
    requires Translate(f, d).Some?
    ensures Translate(f, d).value.0 <= d.0 && Translate(f, d).value.1 <= d.1
  {
  }

  /** The folds applied to one dot in order, None where one panics. */
  function FoldDot(folds: seq<Fold>, d: Dot): Option<Dot>
  {
    if folds == [] then Some(d) else
    match Translate(folds[0], d)
    case None => None
    case Some(e) => FoldDot(folds[1..], e)
  }

  /** Folding along a then b is folding along a, then along b. */
  lemma {:induction false} FoldDotAppend(a: seq<Fold>, b: seq<Fold>, d: Dot)
    ensures FoldDot(a + b, d) == match FoldDot(a, d) case None => None case Some(e) => FoldDot(b, e)
  {
    if a == [] {
      assert a + b == b;
    } else {
      assert (a + b)[1..] == a[1..] + b;
      match Translate(a[0], d)
      case None =>
      case Some(e) => FoldDotAppend(a[1..], b, e);
    }
  }

  /** Folding never moves a dot right or down. */
  lemma {:induction false} FoldDotShrinks(folds: seq<Fold>, d: Dot)
    requires FoldDot(folds, d).Some?
    ensures FoldDot(folds, d).value.0 <= d.0 && FoldDot(folds, d).value.1 <= d.1
  {
    if folds != [] {
      var e := Translate(folds[0], d).value;
      TranslateShrinks(folds[0], d);
      FoldDotShrinks(folds[1..], e);
    }
  }

  /** After all the folds a dot lies left of every x fold line and above every y fold line. */
  lemma {:induction false} FoldDotWithin(folds: seq<Fold>, d: Dot, i: nat)
    requires FoldDot(folds, d).Some? && i < |folds|
    ensures folds[i].FoldX? ==> FoldDot(folds, d).value.0 <= folds[i].line
    ensures folds[i].FoldY? ==> FoldDot(folds, d).value.1 <= folds[i].line
  {
    var e := Translate(folds[0], d).value;
    if i == 0 {
      FoldDotShrinks(folds[1..], e);
    } else {
      FoldDotWithin(folds[1..], e, i - 1);
    }
  }

  /** Every dot folded, None where a fold panics on some dot. */
  function FoldEach(folds: seq<Fold>, dots: seq<Dot>): (r: Option<seq<Dot>>)
    ensures r.Some? ==> |r.value| == |dots| && forall i :: 0 <= i < |dots| ==> FoldDot(folds, dots[i]) == Some(r.value[i])
    ensures r.None? <==> exists i :: 0 <= i < |dots| && FoldDot(folds, dots[i]).None?
  {
    if dots == [] then Some([]) else
    var k := |dots| - 1;
    match FoldEach(folds, dots[..k])
    case None => assert dots[..k][0] == dots[0]; None
    case Some(done) =>
      match FoldDot(folds, dots[k])
      case None => None
      case Some(e) =>
        assert forall i :: 0 <= i < k ==> dots[..k][i] == dots[i];
        Some(done + [e])
  }

  /** The folds `take(folds_count)` keeps: the first count, or all of them without a count. */
  function Taken(folds: seq<Fold>, count: Option<nat>): (r: seq<Fold>)
    ensures count.None? ==> r == folds
    ensures count.Some? ==> r == folds[..Min(count.value, |folds|)]
  {
    if count.Some? && count.value < |folds| then folds[..count.value] else folds
  }

  /** `ManualPage::final_dots`: every dot, in order, through the first folds. */
  function FinalDots(page: Page, count: Option<nat>): Option<seq<Dot>>
  {
    FoldEach(Taken(page.folds, count), page.dots)
  }

  /** The final dots keep the number and order of the dots, each folded by the first folds. */
  lemma FinalDotsOrder(page: Page, count: Option<nat>)
    requires FinalDots(page, count).Some?
    ensures var r := FinalDots(page, count).value;
            |r| == |page.dots|
            && forall i :: 0 <= i < |r| ==> FoldDot(Taken(page.folds, count), page.dots[i]) == Some(r[i])
  {
  }

  function SetOf(s: seq<Dot>): set<Dot>
  {
    set i | 0 <= i < |s| :: s[i]
  }

  /** `ManualPage::count_dots`: the number of distinct final dots. */
  function CountDots(page: Page, count: Option<nat>): (r: Option<nat>)
    ensures r.Some? <==> FinalDots(page, count).Some?
    ensures r.Some? ==> r.value <= |page.dots| && (page.dots != [] ==> r.value >= 1)
  {
    match FinalDots(page, count)
    case None => None
    case Some(final) =>
      SetOfSize(final);
      Some(|SetOf(final)|)
  }

  /** A sequence has at most as many distinct elements as it is long, and at least one when it is not empty. */
  lemma {:induction false} SetOfSize(s: seq<Dot>)
    ensures |SetOf(s)| <= |s| && (s != [] ==> |SetOf(s)| >= 1)
  {
    if s != [] {
      var k := |s| - 1;
      SetOfSize(s[..k]);
      assert SetOf(s) == SetOf(s[..k]) + {s[k]} by {
        forall e | e in SetOf(s) ensures e in SetOf(s[..k]) + {s[k]} {
          var i :| 0 <= i < |s| && s[i] == e;
          if i < k {
            assert s[..k][i] == e;
          }
        }
      }
    }
  }

  /** Two dots that are mirror images across the first fold count once after it. */
  lemma MirrorsMerge(d: Dot, e: Dot, f: Fold, rest: seq<Fold>)
    requires f.FoldX? ==> d.1 == e.1 && d.0 + e.0 == 2 * f.line
    requires f.FoldY? ==> d.0 == e.0 && d.1 + e.1 == 2 * f.line
    ensures FoldDot([f] + rest, d) == FoldDot([f] + rest, e)
  {
    TranslateMirror(f, d, e);
    assert ([f] + rest)[1..] == rest;
  }
}
