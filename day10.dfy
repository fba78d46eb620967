/**
 * Syntax scoring (day 10): each navigation line is read bracket by bracket
 * against a stack of open brackets.  A closing bracket that does not match
 * the innermost open one (or meets an empty stack) makes the line corrupted;
 * a line that runs out is incomplete, and its completion closes the open
 * brackets innermost first.  Corrupted lines are scored by their first
 * illegal bracket, incomplete lines by a base-5 reading of their completion,
 * of which the middle score is taken.
 */
module Day10 {
  import opened Common
  import opened Text

  // parser.rs

  /** The outcome of parsing one line. */
  datatype ParserResult = Corrupted(ch: char) | Incomplete(stack: seq<char>)

  /** What makes the program panic: a non-bracket character, or no incomplete line to take the middle score of. */
  datatype Failure = InvalidCharacter(ch: char) | NoIncompleteLine

  /** `OPENING_BRACKETS` and `CLOSING_BRACKETS`: partners share an index. */
  const OpeningBrackets: seq<char> := ['(', '{', '<', '[']
  const ClosingBrackets: seq<char> := [')', '}', '>', ']']

  predicate IsOpening(c: char) { c in OpeningBrackets }

  predicate IsClosing(c: char) { c in ClosingBrackets }

  predicate AllOpening(s: seq<char>) { forall i :: 0 <= i < |s| ==> IsOpening(s[i]) }

  /** `CLOSING_BRACKETS[index]` for the index of the opening bracket. */
  function Partner(open: char): (r: char)
    requires IsOpening(open)
    ensures IsClosing(r)
  {
    if open == OpeningBrackets[0] then ClosingBrackets[0]
    else if open == OpeningBrackets[1] then ClosingBrackets[1]
    else if open == OpeningBrackets[2] then ClosingBrackets[2]
    else ClosingBrackets[3]
  }

  /** Distinct opening brackets have distinct partners. */
  lemma PartnerInjective(a: char, b: char)
    requires IsOpening(a) && IsOpening(b) && Partner(a) == Partner(b)
    ensures a == b
  {
  }

  /** The closing bracket c does not close the innermost open bracket (there may be none). */
  predicate Mismatch(open: seq<char>, c: char)
  {
    open == [] || !IsOpening(open[|open| - 1]) || Partner(open[|open| - 1]) != c
  }

  /**
   * The parse of the rest of a line with the given open brackets (innermost
   * last), as the loop of `parse` performs it; Err where it panics.
   */
  function Scan(rest: string, stack: seq<char>): Result<ParserResult, Failure>
    decreases |rest|
  {
    if rest == [] then Ok(Incomplete(stack))
    else
      var c := rest[0];
      if IsOpening(c) then Scan(rest[1..], stack + [c])
      else if IsClosing(c) then
        if Mismatch(stack, c) then Ok(Corrupted(c))
        else Scan(rest[1..], stack[..|stack| - 1])
      else Err(InvalidCharacter(c))
  }

  /** `NavigationLineParser::parse` of a fresh parser. */
  function Parse(line: string): Result<ParserResult, Failure>
  {
    Scan(line, [])
  }

  /** `NavigationLineParser`: the line and its stack of open brackets. */
  class NavigationLineParser {
    const line: string
    var bracketStack: seq<char>

    /** `NavigationLineParser::new` (and `From<&str>`). */
    constructor (line: string)
      ensures this.line == line && bracketStack == []
    {
      this.line := line;
      bracketStack := [];
    }

    /** `parse`: pushes openers, pops matched closers, stops at the first illegal bracket. */
    method Parse() returns (r: Result<ParserResult, Failure>)
      modifies this
      ensures r == Scan(line, old(bracketStack))
    {
      for i := 0 to |line|
        invariant Scan(line[i..], bracketStack) == Scan(line, old(bracketStack))
      {
        var bracket := line[i];
        assert line[i..][1..] == line[i + 1..];
        if bracket in OpeningBrackets {
          bracketStack := bracketStack + [bracket];
        } else if bracket in ClosingBrackets {
          if bracketStack == [] {
            return Ok(Corrupted(bracket));
          }
          var openingBracket := bracketStack[|bracketStack| - 1];
          if !IsOpening(openingBracket) || Partner(openingBracket) != bracket {
            return Ok(Corrupted(bracket));
          }
          bracketStack := bracketStack[..|bracketStack| - 1];
        } else {
          return Err(InvalidCharacter(bracket));
        }
      }
      assert line[|line|..] == [];
      r := Ok(Incomplete(bracketStack));
    }
  }

  /** A parse that starts with open brackets only keeps open brackets only. */
  lemma {:induction false} ScanKeepsOpening(rest: string, stack: seq<char>)
    requires AllOpening(stack)
    ensures Scan(rest, stack).Ok? && Scan(rest, stack).value.Incomplete? ==> AllOpening(Scan(rest, stack).value.stack)
    ensures Scan(rest, stack).Ok? && Scan(rest, stack).value.Corrupted? ==> IsClosing(Scan(rest, stack).value.ch)
    ensures Scan(rest, stack).Err? ==>
              Scan(rest, stack).error.InvalidCharacter? && !IsOpening(Scan(rest, stack).error.ch) && !IsClosing(Scan(rest, stack).error.ch)
  {
    if rest != [] {
      var c := rest[0];
      if IsOpening(c) {
        ScanKeepsOpening(rest[1..], stack + [c]);
      } else if IsClosing(c) && stack != [] && Partner(stack[|stack| - 1]) == c {
        ScanKeepsOpening(rest[1..], stack[..|stack| - 1]);
      }
    }
  }

  /** The stack a line leaves open is where the parse of what follows starts. */
  lemma {:induction false} ScanAppend(u: string, v: string, stack: seq<char>)
    ensures Scan(u, stack).Ok? && Scan(u, stack).value.Incomplete? ==> Scan(u + v, stack) == Scan(v, Scan(u, stack).value.stack)
    ensures Scan(u, stack).Ok? && Scan(u, stack).value.Corrupted? ==> Scan(u + v, stack) == Scan(u, stack)
    ensures Scan(u, stack).Err? ==> Scan(u + v, stack) == Scan(u, stack)
  {
    if u != [] {
      assert (u + v)[0] == u[0] && (u + v)[1..] == u[1..] + v;
      var c := u[0];
      if IsOpening(c) {
        ScanAppend(u[1..], v, stack + [c]);
      } else if IsClosing(c) && stack != [] && IsOpening(stack[|stack| - 1]) && Partner(stack[|stack| - 1]) == c {
        ScanAppend(u[1..], v, stack[..|stack| - 1]);
      }
    } else {
      assert u + v == v;
    }
  }

  /**
   * A line is corrupted by c exactly at the first closing bracket c that
   * meets an empty stack or the wrong opener: the prefix before it parses
   * as incomplete.
   */
  lemma CorruptedAt(line: string, c: char) returns (i: nat, open: seq<char>)
    requires Parse(line) == Ok(Corrupted(c))
    ensures i < |line| && line[i] == c && IsClosing(c)
    ensures Parse(line[..i]) == Ok(Incomplete(open))
    ensures AllOpening(open) && Mismatch(open, c)
  {
    i, open := CorruptedFrom(line, [], c);
    assert line[..i] == line[..i];
  }

  lemma {:induction false} CorruptedFrom(rest: string, stack: seq<char>, c: char) returns (i: nat, open: seq<char>)
    requires AllOpening(stack) && Scan(rest, stack) == Ok(Corrupted(c))
    ensures i < |rest| && rest[i] == c && IsClosing(c)
    ensures Scan(rest[..i], stack) == Ok(Incomplete(open))
    ensures AllOpening(open) && Mismatch(open, c)
  {
    var d := rest[0];
    if IsOpening(d) {
      var j, o := CorruptedFrom(rest[1..], stack + [d], c);
      i, open := j + 1, o;
      assert rest[..i][0] == d && rest[..i][1..] == rest[1..][..j];
    } else if IsClosing(d) && stack != [] && Partner(stack[|stack| - 1]) == d {
      var j, o := CorruptedFrom(rest[1..], stack[..|stack| - 1], c);
      i, open := j + 1, o;
      assert rest[..i][0] == d && rest[..i][1..] == rest[1..][..j];
    } else {
      i, open := 0, stack;
      assert rest[..0] == [];
    }
  }

  /** Conversely, an incomplete prefix followed by a mismatched closer corrupts the line. */
  lemma CorruptedBy(prefix: string, open: seq<char>, c: char, rest: string)
    requires Parse(prefix) == Ok(Incomplete(open)) && IsClosing(c)
    requires Mismatch(open, c)
    ensures Parse(prefix + [c] + rest) == Ok(Corrupted(c))
  {
    ScanKeepsOpening(prefix, []);
    ScanAppend(prefix, [c] + rest, []);
    assert prefix + [c] + rest == prefix + ([c] + rest);
  }

  /** `first_illegal`: the illegal bracket of a corrupted line. */
  function FirstIllegal(r: ParserResult): (c: Option<char>)
    ensures c.Some? <==> r.Corrupted?
    ensures c.Some? ==> c.value == r.ch
  {
    match r
    case Corrupted(ch) => Some(ch)
    case Incomplete(_) => None
  }

  /** The closer `completion` writes for one bracket, 'E' for anything else. */
  function Closer(bracket: char): char
  {
    match bracket
    case '(' => ')'
    case '[' => ']'
    case '{' => '}'
    case '<' => '>'
    case _ => 'E'
  }

  /** The two bracket tables of the parser agree. */
  lemma CloserIsPartner(bracket: char)
    requires IsOpening(bracket)
    ensures Closer(bracket) == Partner(bracket)
  {
  }

  /** The closers for the open brackets, innermost first. */
  function Closers(stack: seq<char>): (r: seq<char>)
    ensures |r| == |stack|
    ensures forall i :: 0 <= i < |r| ==> r[i] == Closer(stack[|stack| - 1 - i])
  {
    if stack == [] then [] else [Closer(stack[|stack| - 1])] + Closers(stack[..|stack| - 1])
  }

  /** `completion`. */
  function Completion(r: ParserResult): (c: Option<seq<char>>)
    ensures c.Some? <==> r.Incomplete?
    ensures c.Some? ==> c.value == Closers(r.stack)
  {
    match r
    case Corrupted(_) => None
    case Incomplete(stack) => Some(Closers(stack))
  }

  /** Reading the closers of open brackets closes exactly those brackets. */
  lemma {:induction false} ClosersClose(below: seq<char>, open: seq<char>)
    requires AllOpening(open)
    ensures Scan(Closers(open), below + open) == Ok(Incomplete(below))
  {
    if open != [] {
      var n := |open| - 1;
      var top := open[n];
      CloserIsPartner(top);
      assert (below + open)[..|below + open| - 1] == below + open[..n];
      ClosersClose(below, open[..n]);
    } else {
      assert below + open == below;
    }
  }

  /** Appending its completion to an incomplete line leaves nothing open. */
  lemma CompletionCompletes(line: string, open: seq<char>)
    requires Parse(line) == Ok(Incomplete(open))
    ensures Parse(line + Closers(open)) == Ok(Incomplete([]))
  {
    ScanKeepsOpening(line, []);
    ScanAppend(line, Closers(open), []);
    ClosersClose([], open);
    assert [] + open == open;
  }

  // main.rs

  /** The syntax error score of one illegal bracket. */
  function IllegalScore(bracket: char): nat
  {
    match bracket
    case ')' => 3
    case ']' => 57
    case '}' => 1197
    case '>' => 25137
    case _ => 0
  }

  /** What one parsed line adds to the syntax error score. */
  function LineSyntaxScore(r: ParserResult): (s: nat)
    ensures r.Incomplete? ==> s == 0
  {
    match FirstIllegal(r)
    case Some(c) => IllegalScore(c)
    case None => 0
  }

  /** A corrupted line adds one of the four bracket scores. */
  lemma CorruptedLineScore(line: string)
    requires Parse(line).Ok? && Parse(line).value.Corrupted?
    ensures LineSyntaxScore(Parse(line).value) in {3, 57, 1197, 25137}
  {
    ScanKeepsOpening(line, []);
  }

  /** The syntax error score of the lines, Err at the first line that panics. */
  function SyntaxScoreOf(lines: seq<string>): Result<nat, Failure>
  {
    if lines == [] then Ok(0)
    else
      match SyntaxScoreOf(lines[..|lines| - 1])
      case Err(e) => Err(e)
      case Ok(front) =>
        match Parse(lines[|lines| - 1])
        case Err(e) => Err(e)
        case Ok(r) => Ok(front + LineSyntaxScore(r))
  }

  /** The score of a set of lines is the sum of the scores of its parts. */
  lemma {:induction false} SyntaxScoreAppend(a: seq<string>, b: seq<string>)
    requires SyntaxScoreOf(a).Ok? && SyntaxScoreOf(b).Ok?
    ensures SyntaxScoreOf(a + b) == Ok(SyntaxScoreOf(a).value + SyntaxScoreOf(b).value)
  {
    if b != [] {
      var n := |b| - 1;
      assert (a + b)[..|a + b| - 1] == a + b[..n];
      assert (a + b)[|a + b| - 1] == b[n];
      SyntaxScoreAppend(a, b[..n]);
    } else {
      assert a + b == a;
    }
  }

  /** `total_syntax_error_score`. */
  function TotalSyntaxErrorScore(text: string): Result<nat, Failure>
  {
    SyntaxScoreOf(Lines(text))
  }

  /** The value of a completion character: ) ] } > count 1 to 4. */
  function ClosingValue(bracket: char): (v: nat)
    ensures v <= 4
  {
    match bracket
    case ')' => 1
    case ']' => 2
    case '}' => 3
    case '>' => 4
    case _ => 0
  }

  /** The `fold(0, |score, b| score * 5 + value(b))` over a completion. */
  function CompletionScore(completion: seq<char>): nat
  {
    if completion == [] then 0
    else CompletionScore(completion[..|completion| - 1]) * 5 + ClosingValue(completion[|completion| - 1])
  }

  /** The closing bracket worth v. */
  function ClosingOfValue(v: nat): char
  {
    if v == 1 then ')' else if v == 2 then ']' else if v == 3 then '}' else '>'
  }

  predicate AllClosing(s: seq<char>) { forall i :: 0 <= i < |s| ==> IsClosing(s[i]) }

  /** Reads a completion score back as base-5 digits 1..4. */
  function DecodeCompletion(score: nat): seq<char>
    decreases score
  {
    if score == 0 then [] else DecodeCompletion(score / 5) + [ClosingOfValue(score % 5)]
  }

  /** A completion of closing brackets is determined by its score. */
  lemma {:induction false} CompletionScoreDecodes(completion: seq<char>)
    requires AllClosing(completion)
    ensures DecodeCompletion(CompletionScore(completion)) == completion
  {
    if completion != [] {
      var n := |completion| - 1;
      var front := completion[..n];
      var last := completion[n];
      CompletionScoreDecodes(front);
      var s := CompletionScore(completion);
      assert s == CompletionScore(front) * 5 + ClosingValue(last);
      ClosingRoundTrip(last);
      BaseFiveDigit(CompletionScore(front), ClosingValue(last));
      assert DecodeCompletion(s) == DecodeCompletion(s / 5) + [ClosingOfValue(s % 5)];
      assert front + [last] == completion;
    }
  }

  /** A closing bracket is worth 1 to 4 and is the bracket of its value. */
  lemma ClosingRoundTrip(c: char)
    requires IsClosing(c)
    ensures 1 <= ClosingValue(c) <= 4 && ClosingOfValue(ClosingValue(c)) == c
  {
  }

  /** Appending a base-5 digit v in 1..4 to a: the last digit is v, the rest is a. */
  lemma BaseFiveDigit(a: nat, v: nat)
    requires 1 <= v <= 4
    ensures (a * 5 + v) % 5 == v && (a * 5 + v) / 5 == a && a * 5 + v != 0
  {
  }

  /** So two different completions never score the same. */
  lemma CompletionScoreInjective(a: seq<char>, b: seq<char>)
    requires AllClosing(a) && AllClosing(b) && CompletionScore(a) == CompletionScore(b)
    ensures a == b
  {
    CompletionScoreDecodes(a);
    CompletionScoreDecodes(b);
  }

  /** The completions of an incomplete line are closing brackets. */
  lemma CompletionClosing(line: string)
    requires Parse(line).Ok? && Parse(line).value.Incomplete?
    ensures AllClosing(Closers(Parse(line).value.stack))
  {
    ScanKeepsOpening(line, []);
    var s := Parse(line).value.stack;
    forall i | 0 <= i < |s|
      ensures IsClosing(Closers(s)[i])
    {
      CloserIsPartner(s[|s| - 1 - i]);
    }
  }

  /** The completion scores of the incomplete lines, in order; Err at the first line that panics. */
  function CompletionScores(lines: seq<string>): Result<seq<nat>, Failure>
  {
    if lines == [] then Ok([])
    else
      match CompletionScores(lines[..|lines| - 1])
      case Err(e) => Err(e)
      case Ok(front) =>
        match Parse(lines[|lines| - 1])
        case Err(e) => Err(e)
        case Ok(r) =>
          match Completion(r)
          case None => Ok(front)
          case Some(c) => Ok(front + [CompletionScore(c)])
  }

  /** The syntax and the completion scores fail on the same line. */
  lemma {:induction false} ScoresFailTogether(lines: seq<string>)
    ensures SyntaxScoreOf(lines).Err? <==> CompletionScores(lines).Err?
    ensures SyntaxScoreOf(lines).Err? ==> SyntaxScoreOf(lines).error == CompletionScores(lines).error
  {
    if lines != [] {
      ScoresFailTogether(lines[..|lines| - 1]);
    }
  }

  predicate Sorted(s: seq<nat>) { forall i, j :: 0 <= i < j < |s| ==> s[i] <= s[j] }

  /** Insertion of x into an ascending sequence. */
  function Insert(x: nat, s: seq<nat>): (r: seq<nat>)
    requires Sorted(s)
    ensures Sorted(r) && |r| == |s| + 1
    ensures r[0] == x || (s != [] && r[0] == s[0])
    ensures forall y :: y in r <==> y == x || y in s
  {
    if s == [] || x <= s[0] then [x] + s else [s[0]] + Insert(x, s[1..])
  }

  /** `sort_unstable` of the scores. */
  function Sort(s: seq<nat>): (r: seq<nat>)
    ensures Sorted(r) && |r| == |s|
    ensures forall y :: y in r <==> y in s
  {
    if s == [] then [] else Insert(s[|s| - 1], Sort(s[..|s| - 1]))
  }

  /** How many elements of s satisfy p. */
  function CountWhere(s: seq<nat>, p: nat -> bool): nat
  {
    if s == [] then 0 else CountWhere(s[..|s| - 1], p) + if p(s[|s| - 1]) then 1 else 0
  }

  lemma {:induction false} CountAppend(a: seq<nat>, b: seq<nat>, p: nat -> bool)
    ensures CountWhere(a + b, p) == CountWhere(a, p) + CountWhere(b, p)
  {
    if b != [] {
      assert (a + b)[..|a + b| - 1] == a + b[..|b| - 1];
      CountAppend(a, b[..|b| - 1], p);
    } else {
      assert a + b == a;
    }
  }

  lemma {:induction false} CountBounds(s: seq<nat>, p: nat -> bool)
    ensures CountWhere(s, p) <= |s|
    ensures (forall i :: 0 <= i < |s| ==> !p(s[i])) ==> CountWhere(s, p) == 0
  {
    if s != [] {
      CountBounds(s[..|s| - 1], p);
    }
  }

  lemma {:induction false} InsertCount(x: nat, s: seq<nat>, p: nat -> bool)
    requires Sorted(s)
    ensures CountWhere(Insert(x, s), p) == CountWhere(s, p) + if p(x) then 1 else 0
  {
    if s == [] || x <= s[0] {
      CountAppend([x], s, p);
    } else {
      InsertCount(x, s[1..], p);
      CountAppend([s[0]], Insert(x, s[1..]), p);
      CountAppend([s[0]], s[1..], p);
      assert [s[0]] + s[1..] == s;
    }
  }

  /** Sorting keeps every count: it is a permutation. */
  lemma {:induction false} SortCount(s: seq<nat>, p: nat -> bool)
    ensures CountWhere(Sort(s), p) == CountWhere(s, p)
  {
    if s != [] {
      SortCount(s[..|s| - 1], p);
      InsertCount(s[|s| - 1], Sort(s[..|s| - 1]), p);
    }
  }

  /** In an ascending sequence, at most k elements are below the k-th and at most |t| - 1 - k above it. */
  lemma SortedRank(t: seq<nat>, k: nat)
    requires Sorted(t) && k < |t|
    ensures CountWhere(t, x => x < t[k]) <= k
    ensures CountWhere(t, x => x > t[k]) <= |t| - 1 - k
  {
    SortedBelow(t, k);
    SortedAbove(t, k);
  }

  /** Nothing from the k-th element on is below it, so only the k elements before it can be. */
  lemma SortedBelow(t: seq<nat>, k: nat)
    requires Sorted(t) && k < |t|
    ensures CountWhere(t, x => x < t[k]) <= k
  {
    var m := t[k];
    var below := x => x < m;
    assert t == t[..k] + t[k..];
    CountAppend(t[..k], t[k..], below);
    CountBounds(t[..k], below);
    assert forall i :: 0 <= i < |t[k..]| ==> !below(t[k..][i]) by {
      forall i | 0 <= i < |t[k..]| ensures !below(t[k..][i]) {
        assert t[k..][i] == t[k + i];
      }
    }
    CountBounds(t[k..], below);
  }

  /** Nothing up to the k-th element is above it, so only the |t| - 1 - k elements after it can be. */
  lemma SortedAbove(t: seq<nat>, k: nat)
    requires Sorted(t) && k < |t|
    ensures CountWhere(t, x => x > t[k]) <= |t| - 1 - k
  {
    var m := t[k];
    var above := x => x > m;
    assert t == t[..k + 1] + t[k + 1..];
    CountAppend(t[..k + 1], t[k + 1..], above);
    var upTo := t[..k + 1];
    assert forall i :: 0 <= i < |upTo| ==> !above(upTo[i]) by {
      forall i | 0 <= i < |upTo| ensures !above(upTo[i]) {
        assert upTo[i] == t[i];
      }
    }
    CountBounds(upTo, above);
    CountBounds(t[k + 1..], above);
  }

  /** `total_autocompletion_score`: the middle of the sorted completion scores. */
  function TotalAutocompletionScore(text: string): Result<nat, Failure>
  {
    match CompletionScores(Lines(text))
    case Err(e) => Err(e)
    case Ok(scores) =>
      if scores == [] then Err(NoIncompleteLine)
      else Ok(Sort(scores)[|scores| / 2])
  }

  /**
   * The autocompletion score is a median: one of the scores, with at most
   * half of them below it and at most half above it.
   */
  lemma AutocompletionIsMedian(text: string)
    requires CompletionScores(Lines(text)).Ok?
    ensures TotalAutocompletionScore(text).Err? <==> CompletionScores(Lines(text)).value == []
    ensures TotalAutocompletionScore(text).Ok? ==>
              var scores := CompletionScores(Lines(text)).value;
              var m := TotalAutocompletionScore(text).value;
              m in scores
              && CountWhere(scores, x => x < m) <= |scores| / 2
              && CountWhere(scores, x => x > m) <= |scores| - 1 - |scores| / 2
  {
    var scores := CompletionScores(Lines(text)).value;
    if scores != [] {
      var t := Sort(scores);
      var m := t[|scores| / 2];
      SortedRank(t, |scores| / 2);
      SortCount(scores, x => x < m);
      SortCount(scores, x => x > m);
    }
  }
}
