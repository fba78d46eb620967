/**
 * The string operations of the Rust standard library that the puzzle parsers
 * rely on: `str::split`, `str::lines`, `split_ascii_whitespace`, `strip_prefix`,
 * `trim_end` and `parse` for unsigned and signed integers.  Strings are
 * sequences of characters; only ASCII whitespace is recognised.
 */
module Text {
  import opened Common

  const USIZE_MAX: nat := 0xFFFF_FFFF_FFFF_FFFF

  predicate IsDigit(c: char) { '0' <= c <= '9' }

  predicate AllDigits(s: string) { forall i :: 0 <= i < |s| ==> IsDigit(s[i]) }

  /** The bytes `u8::is_ascii_whitespace` accepts: space, tab, line feed, form feed, carriage return. */
  predicate IsSpace(c: char) { c == ' ' || c == '\t' || c == '\n' || c == 12 as char || c == '\r' }

  predicate NoSpace(s: string) { forall i :: 0 <= i < |s| ==> !IsSpace(s[i]) }

  /** The value of a run of decimal digits, most significant first. */
  function DigitsValue(s: string): nat
    requires AllDigits(s)
  {
    if s == [] then 0 else 10 * DigitsValue(s[..|s| - 1]) + (s[|s| - 1] as int - '0' as int)
  }

  /** The decimal representation of `n`, without leading zeros ("0" for zero). */
  function Decimal(n: nat): (r: string)
    ensures r != [] && AllDigits(r)
  {
    var last := ['0' + (n % 10) as char];
    if n < 10 then last else Decimal(n / 10) + last
  }

  /**
   * `str::parse::<T>` for an unsigned T whose largest value is `max`: an optional
   * `+`, then at least one decimal digit and nothing else, with a value of at most `max`.
   */
  function ParseUnsigned(s: string, max: nat): (r: Option<nat>)
    ensures r.Some? ==> r.value <= max
  {
    var digits := if |s| > 0 && s[0] == '+' then s[1..] else s;
    if digits != [] && AllDigits(digits) && DigitsValue(digits) <= max then Some(DigitsValue(digits)) else None
  }

  function ParseUsize(s: string): (r: Option<nat>)
    ensures r.Some? ==> r.value <= USIZE_MAX
  {
    ParseUnsigned(s, USIZE_MAX)
  }

  /**
   * `str::parse::<T>` for a signed T with range `lo..=hi`: an optional `+` or `-`,
   * then at least one decimal digit, with a value inside the range.
   */
  function ParseSigned(s: string, lo: int, hi: int): (r: Option<int>)
    ensures r.Some? ==> lo <= r.value <= hi
  {
    var negative := |s| > 0 && s[0] == '-';
    var digits := if |s| > 0 && (s[0] == '+' || s[0] == '-') then s[1..] else s;
    if digits == [] || !AllDigits(digits) then None
    else
      var v: int := if negative then 0 - DigitsValue(digits) else DigitsValue(digits);
      if lo <= v <= hi then Some(v) else None
  }

  const I64_MIN: int := -0x8000_0000_0000_0000
  const I64_MAX: int := 0x7FFF_FFFF_FFFF_FFFF
  const I32_MIN: int := -0x8000_0000
  const I32_MAX: int := 0x7FFF_FFFF

  lemma {:induction false} DecimalValue(n: nat)
    ensures DigitsValue(Decimal(n)) == n
  {
    var last := ['0' + (n % 10) as char];
    if n >= 10 {
      DecimalValue(n / 10);
      var r := Decimal(n / 10) + last;
      assert r[..|r| - 1] == Decimal(n / 10);
    }
  }

  /** Printing a number and parsing it back gives the number. */
  lemma ParseDecimal(n: nat)
    requires n <= USIZE_MAX
    ensures ParseUsize(Decimal(n)) == Some(n)
  {
    DecimalValue(n);
  }

  /** A leading minus sign negates: `-` followed by the digits of `n` parses to -n. */
  lemma ParseNegative(n: nat)
    requires n <= -I64_MIN
    ensures ParseSigned("-" + Decimal(n), I64_MIN, I64_MAX) == Some(-(n as int))
  {
    DecimalValue(n);
    assert ("-" + Decimal(n))[1..] == Decimal(n);
  }

  /** An integer as Rust prints it: a minus sign before the digits of a negative value. */
  function SignedText(v: int): (r: string)
    ensures r != [] && forall i :: 0 <= i < |r| ==> r[i] == '-' || IsDigit(r[i])
  {
    var digits := Decimal(if v < 0 then -v else v);
    if v < 0 then "-" + digits else digits
  }

  /** Printing an `i64` and parsing it back gives the number. */
  lemma ParseSignedText(v: int)
    requires I64_MIN <= v <= I64_MAX
    ensures ParseSigned(SignedText(v), I64_MIN, I64_MAX) == Some(v)
  {
    if v < 0 {
      ParseNegative(-v);
    } else {
      DecimalValue(v);
      assert IsDigit(Decimal(v)[0]);
    }
  }

  /** The first position at or after which `sep` occurs in `s`, if any. */
  function Find(s: string, sep: string): (r: Option<nat>)
    requires sep != []
    ensures r.Some? ==> r.value + |sep| <= |s| && s[r.value..r.value + |sep|] == sep
    ensures forall i :: 0 <= i < (if r.Some? then r.value else |s|) ==> !OccursAt(s, sep, i)
    decreases |s|
  {
    if |s| < |sep| then None
    else if s[..|sep|] == sep then Some(0)
    else
      OccursShift(s, sep);
      match Find(s[1..], sep)
      case None => None
      case Some(i) => Some(i + 1)
  }

  /** An occurrence at position i > 0 of `s` is one at i - 1 of `s[1..]`. */
  lemma OccursShift(s: string, sep: string)
    requires s != []
    ensures forall i :: 1 <= i ==> (OccursAt(s, sep, i) <==> OccursAt(s[1..], sep, i - 1))
  {
    forall i | 1 <= i
      ensures OccursAt(s, sep, i) <==> OccursAt(s[1..], sep, i - 1)
    {
      if i + |sep| <= |s| {
        assert s[i..i + |sep|] == s[1..][i - 1..i - 1 + |sep|];
      }
    }
  }

  predicate OccursAt(s: string, sep: string, i: nat)
  {
    i + |sep| <= |s| && s[i..i + |sep|] == sep
  }

  /** `str::split` on a non-empty pattern: the pieces between non-overlapping occurrences, left to right. */
  function Split(s: string, sep: string): (r: seq<string>)
    requires sep != []
    ensures |r| >= 1
    decreases |s|
  {
    match Find(s, sep)
    case None => [s]
    case Some(i) => [s[..i]] + Split(s[i + |sep|..], sep)
  }

  /** The pieces joined back with the separator between them. */
  function Join(pieces: seq<string>, sep: string): string
  {
    if pieces == [] then []
    else if |pieces| == 1 then pieces[0]
    else pieces[0] + sep + Join(pieces[1..], sep)
  }

  /** Splitting loses nothing: joining the pieces with the separator restores the text. */
  lemma {:induction false} SplitJoin(s: string, sep: string)
    requires sep != []
    ensures Join(Split(s, sep), sep) == s
    decreases |s|
  {
    match Find(s, sep)
    case None =>
    case Some(i) =>
      var rest := s[i + |sep|..];
      var pieces := Split(rest, sep);
      SplitJoin(rest, sep);
      assert Split(s, sep) == [s[..i]] + pieces;
      assert ([s[..i]] + pieces)[1..] == pieces;
      assert s == s[..i] + s[i..i + |sep|] + rest;
  }

  /** A piece never contains the separator. */
  lemma {:induction false} SplitPieces(s: string, sep: string, k: nat, j: nat)
    requires sep != [] && k < |Split(s, sep)|
    ensures !OccursAt(Split(s, sep)[k], sep, j)
    decreases |s|
  {
    match Find(s, sep)
    case None =>
      assert Split(s, sep) == [s];
    case Some(i) =>
      var rest := s[i + |sep|..];
      assert Split(s, sep) == [s[..i]] + Split(rest, sep);
      if k == 0 {
        OccursInPrefix(s, sep, i, j);
      } else {
        SplitPieces(rest, sep, k - 1, j);
      }
  }

  /** An occurrence inside a prefix is an occurrence in the whole text, starting before the prefix ends. */
  lemma OccursInPrefix(s: string, sep: string, i: nat, j: nat)
    requires sep != [] && i <= |s|
    ensures OccursAt(s[..i], sep, j) ==> OccursAt(s, sep, j) && j < i
  {
    if OccursAt(s[..i], sep, j) {
      assert s[..i][j..j + |sep|] == s[j..j + |sep|];
    }
  }

  /** `str::lines`: pieces between line feeds, a trailing carriage return removed, no final empty line. */
  function Lines(s: string): (r: seq<string>)
  {
    if s == [] then []
    else
      var pieces := Split(s, "\n");
      var kept := if pieces[|pieces| - 1] == [] then pieces[..|pieces| - 1] else pieces;
      seq(|kept|, i requires 0 <= i < |kept| => StripCr(kept[i]))
  }

  function StripCr(line: string): string
  {
    if |line| > 0 && line[|line| - 1] == '\r' then line[..|line| - 1] else line
  }

  /** Lines written one per line feed are read back unchanged. */
  lemma LinesOfJoined(lines: seq<string>)
    requires lines != [] && lines[|lines| - 1] != []
    requires forall k :: 0 <= k < |lines| ==> !('\n' in lines[k]) && !('\r' in lines[k])
    ensures Lines(Join(lines, "\n")) == lines
  {
    var s := Join(lines, "\n");
    JoinSplit(lines, "\n");
    JoinNonEmpty(lines, "\n");
    assert Split(s, "\n") == lines;
    var stripped := seq(|lines|, i requires 0 <= i < |lines| => StripCr(lines[i]));
    assert Lines(s) == stripped;
    forall k | 0 <= k < |lines| ensures stripped[k] == lines[k] {
      StripCrNoop(lines[k]);
    }
  }

  lemma StripCrNoop(line: string)
    requires !('\r' in line)
    ensures StripCr(line) == line
  {
    if |line| > 0 {
      assert line[|line| - 1] in line;
    }
  }

  lemma {:induction false} JoinNonEmpty(pieces: seq<string>, sep: string)
    requires pieces != [] && pieces[|pieces| - 1] != []
    ensures Join(pieces, sep) != []
  {
    if |pieces| > 1 {
      JoinNonEmpty(pieces[1..], sep);
    }
  }

  /** A character in neither the pieces nor the separator is not in their join. */
  lemma {:induction false} JoinFree(pieces: seq<string>, sep: string, c: char)
    requires !(c in sep) && forall k :: 0 <= k < |pieces| ==> !(c in pieces[k])
    ensures !(c in Join(pieces, sep))
    decreases |pieces|
  {
    if |pieces| > 1 {
      JoinFree(pieces[1..], sep, c);
    }
  }

  /** Joining pieces free of a one-character separator and splitting again gives the pieces back. */
  lemma {:induction false} JoinSplit(pieces: seq<string>, sep: string)
    requires pieces != [] && |sep| == 1
    requires forall k :: 0 <= k < |pieces| ==> !(sep[0] in pieces[k])
    ensures Split(Join(pieces, sep), sep) == pieces
    decreases |pieces|
  {
    var s := Join(pieces, sep);
    var p := pieces[0];
    FindAbsent(p, sep);
    if |pieces| > 1 {
      var rest := Join(pieces[1..], sep);
      assert s == p + sep + rest;
      FindAfter(p, sep, rest);
      assert s[|p| + 1..] == rest;
      assert s[..|p|] == p;
      JoinSplit(pieces[1..], sep);
    }
  }

  lemma FindAbsent(p: string, sep: string)
    requires |sep| == 1 && !(sep[0] in p)
    ensures Find(p, sep) == None
  {
  }

  lemma {:induction false} FindAfter(p: string, sep: string, rest: string)
    requires |sep| == 1 && !(sep[0] in p)
    ensures Find(p + sep + rest, sep) == Some(|p|)
    decreases |p|
  {
    var s := p + sep + rest;
    if p == [] {
      assert s[..1] == sep;
    } else {
      assert s[..1] != sep by { assert s[..1][0] == p[0]; assert p[0] in p; }
      assert s[1..] == p[1..] + sep + rest;
      assert forall c :: c in p[1..] ==> c in p;
      FindAfter(p[1..], sep, rest);
    }
  }

  /** The length of the leading run of non-whitespace characters. */
  function RunLength(s: string): (n: nat)
    ensures n <= |s| && NoSpace(s[..n])
    ensures n < |s| ==> IsSpace(s[n])
  {
    if s == [] || IsSpace(s[0]) then 0
    else
      var n := 1 + RunLength(s[1..]);
      assert s[..n] == [s[0]] + s[1..][..n - 1];
      n
  }

  /** `split_ascii_whitespace`: the maximal runs of non-whitespace characters, in order. */
  function Words(s: string): (r: seq<string>)
    ensures forall k :: 0 <= k < |r| ==> r[k] != [] && NoSpace(r[k])
    decreases |s|
  {
    if s == [] then []
    else if IsSpace(s[0]) then Words(s[1..])
    else
      var n := RunLength(s);
      [s[..n]] + Words(s[n..])
  }

  /** Words joined by single spaces are read back as the same words. */
  lemma {:induction false} WordsOfJoined(words: seq<string>)
    requires forall k :: 0 <= k < |words| ==> words[k] != [] && NoSpace(words[k])
    ensures Words(Join(words, " ")) == words
    decreases |words|
  {
    if words != [] {
      var w := words[0];
      var s := Join(words, " ");
      if |words| == 1 {
        RunOfWord(w, []);
        assert s[..|w|] == w && s[|w|..] == [];
      } else {
        var rest := Join(words[1..], " ");
        assert s == w + (" " + rest);
        RunOfWord(w, " " + rest);
        assert s[..|w|] == w;
        assert s[|w|..] == " " + rest;
        assert Words(" " + rest) == Words(rest) by { assert (" " + rest)[1..] == rest; }
        WordsOfJoined(words[1..]);
      }
    }
  }

  /** Two words separated by one space. */
  lemma WordsOfPair(a: string, b: string)
    requires a != [] && NoSpace(a) && b != [] && NoSpace(b)
    ensures Words(a + " " + b) == [a, b]
  {
    WordsOfJoined([a, b]);
    assert Join([a, b], " ") == a + " " + b by {
      assert [a, b][1..] == [b];
    }
  }

  lemma {:induction false} RunOfWord(w: string, rest: string)
    requires w != [] && NoSpace(w) && (rest == [] || IsSpace(rest[0]))
    ensures RunLength(w + rest) == |w|
    decreases |w|
  {
    if |w| > 1 {
      assert (w + rest)[1..] == w[1..] + rest;
      RunOfWord(w[1..], rest);
    } else {
      assert (w + rest)[1..] == rest;
    }
  }

  /** `str::strip_prefix`: the rest of `s` when it starts with `prefix`. */
  function StripPrefix(s: string, prefix: string): (r: Option<string>)
    ensures r.Some? <==> prefix <= s
    ensures r.Some? ==> s == prefix + r.value
  {
    if prefix <= s then Some(s[|prefix|..]) else None
  }

  /** `str::trim_end`, for ASCII whitespace. */
  function TrimEnd(s: string): (r: string)
    ensures r <= s && (r == [] || !IsSpace(r[|r| - 1]))
    ensures forall i :: |r| <= i < |s| ==> IsSpace(s[i])
  {
    if s != [] && IsSpace(s[|s| - 1]) then TrimEnd(s[..|s| - 1]) else s
  }

  /**
   * `flat_map(str::parse)` over words: the values of the words that parse as a
   * usize, in order; the words that do not parse are dropped.
   */
  function ParsedUsizes(words: seq<string>): (r: seq<nat>)
    ensures |r| <= |words|
    ensures forall k :: 0 <= k < |r| ==> r[k] <= USIZE_MAX
  {
    if words == [] then []
    else
      var init := ParsedUsizes(words[..|words| - 1]);
      match ParseUsize(words[|words| - 1])
      case Some(v) => init + [v]
      case None => init
  }

  /** When every word parses, nothing is dropped and the values keep their positions. */
  lemma {:induction false} ParsedAll(words: seq<string>)
    requires forall k :: 0 <= k < |words| ==> ParseUsize(words[k]).Some?
    ensures |ParsedUsizes(words)| == |words|
    ensures forall k :: 0 <= k < |words| ==> ParsedUsizes(words)[k] == ParseUsize(words[k]).value
  {
    if words != [] {
      ParsedAll(words[..|words| - 1]);
    }
  }

  /**
   * `map(str::parse).collect::<Result<Vec<usize>, _>>()`: every word's value,
   * or None as soon as one word does not parse.
   */
  function ParseEach(words: seq<string>): (r: Option<seq<nat>>)
    ensures r.Some? <==> forall k :: 0 <= k < |words| ==> ParseUsize(words[k]).Some?
    ensures r.Some? ==> |r.value| == |words| && forall k :: 0 <= k < |words| ==> r.value[k] == ParseUsize(words[k]).value
  {
    if words == [] then Some([])
    else
      match ParseEach(words[..|words| - 1])
      case None => None
      case Some(init) =>
        match ParseUsize(words[|words| - 1])
        case None => None
        case Some(v) => Some(init + [v])
  }

  /** A text without the separator's first character holds no occurrence of it. */
  lemma {:induction false} FindMissing(p: string, sep: string)
    requires sep != [] && !(sep[0] in p)
    ensures Find(p, sep) == None
    decreases |p|
  {
    if |p| >= |sep| {
      assert p[..|sep|] != sep by { assert p[..|sep|][0] == p[0]; }
      assert forall c :: c in p[1..] ==> c in p;
      FindMissing(p[1..], sep);
    }
  }

  /** The first occurrence of a separator follows a prefix free of its first character. */
  lemma {:induction false} FindAfterPrefix(p: string, sep: string, rest: string)
    requires sep != [] && !(sep[0] in p)
    ensures Find(p + sep + rest, sep) == Some(|p|)
    decreases |p|
  {
    var s := p + sep + rest;
    if p == [] {
      assert s[..|sep|] == sep;
    } else {
      assert s[..|sep|] != sep by { assert s[..|sep|][0] == p[0]; }
      assert s[1..] == p[1..] + sep + rest;
      assert forall c :: c in p[1..] ==> c in p;
      FindAfterPrefix(p[1..], sep, rest);
    }
  }

  /** Two pieces free of the separator's first character, joined by it, split back into the two. */
  lemma SplitTwo(a: string, sep: string, b: string)
    requires sep != [] && !(sep[0] in a) && !(sep[0] in b)
    ensures Split(a + sep + b, sep) == [a, b]
  {
    var s := a + sep + b;
    FindAfterPrefix(a, sep, b);
    assert s[..|a|] == a;
    assert s[|a| + |sep|..] == b;
    FindMissing(b, sep);
  }

  /** A trailing space adds no word. */
  lemma {:induction false} WordsTrailingSpace(a: string)
    ensures Words(a + " ") == Words(a)
    decreases |a|
  {
    var s := a + " ";
    if a == [] {
      assert s[1..] == [];
    } else if IsSpace(a[0]) {
      assert s[1..] == a[1..] + " ";
      WordsTrailingSpace(a[1..]);
    } else {
      var n := RunLength(a);
      RunOfWord(a[..n], a[n..] + " ") by {
        assert a == a[..n] + a[n..];
      }
      assert s == a[..n] + (a[n..] + " ");
      assert s[..n] == a[..n];
      assert s[n..] == a[n..] + " ";
      WordsTrailingSpace(a[n..]);
    }
  }
}
