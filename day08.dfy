/**
 * Seven Segment Search (day 8): each note lists the ten digit patterns of a
 * display whose segment wires are shuffled, and four output words.  The
 * segments are letters 'a'..'g'; a pattern lights the wires of one digit, in
 * any order.  Unscrambling recovers, from the ten patterns, which true segment
 * each wire letter drives.
 */
module Day08 {
  import opened Common
  import opened Text

  /** `NoteEntry`: the ten signal patterns and the output words. */
  datatype NoteEntry = NoteEntry(signalPatterns: seq<string>, outputValue: seq<string>)

  /**
   * `ascii_ord`: the letter's offset from 'a', computed on the character's low
   * byte; the byte subtraction panics (None) below 'a'.
   */
  function AsciiOrd(ch: char): (r: Option<nat>)
    ensures 'a' <= ch <= 0xFF as char ==> r == Some(ch as int - 'a' as int)
    ensures ch < 'a' ==> r == None
  {
    var byte := ch as int % 256;
    if byte < 'a' as int then None else Some(byte - 'a' as int)
  }

  /** The segments each digit lights, written in sorted order. */
  const CANONICAL: seq<string> :=
    ["abcefg", "cf", "acdeg", "acdfg", "bcdf", "abdfg", "abdefg", "acf", "abcdefg", "abcdfg"]

  /** The output lengths that identify a digit on their own. */
  const UNIQUE_SEGMENT_COUNTS: seq<nat> := [2, 3, 4, 7]

  function CountUnique(words: seq<string>): (n: nat)
    ensures n <= |words|
  {
    if words == [] then 0
    else CountUnique(words[..|words| - 1]) + (if |words[|words| - 1]| in UNIQUE_SEGMENT_COUNTS then 1 else 0)
  }

  /** `unique_segments_digits_count`: the output words of length 2, 3, 4 or 7. */
  function UniqueSegmentsDigitsCount(entry: NoteEntry): (n: nat)
    ensures n <= |entry.outputValue|
  {
    CountUnique(entry.outputValue)
  }

  /** `Iterator::find`: the first element satisfying `p`. */
  function FindFirst<T>(s: seq<T>, p: T -> bool): (r: Option<T>)
    ensures r.Some? ==> r.value in s && p(r.value)
    ensures r.None? ==> forall i :: 0 <= i < |s| ==> !p(s[i])
  {
    if s == [] then None else if p(s[0]) then Some(s[0]) else FindFirst(s[1..], p)
  }

  /** The first pattern with `n` segments. */
  function FindPattern(patterns: seq<string>, n: nat): (r: Option<string>)
    ensures r.Some? ==> r.value in patterns && |r.value| == n
    ensures r.None? ==> forall i :: 0 <= i < |patterns| ==> |patterns[i]| != n
  {
    FindFirst(patterns, (x: string) => |x| == n)
  }

  /** Every letter of `part` occurs in `word` (`chars().all(contains)`). */
  predicate ContainsAll(word: string, part: string)
  {
    forall i :: 0 <= i < |part| ==> part[i] in word
  }

  /** The first six-segment pattern holding every letter of `four`. */
  function FindNine(patterns: seq<string>, four: string): (r: Option<string>)
    ensures r.Some? ==> r.value in patterns && |r.value| == 6 && ContainsAll(r.value, four)
    ensures r.None? ==> forall i :: 0 <= i < |patterns| ==> !(|patterns[i]| == 6 && ContainsAll(patterns[i], four))
  {
    FindFirst(patterns, (x: string) => |x| == 6 && ContainsAll(x, four))
  }

  /** The first six-segment pattern missing a letter of `one`. */
  function FindSix(patterns: seq<string>, one: string): (r: Option<string>)
    ensures r.Some? ==> r.value in patterns && |r.value| == 6 && !ContainsAll(r.value, one)
    ensures r.None? ==> forall i :: 0 <= i < |patterns| ==> !(|patterns[i]| == 6 && !ContainsAll(patterns[i], one))
  {
    FindFirst(patterns, (x: string) => |x| == 6 && !ContainsAll(x, one))
  }

  /** The first six-segment pattern other than `six` and `nine`. */
  function FindZero(patterns: seq<string>, six: string, nine: string): (r: Option<string>)
    ensures r.Some? ==> r.value in patterns && |r.value| == 6 && r.value != six && r.value != nine
    ensures r.None? ==> forall i :: 0 <= i < |patterns| ==> !(|patterns[i]| == 6 && patterns[i] != six && patterns[i] != nine)
  {
    FindFirst(patterns, (x: string) => |x| == 6 && x != six && x != nine)
  }

  /** The first letter of `word` that is not in `avoid`. */
  function FindNotIn(word: string, avoid: string): (r: Option<char>)
    ensures r.Some? ==> r.value in word && r.value !in avoid
    ensures r.None? ==> forall i :: 0 <= i < |word| ==> word[i] in avoid
  {
    FindFirst(word, (ch: char) => ch !in avoid)
  }

  /** `result[ascii_ord(wire)] = segment`, which panics for a wire outside 'a'..'g'. */
  function Assign(result: seq<char>, wire: char, segment: char): (r: Option<seq<char>>)
    ensures r.Some? ==> |r.value| == |result|
  {
    match AsciiOrd(wire)
    case None => None
    case Some(k) => if k < |result| then Some(result[k := segment]) else None
  }

  /** `position`: the first index holding `ch`. */
  function Position(s: seq<char>, ch: char): (r: Option<nat>)
    ensures r.Some? ==> r.value < |s| && s[r.value] == ch && forall i :: 0 <= i < r.value ==> s[i] != ch
    ensures r.None? ==> ch !in s
  {
    if s == [] then None
    else if s[0] == ch then Some(0)
    else match Position(s[1..], ch)
      case None => None
      case Some(i) => Some(i + 1)
  }

  /**
   * `unscramble`: for each wire letter (by its offset from 'a') the true
   * segment it drives; None where one of the program's `expect`s or an index
   * would panic.
   */
  function Unscramble(patterns: seq<string>): (r: Option<seq<char>>)
    ensures r.Some? ==> |r.value| == 7
  {
    var one :- FindPattern(patterns, 2);
    var seven :- FindPattern(patterns, 3);
    var a :- FindNotIn(seven, one);
    var four :- FindPattern(patterns, 4);
    var nine :- FindNine(patterns, four);
    var six :- FindSix(patterns, one);
    var zero :- FindZero(patterns, six, nine);
    var eight :- FindPattern(patterns, 7);
    var c :- FindNotIn(eight, six);
    var d :- FindNotIn(eight, zero);
    var e :- FindNotIn(eight, nine);
    var f :- FindNotIn(one, [c]);
    var b :- FindNotIn(four, [c, d, f]);
    Wiring(a, b, c, d, e, f)
  }

  /** The tail of `unscramble`: the six found wires get their segments and the slot left over gets 'g'. */
  function Wiring(a: char, b: char, c: char, d: char, e: char, f: char): (r: Option<seq<char>>)
    ensures r.Some? ==> |r.value| == 7
  {
    var r1 :- Assign(seq(7, _ => 'x'), a, 'a');
    var r2 :- Assign(r1, b, 'b');
    var r3 :- Assign(r2, c, 'c');
    var r4 :- Assign(r3, d, 'd');
    var r5 :- Assign(r4, e, 'e');
    var r6 :- Assign(r5, f, 'f');
    var g :- Position(r6, 'x');
    Some(r6[g := 'g'])
  }

  /** `unscrambled_segments_to_digit`: the digit of a sorted segment string; the program panics on anything else. */
  function SegmentsToDigit(segments: string): (r: Option<nat>)
    ensures r.Some? ==> r.value < 10 && CANONICAL[r.value] == segments
    ensures r.None? ==> segments !in CANONICAL
  {
    if segments == "abcefg" then Some(0)
    else if segments == "cf" then Some(1)
    else if segments == "acdeg" then Some(2)
    else if segments == "acdfg" then Some(3)
    else if segments == "bcdf" then Some(4)
    else if segments == "abdfg" then Some(5)
    else if segments == "abdefg" then Some(6)
    else if segments == "acf" then Some(7)
    else if segments == "abcdefg" then Some(8)
    else if segments == "abcdfg" then Some(9)
    else None
  }

  // Sorting the letters of a word (`sort_unstable`).

  predicate Sorted(s: seq<char>)
  {
    |s| <= 1 || (s[0] <= s[1] && Sorted(s[1..]))
  }

  lemma {:induction false} SortedHead(s: seq<char>)
    requires Sorted(s) && s != []
    ensures forall i :: 0 <= i < |s| ==> s[0] <= s[i]
  {
    if |s| > 1 {
      SortedHead(s[1..]);
      assert forall i :: 1 <= i < |s| ==> s[i] == s[1..][i - 1];
    }
  }

  function Insert(x: char, s: seq<char>): (r: seq<char>)
    requires Sorted(s)
    ensures Sorted(r)
    ensures r != [] && (r[0] == x || (s != [] && r[0] == s[0]))
  {
    if s == [] then [x]
    else if x <= s[0] then [x] + s
    else
      var rest := Insert(x, s[1..]);
      [s[0]] + rest
  }

  /** Inserting adds exactly the one letter. */
  lemma {:induction false} InsertPermutes(x: char, s: seq<char>)
    requires Sorted(s)
    ensures multiset(Insert(x, s)) == multiset(s) + multiset{x}
    decreases |s|
  {
    if s != [] && x > s[0] {
      InsertPermutes(x, s[1..]);
      assert s == [s[0]] + s[1..];
    }
  }

  /** The letters of a word in ascending order. */
  function SortChars(s: seq<char>): (r: seq<char>)
    ensures Sorted(r)
  {
    if s == [] then [] else Insert(s[0], SortChars(s[1..]))
  }

  /** Sorting keeps the letters: the result is a permutation of the word. */
  lemma {:induction false} SortCharsPermutes(s: seq<char>)
    ensures multiset(SortChars(s)) == multiset(s)
    decreases |s|
  {
    if s != [] {
      SortCharsPermutes(s[1..]);
      InsertPermutes(s[0], SortChars(s[1..]));
      assert s == [s[0]] + s[1..];
    }
  }

  /** A sorted sequence is determined by its multiset of letters. */
  lemma {:induction false} SortedUnique(a: seq<char>, b: seq<char>)
    requires Sorted(a) && Sorted(b) && multiset(a) == multiset(b)
    ensures a == b
    decreases |a|
  {
    if a != [] {
      SameHead(a, b);
      SortedUnique(a[1..], b[1..]);
      assert a == [a[0]] + a[1..] && b == [b[0]] + b[1..];
    }
  }

  /** Two sorted permutations start with the same letter and continue with permutations. */
  lemma SameHead(a: seq<char>, b: seq<char>)
    requires Sorted(a) && Sorted(b) && multiset(a) == multiset(b) && a != []
    ensures b != [] && a[0] == b[0] && multiset(a[1..]) == multiset(b[1..])
  {
    assert |b| == |multiset(b)| == |multiset(a)| == |a|;
    SortedHead(a);
    SortedHead(b);
    assert b[0] in multiset(a) && a[0] in multiset(b);
    assert a[0] == b[0];
    assert a == [a[0]] + a[1..] && b == [b[0]] + b[1..];
    assert multiset(a[1..]) == multiset(a) - multiset{a[0]};
    assert multiset(b[1..]) == multiset(b) - multiset{b[0]};
  }

  // Translating output words through the unscrambled wiring.

  /** Each wire letter of the word replaced by its true segment; panics (None) for a letter outside the wiring. */
  function Translate(wiring: seq<char>, word: string): (r: Option<seq<char>>)
    ensures r.Some? <==> Translatable(wiring, word)
    ensures r.Some? ==> r.value == Decoded(wiring, word)
  {
    if word == [] then Some([])
    else
      var front :- Translate(wiring, word[..|word| - 1]);
      var k :- AsciiOrd(word[|word| - 1]);
      if k < |wiring| then Some(front + [wiring[k]]) else None
  }

  /** Every letter of the word names a slot of the wiring. */
  predicate Translatable(wiring: seq<char>, word: string)
  {
    forall i :: 0 <= i < |word| ==> AsciiOrd(word[i]).Some? && AsciiOrd(word[i]).value < |wiring|
  }

  /** The segment of one wire letter. */
  function Decode(wiring: seq<char>, ch: char): char
  {
    match AsciiOrd(ch)
    case Some(k) => if k < |wiring| then wiring[k] else ch
    case None => ch
  }

  function Decoded(wiring: seq<char>, word: string): seq<char>
  {
    seq(|word|, i requires 0 <= i < |word| => Decode(wiring, word[i]))
  }

  lemma DecodedConcat(wiring: seq<char>, a: string, b: string)
    ensures Decoded(wiring, a + b) == Decoded(wiring, a) + Decoded(wiring, b)
  {
  }

  lemma RemoveAt(t: string, j: nat)
    requires j < |t|
    ensures multiset(t[..j] + t[j + 1..]) == multiset(t) - multiset{t[j]}
  {
    assert t == t[..j] + [t[j]] + t[j + 1..];
  }

  /** Decoding a word with one letter taken out loses exactly that letter's segment. */
  lemma DecodedRemoveAt(wiring: seq<char>, t: string, j: nat)
    requires j < |t|
    ensures multiset(Decoded(wiring, t))
            == multiset(Decoded(wiring, t[..j] + t[j + 1..])) + multiset{Decode(wiring, t[j])}
  {
    var x := t[j];
    assert Decoded(wiring, [x]) == [Decode(wiring, x)];
    assert t == t[..j] + ([x] + t[j + 1..]);
    DecodedConcat(wiring, t[..j], [x] + t[j + 1..]);
    DecodedConcat(wiring, [x], t[j + 1..]);
    DecodedConcat(wiring, t[..j], t[j + 1..]);
  }

  /** Decoding letter by letter maps equal multisets of letters to equal multisets. */
  lemma {:induction false} DecodedPermutation(wiring: seq<char>, s: string, t: string)
    requires multiset(s) == multiset(t)
    ensures multiset(Decoded(wiring, s)) == multiset(Decoded(wiring, t))
    decreases |s|
  {
    if s == [] {
      assert |t| == |multiset(t)| == 0;
    } else {
      var n := |s| - 1;
      var x := s[n];
      assert x in multiset(t);
      var j :| 0 <= j < |t| && t[j] == x;
      RemoveAt(s, n);
      RemoveAt(t, j);
      assert s[..n] + s[n + 1..] == s[..n];
      DecodedPermutation(wiring, s[..n], t[..j] + t[j + 1..]);
      DecodedRemoveAt(wiring, s, n);
      DecodedRemoveAt(wiring, t, j);
    }
  }

  /** A digit weighed by its decimal place: digit times ten to the power `place`. */
  function PlaceValue(digit: nat, place: nat): nat
  {
    if place == 0 then digit else 10 * PlaceValue(digit, place - 1)
  }

  /**
   * The enumerate/map/sum of `unscrambled_output_value` from position `pos`
   * on, over the digits read from the output words (None where reading one
   * panics): digit i weighs 10^(3 - i), and `3 - pos` underflows (a panic)
   * from the fifth word on.
   */
  function OutputSum(readings: seq<Option<nat>>, pos: nat): (r: Option<nat>)
    decreases |readings|
  {
    if readings == [] then Some(0)
    else if pos > 3 then None
    else
      match readings[0]
      case None => None
      case Some(digit) =>
        match OutputSum(readings[1..], pos + 1)
        case None => None
        case Some(rest) => Some(PlaceValue(digit, 3 - pos) + rest)
  }

  /** The digit read from each output word through the wiring. */
  function Readings(wiring: seq<char>, words: seq<string>): (r: seq<Option<nat>>)
    ensures |r| == |words|
  {
    seq(|words|, i requires 0 <= i < |words| => UnscrambledDigit(wiring, words[i]))
  }

  /** One output word read through the wiring: translate, sort, look up. */
  function UnscrambledDigit(wiring: seq<char>, word: string): Option<nat>
  {
    var segments :- Translate(wiring, word);
    SegmentsToDigit(SortChars(segments))
  }

  /** `unscrambled_output_value`: the decoded output number. */
  function UnscrambledOutputValue(entry: NoteEntry): Option<nat>
  {
    var wiring :- Unscramble(entry.signalPatterns);
    OutputSum(Readings(wiring, entry.outputValue), 0)
  }

  // What a scrambled display looks like.

  /** A wiring: `w[s]` is the wire letter driving true segment s; a permutation of 'a'..'g'. */
  predicate IsWiring(w: seq<char>)
  {
    |w| == 7 && (forall s :: 0 <= s < 7 ==> 'a' <= w[s] <= 'g')
    && (forall s, t :: 0 <= s < t < 7 ==> w[s] != w[t])
    && (forall ch :: 'a' <= ch <= 'g' ==> ch in w)
  }

  /** The offset from 'a' of the wire driving segment s. */
  function Slot(w: seq<char>, s: nat): nat
    requires IsWiring(w) && s < 7
  {
    w[s] as int - 'a' as int
  }

  /** The true segments of canonical digit `d`, as offsets from 'a'. */
  function Segments(d: nat): (r: seq<nat>)
    requires d < 10
    ensures forall i :: 0 <= i < |r| ==> r[i] < 7
  {
    if d == 0 then [0, 1, 2, 4, 5, 6]
    else if d == 1 then [2, 5]
    else if d == 2 then [0, 2, 3, 4, 6]
    else if d == 3 then [0, 2, 3, 5, 6]
    else if d == 4 then [1, 2, 3, 5]
    else if d == 5 then [0, 1, 3, 5, 6]
    else if d == 6 then [0, 1, 3, 4, 5, 6]
    else if d == 7 then [0, 2, 5]
    else if d == 8 then [0, 1, 2, 3, 4, 5, 6]
    else [0, 1, 2, 3, 5, 6]
  }

  /** The wire letters that light up digit `d`. */
  function Wires(w: seq<char>, d: nat): seq<char>
    requires |w| == 7 && d < 10
  {
    seq(|Segments(d)|, i requires 0 <= i < |Segments(d)| => w[Segments(d)[i]])
  }

  /** `word` lights exactly the wires of digit `d`, in any order. */
  predicate Shows(word: string, w: seq<char>, d: nat)
    requires |w| == 7 && d < 10
  {
    multiset(word) == multiset(Wires(w, d))
  }

  /** The ten patterns show the ten digits, each exactly once. */
  predicate ValidPatterns(patterns: seq<string>, w: seq<char>, digits: seq<nat>)
  {
    IsWiring(w) && |patterns| == |digits|
    && (forall i :: 0 <= i < |digits| ==> digits[i] < 10 && Shows(patterns[i], w, digits[i]))
    && (forall i, j :: 0 <= i < j < |digits| ==> digits[i] != digits[j])
    && (forall d :: 0 <= d < 10 ==> d in digits)
  }

  /** The unscrambled wiring undoes `w`: the wire of segment s maps back to segment s. */
  predicate Unwires(r: seq<char>, w: seq<char>)
    requires IsWiring(w)
  {
    |r| == 7 && forall s :: 0 <= s < 7 ==> r[Slot(w, s)] as int == 'a' as int + s
  }

  /** A word showing digit d has its segment count. */
  lemma LitCount(word: string, w: seq<char>, d: nat)
    requires IsWiring(w) && d < 10 && Shows(word, w, d)
    ensures |word| == |Segments(d)|
  {
    var lit := Wires(w, d);
    assert |word| == |multiset(word)| == |multiset(lit)| == |lit|;
  }

  /** A word showing digit d holds the wire of segment s iff d lights s. */
  lemma Lit(word: string, w: seq<char>, d: nat)
    requires IsWiring(w) && d < 10 && Shows(word, w, d)
    ensures forall s :: 0 <= s < 7 ==> (w[s] in word <==> s in Segments(d))
  {
    var lit := Wires(w, d);
    forall s | 0 <= s < 7
      ensures w[s] in word <==> s in Segments(d)
    {
      assert w[s] in word <==> w[s] in multiset(word);
      assert w[s] in lit <==> w[s] in multiset(lit);
      if s in Segments(d) {
        var i :| 0 <= i < |Segments(d)| && Segments(d)[i] == s;
        assert lit[i] == w[s];
      }
      if w[s] in lit {
        var i :| 0 <= i < |lit| && lit[i] == w[s];
        assert w[Segments(d)[i]] == w[s];
        assert Segments(d)[i] == s;
      }
    }
  }

  /** Every letter of a word showing a digit is a wire letter. */
  lemma OnlyWires(word: string, w: seq<char>, d: nat)
    requires IsWiring(w) && d < 10 && Shows(word, w, d)
    ensures forall ch :: ch in word ==> exists s :: 0 <= s < 7 && ch == w[s]
  {
    var lit := Wires(w, d);
    forall ch | ch in word
      ensures exists s :: 0 <= s < 7 && ch == w[s]
    {
      assert ch in multiset(word);
      assert ch in multiset(lit);
      var i :| 0 <= i < |lit| && lit[i] == ch;
      assert ch == w[Segments(d)[i]];
    }
  }

  /** Every digit has a pattern showing it. */
  lemma PatternFor(patterns: seq<string>, w: seq<char>, digits: seq<nat>, d: nat) returns (i: nat)
    requires ValidPatterns(patterns, w, digits) && d < 10
    ensures i < |patterns| && digits[i] == d
    ensures Shows(patterns[i], w, d)
  {
    assert d in digits;
    i :| 0 <= i < |digits| && digits[i] == d;
  }

  /** Every pattern shows the digit of its position. */
  lemma DigitOf(patterns: seq<string>, w: seq<char>, digits: seq<nat>, x: string) returns (i: nat)
    requires ValidPatterns(patterns, w, digits) && x in patterns
    ensures i < |patterns| && patterns[i] == x && digits[i] < 10
    ensures Shows(x, w, digits[i])
  {
    i :| 0 <= i < |patterns| && patterns[i] == x;
  }

  /** A segment count that only digit d has finds a pattern showing d. */
  lemma FindByLength(patterns: seq<string>, w: seq<char>, digits: seq<nat>, n: nat, d: nat)
    requires ValidPatterns(patterns, w, digits)
    requires (n, d) in [(2, 1), (3, 7), (4, 4), (7, 8)]
    ensures FindPattern(patterns, n).Some? && Shows(FindPattern(patterns, n).value, w, d)
  {
    var i := PatternFor(patterns, w, digits, d);
    LitCount(patterns[i], w, d);
    var x := FindPattern(patterns, n).value;
    var j := DigitOf(patterns, w, digits, x);
    LitCount(x, w, digits[j]);
    UniqueLengths(digits[j]);
  }

  /** The segment counts that only one digit has. */
  lemma UniqueLengths(e: nat)
    requires e < 10
    ensures |Segments(e)| == 2 ==> e == 1
    ensures |Segments(e)| == 3 ==> e == 7
    ensures |Segments(e)| == 4 ==> e == 4
    ensures |Segments(e)| == 7 ==> e == 8
  {
  }

  /** The six-segment digits. */
  lemma SixSegments(d: nat)
    requires d < 10 && |Segments(d)| == 6
    ensures d == 0 || d == 6 || d == 9
  {
  }

  /** A pattern of six segments shows 0, 6 or 9; which one, its wires of segments 2, 3 and 4 tell. */
  lemma SixSegmentDigit(x: string, w: seq<char>, d: nat)
    requires IsWiring(w) && d < 10 && Shows(x, w, d) && |x| == 6
    ensures d == 0 || d == 6 || d == 9
    ensures d == 0 <==> w[3] !in x
    ensures d == 6 <==> w[2] !in x
    ensures d == 9 <==> w[4] !in x
    ensures w[0] in x && w[1] in x && w[5] in x && w[6] in x
  {
    LitCount(x, w, d);
    SixSegments(d);
    Lit(x, w, d);
  }

  /** The six-segment pattern holding all of four's letters shows 9. */
  lemma FindsNine(patterns: seq<string>, w: seq<char>, digits: seq<nat>, four: string)
    requires ValidPatterns(patterns, w, digits) && Shows(four, w, 4)
    ensures FindNine(patterns, four).Some? && Shows(FindNine(patterns, four).value, w, 9)
  {
    var i := PatternFor(patterns, w, digits, 9);
    NineHoldsFour(patterns[i], four, w);
    var x := FindNine(patterns, four).value;
    var j := DigitOf(patterns, w, digits, x);
    HoldsFourIsNine(x, four, w, digits[j]);
  }

  /** A six-segment pattern holding all of four's letters shows 9. */
  lemma HoldsFourIsNine(x: string, four: string, w: seq<char>, d: nat)
    requires IsWiring(w) && d < 10 && Shows(x, w, d) && |x| == 6
    requires Shows(four, w, 4) && ContainsAll(x, four)
    ensures d == 9
  {
    SixSegmentDigit(x, w, d);
    Lit(four, w, 4);
    assert w[2] in four && w[3] in four;
    var i2 :| 0 <= i2 < |four| && four[i2] == w[2];
    var i3 :| 0 <= i3 < |four| && four[i3] == w[3];
    assert w[2] in x && w[3] in x;
  }

  lemma NineHoldsFour(nine: string, four: string, w: seq<char>)
    requires IsWiring(w) && Shows(nine, w, 9) && Shows(four, w, 4)
    ensures |nine| == 6 && ContainsAll(nine, four)
  {
    LitCount(nine, w, 9);
    Lit(nine, w, 9);
    OnlyWires(four, w, 4);
    Lit(four, w, 4);
    forall k | 0 <= k < |four|
      ensures four[k] in nine
    {
      assert four[k] in four;
      var s :| 0 <= s < 7 && four[k] == w[s];
    }
  }

  /** The six-segment pattern missing a letter of one shows 6. */
  lemma FindsSix(patterns: seq<string>, w: seq<char>, digits: seq<nat>, one: string)
    requires ValidPatterns(patterns, w, digits) && Shows(one, w, 1)
    ensures FindSix(patterns, one).Some? && Shows(FindSix(patterns, one).value, w, 6)
  {
    var i := PatternFor(patterns, w, digits, 6);
    SixMissesOne(patterns[i], one, w);
    var x := FindSix(patterns, one).value;
    var j := DigitOf(patterns, w, digits, x);
    SixSegmentDigit(x, w, digits[j]);
    OnlyWires(one, w, 1);
    Lit(one, w, 1);
    var k :| 0 <= k < |one| && one[k] !in x;
    assert one[k] in one;
    var s :| 0 <= s < 7 && one[k] == w[s];
    assert s == 2 || s == 5;
  }

  lemma SixMissesOne(six: string, one: string, w: seq<char>)
    requires IsWiring(w) && Shows(six, w, 6) && Shows(one, w, 1)
    ensures |six| == 6 && !ContainsAll(six, one)
  {
    LitCount(six, w, 6);
    Lit(six, w, 6);
    Lit(one, w, 1);
    assert w[2] in one && w[2] !in six;
  }

  /** The six-segment pattern that is neither six nor nine shows 0. */
  lemma FindsZero(patterns: seq<string>, w: seq<char>, digits: seq<nat>, six: string, nine: string)
    requires ValidPatterns(patterns, w, digits)
    requires six in patterns && Shows(six, w, 6) && nine in patterns && Shows(nine, w, 9)
    ensures FindZero(patterns, six, nine).Some? && Shows(FindZero(patterns, six, nine).value, w, 0)
  {
    var i := PatternFor(patterns, w, digits, 0);
    ZeroDiffers(patterns[i], six, nine, w);
    var x := FindZero(patterns, six, nine).value;
    var j := DigitOf(patterns, w, digits, x);
    SixSegmentDigit(x, w, digits[j]);
    var i6 := DigitOf(patterns, w, digits, six);
    var i9 := DigitOf(patterns, w, digits, nine);
    SixAndNine(six, nine, w, digits[i6], digits[i9]);
    assert j != i6 && j != i9;
  }

  lemma ZeroDiffers(zero: string, six: string, nine: string, w: seq<char>)
    requires IsWiring(w) && Shows(zero, w, 0) && Shows(six, w, 6) && Shows(nine, w, 9)
    ensures |zero| == 6 && zero != six && zero != nine
  {
    LitCount(zero, w, 0);
    Lit(zero, w, 0);
    Lit(six, w, 6);
    Lit(nine, w, 9);
    assert w[3] in six && w[3] in nine && w[3] !in zero;
  }

  /** The digits recorded for the six and nine patterns are 6 and 9. */
  lemma SixAndNine(six: string, nine: string, w: seq<char>, d6: nat, d9: nat)
    requires IsWiring(w) && d6 < 10 && d9 < 10
    requires Shows(six, w, 6) && Shows(six, w, d6) && Shows(nine, w, 9) && Shows(nine, w, d9)
    ensures d6 == 6 && d9 == 9
  {
    LitCount(six, w, 6);
    LitCount(nine, w, 9);
    SixSegmentDigit(six, w, 6);
    SixSegmentDigit(six, w, d6);
    SixSegmentDigit(nine, w, 9);
    SixSegmentDigit(nine, w, d9);
  }

  /** The one letter of a shown word outside `avoid` is found. */
  lemma NotInLetter(word: string, avoid: string, w: seq<char>, d: nat, s: nat)
    requires IsWiring(w) && d < 10 && Shows(word, w, d) && s < 7
    requires s in Segments(d) && w[s] !in avoid
    requires forall t :: 0 <= t < 7 && t in Segments(d) && t != s ==> w[t] in avoid
    ensures FindNotIn(word, avoid) == Some(w[s])
  {
    Lit(word, w, d);
    OnlyWires(word, w, d);
    var r := FindNotIn(word, avoid);
    if r.Some? {
      assert r.value in word;
      var t :| 0 <= t < 7 && r.value == w[t];
    }
  }

  lemma AssignSlot(result: seq<char>, w: seq<char>, s: nat, segment: char)
    requires IsWiring(w) && s < 7 && |result| == 7
    ensures Assign(result, w[s], segment) == Some(result[Slot(w, s) := segment])
  {
  }

  /** The slots after the six found wires got their segments. */
  function SixSlots(w: seq<char>): (r: seq<char>)
    requires IsWiring(w)
    ensures |r| == 7
  {
    seq(7, _ => 'x')[Slot(w, 0) := 'a'][Slot(w, 1) := 'b'][Slot(w, 2) := 'c']
                    [Slot(w, 3) := 'd'][Slot(w, 4) := 'e'][Slot(w, 5) := 'f']
  }

  lemma SixAssigned(w: seq<char>)
    requires IsWiring(w)
    ensures Position(SixSlots(w), 'x').Some?
    ensures Wiring(w[0], w[1], w[2], w[3], w[4], w[5]) == Some(SixSlots(w)[Position(SixSlots(w), 'x').value := 'g'])
  {
    var r0 := seq(7, _ => 'x');
    AssignSlot(r0, w, 0, 'a');
    var r1 := r0[Slot(w, 0) := 'a'];
    AssignSlot(r1, w, 1, 'b');
    var r2 := r1[Slot(w, 1) := 'b'];
    AssignSlot(r2, w, 2, 'c');
    var r3 := r2[Slot(w, 2) := 'c'];
    AssignSlot(r3, w, 3, 'd');
    var r4 := r3[Slot(w, 3) := 'd'];
    AssignSlot(r4, w, 4, 'e');
    var r5 := r4[Slot(w, 4) := 'e'];
    AssignSlot(r5, w, 5, 'f');
    assert SixSlots(w)[Slot(w, 6)] == 'x';
  }

  /** Only the slot of the wire of segment 6 is still 'x'. */
  lemma SlotLeft(w: seq<char>)
    requires IsWiring(w)
    ensures Position(SixSlots(w), 'x') == Some(Slot(w, 6))
  {
    var r6 := SixSlots(w);
    forall k | 0 <= k < 7 && k != Slot(w, 6)
      ensures r6[k] != 'x'
    {
      assert ('a' as int + k) as char in w;
      var t :| 0 <= t < |w| && w[t] == ('a' as int + k) as char;
      assert Slot(w, t) == k;
    }
    assert r6[Slot(w, 6)] == 'x';
  }

  /** Each of the six found wires' slots holds its segment. */
  lemma SixSlotsHold(w: seq<char>)
    requires IsWiring(w)
    ensures forall s :: 0 <= s < 6 ==> SixSlots(w)[Slot(w, s)] as int == 'a' as int + s
  {
    assert forall s, t :: 0 <= s < t < 7 ==> Slot(w, s) != Slot(w, t);
  }

  /** Writing the six found wires' segments into 'x'-filled slots, and 'g' into the one left, undoes the wiring. */
  lemma FillSlots(w: seq<char>)
    requires IsWiring(w)
    ensures Wiring(w[0], w[1], w[2], w[3], w[4], w[5]).Some?
    ensures Unwires(Wiring(w[0], w[1], w[2], w[3], w[4], w[5]).value, w)
  {
    SixAssigned(w);
    SlotLeft(w);
    SixSlotsHold(w);
    var r := SixSlots(w)[Slot(w, 6) := 'g'];
    assert forall s :: 0 <= s < 6 ==> Slot(w, s) != Slot(w, 6);
    assert Unwires(r, w);
  }

  /** The patterns `unscramble` picks show one, seven, four, nine, six, zero and eight. */
  lemma FoundPatterns(patterns: seq<string>, w: seq<char>, digits: seq<nat>)
    returns (one: string, seven: string, four: string, nine: string, six: string, zero: string, eight: string)
    requires ValidPatterns(patterns, w, digits)
    ensures FindPattern(patterns, 2) == Some(one) && Shows(one, w, 1)
    ensures FindPattern(patterns, 3) == Some(seven) && Shows(seven, w, 7)
    ensures FindPattern(patterns, 4) == Some(four) && Shows(four, w, 4)
    ensures FindNine(patterns, four) == Some(nine) && Shows(nine, w, 9)
    ensures FindSix(patterns, one) == Some(six) && Shows(six, w, 6)
    ensures FindZero(patterns, six, nine) == Some(zero) && Shows(zero, w, 0)
    ensures FindPattern(patterns, 7) == Some(eight) && Shows(eight, w, 8)
  {
    FindByLength(patterns, w, digits, 2, 1);
    FindByLength(patterns, w, digits, 3, 7);
    FindByLength(patterns, w, digits, 4, 4);
    FindByLength(patterns, w, digits, 7, 8);
    one := FindPattern(patterns, 2).value;
    seven := FindPattern(patterns, 3).value;
    four := FindPattern(patterns, 4).value;
    eight := FindPattern(patterns, 7).value;
    FindsNine(patterns, w, digits, four);
    nine := FindNine(patterns, four).value;
    FindsSix(patterns, w, digits, one);
    six := FindSix(patterns, one).value;
    FindsZero(patterns, w, digits, six, nine);
    zero := FindZero(patterns, six, nine).value;
  }

  /** The letter of seven outside one is the wire of segment a. */
  lemma FoundA(one: string, seven: string, w: seq<char>)
    requires IsWiring(w) && Shows(one, w, 1) && Shows(seven, w, 7)
    ensures FindNotIn(seven, one) == Some(w[0])
  {
    Lit(one, w, 1);
    NotInLetter(seven, one, w, 7, 0);
  }

  /** The letters of eight outside six, zero and nine are the wires of segments c, d and e. */
  lemma FoundCDE(six: string, zero: string, nine: string, eight: string, w: seq<char>)
    requires IsWiring(w) && Shows(six, w, 6) && Shows(zero, w, 0) && Shows(nine, w, 9) && Shows(eight, w, 8)
    ensures FindNotIn(eight, six) == Some(w[2])
    ensures FindNotIn(eight, zero) == Some(w[3])
    ensures FindNotIn(eight, nine) == Some(w[4])
  {
    MissingSegment(eight, six, w, 6, 2);
    MissingSegment(eight, zero, w, 0, 3);
    MissingSegment(eight, nine, w, 9, 4);
  }

  /** The one letter of eight outside a six-segment digit is the wire of the segment that digit leaves dark. */
  lemma MissingSegment(eight: string, x: string, w: seq<char>, d: nat, s: nat)
    requires IsWiring(w) && Shows(eight, w, 8) && d < 10 && Shows(x, w, d) && s < 7
    requires (d, s) in [(6, 2), (0, 3), (9, 4)]
    ensures FindNotIn(eight, x) == Some(w[s])
  {
    Lit(x, w, d);
    NotInLetter(eight, x, w, 8, s);
  }

  /** The letter of one other than c's wire is f's, and four's letter other than c, d, f is b's. */
  lemma FoundFB(one: string, four: string, w: seq<char>)
    requires IsWiring(w) && Shows(one, w, 1) && Shows(four, w, 4)
    ensures FindNotIn(one, [w[2]]) == Some(w[5])
    ensures FindNotIn(four, [w[2], w[3], w[5]]) == Some(w[1])
  {
    NotInLetter(one, [w[2]], w, 1, 5);
    NotInLetter(four, [w[2], w[3], w[5]], w, 4, 1);
  }

  /**
   * For the ten digits shown through any wiring, in any order, `unscramble`
   * succeeds and recovers the wiring: the wire of each segment maps back to
   * that segment.
   */
  lemma UnscrambleCorrect(patterns: seq<string>, w: seq<char>, digits: seq<nat>)
    requires ValidPatterns(patterns, w, digits)
    ensures Unscramble(patterns).Some? && Unwires(Unscramble(patterns).value, w)
  {
    var one, seven, four, nine, six, zero, eight := FoundPatterns(patterns, w, digits);
    FoundA(one, seven, w);
    FoundCDE(six, zero, nine, eight, w);
    FoundFB(one, four, w);
    assert Unscramble(patterns) == Wiring(w[0], w[1], w[2], w[3], w[4], w[5]);
    FillSlots(w);
  }

  /** The sorted segment strings of the ten digits. */
  lemma CanonicalSorted(d: nat)
    requires d < 10
    ensures Sorted(CANONICAL[d])
    ensures SegmentsToDigit(CANONICAL[d]) == Some(d)
  {
  }

  /** Through the recovered wiring, the wire of segment s decodes to segment s. */
  lemma DecodeWire(r: seq<char>, w: seq<char>, s: nat)
    requires IsWiring(w) && Unwires(r, w) && s < 7
    ensures Decode(r, w[s]) as int == 'a' as int + s
  {
    assert AsciiOrd(w[s]) == Some(Slot(w, s));
  }

  /** The segment offsets of digit d spell its canonical segment string. */
  lemma SegmentsSpelled(d: nat)
    requires d < 10
    ensures |Segments(d)| == |CANONICAL[d]|
    ensures forall i :: 0 <= i < |Segments(d)| ==> CANONICAL[d][i] as int == 'a' as int + Segments(d)[i]
  {
  }

  /** The wires of digit d decode, through the recovered wiring, to d's canonical segments. */
  lemma DecodedWires(r: seq<char>, w: seq<char>, d: nat)
    requires IsWiring(w) && Unwires(r, w) && d < 10
    ensures Decoded(r, Wires(w, d)) == CANONICAL[d]
  {
    var lit := Wires(w, d);
    SegmentsSpelled(d);
    forall i | 0 <= i < |lit|
      ensures Decoded(r, lit)[i] == CANONICAL[d][i]
    {
      assert lit[i] == w[Segments(d)[i]];
      DecodeWire(r, w, Segments(d)[i]);
    }
  }

  /** Every letter of a word showing a digit names a slot of a seven-slot wiring. */
  lemma ShownTranslatable(r: seq<char>, w: seq<char>, word: string, d: nat)
    requires IsWiring(w) && |r| == 7 && d < 10 && Shows(word, w, d)
    ensures Translatable(r, word)
  {
    OnlyWires(word, w, d);
    forall i | 0 <= i < |word|
      ensures AsciiOrd(word[i]).Some? && AsciiOrd(word[i]).value < |r|
    {
      assert word[i] in word;
    }
  }

  /** An output word showing digit d decodes, through the recovered wiring, to d. */
  lemma DecodeWord(r: seq<char>, w: seq<char>, word: string, d: nat)
    requires IsWiring(w) && Unwires(r, w) && d < 10 && Shows(word, w, d)
    ensures UnscrambledDigit(r, word) == Some(d)
  {
    ShownTranslatable(r, w, word, d);
    DecodedWires(r, w, d);
    DecodedPermutation(r, word, Wires(w, d));
    CanonicalSorted(d);
    SortCharsPermutes(Decoded(r, word));
    SortedUnique(SortChars(Decoded(r, word)), CANONICAL[d]);
  }

  /** The decimal value of the digits, digit i weighing 10^(3 - pos - i). */
  function DisplayedValue(digits: seq<nat>, pos: nat): nat
    decreases |digits|
  {
    if digits == [] || pos > 3 then 0 else PlaceValue(digits[0], 3 - pos) + DisplayedValue(digits[1..], pos + 1)
  }

  /** One step of the sum: the first reading's digit at its place plus the rest. */
  lemma OutputSumStep(readings: seq<Option<nat>>, pos: nat, digit: nat, rest: nat)
    requires readings != [] && pos <= 3
    requires readings[0] == Some(digit)
    requires OutputSum(readings[1..], pos + 1) == Some(rest)
    ensures OutputSum(readings, pos) == Some(PlaceValue(digit, 3 - pos) + rest)
  {
  }

  /** When every word reads as its digit, the sum is the decimal value of those digits. */
  lemma {:induction false} OutputSumCorrect(readings: seq<Option<nat>>, shown: seq<nat>, pos: nat)
    requires |readings| == |shown| && pos + |readings| <= 4
    requires forall i :: 0 <= i < |readings| ==> readings[i] == Some(shown[i])
    ensures OutputSum(readings, pos) == Some(DisplayedValue(shown, pos))
    decreases |readings|
  {
    if readings != [] {
      OutputSumCorrect(readings[1..], shown[1..], pos + 1);
      OutputSumStep(readings, pos, shown[0], DisplayedValue(shown[1..], pos + 1));
    }
  }

  /** From the fifth output word on the place exponent 3 - pos underflows, so the program panics. */
  lemma {:induction false} TooManyWords(readings: seq<Option<nat>>, pos: nat)
    requires pos <= 4 < pos + |readings|
    ensures OutputSum(readings, pos) == None
    decreases |readings|
  {
    if pos <= 3 {
      assert readings != [];
      TooManyWords(readings[1..], pos + 1);
      assert OutputSum(readings[1..], pos + 1) == None;
    }
  }

  /**
   * For a note whose patterns are the ten digits and whose four output words
   * show d0 d1 d2 d3 through the same wiring, the decoded value is the
   * four-digit number d0 d1 d2 d3.
   */
  lemma OutputValueCorrect(entry: NoteEntry, w: seq<char>, digits: seq<nat>, shown: seq<nat>)
    requires ValidPatterns(entry.signalPatterns, w, digits)
    requires |entry.outputValue| == |shown| == 4
    requires forall i :: 0 <= i < 4 ==> shown[i] < 10 && Shows(entry.outputValue[i], w, shown[i])
    ensures UnscrambledOutputValue(entry) == Some(1000 * shown[0] + 100 * shown[1] + 10 * shown[2] + shown[3])
  {
    UnscrambleCorrect(entry.signalPatterns, w, digits);
    var r := Unscramble(entry.signalPatterns).value;
    var readings := Readings(r, entry.outputValue);
    forall i | 0 <= i < 4
      ensures readings[i] == Some(shown[i])
    {
      DecodeWord(r, w, entry.outputValue[i], shown[i]);
    }
    ReadFourDigits(readings, shown);
  }

  /** Four output words that read as digits, through the recovered wiring, give their four-digit number. */
  lemma ReadFourDigits(readings: seq<Option<nat>>, shown: seq<nat>)
    requires |readings| == |shown| == 4
    requires forall i :: 0 <= i < 4 ==> readings[i] == Some(shown[i])
    ensures OutputSum(readings, 0) == Some(1000 * shown[0] + 100 * shown[1] + 10 * shown[2] + shown[3])
  {
    OutputSumCorrect(readings, shown, 0);
    FourDigits(shown);
  }

  /** Four digits at places 3, 2, 1, 0. */
  lemma FourDigits(shown: seq<nat>)
    requires |shown| == 4
    ensures DisplayedValue(shown, 0) == 1000 * shown[0] + 100 * shown[1] + 10 * shown[2] + shown[3]
  {
    var s1, s2, s3 := shown[1..], shown[2..], shown[3..];
    assert s1[1..] == s2 && s2[1..] == s3 && s3[1..] == [];
    assert DisplayedValue(s3, 3) == PlaceValue(shown[3], 0);
    assert DisplayedValue(s2, 2) == PlaceValue(shown[2], 1) + DisplayedValue(s3, 3);
    assert DisplayedValue(s1, 1) == PlaceValue(shown[1], 2) + DisplayedValue(s2, 2);
    assert DisplayedValue(shown, 0) == PlaceValue(shown[0], 3) + DisplayedValue(s1, 1);
    assert PlaceValue(shown[2], 1) == 10 * shown[2];
    assert PlaceValue(shown[1], 2) == 10 * PlaceValue(shown[1], 1) == 100 * shown[1];
    assert PlaceValue(shown[0], 3) == 10 * PlaceValue(shown[0], 2) == 100 * PlaceValue(shown[0], 1) == 1000 * shown[0];
  }

  /** A note with more than four output words makes the program panic. */
  lemma TooManyOutputs(entry: NoteEntry)
    requires |entry.outputValue| > 4
    ensures UnscrambledOutputValue(entry) == None
  {
    if Unscramble(entry.signalPatterns).Some? {
      TooManyWords(Readings(Unscramble(entry.signalPatterns).value, entry.outputValue), 0);
    }
  }

  /** A word showing digit d has one of the unique lengths exactly when d is 1, 4, 7 or 8. */
  lemma EasyWord(word: string, w: seq<char>, d: nat)
    requires IsWiring(w) && d < 10 && Shows(word, w, d)
    ensures |word| in UNIQUE_SEGMENT_COUNTS <==> d in {1, 4, 7, 8}
  {
    LitCount(word, w, d);
    UniqueLengths(d);
  }

  /** The indices below n whose digit is 1, 4, 7 or 8. */
  function EasyIndices(shown: seq<nat>, n: nat): set<nat>
  {
    set i: nat | i < n && i < |shown| && shown[i] in {1, 4, 7, 8}
  }

  /** Counting word lengths agrees with counting easy digits, prefix by prefix. */
  lemma {:induction false} CountEasy(words: seq<string>, shown: seq<nat>)
    requires |words| == |shown|
    requires forall i :: 0 <= i < |words| ==> (|words[i]| in UNIQUE_SEGMENT_COUNTS <==> shown[i] in {1, 4, 7, 8})
    ensures CountUnique(words) == |EasyIndices(shown, |shown|)|
  {
    if words != [] {
      var n := |words| - 1;
      assert |words[n]| in UNIQUE_SEGMENT_COUNTS <==> shown[n] in {1, 4, 7, 8};
      CountEasy(words[..n], shown[..n]);
      EasyPrefix(shown, n);
      EasyStep(shown, n);
    }
  }

  /** The easy indices below n do not look past n. */
  lemma EasyPrefix(shown: seq<nat>, n: nat)
    requires n <= |shown|
    ensures EasyIndices(shown[..n], n) == EasyIndices(shown, n)
  {
  }

  /** Index n joins the easy indices exactly when its digit is easy. */
  lemma EasyStep(shown: seq<nat>, n: nat)
    requires n < |shown|
    ensures |EasyIndices(shown, n + 1)| == |EasyIndices(shown, n)| + (if shown[n] in {1, 4, 7, 8} then 1 else 0)
  {
    if shown[n] in {1, 4, 7, 8} {
      assert EasyIndices(shown, n + 1) == EasyIndices(shown, n) + {n};
    } else {
      assert EasyIndices(shown, n + 1) == EasyIndices(shown, n);
    }
  }

  /** The easy count: an output word showing a digit has length 2, 3, 4 or 7 exactly for 1, 7, 4 and 8. */
  lemma UniqueCountIsEasyDigits(words: seq<string>, w: seq<char>, shown: seq<nat>)
    requires IsWiring(w) && |words| == |shown|
    requires forall i :: 0 <= i < |words| ==> shown[i] < 10 && Shows(words[i], w, shown[i])
    ensures CountUnique(words) == |set i | 0 <= i < |shown| && shown[i] in {1, 4, 7, 8}|
  {
    forall i | 0 <= i < |words|
      ensures |words[i]| in UNIQUE_SEGMENT_COUNTS <==> shown[i] in {1, 4, 7, 8}
    {
      EasyWord(words[i], w, shown[i]);
    }
    CountEasy(words, shown);
    assert (set i | 0 <= i < |shown| && shown[i] in {1, 4, 7, 8}) == EasyIndices(shown, |shown|);
  }

  // Reading a note line.

  /** `NoteEntry::from_str` fails only when the line has no output part. */
  datatype ParseError = MissingOutputValue

  /**
   * `NoteEntry::from_str`: the words before the first '|' are the patterns,
   * the words between it and the next '|' (or the end) the output.
   */
  function ParseEntry(line: string): Result<NoteEntry, ParseError>
  {
    var parts := Split(line, "|");
    if |parts| < 2 then Err(MissingOutputValue)
    else Ok(NoteEntry(Words(parts[0]), Words(parts[1])))
  }

  /** Parsing fails exactly for a line without '|'. */
  lemma ParseEntryFails(line: string)
    ensures ParseEntry(line).Err? <==> !('|' in line)
  {
    match Find(line, "|")
    case None =>
      if '|' in line {
        var i :| 0 <= i < |line| && line[i] == '|';
        assert line[i..i + 1] == "|";
        assert OccursAt(line, "|", i);
      }
    case Some(i) =>
      assert line[i..i + 1] == "|";
      assert line[i] in line;
  }

  /** A note written as its patterns, " | " and its output words. */
  function WrittenEntry(entry: NoteEntry): string
  {
    Join(entry.signalPatterns, " ") + " | " + Join(entry.outputValue, " ")
  }

  /** A word fit for a note line: non-empty, no whitespace, no '|'. */
  predicate NoteWord(word: string)
  {
    word != [] && NoSpace(word) && !('|' in word)
  }

  /** A written note is parsed back into the same patterns and output words. */
  lemma ParseWrittenEntry(entry: NoteEntry)
    requires forall k :: 0 <= k < |entry.signalPatterns| ==> NoteWord(entry.signalPatterns[k])
    requires forall k :: 0 <= k < |entry.outputValue| ==> NoteWord(entry.outputValue[k])
    ensures ParseEntry(WrittenEntry(entry)) == Ok(entry)
  {
    var a := Join(entry.signalPatterns, " ");
    var b := Join(entry.outputValue, " ");
    JoinFree(entry.signalPatterns, " ", '|');
    JoinFree(entry.outputValue, " ", '|');
    assert WrittenEntry(entry) == (a + " ") + "|" + (" " + b);
    assert !('|' in a + " ") && !('|' in " " + b);
    SplitTwo(a + " ", "|", " " + b);
    WordsTrailingSpace(a);
    WordsOfJoined(entry.signalPatterns);
    assert (" " + b)[1..] == b;
    WordsOfJoined(entry.outputValue);
  }
}
