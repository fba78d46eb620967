/**
 * Extended polymerisation (day 14): a chain of elements grows by inserting,
 * between every adjacent pair that has a rule, the element the rule
 * produces.  Instead of building the chain, the program counts elements and
 * the adjacent pairs that still produce something; the answer is the count
 * of the most common element minus that of the least common one.
 */
module Day14 {
  import opened Common
  import opened Text
  import opened Utils

  type Pair = (char, char)

  /** `PairRule`: the pair `AB` produces the element `C`. */
  datatype PairRule = PairRule(pair: Pair, product: char)

  datatype RuleError =
    | NoProduct       // no " -> " in the line
    | NoFirst         // nothing before the arrow
    | NoSecond        // one character before the arrow
    | EmptyProduct    // nothing after the arrow

  /** The rule set: a pair maps to the element inserted between its two elements. */
  type Rules = map<Pair, char>

  // Parsing

  const Arrow: string := " -> "

  /** `PairRule::from_str`: the first two characters before the arrow and the first one after it; the rest is ignored. */
  function ParseRule(s: string): (r: Result<PairRule, RuleError>)
    ensures Find(s, Arrow).None? ==> r == Err(NoProduct)
    ensures r.Ok? ==> |s| >= 2 && s[0] == r.value.pair.0 && s[1] == r.value.pair.1
  {
    var pieces := Split(s, Arrow);
    if |pieces| < 2 then Err(NoProduct)
    else
      var pair := pieces[0];
      var product := pieces[1];
      if |pair| < 1 then Err(NoFirst)
      else if |pair| < 2 then Err(NoSecond)
      else if |product| < 1 then Err(EmptyProduct)
      else
        assert Find(s, Arrow).Some? && pair == s[..Find(s, Arrow).value];
        Ok(PairRule((pair[0], pair[1]), product[0]))
  }

  /** A line `p -> q` whose sides hold no space parses by the length of each side. */
  lemma RuleSides(p: string, q: string)
    requires !(' ' in p) && !(' ' in q)
    ensures ParseRule(p + Arrow + q) ==
      if |p| == 0 then Err(NoFirst)
      else if |p| == 1 then Err(NoSecond)
      else if q == [] then Err(EmptyProduct)
      else Ok(PairRule((p[0], p[1]), q[0]))
  {
    SplitTwo(p, Arrow, q);
  }

  /** A rule as the puzzle writes it. */
  function RuleText(rule: PairRule): string
  {
    [rule.pair.0, rule.pair.1] + Arrow + [rule.product]
  }

  /** Reading a rule written out gives it back. */
  lemma RuleRoundTrip(rule: PairRule)
    requires rule.pair.0 != ' ' && rule.pair.1 != ' ' && rule.product != ' '
    ensures ParseRule(RuleText(rule)) == Ok(rule)
  {
    RuleSides([rule.pair.0, rule.pair.1], [rule.product]);
  }

  /** A line without a space has no arrow. */
  lemma RuleWithoutArrow(s: string)
    requires !(' ' in s)
    ensures ParseRule(s) == Err(NoProduct)
  {
    FindMissing(s, Arrow);
  }

  // The chain itself, for reference

  /** The product a pair inserts: one element when it has a rule, none otherwise. */
  function Inserted(a: char, b: char, rules: Rules): string
  {
    if (a, b) in rules then [rules[(a, b)]] else []
  }

  /** One step on the chain: every adjacent pair with a rule gets its product between its two elements. */
  function Grow(p: string, rules: Rules): (r: string)
    ensures |r| >= |p|
    ensures p != [] ==> r[0] == p[0]
    ensures p == [] ==> r == []
  {
    if |p| < 2 then p else [p[0]] + Inserted(p[0], p[1], rules) + Grow(p[1..], rules)
  }

  /** The chain after `n` steps. */
  function GrowSteps(p: string, rules: Rules, n: nat): (r: string)
    ensures |r| >= |p|
    ensures p == [] ==> r == []
  {
    if n == 0 then p else Grow(GrowSteps(p, rules, n - 1), rules)
  }

  // Counting pairs

  /** The pair `ab` as a one-element counter when it has a rule, an empty counter otherwise. */
  function Track(a: char, b: char, rules: Rules): (m: multiset<Pair>)
    ensures (a, b) in rules <==> (a, b) in m
    ensures |m| <= 1
  {
    if (a, b) in rules then multiset{(a, b)} else multiset{}
  }

  /** The adjacent pairs of the chain that have a rule, counted with multiplicity. */
  function Tracked(p: string, rules: Rules): (m: multiset<Pair>)
    ensures forall x :: x in m ==> x in rules
  {
    if |p| < 2 then multiset{} else Track(p[0], p[1], rules) + Tracked(p[1..], rules)
  }

  /** The pairs of a list that have a rule, counted with multiplicity. */
  function TrackedList(s: seq<Pair>, rules: Rules): (m: multiset<Pair>)
    ensures |m| <= |s|
  {
    if s == [] then multiset{}
    else TrackedList(s[..|s| - 1], rules) + Track(s[|s| - 1].0, s[|s| - 1].1, rules)
  }

  /** A pair with a rule is counted as often as it occurs in the list; any other pair not at all. */
  lemma {:induction false} TrackedListCounts(s: seq<Pair>, rules: Rules, x: Pair)
    ensures TrackedList(s, rules)[x] == if x in rules then multiset(s)[x] else 0
  {
    if s != [] {
      assert s == s[..|s| - 1] + [s[|s| - 1]];
      TrackedListCounts(s[..|s| - 1], rules, x);
    }
  }

  /** Counting the consecutive pairs that have a rule, one by one, gives `Tracked`. */
  lemma {:induction false} TrackedPairs(p: string, rules: Rules)
    ensures TrackedList(ConsecutivePairs(p), rules) == Tracked(p, rules)
    decreases |p|
  {
    PairsOf(p);
    if |p| >= 2 {
      var q := p[1..];
      PairsOf(q);
      assert ConsecutivePairs(p) == [(p[0], p[1])] + ConsecutivePairs(q);
      TrackedPairs(q, rules);
      TrackedListCons((p[0], p[1]), ConsecutivePairs(q), rules);
    }
  }

  /** `TrackedList` seen from the front. */
  lemma {:induction false} TrackedListCons(x: Pair, s: seq<Pair>, rules: Rules)
    ensures TrackedList([x] + s, rules) == Track(x.0, x.1, rules) + TrackedList(s, rules)
    decreases |s|
  {
    if s != [] {
      var init := s[..|s| - 1];
      var last := s[|s| - 1];
      assert ([x] + s)[..|s|] == [x] + init;
      TrackedListCons(x, init, rules);
      Associative(Track(x.0, x.1, rules), TrackedList(init, rules), Track(last.0, last.1, rules));
    }
  }

  /** `Tracked` seen from the front: the first pair, then the rest. */
  lemma TrackedCons(a: char, q: string, rules: Rules)
    requires q != []
    ensures Tracked([a] + q, rules) == Track(a, q[0], rules) + Tracked(q, rules)
  {
    assert ([a] + q)[1..] == q;
  }

  // Counters gathered over a counter of pairs

  /** `n` copies of `x`. */
  function Copies<T>(x: T, n: nat): (m: multiset<T>)
    ensures |m| == n && m[x] == n
  {
    multiset{}[x := n]
  }

  /** `n` times the counter `m`. */
  function Scale<T>(m: multiset<T>, n: nat): (r: multiset<T>)
    ensures |r| == |m| * n
  {
    if n == 0 then multiset{} else m + Scale(m, n - 1)
  }

  /** The sum of `f(x)` over every pair `x` of `m`, each as often as `m` holds it. */
  ghost function Gather<T>(m: multiset<Pair>, f: Pair -> multiset<T>): multiset<T>
    decreases |m|
  {
    if m == multiset{} then multiset{}
    else
      var x :| x in m;
      f(x) + Gather(m - multiset{x}, f)
  }

  /** Any pair of the counter may be taken out first. */
  lemma {:induction false} GatherRemove<T>(m: multiset<Pair>, f: Pair -> multiset<T>, y: Pair)
    requires y in m
    ensures Gather(m, f) == f(y) + Gather(m - multiset{y}, f)
    decreases |m|
  {
    var x :| x in m && Gather(m, f) == f(x) + Gather(m - multiset{x}, f);
    if x != y {
      var both := m - multiset{x} - multiset{y};
      assert m - multiset{y} - multiset{x} == both;
      calc {
        Gather(m, f);
        f(x) + Gather(m - multiset{x}, f);
        { GatherRemove(m - multiset{x}, f, y); }
        f(x) + (f(y) + Gather(both, f));
        { Swapped(f(x), f(y), Gather(both, f)); }
        f(y) + (f(x) + Gather(both, f));
        { GatherRemove(m - multiset{y}, f, x); }
        f(y) + Gather(m - multiset{y}, f);
      }
    }
  }

  /** Gathering is additive. */
  lemma {:induction false} GatherAdd<T>(a: multiset<Pair>, b: multiset<Pair>, f: Pair -> multiset<T>)
    ensures Gather(a + b, f) == Gather(a, f) + Gather(b, f)
    decreases |b|
  {
    if b == multiset{} {
      assert a + b == a;
    } else {
      var y :| y in b;
      var b' := b - multiset{y};
      assert a + b - multiset{y} == a + b' by {
        assert b == b' + multiset{y};
      }
      calc {
        Gather(a + b, f);
        { GatherRemove(a + b, f, y); }
        f(y) + Gather(a + b', f);
        { GatherAdd(a, b', f); }
        f(y) + (Gather(a, f) + Gather(b', f));
        { GatherRemove(b, f, y); }
        Gather(a, f) + Gather(b, f);
      }
    }
  }

  /** Gathering over one pair is that pair's contribution. */
  lemma GatherSingle<T>(x: Pair, f: Pair -> multiset<T>)
    ensures Gather(multiset{x}, f) == f(x)
  {
    GatherRemove(multiset{x}, f, x);
    assert multiset{x} - multiset{x} == multiset{};
  }

  /** Gathering over `n` copies of a pair is `n` times its contribution. */
  lemma {:induction false} GatherCopies<T>(x: Pair, n: nat, f: Pair -> multiset<T>)
    ensures Gather(Copies(x, n), f) == Scale(f(x), n)
    decreases n
  {
    if n == 0 {
      assert Copies(x, 0) == multiset{};
    } else {
      GatherCopies(x, n - 1, f);
      assert Copies(x, n) == multiset{x} + Copies(x, n - 1);
      GatherAdd(multiset{x}, Copies(x, n - 1), f);
      GatherSingle(x, f);
    }
  }

  /** When every pair contributes exactly one element, the gathered counter is as large as the pair counter. */
  lemma {:induction false} GatherSize<T>(m: multiset<Pair>, f: Pair -> multiset<T>)
    requires forall x :: x in m ==> |f(x)| == 1
    ensures |Gather(m, f)| == |m|
    decreases |m|
  {
    if m != multiset{} {
      var y :| y in m;
      GatherRemove(m, f, y);
      GatherSize(m - multiset{y}, f);
    }
  }

  /** `n` times a sum is the sum of `n` times each part. */
  lemma {:induction false} ScaleAdd<T>(a: multiset<T>, b: multiset<T>, n: nat)
    ensures Scale(a + b, n) == Scale(a, n) + Scale(b, n)
    decreases n
  {
    if n > 0 {
      ScaleAdd(a, b, n - 1);
    }
  }

  /** `n` times one element is `n` copies of it. */
  lemma {:induction false} ScaleSingle<T>(x: T, n: nat)
    ensures Scale(multiset{x}, n) == Copies(x, n)
    decreases n
  {
    if n > 0 {
      ScaleSingle(x, n - 1);
      assert Copies(x, n) == multiset{x} + Copies(x, n - 1);
    }
  }

  // What a producing pair does in one step

  /** The element a pair adds to the chain. */
  function Produced(rules: Rules, x: Pair): (m: multiset<char>)
    ensures x in rules ==> m == multiset{rules[x]}
  {
    if x in rules then multiset{rules[x]} else multiset{}
  }

  /** The producing pairs a pair turns into: `AC` and `CB`, each only when it has a rule. */
  function Children(rules: Rules, x: Pair): (m: multiset<Pair>)
    ensures x in rules ==> m == Track(x.0, rules[x], rules) + Track(rules[x], x.1, rules)
  {
    if x in rules then Track(x.0, rules[x], rules) + Track(rules[x], x.1, rules) else multiset{}
  }

  function ProductOf(rules: Rules): Pair -> multiset<char>
  {
    x => Produced(rules, x)
  }

  function ChildrenOf(rules: Rules): Pair -> multiset<Pair>
  {
    x => Children(rules, x)
  }

  /** A step adds one element per producing pair: the total grows by the number of producing pairs. */
  lemma StepTotal(m: multiset<Pair>, rules: Rules)
    requires forall x :: x in m ==> x in rules
    ensures |Gather(m, ProductOf(rules))| == |m|
  {
    GatherSize(m, ProductOf(rules));
  }

  /** The counters follow the chain: the elements of the grown chain are the old ones plus the products. */
  lemma {:induction false} GrowElements(p: string, rules: Rules)
    ensures multiset(Grow(p, rules)) == multiset(p) + Gather(Tracked(p, rules), ProductOf(rules))
    decreases |p|
  {
    if |p| >= 2 {
      var q := p[1..];
      var f := ProductOf(rules);
      GrowElements(q, rules);
      GatherAdd(Track(p[0], p[1], rules), Tracked(q, rules), f);
      if (p[0], p[1]) in rules {
        GatherSingle((p[0], p[1]), f);
      }
      assert p == [p[0]] + q;
    }
  }

  /** The producing pairs of the grown chain are the children of the old producing pairs. */
  lemma {:induction false} GrowPairs(p: string, rules: Rules)
    ensures Tracked(Grow(p, rules), rules) == Gather(Tracked(p, rules), ChildrenOf(rules))
    decreases |p|
  {
    if |p| >= 2 {
      var q := p[1..];
      var f := ChildrenOf(rules);
      var first := Track(p[0], p[1], rules);
      calc {
        Tracked(Grow(p, rules), rules);
        { GrowPairsFront(p, rules); }
        Gather(first, f) + Tracked(Grow(q, rules), rules);
        { GrowPairs(q, rules); }
        Gather(first, f) + Gather(Tracked(q, rules), f);
        { GatherAdd(first, Tracked(q, rules), f); }
        Gather(Tracked(p, rules), f);
      }
    }
  }

  /** The first pair's children, then the producing pairs of the rest of the grown chain. */
  lemma GrowPairsFront(p: string, rules: Rules)
    requires |p| >= 2
    ensures Tracked(Grow(p, rules), rules) ==
      Gather(Track(p[0], p[1], rules), ChildrenOf(rules)) + Tracked(Grow(p[1..], rules), rules)
  {
    var g := Grow(p[1..], rules);
    if (p[0], p[1]) in rules {
      var c := rules[(p[0], p[1])];
      assert Grow(p, rules) == [p[0]] + ([c] + g);
      GatherSingle((p[0], p[1]), ChildrenOf(rules));
      TrackedInsert(p[0], c, g, rules);
    } else {
      assert Grow(p, rules) == [p[0]] + g;
      assert Gather(multiset{}, ChildrenOf(rules)) == multiset{};
      TrackedCons(p[0], g, rules);
    }
  }

  /** The pairs of `a c g`: `ac`, `c g[0]` and those of `g`. */
  lemma TrackedInsert(a: char, c: char, g: string, rules: Rules)
    requires g != []
    ensures Tracked([a] + ([c] + g), rules) == Track(a, c, rules) + Track(c, g[0], rules) + Tracked(g, rules)
  {
    TrackedCons(c, g, rules);
    TrackedCons(a, [c] + g, rules);
  }

  // The simulation

  /** `v` is the count of the most common element minus that of the least common one. */
  ghost predicate Spread(counts: multiset<char>, v: int)
  {
    exists hi, lo :: hi in counts && lo in counts && v == counts[hi] as int - counts[lo] &&
      forall e :: e in counts ==> counts[lo] <= counts[e] <= counts[hi]
  }

  /** The spread of a counter is one number. */
  lemma SpreadUnique(counts: multiset<char>, v: int, w: int)
    requires Spread(counts, v) && Spread(counts, w)
    ensures v == w
  {
    var hi, lo :| hi in counts && lo in counts && v == counts[hi] as int - counts[lo] &&
      forall e :: e in counts ==> counts[lo] <= counts[e] <= counts[hi];
    var hi', lo' :| hi' in counts && lo' in counts && w == counts[hi'] as int - counts[lo'] &&
      forall e :: e in counts ==> counts[lo'] <= counts[e] <= counts[hi'];
    assert counts[hi] == counts[hi'] && counts[lo] == counts[lo'];
  }

  /** One pass over the producing pairs, in whatever order the map yields them. */
  method StepCounters(rules: Rules, pairs: multiset<Pair>, elements: multiset<char>)
    returns (next: multiset<Pair>, counts: multiset<char>)
    requires forall x :: x in pairs ==> x in rules
    ensures counts == elements + Gather(pairs, ProductOf(rules))
    ensures next == Gather(pairs, ChildrenOf(rules))
    ensures |counts| == |elements| + |pairs|
  {
    next, counts := multiset{}, elements;
    var rest := pairs;
    ghost var done: multiset<Pair> := multiset{};
    while rest != multiset{}
      invariant done + rest == pairs
      invariant counts == elements + Gather(done, ProductOf(rules))
      invariant next == Gather(done, ChildrenOf(rules))
      decreases |rest|
    {
      var pair :| pair in rest;
      var count := rest[pair];
      Moved(done, rest, pair);
      rest := rest[pair := 0];
      var next', counts' := VisitPair(rules, pair, count, next, counts);
      VisitProducts(rules, pair, count, done, elements, counts, counts');
      VisitChildren(rules, pair, count, done, next, next');
      next, counts := next', counts';
      done := done + Copies(pair, count);
    }
    assert done + rest == done;
    StepTotal(pairs, rules);
  }

  /** The loop body of a step: the pair `AB` seen `count` times adds `count` to `C`, and to `AC` and `CB` when they have rules. */
  method VisitPair(rules: Rules, pair: Pair, count: nat, next: multiset<Pair>, counts: multiset<char>)
    returns (next': multiset<Pair>, counts': multiset<char>)
    requires pair in rules
    ensures counts' == counts + Copies(rules[pair], count)
    ensures next' == next +
      (if (pair.0, rules[pair]) in rules then Copies((pair.0, rules[pair]), count) else multiset{}) +
      (if (rules[pair], pair.1) in rules then Copies((rules[pair], pair.1), count) else multiset{})
  {
    var product := rules[pair];
    var (a, b) := pair;
    Bump(counts, product, count);
    counts' := counts[product := counts[product] + count];
    var first := next;
    if (a, product) in rules {
      Bump(next, (a, product), count);
      first := next[(a, product) := next[(a, product)] + count];
    }
    next' := first;
    if (product, b) in rules {
      Bump(first, (product, b), count);
      next' := first[(product, b) := first[(product, b)] + count];
    }
  }

  /** Adding `n` to the count of `x` adds `n` copies of `x`. */
  lemma Bump<T>(m: multiset<T>, x: T, n: nat)
    ensures m[x := m[x] + n] == m + Copies(x, n)
  {
  }

  /** Moving every copy of `x` from the pairs still to visit to the visited ones keeps their sum. */
  lemma Moved(done: multiset<Pair>, rest: multiset<Pair>, x: Pair)
    ensures done + Copies(x, rest[x]) + rest[x := 0] == done + rest
  {
  }

  /** Visiting a pair `n` times keeps the element counter equal to the start plus what the visited pairs produce. */
  lemma VisitProducts(rules: Rules, x: Pair, n: nat, done: multiset<Pair>, elements: multiset<char>,
                      counts: multiset<char>, counts': multiset<char>)
    requires x in rules
    requires counts == elements + Gather(done, ProductOf(rules))
    requires counts' == counts + Copies(rules[x], n)
    ensures counts' == elements + Gather(done + Copies(x, n), ProductOf(rules))
  {
    var f := ProductOf(rules);
    var added := Gather(Copies(x, n), f);
    calc {
      added;
      { GatherCopies(x, n, f); }
      Scale(multiset{rules[x]}, n);
      { ScaleSingle(rules[x], n); }
      Copies(rules[x], n);
    }
    GatherAdd(done, Copies(x, n), f);
    Associative(elements, Gather(done, f), added);
  }

  /** Visiting a pair `n` times keeps the new pair counter equal to what the visited pairs turn into. */
  lemma VisitChildren(rules: Rules, x: Pair, n: nat, done: multiset<Pair>, next: multiset<Pair>, next': multiset<Pair>)
    requires x in rules
    requires next == Gather(done, ChildrenOf(rules))
    requires next' == next +
      (if (x.0, rules[x]) in rules then Copies((x.0, rules[x]), n) else multiset{}) +
      (if (rules[x], x.1) in rules then Copies((rules[x], x.1), n) else multiset{})
    ensures next' == Gather(done + Copies(x, n), ChildrenOf(rules))
  {
    var f := ChildrenOf(rules);
    var c := rules[x];
    var left := Track(x.0, c, rules);
    var right := Track(c, x.1, rules);
    var added := Gather(Copies(x, n), f);
    calc {
      added;
      { GatherCopies(x, n, f); }
      Scale(left + right, n);
      { ScaleAdd(left, right, n); }
      Scale(left, n) + Scale(right, n);
    }
    ScaleTrack(x.0, c, n, rules);
    ScaleTrack(c, x.1, n, rules);
    GatherAdd(done, Copies(x, n), f);
    Associative(Gather(done, f), Scale(left, n), Scale(right, n));
  }

  /** `n` times a tracked pair is `n` copies of it when it has a rule, nothing otherwise. */
  lemma ScaleTrack(a: char, b: char, n: nat, rules: Rules)
    ensures Scale(Track(a, b, rules), n) == if (a, b) in rules then Copies((a, b), n) else multiset{}
  {
    if (a, b) in rules {
      ScaleSingle((a, b), n);
    }
  }

  lemma Swapped<T>(a: multiset<T>, b: multiset<T>, c: multiset<T>)
    ensures a + (b + c) == b + (a + c)
  {
  }

  lemma Associative<T>(a: multiset<T>, b: multiset<T>, c: multiset<T>)
    ensures a + b + c == a + (b + c)
  {
  }

  /** The tracked pairs of a prefix one longer. */
  lemma TrackedListSnoc(s: seq<Pair>, j: nat, rules: Rules)
    requires j < |s|
    ensures TrackedList(s[..j + 1], rules) == TrackedList(s[..j], rules) + Track(s[j].0, s[j].1, rules)
  {
    assert s[..j + 1][..j] == s[..j];
  }

  /** Counting one more `x`. */
  lemma Counted<T>(m: multiset<T>, x: T)
    ensures m[x := m[x] + 1] == m + multiset{x}
  {
  }

  /** `simulate_polymerisation`: count the elements and producing pairs, then update both counters `steps` times. */
  method SimulatePolymerisation(polymer: string, rules: Rules, steps: nat) returns (r: Option<nat>)
    ensures r.None? <==> polymer == []
    ensures r.Some? ==> Spread(multiset(GrowSteps(polymer, rules, steps)), r.value)
  {
    var elements := CountElements(polymer);
    var pairs := CountProducingPairs(polymer, rules);
    for step := 0 to steps
      invariant elements == multiset(GrowSteps(polymer, rules, step))
      invariant pairs == Tracked(GrowSteps(polymer, rules, step), rules)
    {
      ghost var chain := GrowSteps(polymer, rules, step);
      GrowElements(chain, rules);
      GrowPairs(chain, rules);
      pairs, elements := StepCounters(rules, pairs, elements);
    }
    r := Extremes(elements);
  }

  /** The element counter of the starting polymer: every element counted once per occurrence. */
  method CountElements(polymer: string) returns (elements: multiset<char>)
    ensures elements == multiset(polymer)
  {
    elements := multiset{};
    for i := 0 to |polymer|
      invariant elements == multiset(polymer[..i])
    {
      assert polymer[..i + 1] == polymer[..i] + [polymer[i]];
      elements := elements[polymer[i] := elements[polymer[i]] + 1];
    }
    assert polymer[..|polymer|] == polymer;
  }

  /** The producing pairs of the starting polymer: each adjacent pair with a rule, once per occurrence. */
  method CountProducingPairs(polymer: string, rules: Rules) returns (pairs: multiset<Pair>)
    ensures pairs == Tracked(polymer, rules)
  {
    pairs := multiset{};
    var adjacent := ConsecutivePairs(polymer);
    for j := 0 to |adjacent|
      invariant pairs == TrackedList(adjacent[..j], rules)
    {
      TrackedListSnoc(adjacent, j, rules);
      if adjacent[j] in rules {
        Counted(pairs, adjacent[j]);
        pairs := pairs[adjacent[j] := pairs[adjacent[j]] + 1];
      }
    }
    assert adjacent[..|adjacent|] == adjacent;
    TrackedPairs(polymer, rules);
  }

  /** The most common count minus the least common one, or None for an empty counter (the program panics). */
  /**
   * Partway through the scan of a counter's elements: `most` and `least` are
   * the largest and smallest counts of the elements already seen (those not
   * in `keys`), held by `hi` and `lo`; both are None before the first one.
   */
  ghost predicate Scanning(counts: multiset<char>, keys: set<char>, most: Option<nat>, least: Option<nat>, hi: char, lo: char)
  {
    var seen := (set c | c in counts) - keys;
    var holds := keys <= (set c | c in counts) && (most.Some? <==> seen != {}) && least.Some? == most.Some? &&
      (most.Some? ==>
         hi in seen && lo in seen && most.value == counts[hi] && least.value == counts[lo] &&
         forall e :: e in seen ==> counts[lo] <= counts[e] <= counts[hi]);
    holds
  }

  method Extremes(counts: multiset<char>) returns (r: Option<nat>)
    ensures r.None? <==> counts == multiset{}
    ensures r.Some? ==> Spread(counts, r.value)
  {
    var most: Option<nat> := None;
    var least: Option<nat> := None;
    var keys := set c | c in counts;
    ghost var hi: char, lo: char := ' ', ' ';
    if counts != multiset{} {
      var c :| c in counts;
      assert c in keys;
    }
    while keys != {}
      invariant Scanning(counts, keys, most, least, hi, lo)
      decreases |keys|
    {
      var c :| c in keys;
      keys := keys - {c};
      if most.None? || most.value <= counts[c] {
        most := Some(counts[c]);
        hi := c;
      }
      if least.None? || counts[c] < least.value {
        least := Some(counts[c]);
        lo := c;
      }
    }
    if most.Some? && least.Some? {
      r := Some(most.value - least.value);
    } else {
      r := None;
    }
  }
}
