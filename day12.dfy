/**
 * Passage pathing (day 12): caves joined by passages, read from lines
 * `a-b`.  The answers count the walks from the start cave to the end cave
 * that never re-enter the start and visit small caves at most once (part
 * one) or allow one small cave a second visit (part two).  Both counts are
 * depth-first searches sharing one mutable set of used caves.
 */
module Day12 {
  import opened Common
  import opened Text

  // Caves

  /** `Cave`. */
  datatype Cave = Small(name: string) | Big(name: string) | Start | End

  function LowerChar(ch: char): char
  {
    if 'A' <= ch <= 'Z' then (ch as int + 32) as char else ch
  }

  /** `to_ascii_lowercase`: only the letters A to Z change. */
  function ToAsciiLower(s: string): (r: string)
    ensures |r| == |s| && forall i :: 0 <= i < |s| ==> r[i] == LowerChar(s[i])
  {
    seq(|s|, i requires 0 <= i < |s| => LowerChar(s[i]))
  }

  predicate NoUpper(s: string)
  {
    forall i :: 0 <= i < |s| ==> !('A' <= s[i] <= 'Z')
  }

  /** A name equals its lower-case form exactly when it holds no capital letter. */
  lemma LowerFixed(s: string)
    ensures ToAsciiLower(s) == s <==> NoUpper(s)
  {
    if ToAsciiLower(s) == s {
      forall i | 0 <= i < |s|
        ensures !('A' <= s[i] <= 'Z')
      {
        assert ToAsciiLower(s)[i] == s[i];
      }
    }
  }

  /** `Cave::from_str`: never fails. */
  function ParseCave(s: string): (c: Cave)
    ensures c == Start <==> s == "start"
    ensures c == End <==> s == "end"
    ensures c.Small? <==> s != "start" && s != "end" && NoUpper(s)
    ensures c.Big? <==> s != "start" && s != "end" && !NoUpper(s)
    ensures (c.Small? || c.Big?) ==> c.name == s
  {
    LowerFixed(s);
    if s == "start" then Start
    else if s == "end" then End
    else if ToAsciiLower(s) == s then Small(s)
    else Big(s)
  }

  /** The name a cave is written with. */
  function CaveName(c: Cave): string
  {
    match c
    case Small(name) => name
    case Big(name) => name
    case Start => "start"
    case End => "end"
  }

  /** A cave as parsing can produce it: a small name has no capital, a big one has one, neither is reserved. */
  predicate WellNamed(c: Cave)
  {
    match c
    case Small(name) => name != "start" && name != "end" && NoUpper(name)
    case Big(name) => !NoUpper(name)
    case _ => true
  }

  /** Reading a cave's name gives the cave back. */
  lemma CaveRoundTrip(c: Cave)
    requires WellNamed(c)
    ensures ParseCave(CaveName(c)) == c
  {
    if c.Big? {
      assert CaveName(c) != "start" by { assert NoUpper("start"); }
      assert CaveName(c) != "end" by { assert NoUpper("end"); }
    }
  }

  /** `can_backtrack`: only big caves may be entered again. */
  predicate CanBacktrack(c: Cave)
  {
    c.Big?
  }

  /** `is_small`. */
  predicate IsSmall(c: Cave)
  {
    c.Small?
  }

  /** A parsed cave is revisitable, small, or one of the two ends, and only one of these. */
  lemma CaveKinds(s: string)
    ensures var c := ParseCave(s);
            (CanBacktrack(c) <==> !NoUpper(s) && s != "start" && s != "end")
            && (IsSmall(c) <==> NoUpper(s) && s != "start" && s != "end")
            && !(CanBacktrack(c) && IsSmall(c))
  {
  }

  // The cave system

  /** `CaveSystem`: the caves each cave has a passage to, in the order the passages were read. */
  type System = map<Cave, seq<Cave>>

  /** Every cave listed as a neighbour has its own entry. */
  ghost predicate Closed(sys: System)
  {
    forall c, n :: c in sys && n in sys[c] ==> n in sys
  }

  /** No passage joins two big caves: otherwise the searches never end. */
  ghost predicate NoBigPair(sys: System)
  {
    forall c, n :: c in sys && n in sys[c] ==> !(c.Big? && n.Big?)
  }

  ghost predicate Valid(sys: System)
  {
    Closed(sys) && NoBigPair(sys)
  }

  /** The neighbours recorded so far for c. */
  function Listed(m: System, c: Cave): seq<Cave>
  {
    if c in m then m[c] else []
  }

  /** One passage a-b: b joins a's list and a joins b's list. */
  function Link(m: System, a: Cave, b: Cave): System
  {
    var m1 := m[a := Listed(m, a) + [b]];
    m1[b := Listed(m1, b) + [a]]
  }

  /** The system built from the passages, in order. */
  function Adjacency(edges: seq<(Cave, Cave)>): System
  {
    if edges == [] then map[] else
    var last := edges[|edges| - 1];
    Link(Adjacency(edges[..|edges| - 1]), last.0, last.1)
  }

  /** Both ends of a passage are linked to each other. */
  predicate Joins(edges: seq<(Cave, Cave)>, c: Cave, n: Cave)
  {
    exists i :: 0 <= i < |edges| && (edges[i] == (c, n) || edges[i] == (n, c))
  }

  predicate Mentions(edges: seq<(Cave, Cave)>, c: Cave)
  {
    exists i :: 0 <= i < |edges| && (edges[i].0 == c || edges[i].1 == c)
  }

  /** Linking a-b adds entries for a and b, and lists b for a and a for b. */
  lemma LinkAdds(m: System, a: Cave, b: Cave, c: Cave, n: Cave)
    ensures c in Link(m, a, b) <==> c in m || c == a || c == b
    ensures c in Link(m, a, b) ==>
              (n in Link(m, a, b)[c] <==> (c in m && n in m[c]) || (c == a && n == b) || (c == b && n == a))
  {
  }

  /** The system has an entry exactly for the caves of some passage. */
  lemma {:induction false} AdjacencyKeys(edges: seq<(Cave, Cave)>, c: Cave)
    ensures c in Adjacency(edges) <==> Mentions(edges, c)
  {
    if edges != [] {
      var k := |edges| - 1;
      var prev := edges[..k];
      AdjacencyKeys(prev, c);
      LinkAdds(Adjacency(prev), edges[k].0, edges[k].1, c, c);
      if Mentions(edges, c) {
        var i :| 0 <= i < |edges| && (edges[i].0 == c || edges[i].1 == c);
        if i < k {
          assert prev[i] == edges[i];
        }
      }
      if Mentions(prev, c) {
        var i :| 0 <= i < k && (prev[i].0 == c || prev[i].1 == c);
        assert edges[i] == prev[i];
      }
    }
  }

  /** The system lists for c exactly the caves joined to c by a passage. */
  lemma {:induction false} AdjacencyLists(edges: seq<(Cave, Cave)>, c: Cave, n: Cave)
    requires c in Adjacency(edges)
    ensures n in Adjacency(edges)[c] <==> Joins(edges, c, n)
  {
    var k := |edges| - 1;
    var prev := edges[..k];
    LinkAdds(Adjacency(prev), edges[k].0, edges[k].1, c, n);
    if c in Adjacency(prev) {
      AdjacencyLists(prev, c, n);
    }
    if Joins(edges, c, n) {
      var i :| 0 <= i < |edges| && (edges[i] == (c, n) || edges[i] == (n, c));
      if i < k {
        assert prev[i] == edges[i];
        assert Joins(prev, c, n);
        AdjacencyKeys(prev, c);
      }
    }
    if Joins(prev, c, n) {
      var i :| 0 <= i < k && (prev[i] == (c, n) || prev[i] == (n, c));
      assert edges[i] == prev[i];
    }
  }

  /** Passages run both ways: b is listed for a exactly when a is listed for b. */
  lemma AdjacencySymmetric(edges: seq<(Cave, Cave)>, c: Cave, n: Cave)
    requires c in Adjacency(edges) && n in Adjacency(edges)[c]
    ensures n in Adjacency(edges) && c in Adjacency(edges)[n]
  {
    AdjacencyLists(edges, c, n);
    var i :| 0 <= i < |edges| && (edges[i] == (c, n) || edges[i] == (n, c));
    assert Mentions(edges, n);
    AdjacencyKeys(edges, n);
    assert Joins(edges, n, c);
    AdjacencyLists(edges, n, c);
  }

  /** So a parsed system is closed. */
  lemma AdjacencyClosed(edges: seq<(Cave, Cave)>)
    ensures Closed(Adjacency(edges))
  {
    forall c, n | c in Adjacency(edges) && n in Adjacency(edges)[c]
      ensures n in Adjacency(edges)
    {
      AdjacencySymmetric(edges, c, n);
    }
  }

  /** One line `a-b`: a line without a `-` is an error naming the whole input. */
  function ParsePassage(line: string, input: string): (r: Result<(Cave, Cave), string>)
    ensures r.Ok? <==> |Split(line, "-")| >= 2
    ensures r.Ok? ==> r.value == (ParseCave(Split(line, "-")[0]), ParseCave(Split(line, "-")[1]))
  {
    var pieces := Split(line, "-");
    if |pieces| < 2 then Err("Failed to get the second cave - " + input)
    else Ok((ParseCave(pieces[0]), ParseCave(pieces[1])))
  }

  /** The passages of the lines, or the error of the first line without a `-`. */
  function Passages(lines: seq<string>, input: string): Result<seq<(Cave, Cave)>, string>
  {
    if lines == [] then Ok([]) else
    var k := |lines| - 1;
    match Passages(lines[..k], input)
    case Err(e) => Err(e)
    case Ok(edges) =>
      match ParsePassage(lines[k], input)
      case Err(e) => Err(e)
      case Ok(edge) => Ok(edges + [edge])
  }

  /** Reading the lines succeeds exactly when every line holds a `-`, and then gives one passage per line. */
  lemma {:induction false} PassagesMeaning(lines: seq<string>, input: string)
    ensures var r := Passages(lines, input);
            (r.Ok? ==> |r.value| == |lines| && forall i :: 0 <= i < |lines| ==> ParsePassage(lines[i], input) == Ok(r.value[i]))
            && (r.Err? <==> exists i :: 0 <= i < |lines| && ParsePassage(lines[i], input).Err?)
            && (r.Err? ==> r.error == "Failed to get the second cave - " + input)
  {
    if lines != [] {
      var k := |lines| - 1;
      var prev := lines[..k];
      PassagesMeaning(prev, input);
      var r := Passages(lines, input);
      if r.Err? && Passages(prev, input).Err? {
        var i :| 0 <= i < |prev| && ParsePassage(prev[i], input).Err?;
        assert ParsePassage(lines[i], input).Err?;
      }
      if r.Ok? {
        forall i | 0 <= i < |lines|
          ensures ParsePassage(lines[i], input) == Ok(r.value[i])
        {
          if i < k {
            assert lines[i] == prev[i];
          }
        }
      }
      if exists i :: 0 <= i < |lines| && ParsePassage(lines[i], input).Err? {
        var i :| 0 <= i < |lines| && ParsePassage(lines[i], input).Err?;
        if i < k {
          assert ParsePassage(prev[i], input).Err?;
        }
      }
    }
  }

  /** The system the input describes, or the error of its first line without a `-`. */
  function SystemOf(s: string): Result<System, string>
  {
    match Passages(Lines(s), s)
    case Ok(edges) => Ok(Adjacency(edges))
    case Err(e) => Err(e)
  }

  /** One more well-formed line adds its passage. */
  lemma PassagesStep(lines: seq<string>, i: nat, input: string, edges: seq<(Cave, Cave)>, edge: (Cave, Cave))
    requires i < |lines| && Passages(lines[..i], input) == Ok(edges) && ParsePassage(lines[i], input) == Ok(edge)
    ensures Passages(lines[..i + 1], input) == Ok(edges + [edge])
  {
    assert lines[..i + 1][..i] == lines[..i];
  }

  lemma AdjacencyStep(edges: seq<(Cave, Cave)>, edge: (Cave, Cave))
    ensures Adjacency(edges + [edge]) == Link(Adjacency(edges), edge.0, edge.1)
  {
    assert (edges + [edge])[..|edges|] == edges;
  }

  /** A line without a `-` makes the whole input an error. */
  lemma PassagesFail(lines: seq<string>, i: nat, input: string)
    requires i < |lines| && ParsePassage(lines[i], input).Err?
    ensures Passages(lines, input) == Err("Failed to get the second cave - " + input)
  {
    PassagesMeaning(lines, input);
  }

  /** `CaveSystem::from_str`: the map is filled line by line. */
  method ParseSystem(s: string) returns (r: Result<System, string>)
    ensures r == SystemOf(s)
  {
    var lines := Lines(s);
    var caveMap: System := map[];
    ghost var edges: seq<(Cave, Cave)> := [];
    for i := 0 to |lines|
      invariant Passages(lines[..i], s) == Ok(edges) && caveMap == Adjacency(edges)
    {
      var pieces := Split(lines[i], "-");
      if |pieces| < 2 {
        PassagesFail(lines, i, s);
        return Err("Failed to get the second cave - " + s);
      }
      var caveA := ParseCave(pieces[0]);
      var caveB := ParseCave(pieces[1]);
      PassagesStep(lines, i, s, edges, (caveA, caveB));
      AdjacencyStep(edges, (caveA, caveB));
      ghost var before := caveMap;
      caveMap := caveMap[caveA := Listed(caveMap, caveA) + [caveB]];
      caveMap := caveMap[caveB := Listed(caveMap, caveB) + [caveA]];
      assert caveMap == Link(before, caveA, caveB);
      edges := edges + [(caveA, caveB)];
    }
    assert lines[..|lines|] == lines;
    return Ok(caveMap);
  }

  // Counting walks

  /** The caves a visit marks as used: every cave but a big one. */
  function Ins(c: Cave): set<Cave>
  {
    if c.Big? then {} else {c}
  }

  /** The number of system caves not used yet. */
  function Rank(sys: System, used: set<Cave>): nat
  {
    |sys.Keys - used|
  }

  function Kind(c: Cave): nat
  {
    if c.Big? then 0 else 1
  }

  function Spent(twice: Option<Cave>): nat
  {
    if twice.None? then 1 else 0
  }

  /** Entering a cave that is not used yet uses up one more cave, unless it is big. */
  lemma Ranked(sys: System, u: set<Cave>, n: Cave)
    requires n in sys && n !in u
    ensures n.Big? ==> Rank(sys, u + Ins(n)) == Rank(sys, u)
    ensures !n.Big? ==> Rank(sys, u + Ins(n)) < Rank(sys, u)
  {
    var S := sys.Keys - u;
    if n.Big? {
      assert u + Ins(n) == u;
    } else {
      assert sys.Keys - (u + Ins(n)) == S - {n};
      assert S == (S - {n}) + {n};
    }
  }

  /** Entering n from `from` is a smaller search: fewer caves left, or a big cave entered from a small one. */
  ghost predicate Entered(sys: System, from: Cave, u: set<Cave>, n: Cave)
  {
    n in sys
    && (n.Big? ==> Rank(sys, u + Ins(n)) == Rank(sys, u) && !from.Big?)
    && (!n.Big? ==> Rank(sys, u + Ins(n)) < Rank(sys, u))
  }

  /** The count of `depth_first` from c with `used` used: 1 at the end cave, else the sum over the neighbours. */
  function Paths(sys: System, c: Cave, used: set<Cave>): nat
    requires Valid(sys) && (c != End ==> c in sys)
    decreases Rank(sys, used + Ins(c)), Kind(c), 2, 0
  {
    if c == End then 1 else PathsVia(sys, c, |sys[c]|, used + Ins(c))
  }

  /** The walks through the first k neighbours of `from`. */
  function PathsVia(sys: System, from: Cave, k: nat, u: set<Cave>): nat
    requires Valid(sys) && from in sys && k <= |sys[from]|
    decreases Rank(sys, u), Kind(from), 1, k
  {
    if k == 0 then 0 else PathsVia(sys, from, k - 1, u) + PathsAt(sys, from, k - 1, u)
  }

  /** The walks through the i-th neighbour of `from`: none through the start cave or a used cave. */
  function PathsAt(sys: System, from: Cave, i: nat, u: set<Cave>): nat
    requires Valid(sys) && from in sys && i < |sys[from]|
    decreases Rank(sys, u), Kind(from), 0, 0
  {
    var n := sys[from][i];
    if n != Start && n !in u then Ranked(sys, u, n); Paths(sys, n, u) else 0
  }

  /** Entering the i-th neighbour of `from`, when it is neither the start nor used, is a smaller search that leaves `u` as it was. */
  lemma Enter(sys: System, from: Cave, u: set<Cave>, i: nat)
    requires Valid(sys) && from in sys && i < |sys[from]|
    ensures var n := sys[from][i];
            (n != Start && n !in u ==> Entered(sys, from, u, n) && u - {n} == u)
            && (n in u && IsSmall(n) ==> n in sys && u + Ins(n) == u)
  {
    var n := sys[from][i];
    if n != Start && n !in u {
      Ranked(sys, u, n);
    }
  }

  /** The set of used caves, shared by the recursive calls of a search. */
  class Visited {
    var members: set<Cave>

    constructor ()
      ensures members == {}
    {
      members := {};
    }
  }

  /**
   * `depth_first`: the number of walks from `current` to the end cave; the
   * cave is marked used on entry unless it is big, and unmarked on exit.
   */
  method DepthFirst(sys: System, current: Cave, used: Visited) returns (result: nat)
    requires Valid(sys) && (current != End ==> current in sys)
    modifies used
    ensures result == Paths(sys, current, old(used.members))
    ensures used.members == if current == End then old(used.members) else old(used.members) - {current}
    decreases Rank(sys, used.members + Ins(current)), Kind(current), 2, 0
  {
    result := 0;
    if current == End {
      return 1;
    }
    if !CanBacktrack(current) {
      used.members := used.members + {current};
    }
    ghost var u := used.members;
    assert u == old(used.members) + Ins(current);
    var caves := sys[current];
    for i := 0 to |caves|
      invariant used.members == u
      invariant result == PathsVia(sys, current, i, u)
    {
      var count := DepthFirstStep(sys, current, i, used, u);
      result := result + count;
    }
    if current in used.members {
      used.members := used.members - {current};
    }
  }

  /** The body of the loop in `depth_first`: the walks through the i-th neighbour of `from`. */
  method DepthFirstStep(sys: System, from: Cave, i: nat, used: Visited, ghost u: set<Cave>) returns (count: nat)
    requires Valid(sys) && from in sys && i < |sys[from]| && used.members == u
    modifies used
    ensures count == PathsAt(sys, from, i, u) && used.members == u
    decreases Rank(sys, u), Kind(from), 0, 0
  {
    count := 0;
    var cave := sys[from][i];
    Enter(sys, from, u, i);
    if cave != Start && cave !in used.members {
      count := DepthFirst(sys, cave, used);
    }
  }

  /** The count of `depth_first_twice` from c, with `twice` the small cave already entered a second time, if any. */
  function Twice(sys: System, c: Cave, twice: Option<Cave>, used: set<Cave>): nat
    requires Valid(sys) && (c != End ==> c in sys)
    decreases Rank(sys, used + Ins(c)), Spent(twice), Kind(c), 2, 0
  {
    if c == End then 1 else TwiceVia(sys, c, |sys[c]|, twice, used + Ins(c))
  }

  /** The walks through the first k neighbours of `from`. */
  function TwiceVia(sys: System, from: Cave, k: nat, twice: Option<Cave>, u: set<Cave>): nat
    requires Valid(sys) && from in sys && k <= |sys[from]|
    decreases Rank(sys, u), Spent(twice), Kind(from), 1, k
  {
    if k == 0 then 0 else TwiceVia(sys, from, k - 1, twice, u) + TwiceAt(sys, from, k - 1, twice, u)
  }

  /**
   * The walks through the i-th neighbour of `from`: a used small cave is
   * entered again while no cave was, an unused cave as usual.
   */
  function TwiceAt(sys: System, from: Cave, i: nat, twice: Option<Cave>, u: set<Cave>): nat
    requires Valid(sys) && from in sys && i < |sys[from]|
    decreases Rank(sys, u), Spent(twice), Kind(from), 0, 0
  {
    var n := sys[from][i];
    (if n != Start && n in u && IsSmall(n) && twice.None? then assert u + Ins(n) == u; Twice(sys, n, Some(n), u) else 0)
    + (if n != Start && n !in u then Ranked(sys, u, n); Twice(sys, n, twice, u) else 0)
  }

  /**
   * `depth_first_twice`: as `depth_first`, but a used small cave may be
   * entered once more; that cave stays used when its second visit ends.
   */
  method DepthFirstTwice(sys: System, current: Cave, twice: Option<Cave>, used: Visited) returns (result: nat)
    requires Valid(sys) && (current != End ==> current in sys)
    requires twice.Some? ==> twice.value in used.members
    modifies used
    ensures result == Twice(sys, current, twice, old(used.members))
    ensures used.members == if current == End then old(used.members)
                            else if twice == Some(current) then old(used.members) + Ins(current)
                            else old(used.members) - {current}
    decreases Rank(sys, used.members + Ins(current)), Spent(twice), Kind(current), 2, 0
  {
    result := 0;
    if current == End {
      return 1;
    }
    if !CanBacktrack(current) {
      used.members := used.members + {current};
    }
    ghost var u := used.members;
    assert u == old(used.members) + Ins(current);
    var caves := sys[current];
    for i := 0 to |caves|
      invariant used.members == u
      invariant result == TwiceVia(sys, current, i, twice, u)
    {
      var count := DepthFirstTwiceStep(sys, current, i, twice, used, u);
      result := result + count;
    }
    assert result == Twice(sys, current, twice, old(used.members));
    ghost var pre := old(used.members);
    if current in used.members {
      if twice.Some? {
        if twice.value != current {
          used.members := used.members - {current};
          assert used.members == pre - {current};
        } else {
          assert used.members == pre + Ins(current);
        }
      } else {
        used.members := used.members - {current};
        assert used.members == pre - {current};
      }
    } else {
      assert current.Big? && current !in pre && u == pre;
    }
  }

  /** The body of the loop in `depth_first_twice`: the walks through the i-th neighbour of `from`. */
  method DepthFirstTwiceStep(sys: System, from: Cave, i: nat, twice: Option<Cave>, used: Visited, ghost u: set<Cave>)
    returns (count: nat)
    requires Valid(sys) && from in sys && i < |sys[from]| && used.members == u
    requires twice.Some? ==> twice.value in u
    modifies used
    ensures count == TwiceAt(sys, from, i, twice, u) && used.members == u
    decreases Rank(sys, u), Spent(twice), Kind(from), 0, 0
  {
    count := 0;
    var cave := sys[from][i];
    Enter(sys, from, u, i);
    if cave != Start {
      if cave in used.members && IsSmall(cave) && twice.None? {
        var again := DepthFirstTwice(sys, cave, Some(cave), used);
        count := count + again;
      }
      if cave !in used.members {
        var first := DepthFirstTwice(sys, cave, twice, used);
        count := count + first;
      }
    }
  }

  // What the counts count

  /** Walk w from c to the end cave along passages, never back to the start, never into a used cave, never twice into a cave that is not big. */
  ghost predicate IsWalk(sys: System, c: Cave, used: set<Cave>, w: seq<Cave>)
  {
    |w| >= 1 && w[0] == c && w[|w| - 1] == End
    && (forall i :: 0 <= i < |w| - 1 ==> w[i] != End && w[i] in sys && w[i + 1] in sys[w[i]])
    && (forall j :: 1 <= j < |w| ==> w[j] != Start && w[j] !in used && (w[j].Big? || w[j] !in w[..j]))
  }

  /** The walks counted by `depth_first`, one per counted step, in search order. */
  ghost function Walks(sys: System, c: Cave, used: set<Cave>): seq<seq<Cave>>
    requires Valid(sys) && (c != End ==> c in sys)
    decreases Rank(sys, used + Ins(c)), Kind(c), 2, 0
  {
    if c == End then [[End]] else Prepend(c, WalksVia(sys, c, |sys[c]|, used + Ins(c)))
  }

  ghost function WalksVia(sys: System, from: Cave, k: nat, u: set<Cave>): seq<seq<Cave>>
    requires Valid(sys) && from in sys && k <= |sys[from]|
    decreases Rank(sys, u), Kind(from), 1, k
  {
    if k == 0 then [] else
    var n := sys[from][k - 1];
    WalksVia(sys, from, k - 1, u) + if n != Start && n !in u then Ranked(sys, u, n); Walks(sys, n, u) else []
  }

  ghost function Prepend(c: Cave, ws: seq<seq<Cave>>): (r: seq<seq<Cave>>)
    ensures |r| == |ws| && forall i :: 0 <= i < |ws| ==> r[i] == [c] + ws[i]
  {
    seq(|ws|, i requires 0 <= i < |ws| => [c] + ws[i])
  }

  /** A walk starting with c whose rest is listed is listed once c is put in front of every listed walk. */
  lemma PrependHas(c: Cave, ws: seq<seq<Cave>>, w: seq<Cave>)
    requires |w| >= 1 && w[0] == c && w[1..] in ws
    ensures w in Prepend(c, ws)
  {
    var k :| 0 <= k < |ws| && ws[k] == w[1..];
    assert Prepend(c, ws)[k] == [c] + w[1..] == w;
  }

  /** A listed walk after c is put in front of every walk starts with c and goes on with a listed walk. */
  lemma PrependFrom(c: Cave, ws: seq<seq<Cave>>, w: seq<Cave>)
    requires w in Prepend(c, ws)
    ensures |w| >= 1 && w[0] == c && w[1..] in ws
  {
    var k :| 0 <= k < |ws| && Prepend(c, ws)[k] == w;
    assert w[1..] == ws[k];
  }

  /** `depth_first` counts one per walk. */
  lemma {:induction false} WalksCounted(sys: System, c: Cave, used: set<Cave>)
    requires Valid(sys) && (c != End ==> c in sys)
    ensures |Walks(sys, c, used)| == Paths(sys, c, used)
    decreases Rank(sys, used + Ins(c)), Kind(c), 2, 0
  {
    if c != End {
      WalksViaCounted(sys, c, |sys[c]|, used + Ins(c));
    }
  }

  lemma {:induction false} WalksViaCounted(sys: System, from: Cave, k: nat, u: set<Cave>)
    requires Valid(sys) && from in sys && k <= |sys[from]|
    ensures |WalksVia(sys, from, k, u)| == PathsVia(sys, from, k, u)
    decreases Rank(sys, u), Kind(from), 1, k
  {
    if k > 0 {
      WalksViaCounted(sys, from, k - 1, u);
      var n := sys[from][k - 1];
      if n != Start && n !in u {
        Ranked(sys, u, n);
        WalksCounted(sys, n, u);
      }
    }
  }

  /** Putting c in front of a walk from one of its neighbours n gives a walk from c. */
  lemma Extend(sys: System, c: Cave, used: set<Cave>, n: Cave, w: seq<Cave>)
    requires c in sys && c != End && n in sys[c] && n != Start && n !in used + Ins(c)
    requires IsWalk(sys, n, used + Ins(c), w)
    ensures IsWalk(sys, c, used, [c] + w)
  {
    var v := [c] + w;
    forall j | 1 <= j < |v|
      ensures v[j] != Start && v[j] !in used && (v[j].Big? || v[j] !in v[..j])
    {
      assert v[j] == w[j - 1];
      if j >= 2 {
        assert v[..j] == [c] + w[..j - 1];
      } else {
        assert v[..j] == [c];
      }
    }
    forall i | 0 <= i < |v| - 1
      ensures v[i] != End && v[i] in sys && v[i + 1] in sys[v[i]]
    {
      if i >= 1 {
        assert v[i] == w[i - 1] && v[i + 1] == w[i];
      }
    }
  }

  /** A walk from c other than the end cave goes on with a walk from its second cave. */
  lemma Shorten(sys: System, c: Cave, used: set<Cave>, w: seq<Cave>)
    requires c != End && IsWalk(sys, c, used, w)
    ensures |w| >= 2 && c in sys && w[1] in sys[c] && w[1] != Start && w[1] !in used + Ins(c)
    ensures IsWalk(sys, w[1], used + Ins(c), w[1..])
  {
    assert w[..1] == [c];
    var v := w[1..];
    forall j | 1 <= j < |v|
      ensures v[j] != Start && v[j] !in used + Ins(c) && (v[j].Big? || v[j] !in v[..j])
    {
      assert v[j] == w[j + 1];
      assert w[..j + 1] == [c] + v[..j];
    }
    forall i | 0 <= i < |v| - 1
      ensures v[i] != End && v[i] in sys && v[i + 1] in sys[v[i]]
    {
      assert v[i] == w[i + 1] && v[i + 1] == w[i + 2];
    }
  }

  /** Every walk the search counts is a walk. */
  lemma {:induction false} WalksSound(sys: System, c: Cave, used: set<Cave>, w: seq<Cave>)
    requires Valid(sys) && (c != End ==> c in sys) && w in Walks(sys, c, used)
    ensures IsWalk(sys, c, used, w)
    decreases Rank(sys, used + Ins(c)), Kind(c), 2, 0
  {
    if c != End {
      var u := used + Ins(c);
      PrependFrom(c, WalksVia(sys, c, |sys[c]|, u), w);
      var n := WalksViaSound(sys, c, |sys[c]|, u, w[1..]);
      Extend(sys, c, used, n, w[1..]);
      assert [c] + w[1..] == w;
    }
  }

  lemma {:induction false} WalksViaSound(sys: System, from: Cave, k: nat, u: set<Cave>, w: seq<Cave>) returns (n: Cave)
    requires Valid(sys) && from in sys && k <= |sys[from]| && w in WalksVia(sys, from, k, u)
    ensures n in sys[from] && n != Start && n !in u && IsWalk(sys, n, u, w)
    decreases Rank(sys, u), Kind(from), 1, k
  {
    var m := sys[from][k - 1];
    if w in WalksVia(sys, from, k - 1, u) {
      n := WalksViaSound(sys, from, k - 1, u, w);
    } else {
      Ranked(sys, u, m);
      WalksSound(sys, m, u, w);
      n := m;
    }
  }

  /** Every walk is counted by the search. */
  lemma {:induction false} WalksComplete(sys: System, c: Cave, used: set<Cave>, w: seq<Cave>)
    requires Valid(sys) && (c != End ==> c in sys) && IsWalk(sys, c, used, w)
    ensures w in Walks(sys, c, used)
    decreases Rank(sys, used + Ins(c)), Kind(c), 2, 0
  {
    if c == End {
      assert w == [End];
    } else {
      Shorten(sys, c, used, w);
      var n, u := w[1], used + Ins(c);
      var i :| 0 <= i < |sys[c]| && sys[c][i] == n;
      Ranked(sys, u, n);
      WalksComplete(sys, n, u, w[1..]);
      WalksViaComplete(sys, c, |sys[c]|, u, i, w[1..]);
      PrependHas(c, WalksVia(sys, c, |sys[c]|, u), w);
    }
  }

  lemma {:induction false} WalksViaComplete(sys: System, from: Cave, k: nat, u: set<Cave>, i: nat, w: seq<Cave>)
    requires Valid(sys) && from in sys && i < k <= |sys[from]|
    requires sys[from][i] != Start && sys[from][i] !in u
    requires w in Walks(sys, sys[from][i], u)
    ensures w in WalksVia(sys, from, k, u)
  {
    if i < k - 1 {
      WalksViaComplete(sys, from, k - 1, u, i, w);
    }
  }

  /** Once a small cave had its second visit, part two counts exactly what part one counts. */
  lemma {:induction false} SpentTwice(sys: System, c: Cave, x: Cave, used: set<Cave>)
    requires Valid(sys) && (c != End ==> c in sys)
    ensures Twice(sys, c, Some(x), used) == Paths(sys, c, used)
    decreases Rank(sys, used + Ins(c)), Kind(c), 2, 0
  {
    if c != End {
      SpentTwiceVia(sys, c, |sys[c]|, x, used + Ins(c));
    }
  }

  lemma {:induction false} SpentTwiceVia(sys: System, from: Cave, k: nat, x: Cave, u: set<Cave>)
    requires Valid(sys) && from in sys && k <= |sys[from]|
    ensures TwiceVia(sys, from, k, Some(x), u) == PathsVia(sys, from, k, u)
    decreases Rank(sys, u), Kind(from), 1, k
  {
    if k > 0 {
      SpentTwiceVia(sys, from, k - 1, x, u);
      var n := sys[from][k - 1];
      if n != Start && n !in u {
        Ranked(sys, u, n);
        SpentTwice(sys, n, x, u);
      }
    }
  }

  /** Allowing one second visit never loses a walk: part two counts at least what part one counts. */
  lemma {:induction false} TwiceCovers(sys: System, c: Cave, used: set<Cave>)
    requires Valid(sys) && (c != End ==> c in sys)
    ensures Twice(sys, c, None, used) >= Paths(sys, c, used)
    decreases Rank(sys, used + Ins(c)), Kind(c), 2, 0
  {
    if c != End {
      TwiceCoversVia(sys, c, |sys[c]|, used + Ins(c));
    }
  }

  lemma {:induction false} TwiceCoversVia(sys: System, from: Cave, k: nat, u: set<Cave>)
    requires Valid(sys) && from in sys && k <= |sys[from]|
    ensures TwiceVia(sys, from, k, None, u) >= PathsVia(sys, from, k, u)
    decreases Rank(sys, u), Kind(from), 1, k
  {
    if k > 0 {
      TwiceCoversVia(sys, from, k - 1, u);
      var n := sys[from][k - 1];
      if n != Start && n !in u {
        Ranked(sys, u, n);
        TwiceCovers(sys, n, u);
      }
    }
  }

  // What the part-two counts count

  /** Step j of w enters a used cave, or a cave that is not big and was entered before. */
  ghost predicate Revisit(used: set<Cave>, w: seq<Cave>, j: int)
  {
    1 <= j < |w| && (w[j] in used || (!w[j].Big? && w[j] in w[..j]))
  }

  /**
   * Walk w from c to the end cave along passages, never back to the start,
   * with at most one revisit, and that one only into a small cave while no
   * second visit was made (`twice` is None).
   */
  ghost predicate IsWalkTwice(sys: System, c: Cave, used: set<Cave>, twice: Option<Cave>, w: seq<Cave>)
  {
    |w| >= 1 && w[0] == c && w[|w| - 1] == End
    && (forall i :: 0 <= i < |w| - 1 ==> w[i] != End && w[i] in sys && w[i + 1] in sys[w[i]])
    && (forall j :: 1 <= j < |w| ==> w[j] != Start)
    && (forall j :: Revisit(used, w, j) ==> twice.None? && IsSmall(w[j]))
    && (forall i, j :: Revisit(used, w, i) && Revisit(used, w, j) ==> i == j)
  }

  /** The walks counted by `depth_first_twice`, one per counted step, in search order. */
  ghost function WalksTwice(sys: System, c: Cave, twice: Option<Cave>, used: set<Cave>): seq<seq<Cave>>
    requires Valid(sys) && (c != End ==> c in sys)
    decreases Rank(sys, used + Ins(c)), Spent(twice), Kind(c), 2, 0
  {
    if c == End then [[End]] else Prepend(c, WalksTwiceVia(sys, c, |sys[c]|, twice, used + Ins(c)))
  }

  ghost function WalksTwiceVia(sys: System, from: Cave, k: nat, twice: Option<Cave>, u: set<Cave>): seq<seq<Cave>>
    requires Valid(sys) && from in sys && k <= |sys[from]|
    decreases Rank(sys, u), Spent(twice), Kind(from), 1, k
  {
    if k == 0 then [] else WalksTwiceVia(sys, from, k - 1, twice, u) + WalksTwiceAt(sys, from, k - 1, twice, u)
  }

  ghost function WalksTwiceAt(sys: System, from: Cave, i: nat, twice: Option<Cave>, u: set<Cave>): seq<seq<Cave>>
    requires Valid(sys) && from in sys && i < |sys[from]|
    decreases Rank(sys, u), Spent(twice), Kind(from), 0, 0
  {
    var n := sys[from][i];
    (if n != Start && n in u && IsSmall(n) && twice.None? then assert u + Ins(n) == u; WalksTwice(sys, n, Some(n), u) else [])
    + (if n != Start && n !in u then Ranked(sys, u, n); WalksTwice(sys, n, twice, u) else [])
  }

  /** `depth_first_twice` counts one per enumerated walk. */
  lemma {:induction false} WalksTwiceCounted(sys: System, c: Cave, twice: Option<Cave>, used: set<Cave>)
    requires Valid(sys) && (c != End ==> c in sys)
    ensures |WalksTwice(sys, c, twice, used)| == Twice(sys, c, twice, used)
    decreases Rank(sys, used + Ins(c)), Spent(twice), Kind(c), 2, 0
  {
    if c != End {
      WalksTwiceViaCounted(sys, c, |sys[c]|, twice, used + Ins(c));
    }
  }

  lemma {:induction false} WalksTwiceViaCounted(sys: System, from: Cave, k: nat, twice: Option<Cave>, u: set<Cave>)
    requires Valid(sys) && from in sys && k <= |sys[from]|
    ensures |WalksTwiceVia(sys, from, k, twice, u)| == TwiceVia(sys, from, k, twice, u)
    decreases Rank(sys, u), Spent(twice), Kind(from), 1, k
  {
    if k > 0 {
      WalksTwiceViaCounted(sys, from, k - 1, twice, u);
      WalksTwiceAtCounted(sys, from, k - 1, twice, u);
    }
  }

  lemma {:induction false} WalksTwiceAtCounted(sys: System, from: Cave, i: nat, twice: Option<Cave>, u: set<Cave>)
    requires Valid(sys) && from in sys && i < |sys[from]|
    ensures |WalksTwiceAt(sys, from, i, twice, u)| == TwiceAt(sys, from, i, twice, u)
    decreases Rank(sys, u), Spent(twice), Kind(from), 0, 0
  {
    var n := sys[from][i];
    Enter(sys, from, u, i);
    if n != Start && n in u && IsSmall(n) && twice.None? {
      assert u + Ins(n) == u;
      WalksTwiceCounted(sys, n, Some(n), u);
    }
    if n != Start && n !in u {
      WalksTwiceCounted(sys, n, twice, u);
    }
  }

  /** Putting c in front of w shifts the revisits of w by one, measured against the used caves and c. */
  lemma RevisitShift(used: set<Cave>, c: Cave, w: seq<Cave>)
    requires |w| >= 1
    ensures Revisit(used, [c] + w, 1) <==> w[0] in used + Ins(c)
    ensures forall j :: 2 <= j <= |w| ==> (Revisit(used, [c] + w, j) <==> Revisit(used + Ins(c), w, j - 1))
  {
    var v := [c] + w;
    assert v[..1] == [c];
    forall j | 2 <= j <= |w|
      ensures Revisit(used, v, j) <==> Revisit(used + Ins(c), w, j - 1)
    {
      assert v[j] == w[j - 1];
      assert v[..j] == [c] + w[..j - 1];
    }
  }

  /** The passage conditions of a walk survive putting c in front, c joined to the walk's first cave. */
  lemma ExtendShape(sys: System, c: Cave, w: seq<Cave>)
    requires c in sys && c != End && |w| >= 1 && w[0] in sys[c] && w[0] != Start && w[|w| - 1] == End
    requires forall i :: 0 <= i < |w| - 1 ==> w[i] != End && w[i] in sys && w[i + 1] in sys[w[i]]
    requires forall j :: 1 <= j < |w| ==> w[j] != Start
    ensures var v := [c] + w;
      (forall i :: 0 <= i < |v| - 1 ==> v[i] != End && v[i] in sys && v[i + 1] in sys[v[i]])
      && (forall j :: 1 <= j < |v| ==> v[j] != Start)
  {
    var v := [c] + w;
    forall i | 0 <= i < |v| - 1
      ensures v[i] != End && v[i] in sys && v[i + 1] in sys[v[i]]
    {
      if i >= 1 {
        assert v[i] == w[i - 1] && v[i + 1] == w[i];
      }
    }
    forall j | 1 <= j < |v|
      ensures v[j] != Start
    {
      assert v[j] == w[j - 1];
    }
  }

  /**
   * A part-two walk from a neighbour n of c, with c put in front, is a walk
   * from c: either n is entered for the first time, or n is the revisit and
   * the rest of the walk revisits nothing.
   */
  lemma ExtendTwice(sys: System, c: Cave, used: set<Cave>, twice: Option<Cave>, n: Cave, w: seq<Cave>)
    requires c in sys && c != End && n in sys[c] && n != Start
    requires (n !in used + Ins(c) && IsWalkTwice(sys, n, used + Ins(c), twice, w))
          || (n in used + Ins(c) && IsSmall(n) && twice.None? && IsWalkTwice(sys, n, used + Ins(c), Some(n), w))
    ensures IsWalkTwice(sys, c, used, twice, [c] + w)
  {
    var v, u := [c] + w, used + Ins(c);
    ExtendShape(sys, c, w);
    RevisitShift(used, c, w);
    if n !in u {
      forall j | Revisit(used, v, j)
        ensures twice.None? && IsSmall(v[j])
      {
        assert Revisit(u, w, j - 1) && v[j] == w[j - 1];
      }
      forall i, j | Revisit(used, v, i) && Revisit(used, v, j)
        ensures i == j
      {
        assert Revisit(u, w, i - 1) && Revisit(u, w, j - 1);
      }
    } else {
      forall j | 2 <= j < |v|
        ensures !Revisit(used, v, j)
      {
        assert !Revisit(u, w, j - 1);
      }
    }
  }

  /**
   * A part-two walk from c other than the end cave goes on with a part-two
   * walk from its second cave: as it is when that cave is new, and with the
   * second visit made when that cave is the revisit.
   */
  lemma ShortenTwice(sys: System, c: Cave, used: set<Cave>, twice: Option<Cave>, w: seq<Cave>)
    requires c != End && IsWalkTwice(sys, c, used, twice, w)
    ensures |w| >= 2 && c in sys && w[1] in sys[c] && w[1] != Start
    ensures w[1] !in used + Ins(c) ==> IsWalkTwice(sys, w[1], used + Ins(c), twice, w[1..])
    ensures w[1] in used + Ins(c) ==> IsSmall(w[1]) && twice.None? && IsWalkTwice(sys, w[1], used + Ins(c), Some(w[1]), w[1..])
  {
    var v, u := w[1..], used + Ins(c);
    assert [c] + v == w;
    RevisitShift(used, c, v);
    forall i | 0 <= i < |v| - 1
      ensures v[i] != End && v[i] in sys && v[i + 1] in sys[v[i]]
    {
      assert v[i] == w[i + 1] && v[i + 1] == w[i + 2];
    }
    forall j | 1 <= j < |v|
      ensures v[j] != Start
    {
      assert v[j] == w[j + 1];
    }
    if w[1] !in u {
      forall j | Revisit(u, v, j)
        ensures twice.None? && IsSmall(v[j])
      {
        assert Revisit(used, w, j + 1) && v[j] == w[j + 1];
      }
      forall i, j | Revisit(u, v, i) && Revisit(u, v, j)
        ensures i == j
      {
        assert Revisit(used, w, i + 1) && Revisit(used, w, j + 1);
      }
    } else {
      assert Revisit(used, w, 1);
      forall j | 1 <= j < |v|
        ensures !Revisit(u, v, j)
      {
        assert !Revisit(used, w, j + 1);
      }
    }
  }

  /** Every walk `depth_first_twice` counts is a part-two walk. */
  lemma {:induction false} WalksTwiceSound(sys: System, c: Cave, twice: Option<Cave>, used: set<Cave>, w: seq<Cave>)
    requires Valid(sys) && (c != End ==> c in sys) && w in WalksTwice(sys, c, twice, used)
    ensures IsWalkTwice(sys, c, used, twice, w)
    decreases Rank(sys, used + Ins(c)), Spent(twice), Kind(c), 2, 0
  {
    if c == End {
      assert w == [End];
    } else {
      var u := used + Ins(c);
      PrependFrom(c, WalksTwiceVia(sys, c, |sys[c]|, twice, u), w);
      var n := WalksTwiceViaSound(sys, c, |sys[c]|, twice, u, w[1..]);
      ExtendTwice(sys, c, used, twice, n, w[1..]);
      assert [c] + w[1..] == w;
    }
  }

  lemma {:induction false} WalksTwiceViaSound(sys: System, from: Cave, k: nat, twice: Option<Cave>, u: set<Cave>, w: seq<Cave>)
    returns (n: Cave)
    requires Valid(sys) && from in sys && k <= |sys[from]| && w in WalksTwiceVia(sys, from, k, twice, u)
    ensures n in sys[from] && n != Start
    ensures (n !in u && IsWalkTwice(sys, n, u, twice, w))
         || (n in u && IsSmall(n) && twice.None? && IsWalkTwice(sys, n, u, Some(n), w))
    decreases Rank(sys, u), Spent(twice), Kind(from), 1, k
  {
    var m := sys[from][k - 1];
    if w in WalksTwiceVia(sys, from, k - 1, twice, u) {
      n := WalksTwiceViaSound(sys, from, k - 1, twice, u, w);
    } else if m != Start && m in u && IsSmall(m) && twice.None? {
      assert u + Ins(m) == u;
      WalksTwiceSound(sys, m, Some(m), u, w);
      n := m;
    } else {
      Ranked(sys, u, m);
      WalksTwiceSound(sys, m, twice, u, w);
      n := m;
    }
  }

  /** Every part-two walk is counted by `depth_first_twice`. */
  lemma {:induction false} WalksTwiceComplete(sys: System, c: Cave, twice: Option<Cave>, used: set<Cave>, w: seq<Cave>)
    requires Valid(sys) && (c != End ==> c in sys) && IsWalkTwice(sys, c, used, twice, w)
    ensures w in WalksTwice(sys, c, twice, used)
    decreases Rank(sys, used + Ins(c)), Spent(twice), Kind(c), 2, 0
  {
    if c == End {
      assert w == [End];
    } else {
      ShortenTwice(sys, c, used, twice, w);
      var n, u := w[1], used + Ins(c);
      var i :| 0 <= i < |sys[c]| && sys[c][i] == n;
      WalksTwiceAtComplete(sys, c, i, twice, u, w[1..]);
      WalksTwiceViaComplete(sys, c, |sys[c]|, twice, u, i, w[1..]);
      PrependHas(c, WalksTwiceVia(sys, c, |sys[c]|, twice, u), w);
    }
  }

  /** A part-two walk from the i-th neighbour of `from`, entered either way, is among the walks through it. */
  lemma {:induction false} WalksTwiceAtComplete(sys: System, from: Cave, i: nat, twice: Option<Cave>, u: set<Cave>, w: seq<Cave>)
    requires Valid(sys) && from in sys && i < |sys[from]| && sys[from][i] != Start
    requires (sys[from][i] !in u && IsWalkTwice(sys, sys[from][i], u, twice, w))
          || (sys[from][i] in u && IsSmall(sys[from][i]) && twice.None? && IsWalkTwice(sys, sys[from][i], u, Some(sys[from][i]), w))
    ensures w in WalksTwiceAt(sys, from, i, twice, u)
    decreases Rank(sys, u), Spent(twice), Kind(from), 0, 0
  {
    var n := sys[from][i];
    Enter(sys, from, u, i);
    if n in u {
      assert u + Ins(n) == u;
      WalksTwiceComplete(sys, n, Some(n), u, w);
    } else {
      WalksTwiceComplete(sys, n, twice, u, w);
    }
  }

  lemma {:induction false} WalksTwiceViaComplete(sys: System, from: Cave, k: nat, twice: Option<Cave>, u: set<Cave>, i: nat, w: seq<Cave>)
    requires Valid(sys) && from in sys && i < k <= |sys[from]|
    requires w in WalksTwiceAt(sys, from, i, twice, u)
    ensures w in WalksTwiceVia(sys, from, k, twice, u)
  {
    if i < k - 1 {
      WalksTwiceViaComplete(sys, from, k - 1, twice, u, i, w);
    }
  }

  /** Every part-one walk is a part-two walk: it makes no revisit. */
  lemma WalkIsWalkTwice(sys: System, c: Cave, used: set<Cave>, w: seq<Cave>)
    requires IsWalk(sys, c, used, w)
    ensures IsWalkTwice(sys, c, used, None, w)
  {
    forall j | 1 <= j < |w|
      ensures !Revisit(used, w, j)
    {
    }
  }

  /** `paths_count`: None where indexing the map at the start cave panics. */
  method PathsCount(sys: System) returns (r: Option<nat>)
    requires Valid(sys)
    ensures r == if Start in sys then Some(Paths(sys, Start, {})) else None
  {
    if Start !in sys {
      return None;
    }
    var used := new Visited();
    var count := DepthFirst(sys, Start, used);
    return Some(count);
  }

  /** `paths_count_small_twice`. */
  method PathsCountSmallTwice(sys: System) returns (r: Option<nat>)
    requires Valid(sys)
    ensures r == if Start in sys then Some(Twice(sys, Start, None, {})) else None
  {
    if Start !in sys {
      return None;
    }
    var used := new Visited();
    var count := DepthFirstTwice(sys, Start, None, used);
    return Some(count);
  }
}
