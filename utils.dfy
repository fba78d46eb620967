/** The shared iterator helper of the puzzles: adjacent pairs of a sequence. */
module Utils {
  /** `Iterator::zip`: pairs up the elements of two sequences until the shorter one ends. */
  function Zip<A, B>(a: seq<A>, b: seq<B>): (r: seq<(A, B)>)
    ensures |r| == if |a| <= |b| then |a| else |b|
    ensures forall i :: 0 <= i < |r| ==> r[i] == (a[i], b[i])
  {
    if a == [] || b == [] then [] else [(a[0], b[0])] + Zip(a[1..], b[1..])
  }

  /** `consecutive_pairs`: the sequence zipped with itself shifted by one. */
  function ConsecutivePairs<T>(s: seq<T>): seq<(T, T)>
  {
    if s == [] then [] else Zip(s, s[1..])
  }

  /** The pairs are exactly (s[i], s[i+1]) for i < |s| - 1, in order; none for fewer than two elements. */
  lemma PairsOf<T>(s: seq<T>)
    ensures |s| <= 1 ==> ConsecutivePairs(s) == []
    ensures |s| >= 1 ==> |ConsecutivePairs(s)| == |s| - 1
    ensures forall i :: 0 <= i < |ConsecutivePairs(s)| ==> ConsecutivePairs(s)[i] == (s[i], s[i + 1])
  {
  }

  /** The first components are `s` without its last element and the second ones `s` without its first. */
  lemma PairComponents<T>(s: seq<T>)
    requires |s| >= 1
    ensures seq(|s| - 1, i requires 0 <= i < |s| - 1 => ConsecutivePairs(s)[i].0) == s[..|s| - 1]
    ensures seq(|s| - 1, i requires 0 <= i < |s| - 1 => ConsecutivePairs(s)[i].1) == s[1..]
  {
    PairsOf(s);
  }
}
