// Least-energy search over burrow boards (day 23, `organizing_cost`): a
// Dijkstra search with lazy deletion, proved sound and optimal against
// every sequence of generated moves.
module Day23Search {
  import opened Common
  import opened Day23
  import opened Day23Moves

  /** A heap entry: a board reached at a given total energy. */
  datatype Entry = Entry(cost: nat, state: State)

  /** What the search reports; `OutOfFuel` stands for a run cut short by the step bound. */
  datatype Outcome = Reached(cost: nat) | Exhausted | OutOfFuel

  /** The board and energy after a generated move. */
  function Succ(s: State, m: Move): (r: (State, nat))
    requires Wf(s) && m in MovesSpec(s)
    ensures Wf(r.0)
    ensures m.src < |s.data| && m.dst < |s.data| && 1 <= s.data[m.src] <= 4 && r == Step(s, m)
  {
    MovesSpecIff(s, m);
    StepPreservesWf(s, m);
    Step(s, m)
  }

  /** Follows `path` from `s`, each move being one the generator offers on the
      board reached so far; the final board and the energy spent, or None. */
  function Walk(s: State, path: seq<Move>): (r: Option<(State, nat)>)
    requires Wf(s)
    ensures r.Some? ==> Wf(r.value.0)
    ensures path == [] ==> r == Some((s, 0))
    decreases |path|
  {
    if path == [] then Some((s, 0))
    else
      var prev := Walk(s, path[..|path| - 1]);
      var m := path[|path| - 1];
      if prev.Some? && m in MovesSpec(prev.value.0) then
        var next := Succ(prev.value.0, m);
        Some((next.0, prev.value.1 + next.1))
      else None
  }

  /** Extending a path by a generated move adds that move's energy. */
  lemma WalkAppend(s: State, path: seq<Move>, m: Move)
    requires Wf(s) && Walk(s, path).Some?
    requires m in MovesSpec(Walk(s, path).value.0)
    ensures Walk(s, path + [m]).Some?
    ensures Walk(s, path + [m]).value.0 == Succ(Walk(s, path).value.0, m).0
    ensures Walk(s, path + [m]).value.1 == Walk(s, path).value.1 + Succ(Walk(s, path).value.0, m).1
  {
    var longer := path + [m];
    assert longer[..|longer| - 1] == path;
    assert longer[|longer| - 1] == m;
  }

  /** `path` leads from `init` to board `u` at energy `cost`. */
  ghost predicate Ends(init: State, path: seq<Move>, u: State, cost: nat)
    requires Wf(init)
  {
    Walk(init, path).Some? && Walk(init, path).value.0 == u && Walk(init, path).value.1 == cost
  }

  /** `path` solves the puzzle from `init` at energy `cost`. */
  ghost predicate Solves(init: State, path: seq<Move>, cost: nat)
    requires Wf(init)
  {
    Walk(init, path).Some? && IsComplete(Walk(init, path).value.0) && Walk(init, path).value.1 == cost
  }

  /** Every heap entry is the end of a recorded path with exactly its energy. */
  ghost predicate HeapSound(init: State, heap: multiset<Entry>, wit: map<Entry, seq<Move>>)
    requires Wf(init)
  {
    forall e :: e in heap ==> e in wit && Ends(init, wit[e], e.state, e.cost) && e.cost < U64_MAX
  }

  /** Every visited board is the end of a recorded path with its recorded energy. */
  ghost predicate VisitedSound(init: State, visited: map<State, nat>, vpath: map<State, seq<Move>>)
    requires Wf(init)
  {
    forall u :: u in visited ==> u in vpath && Ends(init, vpath[u], u, visited[u]) && visited[u] < U64_MAX
  }

  /** Bookkeeping: `expanded` is the set of boards whose moves have been pushed. */
  ghost predicate Shape(init: State, heap: multiset<Entry>, visited: map<State, nat>, expanded: set<State>)
  {
    && init in visited && visited[init] == 0
    && (forall u :: u in visited ==> u in expanded || u == init)
    && (forall u :: u in expanded ==> u in visited && Wf(u) && !IsComplete(u))
    && (init !in expanded ==> Entry(0, init) in heap)
  }

  /** The recorded energy of an expanded board is the least over all paths to it. */
  ghost predicate Optimal(init: State, visited: map<State, nat>, expanded: set<State>)
    requires Wf(init)
    requires forall u :: u in expanded ==> u in visited
  {
    forall path :: Walk(init, path).Some? && Walk(init, path).value.0 in expanded ==>
      visited[Walk(init, path).value.0] <= Walk(init, path).value.1
  }

  /** Move `m` out of the expanded board `u` is accounted for: its target is
      expanded, or the heap holds it at no more than the energy through `u`. */
  ghost predicate CoveredMove(heap: multiset<Entry>, visited: map<State, nat>, expanded: set<State>, u: State, m: Move)
  {
    Wf(u) && u in visited && m in MovesSpec(u) ==>
      var next := Succ(u, m);
      visited[u] + next.1 < U64_MAX ==>
        next.0 in expanded || exists e :: e in heap && e.state == next.0 && e.cost <= visited[u] + next.1
  }

  ghost predicate Covered(heap: multiset<Entry>, visited: map<State, nat>, expanded: set<State>)
    requires forall u :: u in expanded ==> u in visited && Wf(u)
  {
    forall u, m :: u in expanded && m in MovesSpec(u) ==> CoveredMove(heap, visited, expanded, u, m)
  }

  /** The loop invariant of the search. */
  ghost predicate Inv(init: State, heap: multiset<Entry>, visited: map<State, nat>, expanded: set<State>,
                      wit: map<Entry, seq<Move>>, vpath: map<State, seq<Move>>)
  {
    && Wf(init)
    && HeapSound(init, heap, wit)
    && VisitedSound(init, visited, vpath)
    && Shape(init, heap, visited, expanded)
    && Optimal(init, visited, expanded)
    && Covered(heap, visited, expanded)
  }

  /** Any path of energy below the u64 ceiling to a board not yet expanded is
      undercut by some heap entry. */
  lemma {:induction false} Frontier(init: State, heap: multiset<Entry>, visited: map<State, nat>, expanded: set<State>,
                                    wit: map<Entry, seq<Move>>, vpath: map<State, seq<Move>>, path: seq<Move>)
    requires Inv(init, heap, visited, expanded, wit, vpath)
    requires Walk(init, path).Some? && Walk(init, path).value.0 !in expanded
    requires Walk(init, path).value.1 < U64_MAX
    ensures exists e :: e in heap && e.cost <= Walk(init, path).value.1
    decreases |path|
  {
    if path == [] {
      assert Entry(0, init) in heap;
    } else {
      var prefix := path[..|path| - 1];
      var m := path[|path| - 1];
      var at := Walk(init, prefix).value;
      if at.0 in expanded {
        assert visited[at.0] <= at.1;
        assert CoveredMove(heap, visited, expanded, at.0, m);
      } else {
        Frontier(init, heap, visited, expanded, wit, vpath, prefix);
      }
    }
  }

  /** A non-empty heap has an entry of least energy. */
  lemma HeapHasMin(heap: multiset<Entry>)
    requires heap != multiset{}
    ensures exists e :: e in heap && forall f :: f in heap ==> e.cost <= f.cost
  {
    var x :| x in heap;
    CheaperThan(heap, x);
  }

  /** Descending from any entry `x` through strictly cheaper ones reaches an entry of least energy. */
  lemma {:induction false} CheaperThan(heap: multiset<Entry>, x: Entry)
    requires x in heap
    ensures exists e :: e in heap && forall f :: f in heap ==> e.cost <= f.cost
    decreases x.cost
  {
    if forall f :: f in heap ==> x.cost <= f.cost {
      assert x in heap;
    } else {
      var f :| f in heap && f.cost < x.cost;
      CheaperThan(heap, f);
    }
  }

  /** `BinaryHeap::pop` on `Reverse(cost)`: an entry of least energy. */
  method PopMin(heap: multiset<Entry>) returns (e: Entry, rest: multiset<Entry>)
    requires heap != multiset{}
    ensures e in heap && rest == heap - multiset{e}
    ensures forall f :: f in heap ==> e.cost <= f.cost
  {
    HeapHasMin(heap);
    e :| e in heap && forall f :: f in heap ==> e.cost <= f.cost;
    rest := heap - multiset{e};
  }

  /** Coverage of every expanded board other than `x`. */
  ghost predicate CoveredBut(heap: multiset<Entry>, visited: map<State, nat>, expanded: set<State>, x: State)
    requires forall u :: u in expanded ==> u in visited && Wf(u)
  {
    forall u, m :: u in expanded && u != x && m in MovesSpec(u) ==> CoveredMove(heap, visited, expanded, u, m)
  }

  /** Pushing entries keeps a move covered. */
  lemma CoveredGrow(heap: multiset<Entry>, more: multiset<Entry>, visited: map<State, nat>, expanded: set<State>, u: State, m: Move)
    requires heap <= more && CoveredMove(heap, visited, expanded, u, m)
    ensures CoveredMove(more, visited, expanded, u, m)
  {
    if Wf(u) && u in visited && m in MovesSpec(u) && visited[u] + Succ(u, m).1 < U64_MAX && Succ(u, m).0 !in expanded {
      var next := Succ(u, m);
      var f :| f in heap && f.state == next.0 && f.cost <= visited[u] + next.1;
      assert f in more;
    }
  }

  /** The initial heap and table satisfy the invariant. */
  lemma InitInv(init: State)
    requires Wf(init)
    ensures Inv(init, multiset{Entry(0, init)}, map[init := 0], {}, map[Entry(0, init) := []], map[init := []])
  {
  }

  /** A popped entry that the table already beats is dropped without harm. */
  lemma SkipKeepsInv(init: State, heap: multiset<Entry>, visited: map<State, nat>, expanded: set<State>,
                     wit: map<Entry, seq<Move>>, vpath: map<State, seq<Move>>, e: Entry)
    requires Inv(init, heap, visited, expanded, wit, vpath)
    requires e in heap && e.state in visited && visited[e.state] < e.cost
    ensures Inv(init, heap - multiset{e}, visited, expanded, wit, vpath)
  {
    var rest := heap - multiset{e};
    assert init !in expanded ==> Entry(0, init) in rest by {
      if init !in expanded {
        assert Entry(0, init) in heap && Entry(0, init) != e;
      }
    }
    forall u, m | u in expanded && m in MovesSpec(u)
      ensures CoveredMove(rest, visited, expanded, u, m)
    {
      assert CoveredMove(heap, visited, expanded, u, m);
      var next := Succ(u, m);
      if visited[u] + next.1 < U64_MAX && next.0 !in expanded {
        var f :| f in heap && f.state == next.0 && f.cost <= visited[u] + next.1;
        if f == e {
          assert Entry(0, init) in rest;
        } else {
          assert f in rest;
        }
      }
    }
  }

  /** No path below the u64 ceiling to a board not yet expanded costs less
      than the least heap entry. */
  lemma LeastBeatsFrontier(init: State, heap: multiset<Entry>, visited: map<State, nat>, expanded: set<State>,
                           wit: map<Entry, seq<Move>>, vpath: map<State, seq<Move>>, e: Entry, path: seq<Move>)
    requires Inv(init, heap, visited, expanded, wit, vpath)
    requires e in heap && forall f :: f in heap ==> e.cost <= f.cost
    requires Walk(init, path).Some? && Walk(init, path).value.0 !in expanded
    requires Walk(init, path).value.1 < U64_MAX
    ensures e.cost <= Walk(init, path).value.1
  {
    Frontier(init, heap, visited, expanded, wit, vpath, path);
  }

  /** The entry of least energy is optimal for its board when no recorded energy beats it. */
  lemma PopIsOptimal(init: State, heap: multiset<Entry>, visited: map<State, nat>, expanded: set<State>,
                     wit: map<Entry, seq<Move>>, vpath: map<State, seq<Move>>, e: Entry, path: seq<Move>)
    requires Inv(init, heap, visited, expanded, wit, vpath)
    requires e in heap && forall f :: f in heap ==> e.cost <= f.cost
    requires e.state in visited ==> e.cost <= visited[e.state]
    requires Walk(init, path).Some? && Walk(init, path).value.0 == e.state
    ensures e.cost <= Walk(init, path).value.1
  {
    var c := Walk(init, path).value.1;
    if e.state in expanded {
      assert visited[e.state] <= c;
    } else if c < U64_MAX {
      LeastBeatsFrontier(init, heap, visited, expanded, wit, vpath, e, path);
    }
  }

  /** Popping the least entry and recording it as expanded keeps everything but
      the coverage of the popped board's own moves. */
  lemma PopKeepsInv(init: State, heap: multiset<Entry>, visited: map<State, nat>, expanded: set<State>,
                    wit: map<Entry, seq<Move>>, vpath: map<State, seq<Move>>, e: Entry)
    requires Inv(init, heap, visited, expanded, wit, vpath)
    requires e in heap && forall f :: f in heap ==> e.cost <= f.cost
    requires e.state in visited ==> e.cost <= visited[e.state]
    requires !IsComplete(e.state)
    ensures var visited', expanded' := visited[e.state := e.cost], expanded + {e.state};
      && HeapSound(init, heap - multiset{e}, wit)
      && VisitedSound(init, visited', vpath[e.state := wit[e]])
      && Shape(init, heap - multiset{e}, visited', expanded')
      && Optimal(init, visited', expanded')
      && CoveredBut(heap - multiset{e}, visited', expanded', e.state)
  {
    var x := e.state;
    var rest := heap - multiset{e};
    var visited', expanded' := visited[x := e.cost], expanded + {x};
    var vpath' := vpath[x := wit[e]];
    assert x == init ==> e.cost == 0;
    forall u | u in visited'
      ensures u in vpath' && Ends(init, vpath'[u], u, visited'[u]) && visited'[u] < U64_MAX
    {
      if u == x {
        assert e in heap;
      } else {
        assert u in visited;
      }
    }
    assert init !in expanded' ==> Entry(0, init) in rest by {
      if init !in expanded' {
        assert Entry(0, init) in heap && Entry(0, init) != e;
      }
    }
    PopKeepsOptimal(init, heap, visited, expanded, wit, vpath, e);
    PopKeepsCover(heap, visited, expanded, e);
  }

  lemma PopKeepsOptimal(init: State, heap: multiset<Entry>, visited: map<State, nat>, expanded: set<State>,
                        wit: map<Entry, seq<Move>>, vpath: map<State, seq<Move>>, e: Entry)
    requires Inv(init, heap, visited, expanded, wit, vpath)
    requires e in heap && forall f :: f in heap ==> e.cost <= f.cost
    requires e.state in visited ==> e.cost <= visited[e.state]
    ensures Optimal(init, visited[e.state := e.cost], expanded + {e.state})
  {
    var visited', expanded' := visited[e.state := e.cost], expanded + {e.state};
    forall path | Walk(init, path).Some? && Walk(init, path).value.0 in expanded'
      ensures visited'[Walk(init, path).value.0] <= Walk(init, path).value.1
    {
      if Walk(init, path).value.0 == e.state {
        PopIsOptimal(init, heap, visited, expanded, wit, vpath, e, path);
      }
    }
  }

  lemma PopKeepsCover(heap: multiset<Entry>, visited: map<State, nat>, expanded: set<State>, e: Entry)
    requires forall u :: u in expanded ==> u in visited && Wf(u)
    requires Covered(heap, visited, expanded) && Wf(e.state)
    ensures CoveredBut(heap - multiset{e}, visited[e.state := e.cost], expanded + {e.state}, e.state)
  {
    var x := e.state;
    var rest := heap - multiset{e};
    var visited', expanded' := visited[x := e.cost], expanded + {x};
    forall u, m | u in expanded' && u != x && m in MovesSpec(u)
      ensures CoveredMove(rest, visited', expanded', u, m)
    {
      assert CoveredMove(heap, visited, expanded, u, m);
      var next := Succ(u, m);
      if visited[u] + next.1 < U64_MAX && next.0 !in expanded' {
        var f :| f in heap && f.state == next.0 && f.cost <= visited[u] + next.1;
        assert f in rest;
      }
    }
  }

  /** The first `i` moves of `moves` out of `x` are covered. */
  ghost predicate CoversPrefix(heap: multiset<Entry>, visited: map<State, nat>, expanded: set<State>,
                               x: State, moves: seq<Move>, i: nat)
    requires i <= |moves|
  {
    i == 0 || (CoversPrefix(heap, visited, expanded, x, moves, i - 1) && CoveredMove(heap, visited, expanded, x, moves[i - 1]))
  }

  /** Pushing entries keeps a covered prefix covered. */
  lemma {:induction false} CoversPrefixGrow(heap: multiset<Entry>, more: multiset<Entry>, visited: map<State, nat>,
                                            expanded: set<State>, x: State, moves: seq<Move>, i: nat)
    requires i <= |moves| && heap <= more && CoversPrefix(heap, visited, expanded, x, moves, i)
    ensures CoversPrefix(more, visited, expanded, x, moves, i)
  {
    if i > 0 {
      CoversPrefixGrow(heap, more, visited, expanded, x, moves, i - 1);
      CoveredGrow(heap, more, visited, expanded, x, moves[i - 1]);
    }
  }

  /** A covered prefix covers each of its moves. */
  lemma {:induction false} CoversPrefixEach(heap: multiset<Entry>, visited: map<State, nat>, expanded: set<State>,
                                            x: State, moves: seq<Move>, i: nat)
    requires i <= |moves| && CoversPrefix(heap, visited, expanded, x, moves, i)
    ensures forall m :: m in moves[..i] ==> CoveredMove(heap, visited, expanded, x, m)
  {
    if i > 0 {
      CoversPrefixEach(heap, visited, expanded, x, moves, i - 1);
      assert moves[..i] == moves[..i - 1] + [moves[i - 1]];
    }
  }

  /** Pushes the successor of `x` by `m` when its energy beats the table. */
  method Offer(ghost init: State, x: State, cost: nat, moves: seq<Move>, i: nat, visited: map<State, nat>,
               ghost expanded: set<State>, heap0: multiset<Entry>, ghost wit0: map<Entry, seq<Move>>, ghost route: seq<Move>)
    returns (heap: multiset<Entry>, ghost wit: map<Entry, seq<Move>>)
    requires i < |moves| && CoversPrefix(heap0, visited, expanded, x, moves, i)
    requires Wf(init) && Wf(x) && forall m :: m in moves ==> m in MovesSpec(x)
    requires x in visited && visited[x] == cost && Ends(init, route, x, cost)
    requires HeapSound(init, heap0, wit0) && Shape(init, heap0, visited, expanded)
    requires forall u :: u in visited ==> visited[u] < U64_MAX
    ensures heap0 <= heap && HeapSound(init, heap, wit) && Shape(init, heap, visited, expanded)
    ensures CoversPrefix(heap, visited, expanded, x, moves, i + 1)
  {
    var m := moves[i];
    assert m in moves;
    var next := Succ(x, m);
    var board, energy := Apply(x, m);
    var bound := if board in visited then visited[board] else U64_MAX;
    if cost + energy < bound {
      var entry := Entry(cost + energy, board);
      WalkAppend(init, route, m);
      PushSound(init, heap0, wit0, entry, route + [m]);
      heap := heap0 + multiset{entry};
      wit := wit0[entry := route + [m]];
      ShapeGrows(init, heap0, heap, visited, expanded);
      NewMoveCovered(init, heap, visited, expanded, x, cost, m, board, energy, true);
    } else {
      heap, wit := heap0, wit0;
      NewMoveCovered(init, heap, visited, expanded, x, cost, m, board, energy, false);
    }
    CoversPrefixGrow(heap0, heap, visited, expanded, x, moves, i);
  }

  /** Pushing an entry with a recorded path keeps the heap sound. */
  lemma PushSound(init: State, heap: multiset<Entry>, wit: map<Entry, seq<Move>>, entry: Entry, path: seq<Move>)
    requires Wf(init) && HeapSound(init, heap, wit)
    requires Ends(init, path, entry.state, entry.cost) && entry.cost < U64_MAX
    ensures HeapSound(init, heap + multiset{entry}, wit[entry := path])
  {
    forall f | f in heap + multiset{entry}
      ensures f in wit[entry := path] && Ends(init, wit[entry := path][f], f.state, f.cost) && f.cost < U64_MAX
    {
      if f != entry {
        assert f in heap;
      }
    }
  }

  /** After the offer of move `m` out of `x`, the move is covered: either the heap
      got the successor at the energy through `x`, or the table already held no more. */
  lemma NewMoveCovered(init: State, heap: multiset<Entry>, visited: map<State, nat>, expanded: set<State>,
                       x: State, cost: nat, m: Move, board: State, energy: nat, pushed: bool)
    requires Wf(x) && x in visited && visited[x] == cost && m in MovesSpec(x)
    requires board == Succ(x, m).0 && energy == Succ(x, m).1
    requires Shape(init, heap, visited, expanded)
    requires if pushed then Entry(cost + energy, board) in heap
             else cost + energy >= (if board in visited then visited[board] else U64_MAX)
    ensures CoveredMove(heap, visited, expanded, x, m)
  {
    if cost + energy < U64_MAX && board !in expanded && !pushed {
      if board in visited {
        assert board == init && Entry(0, init) in heap;
      }
    }
  }

  lemma ShapeGrows(init: State, heap: multiset<Entry>, more: multiset<Entry>, visited: map<State, nat>, expanded: set<State>)
    requires heap <= more && Shape(init, heap, visited, expanded)
    ensures Shape(init, more, visited, expanded)
  {
    assert init !in expanded ==> Entry(0, init) in more;
  }

  /** Offers each of `moves`, the generated moves of `x` (the inner loop of `organizing_cost`). */
  method Expand(ghost init: State, x: State, cost: nat, moves: seq<Move>, visited: map<State, nat>, ghost expanded: set<State>,
                heap0: multiset<Entry>, ghost wit0: map<Entry, seq<Move>>, ghost route: seq<Move>)
    returns (heap: multiset<Entry>, ghost wit: map<Entry, seq<Move>>)
    requires Wf(init) && Wf(x) && x in visited && visited[x] == cost && Ends(init, route, x, cost)
    requires forall m :: m in moves ==> m in MovesSpec(x)
    requires HeapSound(init, heap0, wit0) && Shape(init, heap0, visited, expanded)
    requires forall u :: u in visited ==> visited[u] < U64_MAX
    ensures heap0 <= heap
    ensures HeapSound(init, heap, wit) && Shape(init, heap, visited, expanded)
    ensures forall m :: m in moves ==> CoveredMove(heap, visited, expanded, x, m)
  {
    heap, wit := heap0, wit0;
    for i := 0 to |moves|
      invariant heap0 <= heap
      invariant HeapSound(init, heap, wit) && Shape(init, heap, visited, expanded)
      invariant CoversPrefix(heap, visited, expanded, x, moves, i)
    {
      heap, wit := Offer(init, x, cost, moves, i, visited, expanded, heap, wit, route);
    }
    CoversPrefixEach(heap, visited, expanded, x, moves, |moves|);
    assert moves[..|moves|] == moves;
  }

  /**
   * The search of `organizing_cost`: Dijkstra over boards with lazy deletion.
   * A reported energy is achieved by some sequence of generated moves and is
   * the least such energy below the u64 ceiling; an exhausted heap means no
   * sequence of moves finishes below that ceiling. `fuel` bounds the number of
   * heap pops.
   */
  method OrganizingCost(init: State, fuel: nat) returns (r: Outcome)
    requires Wf(init)
    ensures r.Reached? ==> exists path :: Solves(init, path, r.cost)
    ensures r.Reached? ==> forall path, c: nat :: Solves(init, path, c) && c < U64_MAX ==> r.cost <= c
    ensures r.Exhausted? ==> forall path, c: nat :: Solves(init, path, c) ==> c >= U64_MAX
  {
    var heap := multiset{Entry(0, init)};
    var visited: map<State, nat> := map[init := 0];
    ghost var expanded: set<State> := {};
    ghost var wit := map[Entry(0, init) := []];
    ghost var vpath := map[init := []];
    InitInv(init);
    var steps := fuel;
    while heap != multiset{}
      invariant Inv(init, heap, visited, expanded, wit, vpath)
      decreases steps
    {
      if steps == 0 {
        return OutOfFuel;
      }
      steps := steps - 1;
      var e, rest := PopMin(heap);
      var cost, state := e.cost, e.state;
      if state in visited && visited[state] < cost {
        SkipKeepsInv(init, heap, visited, expanded, wit, vpath, e);
        heap := rest;
        continue;
      }
      if IsComplete(state) {
        assert Solves(init, wit[e], cost);
        forall path, c: nat | Solves(init, path, c) && c < U64_MAX ensures cost <= c {
          LeastBeatsFrontier(init, heap, visited, expanded, wit, vpath, e, path);
        }
        return Reached(cost);
      }
      PopKeepsInv(init, heap, visited, expanded, wit, vpath, e);
      ghost var route := wit[e];
      visited := visited[state := cost];
      expanded := expanded + {state};
      vpath := vpath[state := route];
      var moves := NextMoves(state);
      heap, wit := Expand(init, state, cost, moves, visited, expanded, rest, wit, route);
      forall u, m | u in expanded && m in MovesSpec(u)
        ensures CoveredMove(heap, visited, expanded, u, m)
      {
        if u != state {
          CoveredGrow(rest, heap, visited, expanded, u, m);
        }
      }
    }
    forall path, c: nat | Solves(init, path, c) ensures c >= U64_MAX {
      if c < U64_MAX {
        Frontier(init, heap, visited, expanded, wit, vpath, path);
      }
    }
    return Exhausted;
  }
}
