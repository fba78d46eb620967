/**
 * What the moves of the day 23 generator are, stated without reference to the
 * order in which it produces them: a generated move is exactly a legal entry
 * into an amphipod's own room or a legal exit from the top of a room, and
 * performing one keeps the board well formed.
 */
module Day23Moves {
  import opened Common
  import opened Day23

  /**
   * A legal hallway-to-room move: the amphipod on hallway cell `m.src` walks
   * along a clear corridor to the deepest free slot of its own room, which
   * holds no amphipod of another kind.
   */
  predicate EnterLegal(s: State, m: Move)
    requires Cells(s)
  {
    EntryRoute(s, m) && EntryTarget(s, m)
  }

  /** The amphipod on hallway cell `m.src` has a clear corridor to its own room, which holds no other kind. */
  predicate EntryRoute(s: State, m: Move)
    requires Cells(s)
  {
    m.src < 11 && s.data[m.src] > 0 &&
    var room := s.data[m.src] - 1;
    PathClearExcept(s, Min(m.src, Entrance(room)), Max(m.src, Entrance(room)), m.src) &&
    RoomReady(Room(s, room), s.data[m.src])
  }

  /** `m.dst` is the deepest free slot of the own room of the amphipod on `m.src`, reached in `m.steps` steps. */
  predicate EntryTarget(s: State, m: Move)
    requires Cells(s) && m.src < 11 && s.data[m.src] > 0
  {
    var d := Depth(|s.data|);
    var room := s.data[m.src] - 1;
    var lo, hi := Min(m.src, Entrance(room)), Max(m.src, Entrance(room));
    var top := Slot(d, room, 0);
    top <= m.dst < top + d && m.dst < |s.data| && s.data[m.dst] == 0 &&
    (m.dst + 1 == top + d || (m.dst + 1 < |s.data| && s.data[m.dst + 1] > 0)) &&
    m.steps == hi - lo + 1 + (m.dst - top)
  }

  /**
   * A legal room-to-hallway move out of room `r`: the topmost amphipod of the
   * room walks along a clear corridor to a hallway stop, and does not stop on
   * the stretch between its room and its own room more than one cell away
   * from its room's entrance.
   */
  predicate ExitLegal(s: State, r: nat, m: Move)
    requires Cells(s)
  {
    var d := Depth(|s.data|);
    var top := Slot(d, r, 0);
    r < 4 && top <= m.src < top + d && m.src < |s.data| && s.data[m.src] > 0 &&
    (forall q :: top <= q < m.src ==> s.data[q] == 0) &&
    m.dst in HALLWAY_STOPS &&
    var pod := s.data[m.src];
    var dlo, dhi := Min(Entrance(r), Entrance(pod - 1)), Max(Entrance(r), Entrance(pod - 1));
    var lo, hi := Min(m.dst, Entrance(r)), Max(m.dst, Entrance(r));
    !(dlo <= m.dst <= dhi && hi - lo + 1 > 2) && PathClear(s, lo, hi) &&
    m.steps == hi - lo + 1 + (m.src - top)
  }

  /** A legal move of either kind. */
  predicate Legal(s: State, m: Move)
    requires Cells(s)
  {
    (m.src in HALLWAY_STOPS && EnterLegal(s, m)) || (exists r :: 0 <= r < 4 && ExitLegal(s, r, m))
  }

  /** The generator proposes a move for hallway cell `h` exactly when it is a legal entry from `h`. */
  lemma EnterIff(s: State, h: nat, m: Move)
    requires Wf(s) && h < 11
    ensures m in HallwayMove(s, h) <==> m.src == h && EnterLegal(s, m)
  {
    if m in HallwayMove(s, h) {
      EnterSound(s, h);
    }
    if m.src == h && EnterLegal(s, m) {
      EnterComplete(s, m);
    }
  }

  /** A proposed entry is legal. */
  lemma EnterSound(s: State, h: nat)
    requires Wf(s) && h < 11 && HallwayMove(s, h) != []
    ensures HallwayMove(s, h)[0].src == h && EnterLegal(s, HallwayMove(s, h)[0])
  {
    RouteProposed(s, h);
    TargetProposed(s, h);
  }

  /** A proposed entry starts from `h` along a clear corridor into a ready room. */
  lemma RouteProposed(s: State, h: nat)
    requires Wf(s) && h < 11 && HallwayMove(s, h) != []
    ensures HallwayMove(s, h)[0].src == h && EntryRoute(s, HallwayMove(s, h)[0])
  {
  }

  /** A proposed entry ends on the deepest free slot of the room. */
  lemma TargetProposed(s: State, h: nat)
    requires Wf(s) && h < 11 && HallwayMove(s, h) != []
    ensures HallwayMove(s, h)[0].src == h && s.data[h] > 0
    ensures EntryTarget(s, HallwayMove(s, h)[0])
  {
    var mv := HallwayMove(s, h)[0];
    RoomHasSpace(s, h);
    TargetAtDepth(s, mv, mv.dst - Slot(Depth(|s.data|), s.data[h] - 1, 0));
  }

  /** The entry to the slot above the topmost amphipod of the room (or its bottom slot) ends on its deepest free slot. */
  lemma TargetAtDepth(s: State, m: Move, depth: nat)
    requires Cells(s) && m.src < 11 && s.data[m.src] > 0
    requires depth + 1 == match FirstOccupied(Room(s, s.data[m.src] - 1)) case Some(p) => p case None => Depth(|s.data|)
    requires m.dst == Slot(Depth(|s.data|), s.data[m.src] - 1, 0) + depth
    requires m.steps == Max(m.src, Entrance(s.data[m.src] - 1)) - Min(m.src, Entrance(s.data[m.src] - 1)) + 1 + depth
    ensures EntryTarget(s, m)
  {
    AboveTopmost(s, s.data[m.src] - 1, depth);
  }

  /** The slot just above the topmost amphipod of a room (or its bottom slot) is free, and the one below it is not. */
  lemma AboveTopmost(s: State, room: nat, depth: nat)
    requires Cells(s) && room < 4
    requires depth + 1 == match FirstOccupied(Room(s, room)) case Some(p) => p case None => Depth(|s.data|)
    ensures Slot(Depth(|s.data|), room, 0) + Depth(|s.data|) <= |s.data|
    ensures s.data[Slot(Depth(|s.data|), room, 0) + depth] == 0
    ensures depth + 1 == Depth(|s.data|) || s.data[Slot(Depth(|s.data|), room, 0) + depth + 1] > 0
  {
    var d := Depth(|s.data|);
    var rm := Room(s, room);
    SlotBelowEnd(d, room + 1, 0);
    assert rm[depth] == s.data[Slot(d, room, 0) + depth];
    if depth + 1 < d {
      assert rm[depth + 1] == s.data[Slot(d, room, 0) + depth + 1];
    }
  }

  /** In a settled room, a free slot directly above an amphipod (or at the bottom) lies just above the topmost one. */
  lemma DeepestFree(rm: seq<int>, depth: nat)
    requires Settled(rm) && depth < |rm| && rm[depth] == 0
    requires depth + 1 == |rm| || rm[depth + 1] > 0
    ensures FirstOccupied(rm) == if depth + 1 == |rm| then None else Some(depth + 1)
  {
    match FirstOccupied(rm)
    case Some(p) =>
      assert rm[p] > 0;
      assert p == depth + 1;
    case None =>
  }

  /** A legal entry is proposed: the deepest free slot is the one above the topmost amphipod. */
  lemma EnterComplete(s: State, m: Move)
    requires Wf(s) && EnterLegal(s, m)
    ensures HallwayMove(s, m.src) == [m]
  {
    EnterDepth(s, m);
    EntryProposed(s, m);
  }

  /** The target of a legal entry lies just above the topmost amphipod of the room (or at its bottom). */
  lemma EnterDepth(s: State, m: Move)
    requires Wf(s) && EnterLegal(s, m)
    ensures m.dst + 1 - Slot(Depth(|s.data|), s.data[m.src] - 1, 0)
         == match FirstOccupied(Room(s, s.data[m.src] - 1)) case Some(p) => p case None => Depth(|s.data|)
  {
    var room := s.data[m.src] - 1;
    FreeAboveTopmost(s, room, m.dst - Slot(Depth(|s.data|), room, 0));
  }

  /** A free slot of a settled room with an amphipod (or the bottom) just below it lies above the topmost amphipod. */
  lemma FreeAboveTopmost(s: State, room: nat, depth: nat)
    requires |s.data| >= 11 && room < 4 && Settled(Room(s, room))
    requires depth < Depth(|s.data|) && Slot(Depth(|s.data|), room, 0) + depth < |s.data|
    requires s.data[Slot(Depth(|s.data|), room, 0) + depth] == 0
    requires depth + 1 == Depth(|s.data|) || (Slot(Depth(|s.data|), room, 0) + depth + 1 < |s.data| && s.data[Slot(Depth(|s.data|), room, 0) + depth + 1] > 0)
    ensures depth + 1 == match FirstOccupied(Room(s, room)) case Some(p) => p case None => Depth(|s.data|)
  {
    var d := Depth(|s.data|);
    var rm := Room(s, room);
    assert rm[depth] == s.data[Slot(d, room, 0) + depth];
    if depth + 1 < d {
      assert rm[depth + 1] == s.data[Slot(d, room, 0) + depth + 1];
    }
    DeepestFree(rm, depth);
  }

  /** The entry proposed from `h` once the path and the room are known to be ready. */
  lemma EntryProposed(s: State, m: Move)
    requires Wf(s) && EnterLegal(s, m)
    requires m.dst + 1 - Slot(Depth(|s.data|), s.data[m.src] - 1, 0)
          == match FirstOccupied(Room(s, s.data[m.src] - 1)) case Some(p) => p case None => Depth(|s.data|)
    ensures |HallwayMove(s, m.src)| == 1
    ensures HallwayMove(s, m.src)[0] == m
  {
  }

  /** The generator proposes a move of the top amphipod `p` of room `r` to `h` exactly when it is a legal exit to `h`. */
  lemma ExitIff(s: State, r: nat, p: nat, h: nat, m: Move)
    requires Cells(s) && r < 4 && h in HALLWAY_STOPS && FirstOccupied(Room(s, r)) == Some(p)
    ensures Occupied(s, r, p)
    ensures m in RoomExit(s, r, p, h) <==> m.dst == h && ExitLegal(s, r, m)
  {
    TopOccupied(s, r, p);
    if m in RoomExit(s, r, p, h) {
      ExitSound(s, r, p, h);
    }
    if m.dst == h && ExitLegal(s, r, m) {
      ExitComplete(s, r, p, m);
    }
  }

  /** The topmost occupied slot of a room is occupied, and every slot above it is empty. */
  lemma TopOccupied(s: State, r: nat, p: nat)
    requires Cells(s) && r < 4 && FirstOccupied(Room(s, r)) == Some(p)
    ensures Occupied(s, r, p)
    ensures forall q :: Slot(Depth(|s.data|), r, 0) <= q < Slot(Depth(|s.data|), r, p) ==> s.data[q] == 0
  {
    var d := Depth(|s.data|);
    var top := Slot(d, r, 0);
    var rm := Room(s, r);
    SlotBelowEnd(d, r + 1, 0);
    assert rm[p] == s.data[top + p];
    forall q | top <= q < top + p ensures s.data[q] == 0 {
      assert rm[q - top] == s.data[q];
    }
  }

  /** A proposed exit is legal. */
  lemma ExitSound(s: State, r: nat, p: nat, h: nat)
    requires Cells(s) && r < 4 && h in HALLWAY_STOPS && FirstOccupied(Room(s, r)) == Some(p)
    requires Occupied(s, r, p) && RoomExit(s, r, p, h) != []
    ensures RoomExit(s, r, p, h)[0].dst == h && ExitLegal(s, r, RoomExit(s, r, p, h)[0])
  {
    TopOccupied(s, r, p);
  }

  /** A legal exit is proposed: its source can only be the topmost amphipod. */
  lemma ExitComplete(s: State, r: nat, p: nat, m: Move)
    requires Cells(s) && r < 4 && FirstOccupied(Room(s, r)) == Some(p) && ExitLegal(s, r, m)
    ensures Occupied(s, r, p)
    ensures RoomExit(s, r, p, m.dst) == [m]
  {
    TopOccupied(s, r, p);
    var d := Depth(|s.data|);
    var top := Slot(d, r, 0);
    var rm := Room(s, r);
    assert rm[m.src - top] == s.data[m.src];
    assert rm[p] == s.data[top + p];
    assert m.src - top == p;
  }

  /** The first `j` hallway stops contribute exactly the legal entries from those stops. */
  lemma {:induction false} InHallwayMovesUpTo(s: State, j: nat, m: Move)
    requires Wf(s) && j <= |HALLWAY_STOPS|
    ensures m in HallwayMovesUpTo(s, j) <==> m.src in HALLWAY_STOPS[..j] && EnterLegal(s, m)
  {
    if j > 0 {
      InHallwayMovesUpTo(s, j - 1, m);
      EnterIff(s, HALLWAY_STOPS[j - 1], m);
      assert HALLWAY_STOPS[..j] == HALLWAY_STOPS[..j - 1] + [HALLWAY_STOPS[j - 1]];
    }
  }

  /** The exits of the top amphipod of room `r` to the first `j` stops are exactly the legal ones. */
  lemma {:induction false} InRoomExitsUpTo(s: State, r: nat, p: nat, j: nat, m: Move)
    requires Cells(s) && r < 4 && j <= |HALLWAY_STOPS| && FirstOccupied(Room(s, r)) == Some(p)
    ensures Occupied(s, r, p)
    ensures m in RoomExitsUpTo(s, r, p, j) <==> m.dst in HALLWAY_STOPS[..j] && ExitLegal(s, r, m)
  {
    TopOccupied(s, r, p);
    if j > 0 {
      InRoomExitsUpTo(s, r, p, j - 1, m);
      ExitIff(s, r, p, HALLWAY_STOPS[j - 1], m);
      assert HALLWAY_STOPS[..j] == HALLWAY_STOPS[..j - 1] + [HALLWAY_STOPS[j - 1]];
    }
  }

  /** The moves out of room `r` are exactly its legal exits. */
  lemma InRoomMoves(s: State, r: nat, m: Move)
    requires Cells(s) && r < 4
    ensures m in RoomMoves(s, r) <==> ExitLegal(s, r, m)
  {
    var d := Depth(|s.data|);
    var top := Slot(d, r, 0);
    var rm := Room(s, r);
    match FirstOccupied(rm)
    case Some(p) =>
      InRoomExitsUpTo(s, r, p, |HALLWAY_STOPS|, m);
      assert HALLWAY_STOPS[..|HALLWAY_STOPS|] == HALLWAY_STOPS;
    case None =>
      SlotBelowEnd(d, r + 1, 0);
      assert forall q :: top <= q < top + d ==> s.data[q] <= 0 by {
        forall q | top <= q < top + d ensures s.data[q] <= 0 {
          assert rm[q - top] == s.data[q];
        }
      }
  }

  /** The first `k` rooms contribute exactly the legal exits from those rooms. */
  lemma InRoomMovesUpTo(s: State, k: nat, m: Move)
    requires Cells(s) && k <= 4
    ensures m in RoomMovesUpTo(s, k) <==> exists r :: 0 <= r < k && ExitLegal(s, r, m)
  {
    if m in RoomMovesUpTo(s, k) {
      var r := RoomMovesUpToSound(s, k, m);
    }
    if exists r :: 0 <= r < k && ExitLegal(s, r, m) {
      var r :| 0 <= r < k && ExitLegal(s, r, m);
      RoomMovesUpToComplete(s, k, r, m);
    }
  }

  /** A move collected from the first `k` rooms is a legal exit from one of them, `r`. */
  lemma {:induction false} RoomMovesUpToSound(s: State, k: nat, m: Move) returns (r: nat)
    requires Cells(s) && k <= 4 && m in RoomMovesUpTo(s, k)
    ensures r < k && ExitLegal(s, r, m)
  {
    var before, last := RoomMovesUpTo(s, k - 1), RoomMoves(s, k - 1);
    assert RoomMovesUpTo(s, k) == before + last;
    if m in before {
      r := RoomMovesUpToSound(s, k - 1, m);
    } else {
      assert m in last;
      InRoomMoves(s, k - 1, m);
      r := k - 1;
    }
  }

  /** A legal exit from one of the first `k` rooms is collected. */
  lemma {:induction false} RoomMovesUpToComplete(s: State, k: nat, r: nat, m: Move)
    requires Cells(s) && r < k <= 4 && ExitLegal(s, r, m)
    ensures m in RoomMovesUpTo(s, k)
  {
    var before, last := RoomMovesUpTo(s, k - 1), RoomMoves(s, k - 1);
    if r < k - 1 {
      RoomMovesUpToComplete(s, k - 1, r, m);
      assert m in before;
    } else {
      InRoomMoves(s, k - 1, m);
      assert m in last;
    }
    assert RoomMovesUpTo(s, k) == before + last;
  }

  /** The generator's moves are exactly the legal moves (in some order). */
  lemma MovesSpecIff(s: State, m: Move)
    requires Wf(s)
    ensures m in MovesSpec(s) <==> Legal(s, m)
  {
    InHallwayMovesUpTo(s, |HALLWAY_STOPS|, m);
    InRoomMovesUpTo(s, 4, m);
    assert HALLWAY_STOPS[..|HALLWAY_STOPS|] == HALLWAY_STOPS;
  }

  // ---------------------------------------------------------------- performing a legal move

  /** A slot of room `r1` lies inside the slot range of room `r2` only when the rooms coincide. */
  lemma SlotOwner(d: nat, r1: nat, i1: nat, r2: nat)
    requires i1 < d
    ensures Slot(d, r2, 0) <= Slot(d, r1, i1) < Slot(d, r2, 0) + d ==> r1 == r2
  {
    if Slot(d, r2, 0) <= Slot(d, r1, i1) < Slot(d, r2, 0) + d {
      SlotInjective(d, r2, Slot(d, r1, i1) - Slot(d, r2, 0), r1, i1);
    }
  }

  /** Writing `v` into cell `c` changes room `r` only at the slot `c` is, if it is one of the room's. */
  lemma WriteRoom(s: State, c: nat, v: int, r: nat)
    requires |s.data| >= 11 && c < |s.data| && r < 4
    ensures var top := Slot(Depth(|s.data|), r, 0);
      Room(State(s.data[c := v]), r) ==
        if top <= c < top + Depth(|s.data|) then Room(s, r)[c - top := v] else Room(s, r)
  {
    var d := Depth(|s.data|);
    var top := Slot(d, r, 0);
    var t := State(s.data[c := v]);
    var after := Room(t, r);
    var expected := if top <= c < top + d then Room(s, r)[c - top := v] else Room(s, r);
    forall i | 0 <= i < d ensures after[i] == expected[i] {
      assert after[i] == t.data[top + i];
      assert Room(s, r)[i] == s.data[top + i];
    }
    assert after == expected;
  }

  /** Filling the free slot just above the topmost amphipod keeps a room settled. */
  lemma SettledFill(rm: seq<int>, depth: nat, pod: int)
    requires Settled(rm) && depth < |rm| && rm[depth] == 0 && pod > 0
    requires depth + 1 == |rm| || rm[depth + 1] > 0
    ensures Settled(rm[depth := pod])
  {
    var after := rm[depth := pod];
    forall i, j | 0 <= i < j < |after| && after[i] > 0 ensures after[j] > 0 {
      if i == depth {
        assert rm[depth + 1] > 0;
      }
    }
  }

  /** Emptying the topmost occupied slot keeps a room settled. */
  lemma SettledTake(rm: seq<int>, p: nat)
    requires Settled(rm) && p < |rm| && forall q :: 0 <= q < p ==> rm[q] <= 0
    ensures Settled(rm[p := 0])
  {
  }

  /** The cells a legal move touches: an amphipod of kind 1..4 leaves its cell for an empty one. */
  lemma LegalBounds(s: State, m: Move)
    requires Wf(s) && Legal(s, m)
    ensures m.src < |s.data| && m.dst < |s.data| && m.src != m.dst
    ensures 1 <= s.data[m.src] <= 4 && s.data[m.dst] == 0
  {
    if !(m.src in HALLWAY_STOPS && EnterLegal(s, m)) {
      var r :| 0 <= r < 4 && ExitLegal(s, r, m);
      MulMono(0, r, Depth(|s.data|));
    } else {
      MulMono(0, s.data[m.src] - 1, Depth(|s.data|));
    }
  }

  /** The board after an amphipod of kind `pod` leaves cell `src`, now empty, for cell `dst`. */
  function Relocated(s: State, src: nat, dst: nat, pod: int): State
    requires src < |s.data| && dst < |s.data|
  {
    State(s.data[src := 0][dst := pod])
  }

  /** Filling the deepest free slot `depth` of a settled room keeps it settled. */
  lemma FillKeepsSettled(s: State, room: nat, depth: nat, pod: int)
    requires |s.data| >= 11 && room < 4 && depth < Depth(|s.data|) && pod > 0
    requires Settled(Room(s, room))
    requires s.data[Slot(Depth(|s.data|), room, depth)] == 0
    requires depth + 1 == Depth(|s.data|) || s.data[Slot(Depth(|s.data|), room, depth + 1)] > 0
    ensures Settled(Room(s, room)[depth := pod])
  {
    var rm := Room(s, room);
    assert rm[depth] == 0;
    if depth + 1 < |rm| {
      assert rm[depth + 1] > 0;
    }
    SettledFill(rm, depth, pod);
  }

  /** Emptying the topmost occupied slot `p` of a settled room keeps it settled. */
  lemma TakeKeepsSettled(s: State, room: nat, p: nat)
    requires |s.data| >= 11 && room < 4 && p < Depth(|s.data|)
    requires Settled(Room(s, room))
    requires forall q :: Slot(Depth(|s.data|), room, 0) <= q < Slot(Depth(|s.data|), room, p) ==> s.data[q] == 0
    ensures Settled(Room(s, room)[p := 0])
  {
    var d := Depth(|s.data|);
    var rm := Room(s, room);
    forall q | 0 <= q < p ensures rm[q] <= 0 {
      assert rm[q] == s.data[Slot(d, room, 0) + q];
    }
    SettledTake(rm, p);
  }

  /**
   * Entering a room keeps every settled room settled: an amphipod of kind `pod`
   * leaves hallway cell `src` for the deepest free slot `dst` of room `room`.
   */
  lemma EnterKeepsSettled(s: State, src: nat, room: nat, dst: nat, pod: int, r: nat)
    requires |s.data| >= 11 && src < 11 && room < 4 && pod > 0 && r < 4
    requires var top := Slot(Depth(|s.data|), room, 0);
      top <= dst < top + Depth(|s.data|) && dst < |s.data| && s.data[dst] == 0 &&
      (dst + 1 == top + Depth(|s.data|) || (dst + 1 < |s.data| && s.data[dst + 1] > 0))
    requires Settled(Room(s, r))
    ensures Settled(Room(Relocated(s, src, dst, pod), r))
  {
    var d := Depth(|s.data|);
    var depth := dst - Slot(d, room, 0);
    var mid := State(s.data[src := 0]);
    var t := Relocated(s, src, dst, pod);
    assert t == State(mid.data[dst := pod]);
    assert Room(mid, r) == Room(s, r) by {
      MulMono(0, r, d);
      WriteRoom(s, src, 0, r);
    }
    if r == room {
      assert Room(t, r) == Room(s, r)[depth := pod] by {
        WriteRoom(mid, dst, pod, r);
      }
      assert Slot(d, room, depth) == dst;
      FillKeepsSettled(s, room, depth, pod);
    } else {
      assert Room(t, r) == Room(mid, r) by {
        WriteRoom(mid, dst, pod, r);
        SlotOwner(d, room, depth, r);
      }
    }
  }

  /**
   * Leaving a room keeps every settled room settled: the topmost amphipod, in
   * slot `p` of room `room`, leaves for hallway cell `dst`.
   */
  lemma ExitKeepsSettled(s: State, room: nat, p: nat, dst: nat, r: nat)
    requires |s.data| >= 11 && dst < 11 && room < 4 && p < Depth(|s.data|) && r < 4
    requires forall q :: Slot(Depth(|s.data|), room, 0) <= q < Slot(Depth(|s.data|), room, p) ==> s.data[q] == 0
    requires Settled(Room(s, r))
    ensures Slot(Depth(|s.data|), room, p) < |s.data|
    ensures var src := Slot(Depth(|s.data|), room, p);
      Settled(Room(Relocated(s, src, dst, s.data[src]), r))
  {
    var d := Depth(|s.data|);
    var src := Slot(d, room, p);
    SlotBelowEnd(d, room, p);
    var mid := State(s.data[src := 0]);
    var t := Relocated(s, src, dst, s.data[src]);
    assert t == State(mid.data[dst := s.data[src]]);
    assert Room(t, r) == Room(mid, r) by {
      MulMono(0, r, d);
      WriteRoom(mid, dst, s.data[src], r);
    }
    if r == room {
      assert Room(mid, r) == Room(s, r)[p := 0] by {
        WriteRoom(s, src, 0, r);
      }
      TakeKeepsSettled(s, room, p);
    } else {
      assert Room(mid, r) == Room(s, r) by {
        WriteRoom(s, src, 0, r);
        SlotOwner(d, room, p, r);
      }
    }
  }

  /** A legal entry keeps all rooms settled. */
  lemma EnterKeepsRooms(s: State, m: Move)
    requires Cells(s) && EnterLegal(s, m) && forall r :: 0 <= r < 4 ==> Settled(Room(s, r))
    ensures forall r :: 0 <= r < 4 ==> Settled(Room(Relocated(s, m.src, m.dst, s.data[m.src]), r))
  {
    forall r | 0 <= r < 4 ensures Settled(Room(Relocated(s, m.src, m.dst, s.data[m.src]), r)) {
      EnterKeepsSettled(s, m.src, s.data[m.src] - 1, m.dst, s.data[m.src], r);
    }
  }

  /** A legal exit keeps all rooms settled. */
  lemma ExitKeepsRooms(s: State, m: Move, r0: nat)
    requires Cells(s) && r0 < 4 && ExitLegal(s, r0, m) && forall r :: 0 <= r < 4 ==> Settled(Room(s, r))
    ensures m.src < |s.data| && m.dst < |s.data|
    ensures forall r :: 0 <= r < 4 ==> Settled(Room(Relocated(s, m.src, m.dst, s.data[m.src]), r))
  {
    var d := Depth(|s.data|);
    var p := m.src - Slot(d, r0, 0);
    assert Slot(d, r0, p) == m.src;
    assert m.dst < 11;
    forall r | 0 <= r < 4 ensures Settled(Room(Relocated(s, m.src, m.dst, s.data[m.src]), r)) {
      ExitKeepsSettled(s, r0, p, m.dst, r);
    }
  }

  /** Performing a legal move keeps the board well formed. */
  lemma StepPreservesWf(s: State, m: Move)
    requires Wf(s) && Legal(s, m)
    ensures m.src < |s.data| && m.dst < |s.data| && 1 <= s.data[m.src] <= 4
    ensures Wf(Step(s, m).0)
  {
    LegalBounds(s, m);
    var t := Relocated(s, m.src, m.dst, s.data[m.src]);
    assert Step(s, m).0 == t;
    assert multiset(t.data) == multiset(s.data);
    if m.src in HALLWAY_STOPS && EnterLegal(s, m) {
      EnterKeepsRooms(s, m);
    } else {
      var r0 :| 0 <= r0 < 4 && ExitLegal(s, r0, m);
      ExitKeepsRooms(s, m, r0);
    }
  }
}
