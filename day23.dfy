/**
 * The amphipod burrow of day 23: a board of N cells, 11 hallway cells followed
 * by four rooms of depth D = (N - 11) / 4 stored room by room.  A cell holds 0
 * when empty and 1..4 for an amphipod of kind A..D.
 */
module Day23 {
  import opened Common

  datatype State = State(data: seq<int>)

  /** A move of the amphipod in `src` to `dst`, walking `steps` cells. */
  datatype Move = Move(src: nat, dst: nat, steps: nat)

  /** A cell of the 11-cell hallway. */
  type HallwayCell = c: nat | c < 11

  /** Hallway cells an amphipod may stop on (the cells above the rooms are excluded). */
  const HALLWAY_STOPS: seq<HallwayCell> := [0, 1, 3, 5, 7, 9, 10]

  /** Energy per step for kinds A, B, C, D. */
  const COSTS: seq<nat> := [1, 10, 100, 1000]

  const U64_MAX: nat := 0xFFFF_FFFF_FFFF_FFFF

  function Depth(n: nat): nat
    requires n >= 11
  {
    (n - 11) / 4
  }

  /** Index of slot `i` (0 = top) of room `room` when rooms have depth `d`. */
  function Slot(d: nat, room: nat, i: nat): nat
  {
    11 + room * d + i
  }

  /** Hallway cell just above room `room`. */
  function Entrance(room: nat): nat
  {
    2 + 2 * room
  }

  function Room(s: State, room: nat): (r: seq<int>)
    requires |s.data| >= 11 && room < 4
    ensures |r| == Depth(|s.data|)
    ensures forall i :: 0 <= i < |r| ==> r[i] == s.data[Slot(Depth(|s.data|), room, i)]
  {
    var d := Depth(|s.data|);
    assert 11 + 4 * d <= |s.data|;
    SlotBelowEnd(d, room + 1, 0);
    NextRoom(d, room);
    s.data[Slot(d, room, 0)..Slot(d, room + 1, 0)]
  }

  /** Room room + 1 starts d cells after room room. */
  lemma NextRoom(d: nat, room: nat)
    ensures Slot(d, room + 1, 0) == Slot(d, room, 0) + d
  {
  }

  lemma SlotBelowEnd(d: nat, room: nat, i: nat)
    requires (room < 4 && i < d) || (room <= 4 && i == 0)
    ensures Slot(d, room, i) <= 11 + 4 * d
    ensures room < 4 && i < d ==> Slot(d, room, i) < 11 + 4 * d
  {
    assert room * d <= 4 * d - (if i == 0 && room == 4 then 0 else d) by {
      if room < 4 {
        assert (4 - room) * d >= d by { assert 4 - room >= 1; }
      }
    }
  }

  /** Two slots of rooms of depth `d` coincide only when room and slot coincide. */
  lemma SlotInjective(d: nat, r1: nat, i1: nat, r2: nat, i2: nat)
    requires i1 < d && i2 < d && Slot(d, r1, i1) == Slot(d, r2, i2)
    ensures r1 == r2 && i1 == i2
  {
    if r1 < r2 {
      MulMono(r1 + 1, r2, d);
      assert false;
    } else if r2 < r1 {
      MulMono(r2 + 1, r1, d);
      assert false;
    }
  }

  lemma MulMono(a: nat, b: nat, d: nat)
    requires a <= b
    ensures a * d <= b * d
  {
    assert b * d == a * d + (b - a) * d;
  }

  // ---------------------------------------------------------------- parsing

  /** The kinds (1..4) of the letters A..D of `text`, in order. */
  function Letters(text: string): (r: seq<int>)
    ensures |r| <= |text|
    ensures forall k :: 0 <= k < |r| ==> 1 <= r[k] <= 4
  {
    if text == [] then []
    else
      var c := text[|text| - 1];
      var rest := Letters(text[..|text| - 1]);
      if 'A' <= c <= 'D' then rest + [c as int - 'A' as int + 1] else rest
  }

  /** The cell receiving the k-th letter of the input. */
  function LetterSlot(n: nat, k: nat): nat
    requires n >= 11
  {
    Slot(Depth(n), k % 4, k / 4)
  }

  /**
   * The board after writing `letters` one by one into their cells, starting from
   * all zeros (a letter whose cell lies beyond the board is not written; the
   * parser's callers never supply one).
   */
  function Placed(n: nat, letters: seq<int>): (r: seq<int>)
    requires n >= 11
    ensures |r| == n
  {
    if letters == [] then seq(n, _ => 0)
    else
      var board := Placed(n, letters[..|letters| - 1]);
      var cell := LetterSlot(n, |letters| - 1);
      if cell < n then board[cell := letters[|letters| - 1]] else board
  }

  lemma {:induction false} LettersPrefix(text: string, i: nat)
    requires i <= |text|
    ensures |Letters(text[..i])| <= |Letters(text)|
    ensures Letters(text[..i]) == Letters(text)[..|Letters(text[..i])|]
    decreases |text|
  {
    if i < |text| {
      var shorter := text[..|text| - 1];
      assert shorter[..i] == text[..i];
      LettersPrefix(shorter, i);
    } else {
      assert text[..i] == text;
    }
  }

  /**
   * Reading the burrow: the k-th letter A..D of the text is stored as its kind
   * at room k % 4, slot k / 4.
   */
  method ParseState(text: string, n: nat) returns (s: State)
    requires n >= 11
    requires forall k :: 0 <= k < |Letters(text)| ==> LetterSlot(n, k) < n
    ensures s.data == Placed(n, Letters(text))
  {
    var data := new int[n](_ => 0);
    var roomDepth := (n - 11) / 4;
    var letters := Letters(text);
    for idx := 0 to |letters|
      invariant data[..] == Placed(n, letters[..idx])
    {
      var kind := letters[idx];
      var cell := 11 + roomDepth * (idx % 4) + idx / 4;
      LetterCell(n, idx);
      PlacedAppend(n, letters[..idx], kind);
      assert letters[..idx + 1] == letters[..idx] + [kind];
      data[cell] := kind;
    }
    assert letters[..|letters|] == letters;
    s := State(data[..]);
  }

  /** The parser's cell arithmetic agrees with `LetterSlot`. */
  lemma LetterCell(n: nat, k: nat)
    requires n >= 11
    ensures 11 + ((n - 11) / 4) * (k % 4) + k / 4 == LetterSlot(n, k)
  {
    assert ((n - 11) / 4) * (k % 4) == (k % 4) * Depth(n);
  }

  lemma PlacedAppend(n: nat, letters: seq<int>, kind: int)
    requires n >= 11 && LetterSlot(n, |letters|) < n
    ensures Placed(n, letters + [kind]) == Placed(n, letters)[LetterSlot(n, |letters|) := kind]
  {
    assert (letters + [kind])[..|letters|] == letters;
  }

  /** The cell of the k-th letter lies in the rooms when k < 4·D. */
  lemma LetterSlotInRooms(n: nat, k: nat)
    requires n >= 11 && k < 4 * Depth(n)
    ensures 11 <= LetterSlot(n, k) < n
  {
    SlotBelowEnd(Depth(n), k % 4, k / 4);
  }

  /**
   * With at most 4·D letters every letter lands in its own cell: the k-th letter
   * is in room k % 4 at slot k / 4, and the hallway stays empty.
   */
  lemma {:induction false} PlacedCells(n: nat, letters: seq<int>)
    requires n >= 11 && |letters| <= 4 * Depth(n)
    ensures forall k :: 0 <= k < |letters| ==> LetterSlot(n, k) < n
    ensures forall k :: 0 <= k < |letters| ==> Placed(n, letters)[LetterSlot(n, k)] == letters[k]
    ensures forall i :: 0 <= i < 11 ==> Placed(n, letters)[i] == 0
  {
    forall k | 0 <= k < |letters| ensures 11 <= LetterSlot(n, k) < n {
      LetterSlotInRooms(n, k);
    }
    if letters != [] {
      var last := |letters| - 1;
      PlacedCells(n, letters[..last]);
      forall k | 0 <= k < last
        ensures Placed(n, letters)[LetterSlot(n, k)] == letters[k]
      {
        PlacedOthers(n, letters, k);
      }
    }
  }

  /** Writing the last letter leaves the cell of every earlier letter alone. */
  lemma PlacedOthers(n: nat, letters: seq<int>, k: nat)
    requires n >= 11 && |letters| <= 4 * Depth(n) && k < |letters| - 1
    requires forall q :: 0 <= q < |letters| ==> LetterSlot(n, q) < n
    ensures Placed(n, letters)[LetterSlot(n, k)] == Placed(n, letters[..|letters| - 1])[LetterSlot(n, k)]
  {
    var last := |letters| - 1;
    if LetterSlot(n, k) == LetterSlot(n, last) {
      SlotInjective(Depth(n), k % 4, k / 4, last % 4, last / 4);
      assert false;
    }
  }

  // ---------------------------------------------------------------- well-formed boards

  /** A room is settled when no occupied slot sits above an empty one. */
  predicate Settled(room: seq<int>)
  {
    forall i, j :: 0 <= i < j < |room| && room[i] > 0 ==> room[j] > 0
  }

  /** The board has a hallway and every cell is empty or holds one of the four kinds. */
  predicate Cells(s: State)
  {
    |s.data| >= 11 && forall i :: 0 <= i < |s.data| ==> 0 <= s.data[i] <= 4
  }

  /**
   * The boards the search visits: cells hold 0..4, rooms are settled, and no
   * kind has more amphipods than a room has slots.
   */
  predicate Wf(s: State)
  {
    Cells(s)
    && (forall r :: 0 <= r < 4 ==> Settled(Room(s, r)))
    && (forall k :: 1 <= k <= 4 ==> multiset(s.data)[k] <= Depth(|s.data|))
  }

  // ---------------------------------------------------------------- apply

  /** The board and the energy after performing move `m`: source and destination swap. */
  function Step(s: State, m: Move): (State, nat)
    requires m.src < |s.data| && m.dst < |s.data| && 1 <= s.data[m.src] <= 4
  {
    (State(s.data[m.src := s.data[m.dst]][m.dst := s.data[m.src]]), COSTS[s.data[m.src] - 1] * m.steps)
  }

  method Apply(s: State, m: Move) returns (t: State, cost: nat)
    requires m.src < |s.data| && m.dst < |s.data| && 1 <= s.data[m.src] <= 4
    ensures (t, cost) == Step(s, m)
    ensures |t.data| == |s.data| && t.data[m.src] == s.data[m.dst] && t.data[m.dst] == s.data[m.src]
    ensures forall i :: 0 <= i < |s.data| && i != m.src && i != m.dst ==> t.data[i] == s.data[i]
    ensures multiset(t.data) == multiset(s.data)
    ensures cost == COSTS[s.data[m.src] - 1] * m.steps
  {
    var data := new int[|s.data|](i requires 0 <= i < |s.data| => s.data[i]);
    data[m.src], data[m.dst] := data[m.dst], data[m.src];
    assert data[..] == s.data[m.src := s.data[m.dst]][m.dst := s.data[m.src]];
    t := State(data[..]);
    cost := COSTS[s.data[m.src] - 1] * m.steps;
  }

  // ---------------------------------------------------------------- goal

  predicate RoomHolds(room: seq<int>, kind: int)
  {
    forall i :: 0 <= i < |room| ==> room[i] == kind
  }

  /** Every room r holds only amphipods of kind r + 1. */
  predicate IsComplete(s: State)
    requires |s.data| >= 11
  {
    RoomHolds(Room(s, 0), 1) && RoomHolds(Room(s, 1), 2) && RoomHolds(Room(s, 2), 3) && RoomHolds(Room(s, 3), 4)
  }

  lemma IsCompleteIff(s: State)
    requires |s.data| >= 11
    ensures IsComplete(s) <==>
      forall r, i :: 0 <= r < 4 && 0 <= i < Depth(|s.data|) ==> s.data[Slot(Depth(|s.data|), r, i)] == r + 1
  {
    var d := Depth(|s.data|);
    if IsComplete(s) {
      forall r, i | 0 <= r < 4 && 0 <= i < d ensures s.data[Slot(d, r, i)] == r + 1 {
        assert Room(s, r)[i] == s.data[Slot(d, r, i)];
      }
    }
  }

  // ---------------------------------------------------------------- moves

  /** Position of the topmost occupied slot of a room. */
  function FirstOccupied(room: seq<int>): (r: Option<nat>)
    ensures r.Some? ==> r.value < |room| && room[r.value] > 0 && forall q :: 0 <= q < r.value ==> room[q] <= 0
    ensures r.None? ==> forall q :: 0 <= q < |room| ==> room[q] <= 0
  {
    FirstOccupiedFrom(room, 0)
  }

  function FirstOccupiedFrom(room: seq<int>, i: nat): (r: Option<nat>)
    requires i <= |room|
    ensures r.Some? ==> i <= r.value < |room| && room[r.value] > 0 && forall q :: i <= q < r.value ==> room[q] <= 0
    ensures r.None? ==> forall q :: i <= q < |room| ==> room[q] <= 0
    decreases |room| - i
  {
    if i == |room| then None
    else if room[i] > 0 then Some(i)
    else FirstOccupiedFrom(room, i + 1)
  }

  /** Every corridor cell in lo..hi other than `own` is empty. */
  predicate PathClearExcept(s: State, lo: nat, hi: nat, own: nat)
    requires hi < |s.data|
  {
    forall i :: lo <= i <= hi ==> i == own || s.data[i] == 0
  }

  /** Every corridor cell in lo..hi is empty. */
  predicate PathClear(s: State, lo: nat, hi: nat)
    requires hi < |s.data|
  {
    forall i :: lo <= i <= hi ==> s.data[i] == 0
  }

  /** The room holds nothing but empty slots and amphipods of kind `pod`. */
  predicate RoomReady(room: seq<int>, pod: int)
  {
    forall i :: 0 <= i < |room| ==> room[i] == 0 || room[i] == pod
  }

  lemma MultisetAllEqual(room: seq<int>, v: int)
    requires RoomHolds(room, v)
    ensures multiset(room)[v] == |room|
  {
    if room != [] {
      assert room == [room[0]] + room[1..];
      MultisetAllEqual(room[1..], v);
    }
  }

  /**
   * A hallway amphipod whose room is ready always finds a free slot there, so
   * the depth computed by the move generator never goes below zero.
   */
  lemma RoomHasSpace(s: State, h: nat)
    requires Wf(s) && h < 11 && s.data[h] > 0
    requires RoomReady(Room(s, s.data[h] - 1), s.data[h])
    ensures match FirstOccupied(Room(s, s.data[h] - 1))
      case Some(p) => p >= 1
      case None => Depth(|s.data|) >= 1
  {
    var k := s.data[h];
    var room := Room(s, k - 1);
    CountsOutsideRoom(s, h, k - 1);
    assert multiset(s.data)[k] <= |room|;
    match FirstOccupied(room)
    case Some(p) =>
      if p == 0 {
        assert Settled(room);
        assert RoomHolds(room, k);
        MultisetAllEqual(room, k);
        assert false;
      }
    case None =>
  }

  lemma CountsOutsideRoom(s: State, h: nat, r: nat)
    requires |s.data| >= 11 && h < 11 && r < 4
    ensures multiset(s.data)[s.data[h]] >= 1 + multiset(Room(s, r))[s.data[h]]
  {
    var d := Depth(|s.data|);
    var a, b := Slot(d, r, 0), Slot(d, r + 1, 0);
    SlotBelowEnd(d, r + 1, 0);
    var before, room, after := s.data[..a], Room(s, r), s.data[b..];
    assert s.data == before + room + after;
    assert s.data[h] in multiset(before) by {
      MulMono(0, r, d);
      assert h < a;
      assert before[h] == s.data[h];
    }
  }

  /** The move of the amphipod standing on hallway cell `h` into its own room, if it has one. */
  function HallwayMove(s: State, h: nat): seq<Move>
    requires Wf(s) && h < 11
  {
    var pod := s.data[h];
    if pod <= 0 then []
    else
      var room := pod - 1;
      var lo, hi := Min(h, Entrance(room)), Max(h, Entrance(room));
      if PathClearExcept(s, lo, hi, h) && RoomReady(Room(s, room), pod) then
        RoomHasSpace(s, h);
        var d := Depth(|s.data|);
        var depth := (match FirstOccupied(Room(s, room)) case Some(p) => p case None => d) - 1;
        [Move(h, Slot(d, room, 0) + depth, hi - lo + 1 + depth)]
      else []
  }

  /** Slot `p` of room `r` exists and is occupied. */
  predicate Occupied(s: State, r: nat, p: nat)
    requires |s.data| >= 11
  {
    var d := Depth(|s.data|);
    r < 4 && p < d && Slot(d, r, p) < |s.data| && s.data[Slot(d, r, p)] > 0
  }

  /** The move of the amphipod in slot `p` (the topmost one) of room `r` to hallway cell `h`, if allowed. */
  function RoomExit(s: State, r: nat, p: nat, h: nat): seq<Move>
    requires Cells(s) && Occupied(s, r, p) && h < 11
  {
    var d := Depth(|s.data|);
    var pod := s.data[Slot(d, r, p)];
    var direct := (Min(Entrance(r), Entrance(pod - 1)), Max(Entrance(r), Entrance(pod - 1)));
    var onDirectRoute := direct.0 <= h <= direct.1;
    var lo, hi := Min(h, Entrance(r)), Max(h, Entrance(r));
    if !(onDirectRoute && hi - lo + 1 > 2) && PathClear(s, lo, hi) then
      [Move(Slot(d, r, p), h, hi - lo + 1 + p)]
    else []
  }

  /** Hallway-to-room moves from the first `j` hallway stops, in stop order. */
  function HallwayMovesUpTo(s: State, j: nat): seq<Move>
    requires Wf(s) && j <= |HALLWAY_STOPS|
  {
    if j == 0 then [] else HallwayMovesUpTo(s, j - 1) + HallwayMove(s, HALLWAY_STOPS[j - 1])
  }

  /** Moves of the top amphipod `p` of room `r` to the first `j` hallway stops, in stop order. */
  function RoomExitsUpTo(s: State, r: nat, p: nat, j: nat): seq<Move>
    requires Cells(s) && Occupied(s, r, p) && j <= |HALLWAY_STOPS|
  {
    if j == 0 then [] else RoomExitsUpTo(s, r, p, j - 1) + RoomExit(s, r, p, HALLWAY_STOPS[j - 1])
  }

  /** The moves out of room `r`: none when it is empty, else those of its topmost amphipod. */
  function RoomMoves(s: State, r: nat): seq<Move>
    requires Cells(s) && r < 4
  {
    match FirstOccupied(Room(s, r))
    case None => []
    case Some(p) =>
      assert Room(s, r)[p] == s.data[Slot(Depth(|s.data|), r, p)];
      RoomExitsUpTo(s, r, p, |HALLWAY_STOPS|)
  }

  /** Room-to-hallway moves out of the first `r` rooms, room by room. */
  function RoomMovesUpTo(s: State, r: nat): seq<Move>
    requires Cells(s) && r <= 4
  {
    if r == 0 then [] else RoomMovesUpTo(s, r - 1) + RoomMoves(s, r - 1)
  }

  /** All moves of a board: hallway-to-room moves by hallway cell, then room-to-hallway moves by room and target. */
  function MovesSpec(s: State): seq<Move>
    requires Wf(s)
  {
    HallwayMovesUpTo(s, |HALLWAY_STOPS|) + RoomMovesUpTo(s, 4)
  }

  /** The topmost occupied slot of each room, room by room. */
  method RoomOccupancy(s: State) returns (occupied: seq<Option<nat>>)
    requires |s.data| >= 11
    ensures |occupied| == 4
    ensures forall r :: 0 <= r < 4 ==> occupied[r] == FirstOccupied(Room(s, r))
  {
    occupied := [];
    for r := 0 to 4
      invariant |occupied| == r
      invariant forall q :: 0 <= q < r ==> occupied[q] == FirstOccupied(Room(s, q))
    {
      occupied := occupied + [FirstOccupied(Room(s, r))];
    }
  }

  /** `occupied` lists the topmost occupied slot of each of the four rooms. */
  predicate OccupancyOf(s: State, occupied: seq<Option<nat>>)
  {
    |s.data| >= 11 && |occupied| == 4 &&
    forall r :: 0 <= r < 4 ==> occupied[r] == FirstOccupied(Room(s, r))
  }

  /** One iteration of the hallway-to-room phase: the move, if any, of the amphipod at hallway cell `h`. */
  method HallwayMoveAt(s: State, h: nat, occupied: seq<Option<nat>>) returns (step: seq<Move>)
    requires Wf(s) && h < 11 && OccupancyOf(s, occupied)
    ensures step == HallwayMove(s, h)
  {
    step := [];
    if s.data[h] > 0 {
      var room := s.data[h] - 1;
      var lo, hi := Min(h, Entrance(room)), Max(h, Entrance(room));
      if PathClearExcept(s, lo, hi, h) && RoomReady(Room(s, room), s.data[h]) {
        RoomHasSpace(s, h);
        var d := Depth(|s.data|);
        assert occupied[room] == FirstOccupied(Room(s, room));
        var depth := (match occupied[room] case Some(p) => p case None => d) - 1;
        step := [Move(h, Slot(d, room, 0) + depth, hi - lo + 1 + depth)];
      }
    }
  }

  /** One iteration of the room-to-hallway phase: the move, if allowed, of the top amphipod `p` of room `r` to `h`. */
  method RoomExitAt(s: State, r: nat, p: nat, h: nat) returns (step: seq<Move>)
    requires Cells(s) && Occupied(s, r, p) && h < 11
    ensures step == RoomExit(s, r, p, h)
  {
    var d := Depth(|s.data|);
    var pod := s.data[Slot(d, r, 0) + p];
    var dlo, dhi := Min(Entrance(r), Entrance(pod - 1)), Max(Entrance(r), Entrance(pod - 1));
    var onDirectRoute := dlo <= h <= dhi;
    var lo, hi := Min(h, Entrance(r)), Max(h, Entrance(r));
    if !(onDirectRoute && hi - lo + 1 > 2) && PathClear(s, lo, hi) {
      step := [Move(Slot(d, r, 0) + p, h, hi - lo + 1 + p)];
    } else {
      step := [];
    }
  }

  /** The possible moves of a board, in the order the search explores them. */
  method NextMoves(s: State) returns (moves: seq<Move>)
    requires Wf(s)
    ensures moves == MovesSpec(s)
  {
    var occupied := RoomOccupancy(s);
    var entering := HallwayToRoomMoves(s, occupied);
    var leaving := RoomToHallwayMoves(s, occupied);
    moves := entering + leaving;
  }

  /** First phase of NextMoves: every hallway amphipod that can walk into its own room. */
  method HallwayToRoomMoves(s: State, occupied: seq<Option<nat>>) returns (moves: seq<Move>)
    requires Wf(s) && OccupancyOf(s, occupied)
    ensures moves == HallwayMovesUpTo(s, |HALLWAY_STOPS|)
  {
    moves := [];
    for j := 0 to |HALLWAY_STOPS|
      invariant moves == HallwayMovesUpTo(s, j)
    {
      var h := HALLWAY_STOPS[j];
      var step := HallwayMoveAt(s, h, occupied);
      assert HallwayMovesUpTo(s, j + 1) == moves + step;
      moves := moves + step;
    }
  }

  /** Second phase of NextMoves: every top amphipod of a room to every reachable hallway stop. */
  method RoomToHallwayMoves(s: State, occupied: seq<Option<nat>>) returns (moves: seq<Move>)
    requires Cells(s) && OccupancyOf(s, occupied)
    ensures moves == RoomMovesUpTo(s, 4)
  {
    moves := [];
    for r := 0 to 4
      invariant moves == RoomMovesUpTo(s, r)
    {
      var exits := RoomMovesAt(s, r, occupied[r]);
      moves := moves + exits;
    }
  }

  /** One iteration of the room-to-hallway phase: the moves out of room `r`, whose topmost occupied slot is `top`. */
  method RoomMovesAt(s: State, r: nat, top: Option<nat>) returns (exits: seq<Move>)
    requires Cells(s) && r < 4 && top == FirstOccupied(Room(s, r))
    ensures exits == RoomMoves(s, r)
  {
    exits := [];
    match top {
      case Some(p) =>
        assert Room(s, r)[p] == s.data[Slot(Depth(|s.data|), r, p)];
        exits := RoomExitsOf(s, r, p);
      case None =>
    }
  }

  /** The room-to-hallway moves of room `r`, whose topmost amphipod is in slot `p`. */
  method RoomExitsOf(s: State, r: nat, p: nat) returns (exits: seq<Move>)
    requires Cells(s) && Occupied(s, r, p)
    ensures exits == RoomExitsUpTo(s, r, p, |HALLWAY_STOPS|)
  {
    exits := [];
    for j := 0 to |HALLWAY_STOPS|
      invariant exits == RoomExitsUpTo(s, r, p, j)
    {
      var step := RoomExitAt(s, r, p, HALLWAY_STOPS[j]);
      exits := exits + step;
    }
  }
}
