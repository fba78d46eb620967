/**
 * Dirac dice (day 21): two pawns on a circular track of ten spaces.  Part one
 * plays with a deterministic hundred-sided die until a score reaches 1000;
 * part two counts, over every universe the three-sided Dirac die splits the
 * game into, how often each player reaches 21 first.
 */
module Day21 {
  import opened Common
  import opened Text

  // Input

  /** The starting spaces of the two players, numbered 1..10 as in the text. */
  datatype GameState = GameState(onePos: nat, twoPos: nat)

  const PlayerOne := "Player 1 starting position: "
  const PlayerTwo := "Player 2 starting position: "

  /**
   * `GameState::from_str`: the first two lines after their prefixes, each a
   * `u64`.  Every `unwrap` that fails is a panic: None.
   */
  function ParseGameState(s: string): Option<GameState>
  {
    var lines := Lines(s);
    if |lines| < 2 then None
    else
      var one, two := StripPrefix(lines[0], PlayerOne), StripPrefix(lines[1], PlayerTwo);
      if one.None? || two.None? then None
      else
        var a, b := ParseUsize(one.value), ParseUsize(two.value);
        if a.None? || b.None? then None else Some(GameState(a.value, b.value))
  }

  /** The two lines of an input, each ended by a line feed, read back as the positions written in them. */
  lemma ParseWritten(a: nat, b: nat)
    requires a <= USIZE_MAX && b <= USIZE_MAX
    ensures ParseGameState(PlayerOne + Decimal(a) + "\n" + PlayerTwo + Decimal(b) + "\n") == Some(GameState(a, b))
  {
    var one, two := PlayerOne + Decimal(a), PlayerTwo + Decimal(b);
    NoBreak(PlayerOne, Decimal(a));
    NoBreak(PlayerTwo, Decimal(b));
    TwoLines(one, two);
    assert PlayerOne + Decimal(a) + "\n" + PlayerTwo + Decimal(b) + "\n" == one + "\n" + two + "\n";
    assert one[|PlayerOne|..] == Decimal(a) && two[|PlayerTwo|..] == Decimal(b);
    ParseDecimal(a);
    ParseDecimal(b);
  }

  /** Two lines, each ended by a line feed. */
  lemma TwoLines(one: string, two: string)
    requires !('\n' in one) && !('\r' in one) && !('\n' in two) && !('\r' in two)
    ensures Lines(one + "\n" + two + "\n") == [one, two]
  {
    var s := one + "\n" + two + "\n";
    var last: string := [];
    assert [one, two, last][1..] == [two, last] && [two, last][1..] == [last];
    assert Join([last], "\n") == [];
    assert Join([two, last], "\n") == two + "\n";
    assert Join([one, two, last], "\n") == s;
    JoinSplit([one, two, last], "\n");
    StripCrNoop(one);
    StripCrNoop(two);
  }

  /** A prefix of letters, spaces and a colon followed by digits holds no line break. */
  lemma NoBreak(prefix: string, digits: string)
    requires prefix == PlayerOne || prefix == PlayerTwo
    requires AllDigits(digits)
    ensures !('\n' in prefix + digits) && !('\r' in prefix + digits)
  {
    var s := prefix + digits;
    forall i | 0 <= i < |s|
      ensures s[i] != '\n' && s[i] != '\r'
    {
      if i >= |prefix| {
        assert s[i] == digits[i - |prefix|];
      }
    }
  }

  // Part one: the deterministic die

  /** The face the deterministic die shows on its k-th roll, counting from 0: 1, 2, ..., 100, then 1 again. */
  function DieValue(k: nat): (v: nat)
    ensures 1 <= v <= 100
  {
    k % 100 + 1
  }

  /** The die repeats itself every hundred rolls. */
  lemma DieCycles(k: nat)
    ensures DieValue(k + 100) == DieValue(k)
    ensures DieValue(k + 1) == if DieValue(k) == 100 then 1 else DieValue(k) + 1
  {
  }

  class DeterministicDice {
    var value: nat
    var rolls: nat

    /** The face to come is the one for the number of rolls made. */
    predicate Valid()
      reads this
    {
      value == DieValue(rolls)
    }

    /** `DeterministicDice::new`: value 1, no rolls. */
    constructor ()
      ensures value == 1 && rolls == 0 && Valid()
    {
      value := 1;
      rolls := 0;
    }

    /** `roll`: the current face; the face moves on, from 100 back to 1, and the roll is counted. */
    method Roll() returns (v: nat)
      requires Valid()
      modifies this
      ensures v == old(value) == DieValue(old(rolls))
      ensures rolls == old(rolls) + 1
      ensures Valid()
    {
      v := value;
      value := value + 1;
      rolls := rolls + 1;
      if value == 101 {
        value := 1;
      }
    }
  }

  /** The game after the final scores: the two scores and the number of rolls. */
  datatype GameScore = GameScore(p1Score: nat, p2Score: nat, rolls: nat)

  /** The game between turns: spaces counted from 0, scores, whose turn it is, and the rolls made so far. */
  datatype Game = Game(p1Pos: nat, p2Pos: nat, p1Score: nat, p2Score: nat, p1Turn: bool, rolls: nat)

  /** The game ends as soon as either score reaches 1000. */
  predicate Over(g: Game)
  {
    g.p1Score >= 1000 || g.p2Score >= 1000
  }

  /** A turn: the player to move advances by the sum of the next three rolls, round the ten spaces, and scores the space it lands on. */
  function Turn(g: Game): (r: Game)
    ensures r.rolls == g.rolls + 3 && r.p1Turn == !g.p1Turn
    ensures g.p1Turn ==> r.p2Pos == g.p2Pos && r.p2Score == g.p2Score && r.p1Pos < 10 && r.p1Score == g.p1Score + r.p1Pos + 1
    ensures !g.p1Turn ==> r.p1Pos == g.p1Pos && r.p1Score == g.p1Score && r.p2Pos < 10 && r.p2Score == g.p2Score + r.p2Pos + 1
  {
    var move := DieValue(g.rolls) + DieValue(g.rolls + 1) + DieValue(g.rolls + 2);
    if g.p1Turn then
      var pos := (g.p1Pos + move) % 10;
      Game(pos, g.p2Pos, g.p1Score + pos + 1, g.p2Score, false, g.rolls + 3)
    else
      var pos := (g.p2Pos + move) % 10;
      Game(g.p1Pos, pos, g.p1Score, g.p2Score + pos + 1, true, g.rolls + 3)
  }

  /** What is left to score before the game ends: every turn scores at least 1. */
  function Left(g: Game): nat
  {
    if Over(g) then 0 else 2000 - g.p1Score - g.p2Score
  }

  /** Turns until the game is over. */
  function Play(g: Game): Game
    decreases Left(g)
  {
    if Over(g) then g else Play(Turn(g))
  }

  /**
   * A game played from scores below 1000 ends with exactly one score at 1000
   * or more, after at least one turn, each turn three rolls.
   */
  lemma {:induction false} PlayEnds(g: Game)
    requires !Over(g)
    ensures (Play(g).p1Score >= 1000) != (Play(g).p2Score >= 1000)
    ensures Turns(g) >= 1 && Play(g).rolls == g.rolls + 3 * Turns(g)
    decreases Left(g)
  {
    var next := Turn(g);
    if !Over(next) {
      PlayEnds(next);
    }
  }

  /** The number of turns until the game is over. */
  function Turns(g: Game): nat
    decreases Left(g)
  {
    if Over(g) then 0 else 1 + Turns(Turn(g))
  }

  /** The game from the starting spaces: counted from 0, so a starting space 0 underflows (None). */
  function Start(initial: GameState): Option<Game>
  {
    if initial.onePos == 0 || initial.twoPos == 0 then None
    else Some(Game(initial.onePos - 1, initial.twoPos - 1, 0, 0, true, 0))
  }

  /** The space a player lands on and the score it then has, after three rolls of the die from `rolls` on. */
  function Moved(pos: nat, score: nat, rolls: nat): (nat, nat)
  {
    var p := (pos + (DieValue(rolls) + DieValue(rolls + 1) + DieValue(rolls + 2))) % 10;
    (p, score + p + 1)
  }

  /** A turn is the mover's `Moved`, the other player untouched, the turn passed on. */
  lemma TurnMoves(g: Game)
    ensures g.p1Turn ==> Turn(g) == Game(Moved(g.p1Pos, g.p1Score, g.rolls).0, g.p2Pos, Moved(g.p1Pos, g.p1Score, g.rolls).1, g.p2Score, false, g.rolls + 3)
    ensures !g.p1Turn ==> Turn(g) == Game(g.p1Pos, Moved(g.p2Pos, g.p2Score, g.rolls).0, g.p1Score, Moved(g.p2Pos, g.p2Score, g.rolls).1, true, g.rolls + 3)
  {
  }

  /**
   * One branch of the loop of `simulate_game`: the mover's space advances by
   * three rolls, wraps round the ten spaces, and the space is scored.
   */
  method TakeTurn(dice: DeterministicDice, pos: nat, score: nat) returns (newPos: nat, newScore: nat)
    requires dice.Valid()
    modifies dice
    ensures dice.Valid() && dice.rolls == old(dice.rolls) + 3
    ensures (newPos, newScore) == Moved(pos, score, old(dice.rolls))
    ensures newPos < 10 && newScore == score + newPos + 1
  {
    var a := dice.Roll();
    var b := dice.Roll();
    var c := dice.Roll();
    newPos := pos + (a + b + c);
    newPos := newPos % 10;
    newScore := score + newPos + 1;
  }

  /** `simulate_game`: the loop of turns, player one first, with a fresh die. */
  method SimulateGame(initial: GameState) returns (r: Option<GameScore>)
    ensures r.None? <==> Start(initial).None?
    ensures r.Some? ==> var g := Play(Start(initial).value); r.value == GameScore(g.p1Score, g.p2Score, g.rolls)
  {
    if initial.onePos == 0 || initial.twoPos == 0 {
      return None;
    }
    var p1Score: nat, p2Score: nat := 0, 0;
    var p1Pos: nat, p2Pos: nat := initial.onePos - 1, initial.twoPos - 1;
    var p1Turn := true;
    var dice := new DeterministicDice();
    while p1Score < 1000 && p2Score < 1000
      invariant dice.Valid()
      invariant Play(Game(p1Pos, p2Pos, p1Score, p2Score, p1Turn, dice.rolls)) == Play(Start(initial).value)
      decreases 2000 - p1Score - p2Score
    {
      ghost var g := Game(p1Pos, p2Pos, p1Score, p2Score, p1Turn, dice.rolls);
      TurnMoves(g);
      if p1Turn {
        p1Pos, p1Score := TakeTurn(dice, p1Pos, p1Score);
      } else {
        p2Pos, p2Score := TakeTurn(dice, p2Pos, p2Score);
      }
      p1Turn := !p1Turn;
      assert Game(p1Pos, p2Pos, p1Score, p2Score, p1Turn, dice.rolls) == Turn(g);
    }
    return Some(GameScore(p1Score, p2Score, dice.rolls));
  }

  /** Part one's answer as `main` computes it: the lower score (player one's on a tie) times the rolls. */
  function LoserTimesRolls(score: GameScore): nat
  {
    if score.p1Score > score.p2Score then score.p2Score * score.rolls else score.p1Score * score.rolls
  }

  /**
   * For a simulated game the answer is the losing player's score, the one
   * below 1000, times the number of rolls, a multiple of three.
   */
  lemma LoserScored(initial: GameState)
    requires Start(initial).Some?
    ensures var g := Play(Start(initial).value);
            var loser := if g.p1Score >= 1000 then g.p2Score else g.p1Score;
            loser < 1000 && g.rolls % 3 == 0 &&
            LoserTimesRolls(GameScore(g.p1Score, g.p2Score, g.rolls)) == loser * g.rolls
  {
    PlayEnds(Start(initial).value);
  }

  // Part two: the Dirac die

  /** `POSSIBLE_ROLLS`: each sum of three rolls of a three-sided die, with the number of ways to throw it. */
  const PossibleRolls: seq<(nat, nat)> := [(3, 1), (4, 3), (5, 6), (6, 7), (7, 6), (8, 3), (9, 1)]

  /** The 27 ways to throw three dice, spread over the seven sums. */
  lemma FrequenciesTotal()
    ensures PossibleRolls[0].1 + PossibleRolls[1].1 + PossibleRolls[2].1 + PossibleRolls[3].1
          + PossibleRolls[4].1 + PossibleRolls[5].1 + PossibleRolls[6].1 == 27
  {
  }

  /** The universes still to be split: none once a score reaches 21, and every turn scores at least 1. */
  function Remaining(p1Score: nat, p2Score: nat): nat
  {
    if p1Score >= 21 || p2Score >= 21 then 0 else 42 - p1Score - p2Score
  }

  function Add(a: (nat, nat), b: (nat, nat)): (nat, nat)
  {
    (a.0 + b.0, a.1 + b.1)
  }

  function Swapped(w: (nat, nat)): (nat, nat)
  {
    (w.1, w.0)
  }

  /** A pair of win counts, each counted `n` times, written as repeated addition. */
  function Times(n: nat, w: (nat, nat)): (nat, nat)
  {
    if n == 0 then (0, 0) else Add(Times(n - 1, w), w)
  }

  /** Counting a pair `n` times multiplies it by `n`. */
  lemma {:induction false} TimesIsProduct(n: nat, w: (nat, nat))
    ensures Times(n, w) == (n * w.0, n * w.1)
  {
    if n > 0 {
      TimesIsProduct(n - 1, w);
      assert (n - 1) * w.0 + w.0 == n * w.0 && (n - 1) * w.1 + w.1 == n * w.1;
    }
  }

  /**
   * An entry after a roll of frequency `freq`: the sub-game's wins, swapped
   * since the other player moved, added `freq` times.
   */
  function Weighted(entry: (nat, nat), freq: nat, subtree: (nat, nat)): (nat, nat)
  {
    Add(entry, Times(freq, Swapped(subtree)))
  }

  /** The weighting is the two products of the loop of `count_states`. */
  lemma WeightedIsProduct(entry: (nat, nat), freq: nat, subtree: (nat, nat))
    ensures Weighted(entry, freq, subtree) == (entry.0 + freq * subtree.1, entry.1 + freq * subtree.0)
  {
    var t := Times(freq, Swapped(subtree));
    TimesIsProduct(freq, Swapped(subtree));
    assert t.0 == freq * subtree.1 && t.1 == freq * subtree.0;
  }

  /**
   * The universes in which each player wins, player one being the one to
   * move: 1 for a player already at 21 (player one checked first), and
   * otherwise the sum over the possible rolls.
   */
  function Wins(p1Pos: nat, p2Pos: nat, p1Score: nat, p2Score: nat): (nat, nat)
    decreases Remaining(p1Score, p2Score), 2, 0
  {
    if p1Score >= 21 then (1, 0)
    else if p2Score >= 21 then (0, 1)
    else WinsFrom(p1Pos, p2Pos, p1Score, p2Score, |PossibleRolls|)
  }

  /**
   * The sum over the first k possible rolls: after each the other player
   * moves, so its wins are ours swapped, weighted by the roll's frequency.
   */
  function WinsFrom(p1Pos: nat, p2Pos: nat, p1Score: nat, p2Score: nat, k: nat): (nat, nat)
    requires p1Score < 21 && p2Score < 21 && k <= |PossibleRolls|
    decreases Remaining(p1Score, p2Score), 1, k
  {
    if k == 0 then (0, 0)
    else
      var acc := WinsFrom(p1Pos, p2Pos, p1Score, p2Score, k - 1);
      var (add, freq) := PossibleRolls[k - 1];
      var sub := Subtree(p1Pos, p2Pos, p1Score, p2Score, add);
      Weighted(acc, freq, sub)
  }

  /**
   * The sub-game after a roll of sum `add`: the mover's space advances round
   * the ten spaces and is scored, then the other player is the one to move.
   */
  function Subtree(p1Pos: nat, p2Pos: nat, p1Score: nat, p2Score: nat, add: nat): (nat, nat)
    requires p1Score < 21 && p2Score < 21
    decreases Remaining(p1Score, p2Score), 0, 0
  {
    var pos := (p1Pos + add) % 10;
    Wins(p2Pos, pos, p2Score, p1Score + pos + 1)
  }

  /** What one roll of sum `add` leaves the player to move: the universes of the other player's turn, seen from this player. */
  function After(p1Pos: nat, p2Pos: nat, p1Score: nat, p2Score: nat, add: nat): (nat, nat)
    requires p1Score < 21 && p2Score < 21
  {
    Swapped(Subtree(p1Pos, p2Pos, p1Score, p2Score, add))
  }

  /** One more possible roll: its sub-game's wins, swapped and weighted by its frequency, join the sum. */
  lemma WinsStep(p1Pos: nat, p2Pos: nat, p1Score: nat, p2Score: nat, k: nat, add: nat, freq: nat)
    requires p1Score < 21 && p2Score < 21 && k < |PossibleRolls| && PossibleRolls[k] == (add, freq)
    ensures WinsFrom(p1Pos, p2Pos, p1Score, p2Score, k + 1)
         == Add(WinsFrom(p1Pos, p2Pos, p1Score, p2Score, k), Times(freq, After(p1Pos, p2Pos, p1Score, p2Score, add)))
  {
  }

  /**
   * The wins counted universe by universe: every roll of the Dirac die
   * splits the universe in three, three rolls to a turn.
   */
  function Universes(p1Pos: nat, p2Pos: nat, p1Score: nat, p2Score: nat): (nat, nat)
    decreases Remaining(p1Score, p2Score), 1, 0
  {
    if p1Score >= 21 then (1, 0)
    else if p2Score >= 21 then (0, 1)
    else Rolls(p1Pos, p2Pos, p1Score, p2Score, 0, 3)
  }

  /** The universes after `left` more rolls of the current turn, whose rolls so far add up to `moved`. */
  function Rolls(p1Pos: nat, p2Pos: nat, p1Score: nat, p2Score: nat, moved: nat, left: nat): (nat, nat)
    requires p1Score < 21 && p2Score < 21
    decreases Remaining(p1Score, p2Score), 0, left
  {
    if left == 0 then
      var pos := (p1Pos + moved) % 10;
      Swapped(Universes(p2Pos, pos, p2Score, p1Score + pos + 1))
    else
      Add(Add(Rolls(p1Pos, p2Pos, p1Score, p2Score, moved + 1, left - 1),
              Rolls(p1Pos, p2Pos, p1Score, p2Score, moved + 2, left - 1)),
          Rolls(p1Pos, p2Pos, p1Score, p2Score, moved + 3, left - 1))
  }

  /**
   * Weighting the seven sums by their frequencies counts every one of the
   * 27 universes of a turn: the memoised count is the universe-by-universe count.
   */
  lemma {:induction false} WinsCountUniverses(p1Pos: nat, p2Pos: nat, p1Score: nat, p2Score: nat)
    ensures Wins(p1Pos, p2Pos, p1Score, p2Score) == Universes(p1Pos, p2Pos, p1Score, p2Score)
    decreases Remaining(p1Score, p2Score)
  {
    if p1Score < 21 && p2Score < 21 {
      forall add | 3 <= add <= 9
        ensures Rolls(p1Pos, p2Pos, p1Score, p2Score, add, 0) == After(p1Pos, p2Pos, p1Score, p2Score, add)
      {
        var pos := (p1Pos + add) % 10;
        WinsCountUniverses(p2Pos, pos, p2Score, p1Score + pos + 1);
      }
      RollsSpread(p1Pos, p2Pos, p1Score, p2Score);
      WinsSpread(p1Pos, p2Pos, p1Score, p2Score);
    }
  }

  /** Seven outcomes, one per sum 3..9, weighted by the ways to throw that sum. */
  function Spread(v3: (nat, nat), v4: (nat, nat), v5: (nat, nat), v6: (nat, nat), v7: (nat, nat), v8: (nat, nat), v9: (nat, nat)): (nat, nat)
  {
    (v3.0 + 3 * v4.0 + 6 * v5.0 + 7 * v6.0 + 6 * v7.0 + 3 * v8.0 + v9.0,
     v3.1 + 3 * v4.1 + 6 * v5.1 + 7 * v6.1 + 6 * v7.1 + 3 * v8.1 + v9.1)
  }

  /** Three rolls of 1, 2 or 3: each sum 3..9 reached in 1, 3, 6, 7, 6, 3, 1 ways. */
  lemma RollsSpread(p1Pos: nat, p2Pos: nat, p1Score: nat, p2Score: nat)
    requires p1Score < 21 && p2Score < 21
    ensures Rolls(p1Pos, p2Pos, p1Score, p2Score, 0, 3)
         == Spread(Rolls(p1Pos, p2Pos, p1Score, p2Score, 3, 0), Rolls(p1Pos, p2Pos, p1Score, p2Score, 4, 0),
                   Rolls(p1Pos, p2Pos, p1Score, p2Score, 5, 0), Rolls(p1Pos, p2Pos, p1Score, p2Score, 6, 0),
                   Rolls(p1Pos, p2Pos, p1Score, p2Score, 7, 0), Rolls(p1Pos, p2Pos, p1Score, p2Score, 8, 0),
                   Rolls(p1Pos, p2Pos, p1Score, p2Score, 9, 0))
  {
    var b := seq(10, m requires 0 <= m < 10 => Rolls(p1Pos, p2Pos, p1Score, p2Score, m, 0));
    forall k | 2 <= k <= 6
      ensures Rolls(p1Pos, p2Pos, p1Score, p2Score, k, 1) == Add(Add(b[k + 1], b[k + 2]), b[k + 3])
    {
    }
    forall m | 1 <= m <= 3
      ensures Rolls(p1Pos, p2Pos, p1Score, p2Score, m, 2)
           == Add(Add(Rolls(p1Pos, p2Pos, p1Score, p2Score, m + 1, 1), Rolls(p1Pos, p2Pos, p1Score, p2Score, m + 2, 1)),
                  Rolls(p1Pos, p2Pos, p1Score, p2Score, m + 3, 1))
    {
    }
  }

  /** The weights of `POSSIBLE_ROLLS`, summed roll by roll. */
  lemma WinsSpread(p1Pos: nat, p2Pos: nat, p1Score: nat, p2Score: nat)
    requires p1Score < 21 && p2Score < 21
    ensures WinsFrom(p1Pos, p2Pos, p1Score, p2Score, |PossibleRolls|)
         == Spread(After(p1Pos, p2Pos, p1Score, p2Score, 3), After(p1Pos, p2Pos, p1Score, p2Score, 4),
                   After(p1Pos, p2Pos, p1Score, p2Score, 5), After(p1Pos, p2Pos, p1Score, p2Score, 6),
                   After(p1Pos, p2Pos, p1Score, p2Score, 7), After(p1Pos, p2Pos, p1Score, p2Score, 8),
                   After(p1Pos, p2Pos, p1Score, p2Score, 9))
  {
    assert WinsFrom(p1Pos, p2Pos, p1Score, p2Score, 0) == (0, 0);
    WinsStep(p1Pos, p2Pos, p1Score, p2Score, 0, 3, 1);
    WinsStep(p1Pos, p2Pos, p1Score, p2Score, 1, 4, 3);
    WinsStep(p1Pos, p2Pos, p1Score, p2Score, 2, 5, 6);
    WinsStep(p1Pos, p2Pos, p1Score, p2Score, 3, 6, 7);
    WinsStep(p1Pos, p2Pos, p1Score, p2Score, 4, 7, 6);
    WinsStep(p1Pos, p2Pos, p1Score, p2Score, 5, 8, 3);
    WinsStep(p1Pos, p2Pos, p1Score, p2Score, 6, 9, 1);
    TimesIsProduct(1, After(p1Pos, p2Pos, p1Score, p2Score, 3));
    TimesIsProduct(3, After(p1Pos, p2Pos, p1Score, p2Score, 4));
    TimesIsProduct(6, After(p1Pos, p2Pos, p1Score, p2Score, 5));
    TimesIsProduct(7, After(p1Pos, p2Pos, p1Score, p2Score, 6));
    TimesIsProduct(6, After(p1Pos, p2Pos, p1Score, p2Score, 7));
    TimesIsProduct(3, After(p1Pos, p2Pos, p1Score, p2Score, 8));
    TimesIsProduct(1, After(p1Pos, p2Pos, p1Score, p2Score, 9));
  }

  // The memo of `count_states`

  /** A memo key: both spaces and both scores, player one being the one to move. */
  type Key = (nat, nat, nat, nat)

  /** How far a state is from the end of the game: every sub-game a turn opens ranks lower. */
  function Rank(key: Key): nat
  {
    Remaining(key.2, key.3)
  }

  /** Every remembered state of rank at most `level` maps to the wins from it. */
  ghost predicate Remembered(table: map<Key, (nat, nat)>, level: nat)
  {
    forall key | key in table && Rank(key) <= level :: table[key] == Wins(key.0, key.1, key.2, key.3)
  }

  /** The states of rank above `level` are remembered in `after` exactly as in `before`. */
  ghost predicate Kept(before: map<Key, (nat, nat)>, after: map<Key, (nat, nat)>, level: nat)
  {
    (forall key | key in before && Rank(key) > level :: key in after && after[key] == before[key]) &&
    (forall key | key in after && Rank(key) > level :: key in before)
  }

  /**
   * Partway through the loop over the possible rolls of `state`: every other
   * state up to its rank is remembered correctly, the entry of `state` holds
   * the sum over the first `i` rolls, and the states above its rank are as before.
   */
  ghost predicate Filling(before: map<Key, (nat, nat)>, table: map<Key, (nat, nat)>, state: Key, i: nat)
  {
    var holds :=
      state.2 < 21 && state.3 < 21 && i <= |PossibleRolls| &&
      (forall key | key in table && Rank(key) <= Rank(state) && key != state :: table[key] == Wins(key.0, key.1, key.2, key.3)) &&
      (state in table <==> i > 0) &&
      (i > 0 ==> table[state] == WinsFrom(state.0, state.1, state.2, state.3, i)) &&
      Kept(before, table, Rank(state));
    holds
  }

  /** The sub-game of a roll ranks lower than the state it was rolled from. */
  lemma RankDrops(state: Key, add: nat)
    requires state.2 < 21 && state.3 < 21
    ensures var pos := (state.0 + add) % 10; Rank((state.1, pos, state.3, state.2 + pos + 1)) < Rank(state)
  {
  }

  /** A state's entry starts from nothing: the loop begins with every other state as it was. */
  lemma FillingStart(table: map<Key, (nat, nat)>, state: Key)
    requires state.2 < 21 && state.3 < 21 && state !in table
    requires Remembered(table, Rank(state))
    ensures Filling(table, table, state, 0)
  {
  }

  /** What a call of `count_states` on `sub` leaves: its wins, the memo right up to its rank and kept above it. */
  ghost predicate Counted(t0: map<Key, (nat, nat)>, t1: map<Key, (nat, nat)>, sub: Key, subtree: (nat, nat))
  {
    var holds := subtree == Wins(sub.0, sub.1, sub.2, sub.3) && Remembered(t1, Rank(sub)) && Kept(t0, t1, Rank(sub));
    holds
  }

  /** The sub-game the loop counts for a roll of `add` is the one `After` weighs. */
  lemma SubtreeAfter(state: Key, add: nat, sub: Key, subtree: (nat, nat))
    requires state.2 < 21 && state.3 < 21
    requires sub == (state.1, (state.0 + add) % 10, state.3, state.2 + (state.0 + add) % 10 + 1)
    requires subtree == Wins(sub.0, sub.1, sub.2, sub.3)
    ensures After(state.0, state.1, state.2, state.3, add) == Swapped(subtree)
  {
  }

  /**
   * One turn of the loop: the sub-game's count, made by a call that kept
   * every state above its own rank, is weighted into the entry of `state`.
   */
  lemma FillingStep(before: map<Key, (nat, nat)>, t0: map<Key, (nat, nat)>, t1: map<Key, (nat, nat)>, state: Key, i: nat,
                    add: nat, freq: nat, sub: Key, subtree: (nat, nat), entry: (nat, nat))
    requires Filling(before, t0, state, i) && i < |PossibleRolls| && PossibleRolls[i] == (add, freq)
    requires sub == (state.1, (state.0 + add) % 10, state.3, state.2 + (state.0 + add) % 10 + 1)
    requires Rank(sub) < Rank(state) && Counted(t0, t1, sub, subtree)
    requires entry == if state in t1 then t1[state] else (0, 0)
    ensures Filling(before, t1[state := Weighted(entry, freq, subtree)], state, i + 1)
  {
    var t2 := t1[state := Weighted(entry, freq, subtree)];
    WinsStep(state.0, state.1, state.2, state.3, i, add, freq);
    SubtreeAfter(state, add, sub, subtree);
    assert t2[state] == WinsFrom(state.0, state.1, state.2, state.3, i + 1);
    forall key | key in t2 && Rank(key) <= Rank(state) && key != state
      ensures t2[key] == Wins(key.0, key.1, key.2, key.3)
    {
      if Rank(key) > Rank(sub) {
        assert key in t0;
      }
    }
    KeptThrough(before, t0, t1, Rank(state), Rank(sub));
    KeptUpdate(before, t1, state, Weighted(entry, freq, subtree), Rank(state));
  }

  /** A call that keeps the states above a lower rank keeps those above a higher one. */
  lemma KeptThrough(before: map<Key, (nat, nat)>, t0: map<Key, (nat, nat)>, t1: map<Key, (nat, nat)>, level: nat, lower: nat)
    requires Kept(before, t0, level) && Kept(t0, t1, lower) && lower < level
    ensures Kept(before, t1, level)
  {
  }

  /** Writing the entry of a state of rank at most `level` keeps the states above it. */
  lemma KeptUpdate(before: map<Key, (nat, nat)>, t1: map<Key, (nat, nat)>, key: Key, v: (nat, nat), level: nat)
    requires Kept(before, t1, level) && Rank(key) <= level
    ensures Kept(before, t1[key := v], level)
  {
  }

  /** The loop is done: the entry of `state` holds its wins and every state up to its rank is remembered. */
  lemma FillingDone(before: map<Key, (nat, nat)>, table: map<Key, (nat, nat)>, state: Key)
    requires Filling(before, table, state, |PossibleRolls|)
    ensures state in table && table[state] == Wins(state.0, state.1, state.2, state.3)
    ensures Remembered(table, Rank(state)) && Kept(before, table, Rank(state))
  {
  }

  /** `HashMap<(u64, u64, u64, u64), (u64, u64)>` passed to `count_states`: the states counted so far. */
  class Memo {
    var table: map<Key, (nat, nat)>

    /** `HashMap::default()`: nothing remembered. */
    constructor ()
      ensures table == map[]
    {
      table := map[];
    }
  }

  /**
   * `count_states`: a remembered state answers at once; a finished game is a
   * win for whoever reached 21 (player one checked first); otherwise the
   * entry of the state is built up roll by roll from the counts of the
   * sub-games, with the other player to move, swapped back.
   */
  method CountStates(p1Pos: nat, p2Pos: nat, p1Score: nat, p2Score: nat, memo: Memo) returns (r: (nat, nat))
    requires Remembered(memo.table, Remaining(p1Score, p2Score))
    modifies memo
    ensures r == Wins(p1Pos, p2Pos, p1Score, p2Score)
    ensures Remembered(memo.table, Remaining(p1Score, p2Score))
    ensures Kept(old(memo.table), memo.table, Remaining(p1Score, p2Score))
    decreases Remaining(p1Score, p2Score), 1
  {
    var state := (p1Pos, p2Pos, p1Score, p2Score);
    if state in memo.table {
      return memo.table[state];
    } else if p1Score >= 21 {
      return (1, 0);
    } else if p2Score >= 21 {
      return (0, 1);
    }
    ghost var before := memo.table;
    FillingStart(before, state);
    for i := 0 to |PossibleRolls|
      invariant Filling(before, memo.table, state, i)
    {
      CountRoll(p1Pos, p2Pos, p1Score, p2Score, i, memo, before);
    }
    FillingDone(before, memo.table, state);
    return memo.table[state];
  }

  /**
   * One turn of the loop of `count_states` over `POSSIBLE_ROLLS`: the
   * sub-game after the i-th roll is counted, with the players' roles swapped,
   * and its wins, swapped back and multiplied by the roll's frequency, are
   * added to the entry of the state (inserted as (0, 0) the first time).
   */
  method CountRoll(p1Pos: nat, p2Pos: nat, p1Score: nat, p2Score: nat, i: nat, memo: Memo, ghost before: map<Key, (nat, nat)>)
    requires i < |PossibleRolls| && Filling(before, memo.table, (p1Pos, p2Pos, p1Score, p2Score), i)
    modifies memo
    ensures Filling(before, memo.table, (p1Pos, p2Pos, p1Score, p2Score), i + 1)
    decreases Remaining(p1Score, p2Score), 0
  {
    ghost var state := (p1Pos, p2Pos, p1Score, p2Score);
    var (add, freq) := PossibleRolls[i];
    var p1NPos: nat := (p1Pos + add) % 10;
    var p2NPos: nat := p2Pos;
    var p1NScore: nat := p1Score + p1NPos + 1;
    var p2NScore: nat := p2Score;
    ghost var t0 := memo.table;
    RankDrops(state, add);
    var subtree := CountStates(p2NPos, p1NPos, p2NScore, p1NScore, memo);
    var entry := if (p1Pos, p2Pos, p1Score, p2Score) in memo.table then memo.table[(p1Pos, p2Pos, p1Score, p2Score)] else (0, 0);
    FillingStep(before, t0, memo.table, state, i, add, freq, (p2NPos, p1NPos, p2NScore, p1NScore), subtree, entry);
    WeightedIsProduct(entry, freq, subtree);
    memo.table := memo.table[(p1Pos, p2Pos, p1Score, p2Score) := (entry.0 + freq * subtree.1, entry.1 + freq * subtree.0)];
  }

  /**
   * Part two as `main` calls it: spaces counted from 0 (a starting space 0
   * underflows, None) and a fresh memo; `WinsCountUniverses` shows the count
   * is the universe-by-universe one.
   */
  method CountWins(initial: GameState) returns (r: Option<(nat, nat)>)
    ensures r.None? <==> initial.onePos == 0 || initial.twoPos == 0
    ensures r.Some? ==> r.value == Wins(initial.onePos - 1, initial.twoPos - 1, 0, 0)
  {
    if initial.onePos == 0 || initial.twoPos == 0 {
      return None;
    }
    var memo := new Memo();
    var wins := CountStates(initial.onePos - 1, initial.twoPos - 1, 0, 0, memo);
    return Some(wins);
  }
}
