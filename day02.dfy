/**
 * Dive (day 2): submarine commands and the position they lead to, first with
 * plain depth changes and then with an aim that turns forward moves into dives.
 * The commands and their processing are defined identically in the program and
 * in its public `direction` module; this module models both.
 */
module Day02 {
  import opened Common
  import opened Text

  datatype Direction = Up(units: nat) | Down(units: nat) | Forward(units: nat)

  /** The single parse error of the command reader. */
  datatype DirectionInvalidFormat = DirectionInvalidFormat

  /**
   * Reading "command units": the first two whitespace-separated words are the
   * command and a usize; further words are ignored.
   */
  function ParseDirection(s: string): (r: Result<Direction, DirectionInvalidFormat>)
    ensures r.Ok? <==> |Words(s)| >= 2 && ParseUsize(Words(s)[1]).Some? && Words(s)[0] in {"forward", "up", "down"}
    ensures r.Ok? ==> r.value.units == ParseUsize(Words(s)[1]).value
    ensures r.Ok? ==> (r.value.Forward? <==> Words(s)[0] == "forward") && (r.value.Up? <==> Words(s)[0] == "up")
  {
    var words := Words(s);
    if |words| < 1 then Err(DirectionInvalidFormat)
    else if |words| < 2 then Err(DirectionInvalidFormat)
    else match ParseUsize(words[1])
      case None => Err(DirectionInvalidFormat)
      case Some(units) =>
        if words[0] == "forward" then Ok(Forward(units))
        else if words[0] == "up" then Ok(Up(units))
        else if words[0] == "down" then Ok(Down(units))
        else Err(DirectionInvalidFormat)
  }

  /** A command written out as "command units" is read back unchanged. */
  lemma ParseWritten(d: Direction)
    requires d.units <= USIZE_MAX
    ensures ParseDirection(Written(d)) == Ok(d)
  {
    var digits := Decimal(d.units);
    assert NoSpace(digits) by {
      assert forall k :: 0 <= k < |digits| ==> IsDigit(digits[k]);
    }
    WordsOfPair(Name(d), digits);
    ParseDecimal(d.units);
  }



  function Written(d: Direction): string
  {
    Name(d) + " " + Decimal(d.units)
  }

  function Name(d: Direction): string
  {
    match d
    case Forward(_) => "forward"
    case Up(_) => "up"
    case Down(_) => "down"
  }


  /** `up` subtracts from an unsigned depth, which must not go below zero. */
  predicate CanProcess(d: Direction, pos: (nat, nat))
  {
    d.Up? ==> pos.1 >= d.units
  }

  /** One command without aim: forward moves horizontally, up and down change the depth. */
  function Process(d: Direction, pos: (nat, nat)): (r: (nat, nat))
    requires CanProcess(d, pos)
    ensures d.Forward? ==> r.1 == pos.1 && r.0 - pos.0 == d.units
    ensures !d.Forward? ==> r.0 == pos.0 && r.1 - pos.1 == (if d.Up? then -(d.units as int) else d.units as int)
  {
    match d
    case Forward(u) => (pos.0 + u, pos.1)
    case Up(u) => (pos.0, pos.1 - u)
    case Down(u) => (pos.0, pos.1 + u)
  }

  /** One command with aim: forward moves and dives by aim·units, up and down change only the aim. */
  predicate CanProcessAimed(d: Direction, pos: (nat, nat, nat))
  {
    d.Up? ==> pos.2 >= d.units
  }

  function ProcessAimed(d: Direction, pos: (nat, nat, nat)): (r: (nat, nat, nat))
    requires CanProcessAimed(d, pos)
    ensures d.Forward? ==> r.0 - pos.0 == d.units && r.1 - pos.1 == pos.2 * d.units && r.2 == pos.2
    ensures !d.Forward? ==> r.0 == pos.0 && r.1 == pos.1 && r.2 - pos.2 == (if d.Up? then -(d.units as int) else d.units as int)
  {
    match d
    case Forward(u) => (pos.0 + u, pos.1 + pos.2 * u, pos.2)
    case Up(u) => (pos.0, pos.1, pos.2 - u)
    case Down(u) => (pos.0, pos.1, pos.2 + u)
  }

  /** The commands never take the depth above the surface when folded from (0, 0). */
  predicate Steerable(ds: seq<Direction>)
    decreases |ds|, 0
  {
    ds == [] || (Steerable(ds[..|ds| - 1]) && CanProcess(ds[|ds| - 1], FinalPosition(ds[..|ds| - 1])))
  }

  /** `final_shuttle_position`: `process` folded over the commands from (0, 0). */
  function FinalPosition(ds: seq<Direction>): (nat, nat)
    requires Steerable(ds)
    decreases |ds|, 1
  {
    if ds == [] then (0, 0) else Process(ds[|ds| - 1], FinalPosition(ds[..|ds| - 1]))
  }

  /** The total units of the commands of one kind. */
  function Total(ds: seq<Direction>, kind: Direction -> bool): nat
  {
    if ds == [] then 0 else Total(ds[..|ds| - 1], kind) + (if kind(ds[|ds| - 1]) then ds[|ds| - 1].units else 0)
  }

  function IsForward(d: Direction): bool { d.Forward? }
  function IsUp(d: Direction): bool { d.Up? }
  function IsDown(d: Direction): bool { d.Down? }

  /** The final position is the sum of the forward moves and the downs minus the ups. */
  lemma {:induction false} FinalPositionSums(ds: seq<Direction>)
    requires Steerable(ds)
    ensures FinalPosition(ds).0 == Total(ds, IsForward)
    ensures FinalPosition(ds).1 == Total(ds, IsDown) - Total(ds, IsUp)
  {
    if ds != [] {
      FinalPositionSums(ds[..|ds| - 1]);
    }
  }

  predicate SteerableAimed(ds: seq<Direction>)
    decreases |ds|, 0
  {
    ds == [] || (SteerableAimed(ds[..|ds| - 1]) && CanProcessAimed(ds[|ds| - 1], Aimed(ds[..|ds| - 1])))
  }

  /** `process_aimed` folded over the commands from (0, 0, 0). */
  function Aimed(ds: seq<Direction>): (nat, nat, nat)
    requires SteerableAimed(ds)
    decreases |ds|, 1
  {
    if ds == [] then (0, 0, 0) else ProcessAimed(ds[|ds| - 1], Aimed(ds[..|ds| - 1]))
  }

  /** `final_shuttle_position_aimed`: the aimed fold without its aim. */
  function FinalPositionAimed(ds: seq<Direction>): (nat, nat)
    requires SteerableAimed(ds)
  {
    var (h, d, _) := Aimed(ds);
    (h, d)
  }

  /** The depth gained by each forward move at the aim reached before it. */
  function Dive(ds: seq<Direction>): int
  {
    if ds == [] then 0
    else
      var prefix := ds[..|ds| - 1];
      var d := ds[|ds| - 1];
      Dive(prefix) + (if d.Forward? then (Total(prefix, IsDown) - Total(prefix, IsUp)) * d.units else 0)
  }

  /**
   * With aim, the horizontal position is still the sum of the forward moves, the
   * aim is the downs minus the ups, and the depth accumulates aim·units per forward move.
   */
  lemma {:induction false} AimedSums(ds: seq<Direction>)
    requires SteerableAimed(ds)
    ensures FinalPositionAimed(ds).0 == Total(ds, IsForward)
    ensures Aimed(ds).2 == Total(ds, IsDown) - Total(ds, IsUp)
    ensures FinalPositionAimed(ds).1 == Dive(ds)
  {
    if ds != [] {
      AimedSums(ds[..|ds| - 1]);
    }
  }
}
