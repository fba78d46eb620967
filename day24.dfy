/**
 * Arithmetic logic unit (day 24): a machine with four `i64` registers w, x,
 * y and z and a tape of inputs, the parser of its instructions, and
 * `digits_of`.  The search for model numbers is in `Day24Search`.
 *
 * The program is built in Rust's debug profile: an `i64` addition or
 * multiplication that overflows panics, as does `i64::MIN / -1` and
 * `i64::MIN % -1` in every profile.
 */
module Day24 {
  import opened Common
  import opened Text

  /** `Operand`: one of the four registers, or a constant. */
  datatype Operand = W | X | Y | Z | C(constant: int)

  /** `Memory`: the four registers. */
  datatype Memory = Memory(w: int, x: int, y: int, z: int)

  /** The registers when `execute` starts. */
  const ZERO_MEM := Memory(0, 0, 0, 0)

  /** `EXC_MEM`: what `execute` returns on a division by zero or an empty tape. */
  const EXC_MEM := Memory(0, 0, 0, 1)

  predicate InI64(v: int)
  {
    I64_MIN <= v <= I64_MAX
  }

  predicate MemoryInI64(m: Memory)
  {
    InI64(m.w) && InI64(m.x) && InI64(m.y) && InI64(m.z)
  }

  /** `Memory::value`: a register's content, or the constant itself. */
  function Value(m: Memory, a: Operand): int
  {
    match a
    case W => m.w
    case X => m.x
    case Y => m.y
    case Z => m.z
    case C(v) => v
  }

  /**
   * `*mem.reg(a) = v`: register a becomes v and no other register changes;
   * None where `reg` panics because a is a constant.
   */
  function Write(m: Memory, a: Operand, v: int): (r: Option<Memory>)
    ensures r.None? <==> a.C?
    ensures r.Some? ==> Value(r.value, a) == v
    ensures r.Some? ==> forall b: Operand :: !b.C? && b != a ==> Value(r.value, b) == Value(m, b)
  {
    match a
    case W => Some(m.(w := v))
    case X => Some(m.(x := v))
    case Y => Some(m.(y := v))
    case Z => Some(m.(z := v))
    case C(_) => None
  }

  // Rust's integer division

  function Abs(v: int): nat
  {
    if v < 0 then -v else v
  }

  /** Rust's `/` on `i64`: the quotient rounded toward zero. */
  function Quot(a: int, b: int): int
    requires b != 0
  {
    var q := Abs(a) / Abs(b);
    if (a < 0) == (b < 0) then q else -q
  }

  /** Rust's `%` on `i64`: what is left after `Quot`. */
  function Rem(a: int, b: int): int
    requires b != 0
  {
    a - b * Quot(a, b)
  }

  /**
   * The truncating quotient has the magnitude of the quotient of the
   * magnitudes, and the remainder that of their remainder, with the sign of
   * the dividend; unlike Dafny's Euclidean `%`, it is negative for a
   * negative dividend that the divisor does not divide.
   */
  lemma QuotRem(a: int, b: int)
    requires b != 0
    ensures Abs(Quot(a, b)) == Abs(a) / Abs(b)
    ensures Rem(a, b) == if a < 0 then -(Abs(a) % Abs(b)) else Abs(a) % Abs(b)
    ensures Abs(Rem(a, b)) < Abs(b)
  {
    var q, r0 := Abs(a) / Abs(b), Abs(a) % Abs(b);
    var bq := Abs(b) * q;
    assert Abs(a) == bq + r0;
    SignedProduct(b, q);
    assert b * Quot(a, b) == if a < 0 then -bq else bq;
  }

  /** The product of b and the magnitude q, from the sign of b. */
  lemma SignedProduct(b: int, q: int)
    ensures b * q == if b < 0 then -(Abs(b) * q) else Abs(b) * q
    ensures b * -q == -(b * q)
  {
  }

  /** On a non-negative dividend and a positive divisor the truncating and Euclidean operators agree. */
  lemma NonNegativeQuotRem(a: int, b: int)
    requires a >= 0 && b > 0
    ensures Quot(a, b) == a / b && Rem(a, b) == a % b
  {
    QuotRem(a, b);
  }

  // Instructions and their execution

  /** `Operation`: `inp a`, or a two-operand instruction that stores in a. */
  datatype Operation =
    | Inp(a: Operand)
    | Add(a: Operand, b: Operand)
    | Mul(a: Operand, b: Operand)
    | Div(a: Operand, b: Operand)
    | Mod(a: Operand, b: Operand)
    | Eql(a: Operand, b: Operand)

  datatype Fault =
    | ConstantRegister   // `reg` on a constant: "Attempt to take const as register"
    | Overflow           // an `i64` result out of range

  /** Where a run stands: going on, stopped with `EXC_MEM`, or panicked. */
  datatype State = Going(mem: Memory, tape: seq<int>) | Exception | Panic(fault: Fault)

  /** Register a gets v: a panic on a constant, or on a value outside `i64`. */
  function Store(m: Memory, a: Operand, v: int, tape: seq<int>): State
  {
    match Write(m, a, v)
    case None => Panic(ConstantRegister)
    case Some(next) => if InI64(v) then Going(next, tape) else Panic(Overflow)
  }

  /** The value an instruction stores in its first operand. */
  function Stored(op: Operation, m: Memory, tape: seq<int>): int
    requires op.Inp? ==> tape != []
    requires !op.Inp? && (op.Div? || op.Mod?) ==> Value(m, op.b) != 0
  {
    match op
    case Inp(_) => tape[0]
    case Add(a, b) => Value(m, a) + Value(m, b)
    case Mul(a, b) => Value(m, a) * Value(m, b)
    case Div(a, b) => Quot(Value(m, a), Value(m, b))
    case Mod(a, b) => Rem(Value(m, a), Value(m, b))
    case Eql(a, b) => if Value(m, a) == Value(m, b) then 1 else 0
  }

  /** One turn of the loop of `execute`. */
  function Exec(op: Operation, m: Memory, tape: seq<int>): (r: State)
    ensures r == Exception <==> (op.Inp? && tape == []) || ((op.Div? || op.Mod?) && Value(m, op.b) == 0)
    ensures r == Panic(ConstantRegister) ==> op.a.C?
    ensures r.Going? ==> !op.a.C? && Value(r.mem, op.a) == Stored(op, m, tape) && InI64(Value(r.mem, op.a))
    ensures r.Going? ==> forall b: Operand :: !b.C? && b != op.a ==> Value(r.mem, b) == Value(m, b)
    ensures r.Going? ==> r.tape == if op.Inp? then tape[1..] else tape
  {
    match op
    case Inp(a) => if tape == [] then Exception else Store(m, a, tape[0], tape[1..])
    case Add(a, b) => Store(m, a, Value(m, a) + Value(m, b), tape)
    case Mul(a, b) => Store(m, a, Value(m, a) * Value(m, b), tape)
    case Div(a, b) =>
      if Value(m, b) == 0 then Exception
      else Store(m, a, Quot(Value(m, a), Value(m, b)), tape)
    case Mod(a, b) =>
      if Value(m, b) == 0 then Exception
      else if Value(m, a) == I64_MIN && Value(m, b) == -1 && !a.C? then Panic(Overflow)
      else Store(m, a, Rem(Value(m, a), Value(m, b)), tape)
    case Eql(a, b) => Store(m, a, if Value(m, a) == Value(m, b) then 1 else 0, tape)
  }

  /** The instructions run in order from a state that is going. */
  function RunFrom(program: seq<Operation>, m: Memory, tape: seq<int>): State
  {
    if program == [] then Going(m, tape)
    else
      match Exec(program[0], m, tape)
      case Going(next, rest) => RunFrom(program[1..], next, rest)
      case stopped => stopped
  }

  /** Running more instructions after a run: only a run that is still going goes on. */
  function Then(s: State, program: seq<Operation>): State
  {
    match s
    case Going(m, tape) => RunFrom(program, m, tape)
    case stopped => stopped
  }

  /** What `execute` returns for a final state: the registers, `EXC_MEM`, or the panic. */
  function Outcome(s: State): Result<Memory, Fault>
  {
    match s
    case Going(m, _) => Ok(m)
    case Exception => Ok(EXC_MEM)
    case Panic(f) => Err(f)
  }

  /** `ArithmeticLogicUnit::execute`: runs the program from zeroed registers, popping inputs off the tape. */
  method Execute(program: seq<Operation>, input: seq<int>) returns (r: Result<Memory, Fault>)
    ensures r == Outcome(RunFrom(program, ZERO_MEM, input))
  {
    var mem := ZERO_MEM;
    var tape := input;
    for i := 0 to |program|
      invariant RunFrom(program, ZERO_MEM, input) == RunFrom(program[i..], mem, tape)
    {
      assert program[i..][1..] == program[i + 1..];
      match Exec(program[i], mem, tape)
      case Going(next, rest) =>
        mem, tape := next, rest;
      case Exception =>
        return Ok(EXC_MEM);
      case Panic(f) =>
        return Err(f);
    }
    r := Ok(mem);
  }

  /** Running two programs one after the other is running their concatenation. */
  lemma {:induction false} RunAppend(p: seq<Operation>, q: seq<Operation>, m: Memory, tape: seq<int>)
    ensures RunFrom(p + q, m, tape) == Then(RunFrom(p, m, tape), q)
    decreases |p|
  {
    if p == [] {
      assert p + q == q;
    } else {
      assert (p + q)[0] == p[0];
      assert (p + q)[1..] == p[1..] + q;
      match Exec(p[0], m, tape)
      case Going(next, rest) =>
        RunAppend(p[1..], q, next, rest);
      case _ =>
    }
  }

  /** The number of `inp` instructions. */
  function Inputs(program: seq<Operation>): nat
  {
    if program == [] then 0 else (if program[0].Inp? then 1 else 0) + Inputs(program[1..])
  }

  /**
   * A run that gets to the end reads exactly one input per `inp` from the
   * front of the tape, and keeps every register within `i64`.
   */
  lemma {:induction false} RunConsumes(program: seq<Operation>, m: Memory, tape: seq<int>)
    requires MemoryInI64(m)
    ensures RunFrom(program, m, tape).Going? ==>
      Inputs(program) <= |tape| && RunFrom(program, m, tape).tape == tape[Inputs(program)..]
      && MemoryInI64(RunFrom(program, m, tape).mem)
    decreases |program|
  {
    if program != [] {
      var op := program[0];
      match Exec(op, m, tape)
      case Going(next, rest) =>
        assert Value(next, W) == next.w && Value(next, X) == next.x && Value(next, Y) == next.y && Value(next, Z) == next.z;
        assert MemoryInI64(next);
        RunConsumes(program[1..], next, rest);
        if op.Inp? && RunFrom(program[1..], next, rest).Going? {
          assert rest == tape[1..];
          assert tape[1..][Inputs(program[1..])..] == tape[Inputs(program)..];
        }
      case _ =>
    }
  }

  /** Whatever `execute` returns is a set of `i64` registers. */
  lemma ExecuteInI64(program: seq<Operation>, input: seq<int>)
    ensures Outcome(RunFrom(program, ZERO_MEM, input)).Ok? ==> MemoryInI64(Outcome(RunFrom(program, ZERO_MEM, input)).value)
  {
    RunConsumes(program, ZERO_MEM, input);
  }

  // Parsing

  datatype ParseError =
    | MissingOperation           // a blank line
    | UnknownOperation           // a first word other than the six mnemonics
    | MissingOperand(index: nat) // fewer operands than the instruction takes
    | InvalidConstant(index: nat) // an operand that is neither a register nor an `i64`

  function RegisterName(a: Operand): string
  {
    match a
    case W => "w"
    case X => "x"
    case Y => "y"
    case Z => "z"
    case C(_) => ""
  }

  predicate IsRegisterName(word: string)
  {
    word == "x" || word == "y" || word == "w" || word == "z"
  }

  /**
   * `operand`: operand number `index` is word `index` of the line; "x", "y",
   * "w" and "z" name registers and any other word must parse as an `i64`.
   */
  function OperandAt(words: seq<string>, index: nat): (r: Result<Operand, ParseError>)
    ensures |words| <= index ==> r == Err(MissingOperand(index))
    ensures index < |words| && IsRegisterName(words[index]) ==> r.Ok? && RegisterName(r.value) == words[index]
    ensures index < |words| && !IsRegisterName(words[index]) ==>
      match ParseSigned(words[index], I64_MIN, I64_MAX)
      case None => r == Err(InvalidConstant(index))
      case Some(v) => r == Ok(C(v))
  {
    if |words| <= index then Err(MissingOperand(index))
    else
      match words[index]
      case "x" => Ok(X)
      case "y" => Ok(Y)
      case "w" => Ok(W)
      case "z" => Ok(Z)
      case c =>
        match ParseSigned(c, I64_MIN, I64_MAX)
        case None => Err(InvalidConstant(index))
        case Some(v) => Ok(C(v))
  }

  /** `two_operands`: operand 1, then operand 2, the first failure being the error. */
  function TwoOperands(words: seq<string>): Result<(Operand, Operand), ParseError>
  {
    match OperandAt(words, 1)
    case Err(e) => Err(e)
    case Ok(a) =>
      match OperandAt(words, 2)
      case Err(e) => Err(e)
      case Ok(b) => Ok((a, b))
  }

  function Mnemonic(op: Operation): string
  {
    match op
    case Inp(_) => "inp"
    case Add(_, _) => "add"
    case Mul(_, _) => "mul"
    case Div(_, _) => "div"
    case Mod(_, _) => "mod"
    case Eql(_, _) => "eql"
  }

  predicate IsMnemonic(word: string)
  {
    word == "inp" || word == "add" || word == "mul" || word == "div" || word == "mod" || word == "eql"
  }

  /** An operand as it is read: registers by name, constants in range. */
  predicate WellFormed(a: Operand)
  {
    a.C? ==> InI64(a.constant)
  }

  predicate OperationWellFormed(op: Operation)
  {
    WellFormed(op.a) && (!op.Inp? ==> WellFormed(op.b))
  }

  /** The instruction named by the first word with the operands that follow it. */
  function ParseWords(words: seq<string>): (r: Result<Operation, ParseError>)
    ensures words == [] <==> r == Err(MissingOperation)
    ensures words != [] && !IsMnemonic(words[0]) <==> r == Err(UnknownOperation)
    ensures r.Ok? ==> Mnemonic(r.value) == words[0] && OperationWellFormed(r.value)
    ensures r.Ok? ==> OperandAt(words, 1) == Ok(r.value.a)
    ensures r.Ok? && !r.value.Inp? ==> OperandAt(words, 2) == Ok(r.value.b)
  {
    if words == [] then Err(MissingOperation)
    else if words[0] == "inp" then
      match OperandAt(words, 1)
      case Err(e) => Err(e)
      case Ok(a) => Ok(Inp(a))
    else if !IsMnemonic(words[0]) then Err(UnknownOperation)
    else
      match TwoOperands(words)
      case Err(e) => Err(e)
      case Ok((a, b)) =>
        Ok(match words[0]
          case "add" => Add(a, b)
          case "mul" => Mul(a, b)
          case "div" => Div(a, b)
          case "mod" => Mod(a, b)
          case _ => Eql(a, b))
  }

  /**
   * `Operation::from_str`: the mnemonic is the first whitespace-separated
   * word and the operands the next one or two; later words are ignored.
   */
  function ParseOperation(s: string): Result<Operation, ParseError>
  {
    ParseWords(Words(s))
  }

  /** `Program::from_str`: every line's instruction, or the error of the first line that fails. */
  function ParseProgram(s: string): (r: Result<seq<Operation>, ParseError>)
    ensures r.Ok? <==> forall k :: 0 <= k < |Lines(s)| ==> ParseOperation(Lines(s)[k]).Ok?
    ensures r.Ok? ==> |r.value| == |Lines(s)| && forall k :: 0 <= k < |Lines(s)| ==> ParseOperation(Lines(s)[k]) == Ok(r.value[k])
    ensures r.Err? ==> exists k :: (0 <= k < |Lines(s)| && ParseOperation(Lines(s)[k]) == Err(r.error)
      && forall j :: 0 <= j < k ==> ParseOperation(Lines(s)[j]).Ok?)
  {
    var lines := Lines(s);
    var rs := seq(|lines|, k requires 0 <= k < |lines| => ParseOperation(lines[k]));
    var r := Collect(rs);
    assert forall k :: 0 <= k < |lines| ==> rs[k] == ParseOperation(lines[k]);
    r
  }

  // Writing an instruction back

  function OperandText(a: Operand): string
  {
    if a.C? then SignedText(a.constant) else RegisterName(a)
  }

  function OperationWords(op: Operation): seq<string>
  {
    if op.Inp? then [Mnemonic(op), OperandText(op.a)]
    else [Mnemonic(op), OperandText(op.a), OperandText(op.b)]
  }

  /** An instruction as the puzzle writes it: "add x -12". */
  function OperationText(op: Operation): string
  {
    Join(OperationWords(op), " ")
  }

  lemma OperandTextReads(words: seq<string>, index: nat, a: Operand)
    requires WellFormed(a) && index < |words| && words[index] == OperandText(a)
    ensures OperandAt(words, index) == Ok(a)
    ensures words[index] != [] && NoSpace(words[index])
  {
    var t := OperandText(a);
    if a.C? {
      ParseSignedText(a.constant);
      assert t[0] == '-' || IsDigit(t[0]);
      assert !IsRegisterName(t);
      assert forall i :: 0 <= i < |t| ==> t[i] == '-' || IsDigit(t[i]);
    }
  }

  lemma WordsRoundTrip(op: Operation)
    requires OperationWellFormed(op)
    ensures ParseWords(OperationWords(op)) == Ok(op)
  {
    var words := OperationWords(op);
    OperandTextReads(words, 1, op.a);
    if !op.Inp? {
      OperandTextReads(words, 2, op.b);
    }
  }

  /** Reading an instruction written out gives it back. */
  lemma OperationRoundTrip(op: Operation)
    requires OperationWellFormed(op)
    ensures ParseOperation(OperationText(op)) == Ok(op)
  {
    var words := OperationWords(op);
    WordsRoundTrip(op);
    OperandTextReads(words, 1, op.a);
    if !op.Inp? {
      OperandTextReads(words, 2, op.b);
    }
    WordsOfJoined(words);
  }

  // `digits_of`

  /** The base-10 digits of n, least significant first, each with the sign of n. */
  function Digits(n: int): (r: seq<int>)
    decreases Abs(n)
  {
    if n == 0 then []
    else
      QuotRem(n, 10);
      [Rem(n, 10)] + Digits(Quot(n, 10))
  }

  /** The number a list of digits, least significant first, stands for. */
  function FromDigits(ds: seq<int>): int
  {
    if ds == [] then 0 else ds[0] + 10 * FromDigits(ds[1..])
  }

  /** `digits_of`: pushes `r % 10` and divides r by 10 until it is 0. */
  method DigitsOf(n: int) returns (digits: seq<int>)
    ensures digits == Digits(n)
  {
    var r := n;
    digits := [];
    while r != 0
      invariant digits + Digits(r) == Digits(n)
      decreases Abs(r)
    {
      QuotRem(r, 10);
      assert Digits(r) == [Rem(r, 10)] + Digits(Quot(r, 10));
      digits := digits + [Rem(r, 10)];
      r := Quot(r, 10);
    }
  }

  /**
   * The digits stand for n; none for 0; every digit lies in 0..9 for a
   * non-negative n and in -9..0 for a negative one; the most significant is
   * not 0.
   */
  lemma {:induction false} DigitsMeaning(n: int)
    ensures FromDigits(Digits(n)) == n
    ensures Digits(n) == [] <==> n == 0
    ensures forall k :: 0 <= k < |Digits(n)| ==> if n >= 0 then 0 <= Digits(n)[k] <= 9 else -9 <= Digits(n)[k] <= 0
    ensures Digits(n) != [] ==> Digits(n)[|Digits(n)| - 1] != 0
    decreases Abs(n)
  {
    if n != 0 {
      QuotRem(n, 10);
      var q := Quot(n, 10);
      DigitsMeaning(q);
      assert Digits(n) == [Rem(n, 10)] + Digits(q);
      assert n == 10 * q + Rem(n, 10);
      assert q != 0 ==> (q >= 0 <==> n >= 0);
    }
  }

  /** Digits 0..9 without a leading zero are the digits of the number they stand for. */
  lemma {:induction false} DigitsOfValue(ds: seq<int>)
    requires forall k :: 0 <= k < |ds| ==> 0 <= ds[k] <= 9
    requires ds != [] ==> ds[|ds| - 1] != 0
    ensures FromDigits(ds) >= 0
    ensures Digits(FromDigits(ds)) == ds
    decreases |ds|
  {
    if ds != [] {
      var rest := ds[1..];
      DigitsOfValue(rest);
      var n := FromDigits(ds);
      assert n == ds[0] + 10 * FromDigits(rest);
      if rest == [] {
        assert n == ds[0] && n != 0;
      } else {
        assert FromDigits(rest) != 0 by {
          DigitsMeaning(FromDigits(rest));
        }
      }
      NonNegativeQuotRem(n, 10);
      assert Quot(n, 10) == FromDigits(rest) && Rem(n, 10) == ds[0];
    }
  }
}
