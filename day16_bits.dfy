/**
 * Packet decoder (day 16), the program's own state: `BitsIter` walks the
 * hexadecimal text one bit at a time, and `parse`, `read_to_u8`,
 * `read_to_u16` and `read_literal` pull bits from it in loops.  Each method
 * is proved to compute what the pure model of the same step computes from
 * the bits the iterator has still to yield.
 */
module Day16Bits {
  import opened Common
  import opened Day16

  /** What one call of `next` gives: a bit, the end of the text, or the panic of `as_nibble`. */
  datatype Yield = Bit(bit: bool) | Exhausted | Panic

  /** One `next` on the stream of bits still to come, and the stream after it. */
  function Step(st: Stream): (r: (Yield, Stream))
    ensures r.0.Bit? <==> st.bits != []
    ensures r.0.Bit? ==> [r.0.bit] + r.1.bits == st.bits && r.1.broken == st.broken
    ensures r.0.Panic? <==> st.bits == [] && st.broken
  {
    if st.bits != [] then
      assert [st.bits[0]] + st.bits[1..] == st.bits;
      (Bit(st.bits[0]), Stream(st.bits[1..], st.broken))
    else if st.broken then (Panic, st)
    else (Exhausted, st)
  }

  class BitsIter {
    var chars: string
    var bitIdx: nat
    var current: nat
    var processedBits: nat

    /** `bit_idx` counts the bits of `current` already yielded; `current` is the byte `as_nibble` produced. */
    predicate Valid()
      reads this
    {
      bitIdx <= 4 && current < 256
    }

    /** The bits still to come: the rest of the current nibble, then those of the characters not yet read. */
    function Pending(): Stream
      reads this
      requires Valid()
    {
      PendingOf(chars, current, bitIdx)
    }

    /** Bits yielded so far plus bits still to come: the same before and after every read. */
    function Mark(): nat
      reads this
      requires Valid()
    {
      processedBits + |Pending().bits|
    }

    /** `BitsIter::take`: no nibble loaded yet (`bit_idx` 4), nothing processed. */
    constructor (s: string)
      ensures Valid() && Pending() == HexBits(s) && processedBits == 0
    {
      chars := s;
      bitIdx := 4;
      current := 0;
      processedBits := 0;
      assert NibbleBits(0)[4..] == [];
    }

    /** `next`: loads the next character's nibble when the current one is used up, then yields bit `3 - bit_idx` of it. */
    method Next() returns (y: Yield)
      requires Valid()
      modifies this
      ensures Valid() && Mark() == old(Mark())
      ensures y == Step(old(Pending())).0
      ensures y.Bit? ==> Pending() == Step(old(Pending())).1
      ensures y.Exhausted? ==> Pending() == old(Pending())
    {
      if bitIdx == 4 {
        if chars == [] {
          NothingLeft(current);
          return Exhausted;
        }
        var nibble := NibbleOf(chars[0]);
        if nibble.None? {
          NoNibble(chars, current);
          return Panic;
        }
        LoadNibble(chars, current);
        chars := chars[1..];
        current := nibble.value;
        bitIdx := 0;
      }
      ShiftBit(chars, current, bitIdx);
      var bit := current / Pow2(3 - bitIdx) % 2;
      bitIdx := bitIdx + 1;
      processedBits := processedBits + 1;
      y := Bit(bit == 1);
    }
  }

  /** The bits an iterator has still to yield, from its characters, its current nibble and `bit_idx`. */
  function PendingOf(chars: string, current: nat, bitIdx: nat): (st: Stream)
    requires bitIdx <= 4
    ensures |st.bits| == 4 - bitIdx + |HexBits(chars).bits| && st.broken == HexBits(chars).broken
  {
    var rest := HexBits(chars);
    Stream(NibbleBits(current)[bitIdx..] + rest.bits, rest.broken)
  }

  /** With the current nibble used up and no characters left, nothing is to come and nothing panics. */
  lemma NothingLeft(current: nat)
    ensures PendingOf([], current, 4) == Stream([], false)
  {
    assert NibbleBits(current)[4..] == [];
  }

  /** With the current nibble used up, a character without a nibble is next: the stream is broken here. */
  lemma NoNibble(chars: string, current: nat)
    requires chars != [] && NibbleOf(chars[0]).None?
    ensures PendingOf(chars, current, 4) == Stream([], true)
  {
    assert NibbleBits(current)[4..] == [];
  }

  /** Loading the next character's nibble changes nothing about the bits to come. */
  lemma LoadNibble(chars: string, current: nat)
    requires chars != [] && NibbleOf(chars[0]).Some?
    ensures PendingOf(chars, current, 4) == PendingOf(chars[1..], NibbleOf(chars[0]).value, 0)
  {
    var v := NibbleOf(chars[0]).value;
    assert NibbleBits(current)[4..] == [] && NibbleBits(v)[0..] == NibbleBits(v);
  }

  /** Yielding bit `3 - bit_idx` of the current nibble is one step of the stream. */
  lemma ShiftBit(chars: string, current: nat, bitIdx: nat)
    requires bitIdx < 4
    ensures Step(PendingOf(chars, current, bitIdx)) == (Bit(current / Pow2(3 - bitIdx) % 2 == 1), PendingOf(chars, current, bitIdx + 1))
  {
    var rest := HexBits(chars);
    NibbleBit(current, bitIdx);
    Associative([current / Pow2(3 - bitIdx) % 2 == 1], NibbleBits(current)[bitIdx + 1..], rest.bits);
  }

  /** Bit i of a nibble's four, counted from the most significant, is `v >> (3 - i) & 1`. */
  lemma NibbleBit(v: nat, i: nat)
    requires i < 4
    ensures NibbleBits(v)[i..] == [v / Pow2(3 - i) % 2 == 1] + NibbleBits(v)[i + 1..]
  {
    Pow2Facts();
    assert Pow2(2) == 4;
  }

  // Reading numbers and literals

  /** A read with `high` already accumulated from the bits before it. */
  function Plus(t: Option<(nat, Stream)>, high: nat): Option<(nat, Stream)>
  {
    if t.None? then None else Some((high + t.value.0, t.value.1))
  }

  /**
   * `read_to_u8` and `read_to_u16`: the loop over `iter.take(len)` sets bit
   * `len - i - 1` of the result for every 1 it gets (`|=` on a bit not yet
   * set is `+`).  A `u16` shifted by 16 or more would overflow, so `len` is
   * at most 16.
   */
  method ReadTo(iter: BitsIter, len: nat) returns (r: Result<nat, ParseError>)
    requires iter.Valid() && len <= 16
    modifies iter
    ensures iter.Valid() && iter.Mark() == old(iter.Mark())
    ensures r.Ok? ==> Take(old(iter.Pending()), len) == Some((r.value, iter.Pending()))
    ensures r.Err? ==> Take(old(iter.Pending()), len) == None && r.error == BadHexDigit
  {
    ghost var start := iter.Pending();
    var result: nat := 0;
    var i: nat := 0;
    ReadStart(start, len);
    while i < len
      invariant iter.Valid() && iter.Mark() == old(iter.Mark()) && i <= len
      invariant Reading(start, len, i, result, iter.Pending())
    {
      var y, next := ReadStep(iter, start, len, i, result);
      if y.Panic? {
        return Err(BadHexDigit);
      }
      if y.Exhausted? {
        break;
      }
      result, i := next, i + 1;
    }
    if i == len {
      ReadAll(start, len, i, result, iter.Pending());
    }
    r := Ok(result);
  }

  /** One turn of the loop in `ReadTo`: the next bit, and the result with it added. */
  method ReadStep(iter: BitsIter, ghost start: Stream, len: nat, i: nat, result: nat) returns (y: Yield, next: nat)
    requires iter.Valid() && i < len && Reading(start, len, i, result, iter.Pending())
    modifies iter
    ensures iter.Valid() && iter.Mark() == old(iter.Mark())
    ensures y.Bit? ==> Reading(start, len, i + 1, next, iter.Pending())
    ensures y.Exhausted? ==> Take(start, len) == Some((result, iter.Pending()))
    ensures y.Panic? ==> Take(start, len) == None
  {
    ghost var before := iter.Pending();
    y := iter.Next();
    next := result;
    match y {
      case Panic =>
        ReadPanic(start, len, i, result, before);
      case Exhausted =>
        ReadEnd(start, len, i, result, before);
      case Bit(b) =>
        if b {
          next := result + Pow2(len - i - 1);
        }
        ReadBit(start, len, i, result, next, before, b, iter.Pending());
    }
  }

  /**
   * Part way through a read of `len` bits from `start`: i bits read, `result`
   * holding their weights, `now` left; finishing the read from `now` gives
   * what reading from `start` gives.
   */
  predicate Reading(start: Stream, len: nat, i: nat, result: nat, now: Stream)
  {
    var holds := i <= len && Take(start, len) == Plus(Take(now, len - i), result);
    holds
  }

  lemma ReadStart(start: Stream, len: nat)
    ensures Reading(start, len, 0, 0, start)
  {
    var t := Take(start, len);
    assert t.Some? ==> t == Some((0 + t.value.0, t.value.1));
  }

  /** A bit read next weighs 2^(len-i-1). */
  lemma ReadBit(start: Stream, len: nat, i: nat, result: nat, next: nat, now: Stream, b: bool, rest: Stream)
    requires Reading(start, len, i, result, now) && i < len && Step(now) == (Bit(b), rest)
    requires next == result + (if b then Pow2(len - i - 1) else 0)
    ensures Reading(start, len, i + 1, next, rest)
  {
    var weight := if b then Pow2(len - i - 1) else 0;
    assert now == Stream([b] + rest.bits, rest.broken);
    TakeCons(b, rest, len - i);
    assert Take(now, len - i) == Plus(Take(rest, len - i - 1), weight);
    PlusTwice(Take(rest, len - i - 1), weight, result);
  }

  lemma PlusTwice(t: Option<(nat, Stream)>, low: nat, high: nat)
    ensures Plus(Plus(t, low), high) == Plus(t, high + low)
  {
  }

  /** The text ended, intact, before `len` bits: the missing bits count as 0. */
  lemma ReadEnd(start: Stream, len: nat, i: nat, result: nat, now: Stream)
    requires Reading(start, len, i, result, now) && Step(now).0.Exhausted?
    ensures Take(start, len) == Some((result, now))
  {
    assert Take(now, len - i) == Some((0, now));
  }

  /** A broken stream reached before `len` bits: the read panics. */
  lemma ReadPanic(start: Stream, len: nat, i: nat, result: nat, now: Stream)
    requires Reading(start, len, i, result, now) && i < len && Step(now).0.Panic?
    ensures Take(start, len) == None
  {
  }

  /** All `len` bits read. */
  lemma ReadAll(start: Stream, len: nat, i: nat, result: nat, now: Stream)
    requires Reading(start, len, i, result, now) && i == len
    ensures Take(start, len) == Some((result, now))
  {
  }

  /** The nibbles read so far in front of those still to read. */
  function Prefixed(ns: seq<nat>, g: Option<(seq<nat>, Stream)>): Option<(seq<nat>, Stream)>
  {
    if g.None? then None else Some((ns + g.value.0, g.value.1))
  }

  /**
   * `read_literal`: 5-bit pieces until one whose leading bit is 0, keeping
   * each piece's low four bits; then the fold that shifts nibble i left by
   * `(n - 1 - i) * 4` bits, where a shift of 64 bits or more panics.
   */
  method ReadLiteral(iter: BitsIter) returns (r: Result<nat, ParseError>)
    requires iter.Valid()
    modifies iter
    ensures iter.Valid() && iter.Mark() == old(iter.Mark())
    ensures r.Ok? ==> Literal(old(iter.Pending())) == Ok((r.value, iter.Pending()))
    ensures r.Err? ==> Literal(old(iter.Pending())) == Err(r.error)
  {
    ghost var start := iter.Pending();
    var nibbles: seq<nat> := [];
    NothingPrefixed(Groups(start));
    while true
      invariant iter.Valid() && iter.Mark() == old(iter.Mark())
      invariant Groups(start) == Prefixed(nibbles, Groups(iter.Pending()))
      decreases |iter.Pending().bits|
    {
      ghost var before := iter.Pending();
      var piece := ReadTo(iter, 5);
      if piece.Err? {
        GroupsBroken(start, nibbles, before);
        return Err(BadHexDigit);
      }
      var value := piece.value % 16;
      var continueBit := piece.value / 16;
      if continueBit == 0 {
        GroupsEnd(start, nibbles, before, piece.value, value, iter.Pending());
        nibbles := nibbles + [value];
        break;
      }
      GroupsMore(nibbles, before, piece.value, iter.Pending());
      nibbles := nibbles + [value];
    }
    LiteralOf(start, nibbles, iter.Pending());
    r := ShiftFold(nibbles);
  }

  /**
   * The fold of `read_literal`: nibble i shifted left by `(n - 1 - i) * 4`
   * bits into the total (`|` onto bits not yet set is `+`); a shift of 64
   * bits or more, which the first of more than 16 nibbles needs, panics.
   */
  method ShiftFold(nibbles: seq<nat>) returns (r: Result<nat, ParseError>)
    ensures r == if |nibbles| > 16 then Err(ShiftOverflow) else Ok(ShiftedNibbles(nibbles))
  {
    var n := |nibbles|;
    var total := 0;
    for i := 0 to n
      invariant total + ShiftedNibbles(nibbles[i..]) == ShiftedNibbles(nibbles)
      invariant i > 0 ==> n <= 16
    {
      var shift := (n - 1 - i) * 4;
      if shift >= 64 {
        return Err(ShiftOverflow);
      }
      FoldStep(nibbles, i);
      total := total + nibbles[i] * Pow2(shift);
    }
    assert nibbles[n..] == [];
    r := Ok(total);
  }

  /** A piece that cannot be read: the literal's groups cannot be either. */
  lemma GroupsBroken(start: Stream, ns: seq<nat>, st: Stream)
    requires Groups(start) == Prefixed(ns, Groups(st)) && Take(st, 5) == None
    ensures Literal(start) == Err(BadHexDigit)
  {
  }

  /** A piece whose leading bit is 0 ends the groups. */
  lemma GroupsEnd(start: Stream, ns: seq<nat>, st: Stream, piece: nat, nibble: nat, rest: Stream)
    requires Groups(start) == Prefixed(ns, Groups(st))
    requires Take(st, 5) == Some((piece, rest)) && piece / 16 == 0 && piece % 16 == nibble
    ensures Groups(start) == Some((ns + [nibble], rest))
  {
    GroupsLast(st, piece, nibble, rest);
  }

  /** The literal the groups stand for: their nibbles shifted into place, unless there are more than 16. */
  lemma LiteralOf(start: Stream, ns: seq<nat>, rest: Stream)
    requires Groups(start) == Some((ns, rest))
    ensures Literal(start) == if |ns| > 16 then Err(ShiftOverflow) else Ok((ShiftedNibbles(ns), rest))
  {
  }

  lemma NothingPrefixed(g: Option<(seq<nat>, Stream)>)
    ensures Prefixed([], g) == g
  {
    if g.Some? {
      assert [] + g.value.0 == g.value.0;
    }
  }

  /** A piece whose leading bit is 1: its nibble joins those read, the rest follow. */
  lemma GroupsMore(ns: seq<nat>, st: Stream, piece: nat, rest: Stream)
    requires Take(st, 5) == Some((piece, rest)) && piece / 16 != 0
    ensures Prefixed(ns, Groups(st)) == Prefixed(ns + [piece % 16], Groups(rest))
  {
    var g := Groups(rest);
    if g.Some? {
      GroupsCons(st, piece, piece % 16, rest, g.value.0, g.value.1);
      Associative(ns, [piece % 16], g.value.0);
    }
  }

  /** One turn of the fold: nibble i shifted left by `(n - 1 - i) * 4` bits. */
  lemma FoldStep(ns: seq<nat>, i: nat)
    requires i < |ns|
    ensures ShiftedNibbles(ns[i..]) == ns[i] * Pow2((|ns| - 1 - i) * 4) + ShiftedNibbles(ns[i + 1..])
  {
    assert ns[i..][1..] == ns[i + 1..];
  }

  // Packets

  /** `try_from`: an iterator over the whole text, and the packet parsed from it. */
  method TryFrom(s: string) returns (r: Result<Packet, ParseError>)
    ensures r == Decode(s)
  {
    var iter := new BitsIter(s);
    r := Parse(iter);
  }

  /**
   * `BITSPacket::parse`: a 3-bit version, a 3-bit type id, then a literal
   * (type 4) or an operator.  Every read panics on a broken stream.
   */
  method Parse(iter: BitsIter) returns (r: Result<Packet, ParseError>)
    requires iter.Valid()
    modifies iter
    ensures iter.Valid() && iter.Mark() == old(iter.Mark())
    ensures r.Ok? ==> ParsePacket(old(iter.Pending())) == Ok((r.value, iter.Pending()))
    ensures r.Err? ==> ParsePacket(old(iter.Pending())) == Err(r.error)
    decreases |iter.Pending().bits|, 3
  {
    ghost var start := iter.Pending();
    var version := ReadTo(iter, 3);
    if version.Err? {
      HeaderBroken(start);
      return Err(version.error);
    }
    ghost var s1 := iter.Pending();
    var typeId := ReadTo(iter, 3);
    if typeId.Err? {
      TypeBroken(start, version.value, s1);
      return Err(typeId.error);
    }
    ghost var s2 := iter.Pending();
    AfterHeader(start, version.value, s1, typeId.value, s2);
    if typeId.value == 4 {
      var value := ReadLiteral(iter);
      if value.Err? {
        return Err(value.error);
      }
      return Ok(Packet(version.value, LiteralValue(value.value)));
    }
    var payload := ReadOperator(iter, typeId.value);
    if payload.Err? {
      return Err(payload.error);
    }
    r := Ok(Packet(version.value, payload.value));
  }

  /** A packet's header prefixed to what follows it. */
  function WithVersion(version: nat, r: Result<(Payload, Stream), ParseError>): Result<(Packet, Stream), ParseError>
  {
    if r.Err? then Err(r.error) else Ok((Packet(version, r.value.0), r.value.1))
  }

  function AsLiteral(r: Result<(nat, Stream), ParseError>): Result<(Payload, Stream), ParseError>
  {
    if r.Err? then Err(r.error) else Ok((LiteralValue(r.value.0), r.value.1))
  }

  lemma HeaderBroken(st: Stream)
    requires Take(st, 3) == None
    ensures ParsePacket(st) == Err(BadHexDigit)
  {
  }

  lemma TypeBroken(st: Stream, version: nat, s1: Stream)
    requires Take(st, 3) == Some((version, s1)) && Take(s1, 3) == None
    ensures ParsePacket(st) == Err(BadHexDigit)
  {
  }

  /** After the version and the type id: a literal for type 4, an operator for any other. */
  lemma AfterHeader(st: Stream, version: nat, s1: Stream, typeId: nat, s2: Stream)
    requires Take(st, 3) == Some((version, s1)) && Take(s1, 3) == Some((typeId, s2))
    ensures |s2.bits| <= |st.bits|
    ensures ParsePacket(st) == WithVersion(version, if typeId == 4 then AsLiteral(Literal(s2)) else ParseOperator(s2, typeId))
  {
    TakeConsumes(st, 3);
    TakeConsumes(s1, 3);
  }

  /**
   * The operator arm of `parse`: the length type bit, then the subpackets by
   * bit length (0, in 15 bits) or by count (1, in 11 bits); the operation is
   * looked up after the subpackets in the first case, before them in the second.
   */
  method ReadOperator(iter: BitsIter, typeId: nat) returns (r: Result<Payload, ParseError>)
    requires iter.Valid()
    modifies iter
    ensures iter.Valid() && iter.Mark() == old(iter.Mark())
    ensures r.Ok? ==> ParseOperator(old(iter.Pending()), typeId) == Ok((r.value, iter.Pending()))
    ensures r.Err? ==> ParseOperator(old(iter.Pending()), typeId) == Err(r.error)
    decreases |iter.Pending().bits|, 2
  {
    ghost var start := iter.Pending();
    var lengthType := ReadTo(iter, 1);
    if lengthType.Err? {
      ModeBroken(start, typeId);
      return Err(lengthType.error);
    }
    ghost var s1 := iter.Pending();
    if lengthType.value == 0 {
      var total := ReadTo(iter, 15);
      if total.Err? {
        LengthBroken(start, s1, 0, typeId);
        return Err(total.error);
      }
      ghost var s2 := iter.Pending();
      LengthRead(start, s1, 0, 15, total.value, s2);
      var subpackets := ReadBySpan(iter, total.value);
      if subpackets.Err? {
        SpanFails(start, s1, total.value, s2, typeId, subpackets.error);
        return Err(subpackets.error);
      }
      var op := OperatorOf(typeId);
      if op.None? {
        SpanUnknown(start, s1, total.value, s2, typeId, subpackets.value, iter.Pending());
        return Err(UnknownOperation(typeId));
      }
      SpanOperator(start, s1, total.value, s2, typeId, subpackets.value, iter.Pending(), op.value);
      return Ok(OperatorPayload(op.value, subpackets.value));
    } else {
      var count := ReadTo(iter, 11);
      if count.Err? {
        LengthBroken(start, s1, lengthType.value, typeId);
        return Err(count.error);
      }
      ByCount(start, s1, lengthType.value, count.value, iter.Pending(), typeId);
      var op := OperatorOf(typeId);
      if op.None? {
        return Err(UnknownOperation(typeId));
      }
      var subpackets := ReadByCount(iter, count.value);
      if subpackets.Err? {
        return Err(subpackets.error);
      }
      return Ok(OperatorPayload(op.value, subpackets.value));
    }
  }

  /** The operator named by the type id over the subpackets read, or why there is none. */
  function WithOperator(typeId: nat, subs: Result<(seq<Packet>, Stream), ParseError>): Result<(Payload, Stream), ParseError>
  {
    if subs.Err? then Err(subs.error)
    else if OperatorOf(typeId).None? then Err(UnknownOperation(typeId))
    else Ok((OperatorPayload(OperatorOf(typeId).value, subs.value.0), subs.value.1))
  }

  lemma ModeBroken(st: Stream, typeId: nat)
    requires Take(st, 1) == None
    ensures ParseOperator(st, typeId) == Err(BadHexDigit)
  {
  }

  lemma LengthBroken(st: Stream, s1: Stream, lengthType: nat, typeId: nat)
    requires Take(st, 1) == Some((lengthType, s1)) && Take(s1, if lengthType == 0 then 15 else 11) == None
    ensures ParseOperator(st, typeId) == Err(BadHexDigit)
  {
  }

  /** The length fields: what is left after them, shorter when the length is not 0. */
  lemma LengthRead(st: Stream, s1: Stream, lengthType: nat, len: nat, length: nat, s2: Stream)
    requires Take(st, 1) == Some((lengthType, s1)) && Take(s1, len) == Some((length, s2))
    ensures |s2.bits| <= |st.bits| && (length > 0 ==> |s2.bits| < |st.bits|)
  {
    TakeShrinks(st, 1, lengthType, s1);
    TakeShrinks(s1, len, length, s2);
  }

  /** A number read as not 0 took at least one bit. */
  lemma TakeShrinks(st: Stream, len: nat, v: nat, rest: Stream)
    requires Take(st, len) == Some((v, rest))
    ensures |rest.bits| <= |st.bits| && (v > 0 ==> |rest.bits| < |st.bits|)
  {
    if len > 0 && st.bits == [] {
      assert Take(st, len) == Some((0, st));
    }
  }

  /** Length type 0, subpackets that fill `total` bits and a known operation. */
  lemma SpanOperator(st: Stream, s1: Stream, total: nat, s2: Stream, typeId: nat, subs: seq<Packet>, end: Stream, op: OperatorType)
    requires Take(st, 1) == Some((0, s1)) && Take(s1, 15) == Some((total, s2))
    requires ParseSpan(s2, total, |s2.bits|) == Ok((subs, end)) && OperatorOf(typeId) == Some(op)
    ensures ParseOperator(st, typeId) == Ok((OperatorPayload(op, subs), end))
  {
    assert Read(st, 1) == Ok((0, s1)) && Read(s1, 15) == Ok((total, s2));
  }

  /** Length type 0, subpackets that fill `total` bits and a type id that names no operation. */
  lemma SpanUnknown(st: Stream, s1: Stream, total: nat, s2: Stream, typeId: nat, subs: seq<Packet>, end: Stream)
    requires Take(st, 1) == Some((0, s1)) && Take(s1, 15) == Some((total, s2))
    requires ParseSpan(s2, total, |s2.bits|) == Ok((subs, end)) && OperatorOf(typeId) == None
    ensures ParseOperator(st, typeId) == Err(UnknownOperation(typeId))
  {
    assert Read(st, 1) == Ok((0, s1)) && Read(s1, 15) == Ok((total, s2));
  }

  /** Length type 0, subpackets that fail. */
  lemma SpanFails(st: Stream, s1: Stream, total: nat, s2: Stream, typeId: nat, e: ParseError)
    requires Take(st, 1) == Some((0, s1)) && Take(s1, 15) == Some((total, s2))
    requires ParseSpan(s2, total, |s2.bits|) == Err(e)
    ensures ParseOperator(st, typeId) == Err(e)
  {
    assert Read(st, 1) == Ok((0, s1)) && Read(s1, 15) == Ok((total, s2));
  }

  /** Length type 1: the operation, then `count` subpackets. */
  lemma ByCount(st: Stream, s1: Stream, lengthType: nat, count: nat, s2: Stream, typeId: nat)
    requires Take(st, 1) == Some((lengthType, s1)) && lengthType != 0 && Take(s1, 11) == Some((count, s2))
    ensures |s2.bits| <= |st.bits| && (count > 0 ==> |s2.bits| < |st.bits|)
    ensures ParseOperator(st, typeId)
         == if OperatorOf(typeId).None? then Err(UnknownOperation(typeId)) else WithOperator(typeId, ParseCount(s2, count))
  {
    TakeConsumes(st, 1);
    TakeConsumes(s1, 11);
  }

  /** The subpackets read so far in front of what the rest of the loop reads. */
  function Prepend(ps: seq<Packet>, r: Result<(seq<Packet>, Stream), ParseError>): Result<(seq<Packet>, Stream), ParseError>
  {
    if r.Err? then r else Ok((ps + r.value.0, r.value.1))
  }

  lemma NothingPrepended(r: Result<(seq<Packet>, Stream), ParseError>)
    ensures Prepend([], r) == r
  {
    if r.Ok? {
      assert [] + r.value.0 == r.value.0;
    }
  }

  /**
   * The bit-length loop of `parse`: subpackets until the bits they consumed,
   * counted with `processed_bits`, are `total`.  Where a subpacket consumes
   * nothing the program would repeat it forever; here that ends in Diverges.
   */
  method ReadBySpan(iter: BitsIter, total: nat) returns (r: Result<seq<Packet>, ParseError>)
    requires iter.Valid()
    modifies iter
    ensures iter.Valid() && iter.Mark() == old(iter.Mark())
    ensures r.Ok? ==> ParseSpan(old(iter.Pending()), total, |old(iter.Pending()).bits|) == Ok((r.value, iter.Pending()))
    ensures r.Err? ==> ParseSpan(old(iter.Pending()), total, |old(iter.Pending()).bits|) == Err(r.error)
    decreases |iter.Pending().bits|, if total == 0 then 0 else 4
  {
    ghost var start := iter.Pending();
    ghost var origin := |start.bits|;
    var processed := 0;
    var subpackets: seq<Packet> := [];
    NothingPrepended(ParseSpan(start, total, origin));
    while processed != total
      invariant iter.Valid() && iter.Mark() == old(iter.Mark())
      invariant |iter.Pending().bits| <= origin && processed == origin - |iter.Pending().bits|
      invariant ParseSpan(start, total, origin) == Prepend(subpackets, ParseSpan(iter.Pending(), total, origin))
      decreases |iter.Pending().bits|
    {
      ghost var before := iter.Pending();
      var processedBefore := iter.processedBits;
      var sub := Parse(iter);
      if sub.Err? {
        SpanBroken(start, total, origin, subpackets, before);
        return Err(sub.error);
      }
      ghost var after := iter.Pending();
      var used := iter.processedBits - processedBefore;
      if used == 0 {
        SpanStuck(start, total, origin, subpackets, before, sub.value, after);
        return Err(Diverges);
      }
      SpanNext(start, total, origin, subpackets, before, sub.value, after);
      subpackets := subpackets + [sub.value];
      processed := processed + used;
    }
    SpanFilled(start, total, origin, subpackets, iter.Pending());
    r := Ok(subpackets);
  }

  lemma SpanBroken(start: Stream, total: nat, origin: nat, ps: seq<Packet>, st: Stream)
    requires |start.bits| <= origin && |st.bits| <= origin && origin - |st.bits| != total
    requires ParseSpan(start, total, origin) == Prepend(ps, ParseSpan(st, total, origin))
    requires ParsePacket(st).Err?
    ensures ParseSpan(start, total, origin) == Err(ParsePacket(st).error)
  {
  }

  lemma SpanStuck(start: Stream, total: nat, origin: nat, ps: seq<Packet>, st: Stream, p: Packet, rest: Stream)
    requires |start.bits| <= origin && |st.bits| <= origin && origin - |st.bits| != total
    requires ParseSpan(start, total, origin) == Prepend(ps, ParseSpan(st, total, origin))
    requires ParsePacket(st) == Ok((p, rest)) && |rest.bits| == |st.bits|
    ensures ParseSpan(start, total, origin) == Err(Diverges)
  {
  }

  lemma SpanNext(start: Stream, total: nat, origin: nat, ps: seq<Packet>, st: Stream, p: Packet, rest: Stream)
    requires |start.bits| <= origin && |st.bits| <= origin && origin - |st.bits| != total
    requires ParseSpan(start, total, origin) == Prepend(ps, ParseSpan(st, total, origin))
    requires ParsePacket(st) == Ok((p, rest)) && |rest.bits| < |st.bits|
    ensures ParseSpan(start, total, origin) == Prepend(ps + [p], ParseSpan(rest, total, origin))
  {
    SpanStep(st, total, origin, p, rest);
    PrependTwice(ps, [p], ParseSpan(rest, total, origin));
  }

  /** One subpacket of a span that is not yet filled, then the rest of the span. */
  lemma SpanStep(st: Stream, total: nat, origin: nat, p: Packet, rest: Stream)
    requires |st.bits| <= origin && origin - |st.bits| != total
    requires ParsePacket(st) == Ok((p, rest)) && |rest.bits| < |st.bits|
    ensures ParseSpan(st, total, origin) == Prepend([p], ParseSpan(rest, total, origin))
  {
    var more := ParseSpan(rest, total, origin);
    if more.Ok? {
      assert ParseSpan(st, total, origin) == Ok(([p] + more.value.0, more.value.1));
    }
  }

  lemma PrependTwice(ps: seq<Packet>, qs: seq<Packet>, r: Result<(seq<Packet>, Stream), ParseError>)
    ensures Prepend(ps, Prepend(qs, r)) == Prepend(ps + qs, r)
  {
    if r.Ok? {
      Associative(ps, qs, r.value.0);
    }
  }

  lemma SpanFilled(start: Stream, total: nat, origin: nat, ps: seq<Packet>, st: Stream)
    requires |start.bits| <= origin && |st.bits| <= origin && origin - |st.bits| == total
    requires ParseSpan(start, total, origin) == Prepend(ps, ParseSpan(st, total, origin))
    ensures ParseSpan(start, total, origin) == Ok((ps, st))
  {
    assert ps + [] == ps;
  }

  /** The count mode of `parse`: `count` subpackets, collected up to the first error. */
  method ReadByCount(iter: BitsIter, count: nat) returns (r: Result<seq<Packet>, ParseError>)
    requires iter.Valid()
    modifies iter
    ensures iter.Valid() && iter.Mark() == old(iter.Mark())
    ensures r.Ok? ==> ParseCount(old(iter.Pending()), count) == Ok((r.value, iter.Pending()))
    ensures r.Err? ==> ParseCount(old(iter.Pending()), count) == Err(r.error)
    decreases |iter.Pending().bits|, if count == 0 then 0 else 4
  {
    ghost var start := iter.Pending();
    var subpackets: seq<Packet> := [];
    NothingPrepended(ParseCount(start, count));
    for i := 0 to count
      invariant iter.Valid() && iter.Mark() == old(iter.Mark())
      invariant |iter.Pending().bits| <= |start.bits|
      invariant ParseCount(start, count) == Prepend(subpackets, ParseCount(iter.Pending(), count - i))
    {
      ghost var before := iter.Pending();
      var sub := Parse(iter);
      if sub.Err? {
        CountBroken(start, count - i, subpackets, before);
        return Err(sub.error);
      }
      CountNext(start, count, count - i, subpackets, before, sub.value, iter.Pending());
      subpackets := subpackets + [sub.value];
    }
    CountDone(start, count, subpackets, iter.Pending());
    r := Ok(subpackets);
  }

  lemma CountBroken(start: Stream, left: nat, ps: seq<Packet>, st: Stream)
    requires left > 0 && ParsePacket(st).Err?
    ensures ParseCount(st, left) == Err(ParsePacket(st).error)
  {
  }

  lemma CountNext(start: Stream, count: nat, left: nat, ps: seq<Packet>, st: Stream, p: Packet, rest: Stream)
    requires left > 0 && ParseCount(start, count) == Prepend(ps, ParseCount(st, left))
    requires ParsePacket(st) == Ok((p, rest))
    ensures ParseCount(start, count) == Prepend(ps + [p], ParseCount(rest, left - 1))
  {
    var more := ParseCount(rest, left - 1);
    if more.Ok? {
      Associative(ps, [p], more.value.0);
    }
  }

  lemma CountDone(start: Stream, count: nat, ps: seq<Packet>, st: Stream)
    requires ParseCount(start, count) == Prepend(ps, ParseCount(st, 0))
    ensures ParseCount(start, count) == Ok((ps, st))
  {
    assert ps + [] == ps;
  }
}
