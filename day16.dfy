/**
 * Packet decoder (day 16): a hexadecimal transmission read as a stream of
 * bits, most significant first, holding one BITS packet.  A packet has a
 * 3-bit version and a 3-bit type; type 4 carries a literal number in 5-bit
 * groups, every other type is an operator over subpackets, given either by
 * their total length in bits or by their count.
 */
module Day16 {
  import opened Common
  import opened Text

  // The bit stream

  /**
   * `BitsIter::as_nibble`: a digit gives its value; any other character its
   * byte (the `as u8` cast keeps the low byte) less 'A' plus 10.  A byte below
   * 'A' makes the subtraction underflow, a panic (None).
   */
  function NibbleOf(c: char): (r: Option<nat>)
    ensures '0' <= c <= '9' ==> r == Some(c as int - '0' as int)
    ensures 'A' <= c <= 'F' ==> r == Some(c as int - 'A' as int + 10)
    ensures r.Some? ==> r.value < 256
  {
    if '0' <= c <= '9' then Some(c as int - '0' as int)
    else
      var b := (c as int) % 256;
      if b < 'A' as int then None else Some(b - 'A' as int + 10)
  }

  /** The four bits `next` yields for a nibble: `current >> (3 - i) & 1` for i = 0, 1, 2, 3. */
  function NibbleBits(v: nat): seq<bool>
  {
    [v / 8 % 2 == 1, v / 4 % 2 == 1, v / 2 % 2 == 1, v % 2 == 1]
  }

  /**
   * The bits still to come and whether the stream is broken: reading past
   * the last bit of a broken stream meets a character without a nibble and
   * panics; reading past the end of an intact one yields nothing.
   */
  datatype Stream = Stream(bits: seq<bool>, broken: bool)

  /** What is left after reading from `st`: a suffix of its bits, broken exactly when `st` is. */
  predicate Suffix(rest: Stream, st: Stream)
  {
    rest.broken == st.broken && |rest.bits| <= |st.bits| && rest.bits == st.bits[|st.bits| - |rest.bits|..]
  }

  lemma SuffixTransitive(a: Stream, b: Stream, c: Stream)
    requires Suffix(a, b) && Suffix(b, c)
    ensures Suffix(a, c)
  {
    assert c.bits[|c.bits| - |a.bits|..] == c.bits[|c.bits| - |b.bits|..][|b.bits| - |a.bits|..];
  }

  /** The stream of a text: its characters' nibbles in order, up to the first character that has none. */
  function HexBits(s: string): (r: Stream)
    ensures |r.bits| <= 4 * |s|
  {
    if s == [] then Stream([], false)
    else
      match NibbleOf(s[0])
      case None => Stream([], true)
      case Some(v) =>
        var rest := HexBits(s[1..]);
        Stream(NibbleBits(v) + rest.bits, rest.broken)
  }

  /** The digit that stands for a value below 16, upper case. */
  function HexDigit(v: nat): (c: char)
    requires v < 16
    ensures NibbleOf(c) == Some(v)
  {
    if v < 10 then ('0' as int + v) as char else ('A' as int + v - 10) as char
  }

  /** The bits of a value below 16, most significant first. */
  function BitsOf(v: nat, len: nat): (r: seq<bool>)
    ensures |r| == len
    decreases len
  {
    if len == 0 then [] else BitsOf(v / 2, len - 1) + [v % 2 == 1]
  }

  /** A text of hexadecimal digits is an intact stream of four bits per digit, each digit's bits most significant first. */
  lemma {:induction false} HexStream(vs: seq<nat>)
    requires forall i :: 0 <= i < |vs| ==> vs[i] < 16
    ensures HexBits(seq(|vs|, i requires 0 <= i < |vs| => HexDigit(vs[i]))) == Stream(Nibbles(vs), false)
    decreases |vs|
  {
    var s := seq(|vs|, i requires 0 <= i < |vs| => HexDigit(vs[i]));
    if vs != [] {
      HexStream(vs[1..]);
      assert s[1..] == seq(|vs[1..]|, i requires 0 <= i < |vs[1..]| => HexDigit(vs[1..][i]));
      NibbleBitsOf(vs[0]);
    }
  }

  /** The bits of nibble values, four per value. */
  function Nibbles(vs: seq<nat>): (r: seq<bool>)
    ensures |r| == 4 * |vs|
  {
    if vs == [] then [] else BitsOf(vs[0], 4) + Nibbles(vs[1..])
  }

  lemma NibbleBitsOf(v: nat)
    ensures NibbleBits(v) == BitsOf(v, 4)
  {
    assert v / 2 / 2 == v / 4 && v / 4 / 2 == v / 8;
  }

  // Reading numbers

  /**
   * `read_to_u8` and `read_to_u16`: up to `len` bits as a number, most
   * significant first, with the stream that is left.  Bits missing at the end
   * of an intact stream count as 0 (`take` stops early); None when the stream
   * breaks (a panic).
   */
  function Take(st: Stream, len: nat): (r: Option<(nat, Stream)>)
    ensures r.Some? ==> r.value.0 < Pow2(len)
    ensures r.Some? ==> r.value.1 == Stream(st.bits[Min(len, |st.bits|)..], st.broken)
    ensures r.None? <==> st.broken && len > |st.bits|
    decreases len
  {
    if len == 0 then Some((0, st))
    else if st.bits == [] then (if st.broken then None else Some((0, st)))
    else
      match Take(Stream(st.bits[1..], st.broken), len - 1)
      case None => None
      case Some((v, rest)) => Some(((if st.bits[0] then Pow2(len - 1) else 0) + v, rest))
  }

  /** Reading a number consumes a bit whenever the number is not 0. */
  lemma TakeConsumes(st: Stream, len: nat)
    ensures Take(st, len).Some? ==> Suffix(Take(st, len).value.1, st)
    ensures Take(st, len).Some? && Take(st, len).value.0 > 0 ==> |Take(st, len).value.1.bits| < |st.bits|
  {
  }

  /** Reading `len` bits from a stream that starts with bit b: b weighs 2^(len-1), the rest is read from what follows. */
  lemma TakeCons(b: bool, tail: Stream, len: nat)
    requires len > 0
    ensures Take(Stream([b] + tail.bits, tail.broken), len)
         == match Take(tail, len - 1)
            case None => None
            case Some((v, rest)) => Some(((if b then Pow2(len - 1) else 0) + v, rest))
  {
    assert ([b] + tail.bits)[1..] == tail.bits;
  }

  /** Writing a value in `len` bits and reading them back gives the value and the rest of the stream. */
  lemma {:induction false} TakeBitsOf(v: nat, len: nat, more: seq<bool>, broken: bool)
    requires v < Pow2(len)
    ensures Take(Stream(BitsOf(v, len) + more, broken), len) == Some((v, Stream(more, broken)))
    decreases len
  {
    if len > 0 {
      TopBit(v, len);
      var low := v % Pow2(len - 1);
      var top := v / Pow2(len - 1) == 1;
      var tail := Stream(BitsOf(low, len - 1) + more, broken);
      assert BitsOf(v, len) + more == [top] + tail.bits;
      TakeBitsOf(low, len - 1, more, broken);
      TakeCons(top, tail, len);
    }
  }

  /** The leading bit of `len` bits is the quotient by 2^(len-1), the others write the remainder. */
  lemma {:induction false} TopBit(v: nat, len: nat)
    requires len >= 1 && v < Pow2(len)
    ensures v / Pow2(len - 1) <= 1
    ensures v == (if v / Pow2(len - 1) == 1 then Pow2(len - 1) else 0) + v % Pow2(len - 1)
    ensures BitsOf(v, len) == [v / Pow2(len - 1) == 1] + BitsOf(v % Pow2(len - 1), len - 1)
    decreases len
  {
    if len > 1 {
      TopBit(v / 2, len - 1);
      var h := Pow2(len - 2);
      HalfQuotient(v, h);
      assert BitsOf(v, len) == BitsOf(v / 2, len - 1) + [v % 2 == 1];
      assert BitsOf(v / 2, len - 1) == [v / 2 / h == 1] + BitsOf(v / 2 % h, len - 2);
      assert BitsOf(v % (2 * h), len - 1) == BitsOf(v % (2 * h) / 2, len - 2) + [v % (2 * h) % 2 == 1];
    }
  }

  /** Dividing by 2h is halving then dividing by h; the remainder by 2h halves to the remainder by h and keeps the parity. */
  lemma HalfQuotient(v: nat, h: nat)
    requires h >= 1
    ensures v / (2 * h) == v / 2 / h
    ensures v % (2 * h) / 2 == v / 2 % h && v % (2 * h) % 2 == v % 2
    ensures v % (2 * h) == 2 * (v / 2 % h) + v % 2
  {
    var q, r := v / 2 / h, v / 2 % h;
    assert v / 2 == h * q + r;
    assert v == 2 * (h * q + r) + v % 2;
    assert v == (2 * h) * q + (2 * r + v % 2);
    DivMod(v, 2 * h, q, 2 * r + v % 2);
    DivMod(2 * r + v % 2, 2, r, v % 2);
  }

  /** Quotient and remainder are the only pair that writes v. */
  lemma DivMod(v: nat, n: nat, q: nat, r: nat)
    requires n >= 1 && r < n && v == n * q + r
    ensures v / n == q && v % n == r
  {
    var q', r' := v / n, v % n;
    assert n * q' + r' == n * q + r;
    if q' < q {
      assert n * (q - q') == r' - r;
      MulAtLeast(n, q - q');
    } else if q' > q {
      assert n * (q' - q) == r - r';
      MulAtLeast(n, q' - q);
    }
  }

  lemma {:induction false} MulAtLeast(n: nat, k: nat)
    requires k >= 1
    ensures n * k >= n
  {
    if k > 1 {
      MulAtLeast(n, k - 1);
      assert n * k == n * (k - 1) + n;
    }
  }

  // Literals

  /**
   * The 5-bit groups `read_literal` reads, up to and including the first whose
   * leading bit (`piece >> 4`) is 0, each kept as its low four bits
   * (`piece & 0x0F`); None when the stream breaks.
   */
  function Groups(st: Stream): (r: Option<(seq<nat>, Stream)>)
    ensures r.Some? ==> |r.value.0| >= 1 && IsNibbles(r.value.0)
    ensures r.Some? ==> Suffix(r.value.1, st)
    decreases |st.bits|
  {
    match Take(st, 5)
    case None => None
    case Some((piece, rest)) =>
      TakeConsumes(st, 5);
      var nibble: nat := piece % 16;
      if piece / 16 == 0 then Some(([nibble], rest))
      else
        match Groups(rest)
        case None => None
        case Some((more, end)) =>
          SuffixTransitive(end, rest, st);
          assert ([nibble] + more)[1..] == more;
          Some(([nibble] + more, end))
  }

  /** Every value is below 16. */
  predicate IsNibbles(ns: seq<nat>)
  {
    ns == [] || (ns[0] < 16 && IsNibbles(ns[1..]))
  }

  /** The fold of `read_literal`: nibble i shifted left by 4 * (n - 1 - i) bits, the shifted nibbles combined. */
  function ShiftedNibbles(ns: seq<nat>): nat
  {
    if ns == [] then 0 else ns[0] * Pow2(4 * (|ns| - 1)) + ShiftedNibbles(ns[1..])
  }

  /** The nibbles read as a base-16 numeral, most significant first. */
  function Hexadecimal(ns: seq<nat>): nat
  {
    if ns == [] then 0 else 16 * Hexadecimal(ns[..|ns| - 1]) + ns[|ns| - 1]
  }

  /** The shifts of the fold compute the base-16 value of the nibbles, which is below 16^n. */
  lemma {:induction false} ShiftedIsHexadecimal(ns: seq<nat>)
    requires IsNibbles(ns)
    ensures ShiftedNibbles(ns) == Hexadecimal(ns) && Hexadecimal(ns) < Pow2(4 * |ns|)
    decreases |ns|
  {
    if ns != [] {
      var n := |ns|;
      var tail := ns[1..];
      ShiftedIsHexadecimal(tail);
      HexadecimalCons(ns[0], tail);
      assert [ns[0]] + tail == ns;
      NextNibble(n - 1);
      LeadingDigit(ns[0], Hexadecimal(tail), Pow2(4 * (n - 1)));
    }
  }

  /** A digit below 16 in front of a value below x stays below 16x. */
  lemma LeadingDigit(d: nat, low: nat, x: nat)
    requires d < 16 && low < x
    ensures d * x + low < 16 * x
  {
    assert (d + 1) * x <= 16 * x;
  }

  /** A leading nibble weighs 16^(length of the rest). */
  lemma {:induction false} HexadecimalCons(d: nat, ns: seq<nat>)
    ensures Hexadecimal([d] + ns) == d * Pow2(4 * |ns|) + Hexadecimal(ns)
    decreases |ns|
  {
    var n := |ns|;
    if ns == [] {
      assert Hexadecimal([d]) == 16 * Hexadecimal([]) + d;
    } else {
      var init := ns[..n - 1];
      HexadecimalCons(d, init);
      assert ([d] + ns)[..n] == [d] + init;
      var x := Pow2(4 * (n - 1));
      var h := Hexadecimal(init);
      assert Hexadecimal([d] + ns) == 16 * (d * x + h) + ns[n - 1];
      NextNibble(n - 1);
      Spread(d, x, h);
    }
  }

  /** One more nibble multiplies the weight by 16. */
  lemma NextNibble(k: nat)
    ensures Pow2(4 * (k + 1)) == 16 * Pow2(4 * k)
  {
    Pow2Add(4 * k, 4);
    Pow2Facts();
  }

  lemma Spread(d: int, x: int, h: int)
    ensures 16 * (d * x + h) == d * (16 * x) + 16 * h
  {
  }

  lemma Pow2Facts()
    ensures Pow2(1) == 2 && Pow2(3) == 8 && Pow2(4) == 16 && Pow2(64) == USIZE_MAX + 1
  {
    assert Pow2(2) == 4;
    assert Pow2(4) == 16;
    Pow2Add(4, 4);
    assert Pow2(8) == 0x100;
    Pow2Add(8, 8);
    assert Pow2(16) == 0x1_0000;
    Pow2Add(16, 16);
    assert Pow2(32) == 0x1_0000_0000;
    Pow2Add(32, 32);
  }

  lemma {:induction false} Pow2Monotone(a: nat, b: nat)
    requires a <= b
    ensures Pow2(a) <= Pow2(b)
    decreases b
  {
    if a < b {
      Pow2Monotone(a, b - 1);
    }
  }

  lemma {:induction false} Pow2Add(a: nat, b: nat)
    ensures Pow2(a + b) == Pow2(a) * Pow2(b)
    decreases b
  {
    if b > 0 {
      Pow2Add(a, b - 1);
    }
  }

  /**
   * `read_literal`: the groups' nibbles as one number.  With more than 16
   * groups the first shift is 64 bits or more, which panics on a 64-bit
   * `usize` (ShiftOverflow).
   */
  function Literal(st: Stream): (r: Result<(nat, Stream), ParseError>)
    ensures r.Ok? ==> r.value.0 <= USIZE_MAX
    ensures r.Ok? ==> Suffix(r.value.1, st)
  {
    match Groups(st)
    case None => Err(BadHexDigit)
    case Some((ns, rest)) =>
      if |ns| > 16 then Err(ShiftOverflow)
      else
        ShiftedIsHexadecimal(ns);
        Pow2Monotone(4 * |ns|, 64);
        Pow2Facts();
        Ok((ShiftedNibbles(ns), rest))
  }

  // Packets

  /**
   * Why a transmission does not decode: a character without a nibble was
   * reached (BadHexDigit), a literal has more than 16 groups (ShiftOverflow),
   * an operator's type id names no operation (UnknownOperation), or a
   * subpacket inside a bit-length operator consumed no bits, after which the
   * program repeats the same step forever (Diverges).
   */
  datatype ParseError = BadHexDigit | ShiftOverflow | UnknownOperation(id: nat) | Diverges

  datatype OperatorType = Sum | Product | Maximum | Minimum | GreaterThan | LessThan | EqualTo

  /** `operator_type`: the operation a type id names. */
  function OperatorOf(id: nat): (r: Option<OperatorType>)
    ensures r.Some? <==> id < 8 && id != 4
  {
    match id
    case 0 => Some(Sum)
    case 1 => Some(Product)
    case 2 => Some(Minimum)
    case 3 => Some(Maximum)
    case 5 => Some(GreaterThan)
    case 6 => Some(LessThan)
    case 7 => Some(EqualTo)
    case _ => None
  }

  /** The type id that names an operation. */
  function OperatorId(op: OperatorType): nat
  {
    match op
    case Sum => 0
    case Product => 1
    case Minimum => 2
    case Maximum => 3
    case GreaterThan => 5
    case LessThan => 6
    case EqualTo => 7
  }

  /** Every operation has exactly one id, and no id names two operations. */
  lemma OperatorIds(id: nat, op: OperatorType)
    ensures OperatorOf(id) == Some(op) <==> id == OperatorId(op)
  {
  }

  datatype Packet = Packet(version: nat, payload: Payload)

  datatype Payload = LiteralValue(value: nat) | OperatorPayload(op: OperatorType, subpackets: seq<Packet>)

  /** What a decoded packet satisfies: 3-bit versions and literals that fit a 64-bit `usize`. */
  predicate Bounded(p: Packet)
    decreases p
  {
    && p.version < 8
    && match p.payload
       case LiteralValue(v) => v <= USIZE_MAX
       case OperatorPayload(_, subs) => forall i :: 0 <= i < |subs| ==> Bounded(subs[i])
  }

  /** Every packet of a list is bounded. */
  predicate AllBounded(ps: seq<Packet>)
  {
    forall i :: 0 <= i < |ps| ==> Bounded(ps[i])
  }

  lemma BoundedCons(p: Packet, ps: seq<Packet>)
    requires Bounded(p) && AllBounded(ps)
    ensures AllBounded([p] + ps)
  {
  }

  /** A read from a broken stream panics: BadHexDigit. */
  function Read(st: Stream, len: nat): (r: Result<(nat, Stream), ParseError>)
    ensures r.Ok? ==> r.value.0 < Pow2(len) && Suffix(r.value.1, st)
    ensures r.Ok? && r.value.0 > 0 ==> |r.value.1.bits| < |st.bits|
    ensures r.Err? ==> r.error == BadHexDigit
  {
    TakeConsumes(st, len);
    match Take(st, len)
    case None => Err(BadHexDigit)
    case Some(x) => Ok(x)
  }

  /** `BITSPacket::parse`: a 3-bit version and a 3-bit type, then a literal (type 4) or an operator. */
  function ParsePacket(st: Stream): (r: Result<(Packet, Stream), ParseError>)
    ensures r.Ok? ==> Suffix(r.value.1, st) && Bounded(r.value.0)
    decreases |st.bits|, 3, 0
  {
    match Read(st, 3)
    case Err(e) => Err(e)
    case Ok((version, s1)) =>
      match Read(s1, 3)
      case Err(e) => Err(e)
      case Ok((typeId, s2)) =>
        SuffixTransitive(s2, s1, st);
        Pow2Facts();
        if typeId == 4 then
          match Literal(s2)
          case Err(e) => Err(e)
          case Ok((value, s3)) =>
            SuffixTransitive(s3, s2, st);
            Ok((Packet(version, LiteralValue(value)), s3))
        else
          match ParseOperator(s2, typeId)
          case Err(e) => Err(e)
          case Ok((payload, s3)) =>
            SuffixTransitive(s3, s2, st);
            Ok((Packet(version, payload), s3))
  }

  /**
   * An operator after its header: the length-mode bit, then the subpackets by
   * bit length (mode 0, 15 bits) or by count (mode 1, 11 bits).  A 1-bit read
   * is 0 or 1, so these two modes are all there is.  In bit-length mode the
   * operation is looked up after the subpackets, in count mode before them.
   */
  function ParseOperator(st: Stream, typeId: nat): (r: Result<(Payload, Stream), ParseError>)
    ensures r.Ok? ==> Suffix(r.value.1, st) && r.value.0.OperatorPayload? && AllBounded(r.value.0.subpackets)
    decreases |st.bits|, 2, 0
  {
    match Read(st, 1)
    case Err(e) => Err(e)
    case Ok((lengthType, s1)) =>
      if lengthType == 0 then
        match Read(s1, 15)
        case Err(e) => Err(e)
        case Ok((total, s2)) =>
          SuffixTransitive(s2, s1, st);
          match ParseSpan(s2, total, |s2.bits|)
          case Err(e) => Err(e)
          case Ok((subs, s3)) =>
            SuffixTransitive(s3, s2, st);
            match OperatorOf(typeId)
            case None => Err(UnknownOperation(typeId))
            case Some(op) => Ok((OperatorPayload(op, subs), s3))
      else
        match Read(s1, 11)
        case Err(e) => Err(e)
        case Ok((count, s2)) =>
          SuffixTransitive(s2, s1, st);
          match OperatorOf(typeId)
          case None => Err(UnknownOperation(typeId))
          case Some(op) =>
            match ParseCount(s2, count)
            case Err(e) => Err(e)
            case Ok((subs, s3)) =>
              SuffixTransitive(s3, s2, st);
              Ok((OperatorPayload(op, subs), s3))
  }

  /**
   * The bit-length loop, entered with `start` bits left: packets until the
   * bits consumed since then, `start - |st.bits|`, are exactly `total`.  A
   * packet that consumes nothing leaves the state as it was, and the loop
   * would repeat it forever.
   */
  function ParseSpan(st: Stream, total: nat, start: nat): (r: Result<(seq<Packet>, Stream), ParseError>)
    requires |st.bits| <= start
    ensures r.Ok? ==> Suffix(r.value.1, st) && AllBounded(r.value.0)
    decreases |st.bits|, if start - |st.bits| == total then 0 else 4, 0
  {
    if start - |st.bits| == total then Ok(([], st))
    else
      match ParsePacket(st)
      case Err(e) => Err(e)
      case Ok((p, rest)) =>
        if |rest.bits| == |st.bits| then Err(Diverges)
        else
          match ParseSpan(rest, total, start)
          case Err(e) => Err(e)
          case Ok((ps, end)) =>
            SuffixTransitive(end, rest, st);
            BoundedCons(p, ps);
            Ok(([p] + ps, end))
  }

  /** The count mode: `n` packets one after the other, stopping at the first error. */
  function ParseCount(st: Stream, n: nat): (r: Result<(seq<Packet>, Stream), ParseError>)
    ensures r.Ok? ==> Suffix(r.value.1, st) && |r.value.0| == n && AllBounded(r.value.0)
    decreases |st.bits|, if n == 0 then 0 else 4, n
  {
    if n == 0 then Ok(([], st))
    else
      match ParsePacket(st)
      case Err(e) => Err(e)
      case Ok((p, rest)) =>
        match ParseCount(rest, n - 1)
        case Err(e) => Err(e)
        case Ok((ps, end)) =>
          SuffixTransitive(end, rest, st);
          BoundedCons(p, ps);
          Ok(([p] + ps, end))
  }

  /** `TryFrom<BitsIter>`: the packet at the start of a transmission; bits after it are ignored. */
  function Decode(s: string): (r: Result<Packet, ParseError>)
    ensures r.Ok? ==> Bounded(r.value)
  {
    match ParsePacket(HexBits(s))
    case Err(e) => Err(e)
    case Ok((p, _)) => Ok(p)
  }

  // Evaluation

  /**
   * Why evaluation fails: a sum or product that leaves `usize` (an overflow
   * panic), Maximum or Minimum of no operands, or a comparison with fewer
   * than two operands (an index panic).
   */
  datatype EvalError = Overflow | NoMaximum | NoMinimum | MissingOperand

  function Total(vs: seq<nat>): nat
  {
    if vs == [] then 0 else vs[0] + Total(vs[1..])
  }

  /** The product of a list, the last factor applied last. */
  function Prod(vs: seq<nat>): nat
  {
    if vs == [] then 1 else Prod(vs[..|vs| - 1]) * vs[|vs| - 1]
  }

  function MaxOf(vs: seq<nat>): (m: nat)
    requires vs != []
    ensures m in vs && forall i :: 0 <= i < |vs| ==> vs[i] <= m
  {
    if |vs| == 1 then vs[0] else Max(vs[0], MaxOf(vs[1..]))
  }

  function MinOf(vs: seq<nat>): (m: nat)
    requires vs != []
    ensures m in vs && forall i :: 0 <= i < |vs| ==> m <= vs[i]
  {
    if |vs| == 1 then vs[0] else Min(vs[0], MinOf(vs[1..]))
  }

  /**
   * `product` on `usize`: the running product from the left, multiplied in
   * one factor at a time, panicking as soon as it leaves the type.
   */
  function ProductFrom(vs: seq<nat>, i: nat, acc: nat): Result<nat, EvalError>
    requires i <= |vs|
    decreases |vs| - i
  {
    if i == |vs| then Ok(acc)
    else if acc * vs[i] > USIZE_MAX then Err(Overflow)
    else ProductFrom(vs, i + 1, acc * vs[i])
  }

  /** Every running product fits a `usize`. */
  predicate ProductsFit(vs: seq<nat>)
  {
    forall k :: 0 <= k <= |vs| ==> Prod(vs[..k]) <= USIZE_MAX
  }

  /** The checked product is the product exactly when no running product overflows, and Overflow otherwise. */
  lemma ProductChecked(vs: seq<nat>)
    ensures ProductFrom(vs, 0, 1) == if ProductsFit(vs) then Ok(Prod(vs)) else Err(Overflow)
    ensures ProductsFit(vs) ==> Prod(vs) <= USIZE_MAX
  {
    assert vs[..0] == [];
    ProductRest(vs, 0);
    assert vs[..|vs|] == vs;
  }

  lemma {:induction false} ProductRest(vs: seq<nat>, i: nat)
    requires i <= |vs| && forall k :: 0 <= k <= i ==> Prod(vs[..k]) <= USIZE_MAX
    ensures ProductFrom(vs, i, Prod(vs[..i])) == if ProductsFit(vs) then Ok(Prod(vs[..|vs|])) else Err(Overflow)
    decreases |vs| - i
  {
    if i < |vs| {
      assert vs[..i + 1][..i] == vs[..i];
      assert Prod(vs[..i + 1]) == Prod(vs[..i]) * vs[i];
      if Prod(vs[..i + 1]) <= USIZE_MAX {
        assert forall k :: 0 <= k <= i + 1 ==> Prod(vs[..k]) <= USIZE_MAX by {
          forall k | 0 <= k <= i + 1
            ensures Prod(vs[..k]) <= USIZE_MAX
          {
            if k <= i {
            }
          }
        }
        ProductRest(vs, i + 1);
      } else {
        assert !ProductsFit(vs);
      }
    }
  }

  /**
   * An operation applied to its operands' values.  A sum of naturals
   * overflows partway exactly when its total does, so the total decides.
   * The comparisons read the first two operands only.
   */
  function Apply(op: OperatorType, vs: seq<nat>): (r: Result<nat, EvalError>)
    ensures op == Sum ==> r == if Total(vs) <= USIZE_MAX then Ok(Total(vs)) else Err(Overflow)
    ensures op == Product ==> r == if ProductsFit(vs) then Ok(Prod(vs)) else Err(Overflow)
    ensures op == Maximum ==> (r.Err? <==> vs == []) && (r.Err? ==> r.error == NoMaximum)
    ensures op == Maximum && r.Ok? ==> r.value in vs && forall i :: 0 <= i < |vs| ==> vs[i] <= r.value
    ensures op == Minimum ==> (r.Err? <==> vs == []) && (r.Err? ==> r.error == NoMinimum)
    ensures op == Minimum && r.Ok? ==> r.value in vs && forall i :: 0 <= i < |vs| ==> r.value <= vs[i]
    ensures op in {GreaterThan, LessThan, EqualTo} ==> (r.Err? <==> |vs| < 2) && (r.Err? ==> r.error == MissingOperand)
    ensures op == GreaterThan && r.Ok? ==> (r.value == 1 <==> vs[0] > vs[1]) && r.value <= 1
    ensures op == LessThan && r.Ok? ==> (r.value == 1 <==> vs[0] < vs[1]) && r.value <= 1
    ensures op == EqualTo && r.Ok? ==> (r.value == 1 <==> vs[0] == vs[1]) && r.value <= 1
    ensures (forall i :: 0 <= i < |vs| ==> vs[i] <= USIZE_MAX) && r.Ok? ==> r.value <= USIZE_MAX
  {
    match op
    case Sum => if Total(vs) <= USIZE_MAX then Ok(Total(vs)) else Err(Overflow)
    case Product => ProductChecked(vs); ProductFrom(vs, 0, 1)
    case Maximum => if vs == [] then Err(NoMaximum) else Ok(MaxOf(vs))
    case Minimum => if vs == [] then Err(NoMinimum) else Ok(MinOf(vs))
    case GreaterThan => if |vs| < 2 then Err(MissingOperand) else Ok(if vs[0] > vs[1] then 1 else 0)
    case LessThan => if |vs| < 2 then Err(MissingOperand) else Ok(if vs[0] < vs[1] then 1 else 0)
    case EqualTo => if |vs| < 2 then Err(MissingOperand) else Ok(if vs[0] == vs[1] then 1 else 0)
  }

  /** `BITSPacket::evaluate`: a literal is its value; an operator applies its operation to its subpackets' values, the first failing subpacket failing it. */
  function Evaluate(p: Packet): (r: Result<nat, EvalError>)
    ensures Bounded(p) && r.Ok? ==> r.value <= USIZE_MAX
    decreases p
  {
    match p.payload
    case LiteralValue(v) => Ok(v)
    case OperatorPayload(op, subs) =>
      var rs := seq(|subs|, i requires 0 <= i < |subs| => Evaluate(subs[i]));
      match Collect(rs)
      case Err(e) => Err(e)
      case Ok(vs) =>
        assert Bounded(p) ==> forall i :: 0 <= i < |vs| ==> vs[i] <= USIZE_MAX by {
          if Bounded(p) {
            forall i | 0 <= i < |vs|
              ensures vs[i] <= USIZE_MAX
            {
              assert rs[i] == Evaluate(subs[i]);
            }
          }
        }
        Apply(op, vs)
  }

  /**
   * What a packet stands for in unbounded arithmetic: the sum, product,
   * maximum or minimum of its operands' values, or 1 or 0 for a comparison
   * of the first two; None where no value is defined.
   */
  function Meaning(p: Packet): Option<nat>
    decreases p
  {
    match p.payload
    case LiteralValue(v) => Some(v)
    case OperatorPayload(op, subs) =>
      var ms := seq(|subs|, i requires 0 <= i < |subs| => Meaning(subs[i]));
      if exists i :: 0 <= i < |ms| && ms[i].None? then None
      else Combine(op, seq(|ms|, i requires 0 <= i < |ms| => ms[i].value))
  }

  function Combine(op: OperatorType, vs: seq<nat>): Option<nat>
  {
    match op
    case Sum => Some(Total(vs))
    case Product => Some(Prod(vs))
    case Maximum => if vs == [] then None else Some(MaxOf(vs))
    case Minimum => if vs == [] then None else Some(MinOf(vs))
    case GreaterThan => if |vs| < 2 then None else Some(if vs[0] > vs[1] then 1 else 0)
    case LessThan => if |vs| < 2 then None else Some(if vs[0] < vs[1] then 1 else 0)
    case EqualTo => if |vs| < 2 then None else Some(if vs[0] == vs[1] then 1 else 0)
  }

  /**
   * Evaluation computes what the packet stands for: a value it returns is
   * the packet's meaning, and it fails with anything but Overflow only where
   * the packet has no meaning.
   */
  lemma {:induction false} EvaluateMeans(p: Packet)
    ensures Evaluate(p).Ok? ==> Meaning(p) == Some(Evaluate(p).value)
    ensures Evaluate(p).Err? && Evaluate(p).error != Overflow ==> Meaning(p).None?
    decreases p
  {
    match p.payload
    case LiteralValue(v) =>
    case OperatorPayload(op, subs) =>
      var rs := seq(|subs|, i requires 0 <= i < |subs| => Evaluate(subs[i]));
      var ms := seq(|subs|, i requires 0 <= i < |subs| => Meaning(subs[i]));
      forall i | 0 <= i < |subs|
        ensures rs[i].Ok? ==> ms[i] == Some(rs[i].value)
        ensures rs[i].Err? && rs[i].error != Overflow ==> ms[i].None?
      {
        EvaluateMeans(subs[i]);
      }
      match Collect(rs)
      case Err(e) =>
        if e != Overflow {
          var i :| 0 <= i < |rs| && rs[i] == Err(e) && forall j :: 0 <= j < i ==> rs[j].Ok?;
          assert ms[i].None?;
        }
      case Ok(vs) =>
        assert seq(|ms|, i requires 0 <= i < |ms| => ms[i].value) == vs;
        ApplyMeans(op, vs);
  }

  /** Applying an operation agrees with combining the operands, except that it may overflow. */
  lemma ApplyMeans(op: OperatorType, vs: seq<nat>)
    ensures Apply(op, vs).Ok? ==> Combine(op, vs) == Some(Apply(op, vs).value)
    ensures Apply(op, vs).Err? && Apply(op, vs).error != Overflow ==> Combine(op, vs).None?
  {
  }

  // Version sums

  /** `version_sum`: a packet's version plus the version sums of its subpackets. */
  function VersionSum(p: Packet): nat
    decreases p
  {
    p.version
      + match p.payload
        case LiteralValue(_) => 0
        case OperatorPayload(_, subs) => Total(seq(|subs|, i requires 0 <= i < |subs| => VersionSum(subs[i])))
  }

  /** The versions of a packet and of every packet inside it, in the order they are written. */
  function Versions(p: Packet): (vs: seq<nat>)
    ensures |vs| >= 1 && vs[0] == p.version
    decreases p
  {
    [p.version]
      + match p.payload
        case LiteralValue(_) => []
        case OperatorPayload(_, subs) => Flatten(seq(|subs|, i requires 0 <= i < |subs| => Versions(subs[i])))
  }

  function Flatten<T>(xss: seq<seq<T>>): seq<T>
  {
    if xss == [] then [] else xss[0] + Flatten(xss[1..])
  }

  /** The version sum adds up every version in the packet, each once. */
  lemma {:induction false} VersionSumOfVersions(p: Packet)
    ensures VersionSum(p) == Total(Versions(p))
    decreases p
  {
    match p.payload
    case LiteralValue(_) =>
      assert Versions(p) == [p.version];
    case OperatorPayload(_, subs) =>
      var xss := seq(|subs|, i requires 0 <= i < |subs| => Versions(subs[i]));
      forall i | 0 <= i < |subs|
        ensures VersionSum(subs[i]) == Total(xss[i])
      {
        VersionSumOfVersions(subs[i]);
      }
      TotalFlatten(xss);
      assert seq(|xss|, i requires 0 <= i < |xss| => Total(xss[i])) == seq(|subs|, i requires 0 <= i < |subs| => VersionSum(subs[i]));
      assert Versions(p) == [p.version] + Flatten(xss);
      TotalAppend([p.version], Flatten(xss));
  }

  lemma {:induction false} TotalAppend(a: seq<nat>, b: seq<nat>)
    ensures Total(a + b) == Total(a) + Total(b)
    decreases |a|
  {
    if a == [] {
      assert a + b == b;
    } else {
      assert (a + b)[1..] == a[1..] + b;
      TotalAppend(a[1..], b);
    }
  }

  lemma {:induction false} TotalFlatten(xss: seq<seq<nat>>)
    ensures Total(Flatten(xss)) == Total(seq(|xss|, i requires 0 <= i < |xss| => Total(xss[i])))
    decreases |xss|
  {
    if xss != [] {
      TotalFlatten(xss[1..]);
      TotalAppend(xss[0], Flatten(xss[1..]));
      var ts := seq(|xss|, i requires 0 <= i < |xss| => Total(xss[i]));
      assert ts[1..] == seq(|xss[1..]|, i requires 0 <= i < |xss[1..]| => Total(xss[1..][i]));
    }
  }

  // Writing packets

  /** The nibbles of a value, most significant first, with no leading zero (zero is one 0). */
  function Digits(v: nat): (ns: seq<nat>)
    ensures |ns| >= 1 && IsNibbles(ns) && Hexadecimal(ns) == v
    decreases v
  {
    if v < 16 then [v]
    else
      var init := Digits(v / 16);
      NibblesSnoc(init, v % 16);
      assert (init + [v % 16])[..|init|] == init;
      init + [v % 16]
  }

  lemma {:induction false} NibblesSnoc(ns: seq<nat>, d: nat)
    requires IsNibbles(ns) && d < 16
    ensures IsNibbles(ns + [d])
    decreases |ns|
  {
    if ns != [] {
      assert (ns + [d])[1..] == ns[1..] + [d];
      NibblesSnoc(ns[1..], d);
    }
  }

  /** A value below 16^k has at most k digits. */
  lemma {:induction false} DigitsFit(v: nat, k: nat)
    requires 1 <= k && v < Pow2(4 * k)
    ensures |Digits(v)| <= k
    decreases v
  {
    if v >= 16 {
      Pow2Facts();
      assert k != 1;
      NextNibble(k - 1);
      DigitsFit(v / 16, k - 1);
    }
  }

  /** The 5-bit groups of a literal: each nibble under a leading bit that is 1 on every group but the last. */
  function LiteralBits(ns: seq<nat>): seq<bool>
  {
    if ns == [] then [] else BitsOf((if |ns| > 1 then 16 else 0) + ns[0], 5) + LiteralBits(ns[1..])
  }

  lemma {:induction false} GroupsOfLiteral(ns: seq<nat>, more: seq<bool>, broken: bool)
    requires ns != [] && IsNibbles(ns)
    ensures Groups(Stream(LiteralBits(ns) + more, broken)) == Some((ns, Stream(more, broken)))
    decreases |ns|
  {
    var st := Stream(LiteralBits(ns) + more, broken);
    var tail := LiteralBits(ns[1..]) + more;
    var piece := FirstGroup(ns, more, broken);
    if |ns| > 1 {
      GroupsOfLiteral(ns[1..], more, broken);
      GroupsCons(st, piece, ns[0], Stream(tail, broken), ns[1..], Stream(more, broken));
      ConsSlice(ns, 0);
    } else {
      GroupsLast(st, piece, ns[0], Stream(tail, broken));
      assert ns == [ns[0]] && tail == more;
    }
  }

  /** The first five bits of a written literal are its first group: the continuation bit and the first nibble. */
  lemma FirstGroup(ns: seq<nat>, more: seq<bool>, broken: bool) returns (piece: nat)
    requires ns != [] && IsNibbles(ns)
    ensures piece / 16 == (if |ns| > 1 then 1 else 0) && piece % 16 == ns[0]
    ensures Take(Stream(LiteralBits(ns) + more, broken), 5) == Some((piece, Stream(LiteralBits(ns[1..]) + more, broken)))
  {
    piece := (if |ns| > 1 then 16 else 0) + ns[0];
    var tail := LiteralBits(ns[1..]) + more;
    assert LiteralBits(ns) == BitsOf(piece, 5) + LiteralBits(ns[1..]);
    Associative(BitsOf(piece, 5), LiteralBits(ns[1..]), more);
    Piece(|ns| > 1, ns[0], piece);
    TakeBitsOf(piece, 5, tail, broken);
  }

  /** The last group of a literal. */
  lemma GroupsLast(st: Stream, piece: nat, nibble: nat, rest: Stream)
    requires Take(st, 5) == Some((piece, rest)) && piece / 16 == 0 && piece % 16 == nibble
    ensures Groups(st) == Some(([nibble], rest))
  {
  }

  /** A group that more groups follow. */
  lemma GroupsCons(st: Stream, piece: nat, nibble: nat, rest: Stream, more: seq<nat>, end: Stream)
    requires Take(st, 5) == Some((piece, rest)) && piece / 16 != 0 && piece % 16 == nibble
    requires Groups(rest) == Some((more, end))
    ensures Groups(st) == Some(([nibble] + more, end))
  {
  }

  /** A group's leading bit and its nibble, read back from the 5-bit value. */
  lemma Piece(continues: bool, n: nat, piece: nat)
    requires n < 16 && piece == (if continues then 16 else 0) + n
    ensures piece < Pow2(5) && piece / 16 == (if continues then 1 else 0) && piece % 16 == n
  {
    Pow2Facts();
  }

  /** A value that fits a `usize`, written as literal groups, reads back as itself. */
  lemma LiteralRoundTrip(v: nat, more: seq<bool>, broken: bool)
    requires v <= USIZE_MAX
    ensures Literal(Stream(LiteralBits(Digits(v)) + more, broken)) == Ok((v, Stream(more, broken)))
  {
    GroupsOfLiteral(Digits(v), more, broken);
    Pow2Facts();
    DigitsFit(v, 16);
    ShiftedIsHexadecimal(Digits(v));
  }

  function Width(p: Packet): nat
  {
    if p.payload.OperatorPayload? then |p.payload.subpackets| else 0
  }

  /**
   * The bits of a packet: version, type id, then the literal's groups or the
   * operator's length mode, length and subpackets.  Operators are written in
   * count mode when `byCount` holds and in bit-length mode otherwise.
   */
  function Encode(p: Packet, byCount: bool): (bits: seq<bool>)
    ensures |bits| >= 6
    decreases p, Width(p) + 1
  {
    match p.payload
    case LiteralValue(v) => BitsOf(p.version, 3) + BitsOf(4, 3) + LiteralBits(Digits(v))
    case OperatorPayload(op, subs) =>
      BitsOf(p.version, 3) + BitsOf(OperatorId(op), 3) + LengthBits(p, byCount) + Body(p, byCount, 0)
  }

  /** An operator's length mode and length: the count in 11 bits, or the bit length of its subpackets in 15. */
  function LengthBits(p: Packet, byCount: bool): seq<bool>
    requires p.payload.OperatorPayload?
    decreases p, Width(p) + 1, 0
  {
    if byCount then BitsOf(1, 1) + BitsOf(|p.payload.subpackets|, 11)
    else BitsOf(0, 1) + BitsOf(|Body(p, byCount, 0)|, 15)
  }

  /** The subpackets of an operator from the k-th on, written one after the other. */
  function Body(p: Packet, byCount: bool, k: nat): seq<bool>
    requires p.payload.OperatorPayload?
    decreases p, Width(p) - k
  {
    if k >= |p.payload.subpackets| then []
    else Encode(p.payload.subpackets[k], byCount) + Body(p, byCount, k + 1)
  }

  /** What can be written: 3-bit versions, literals that fit a `usize`, and lengths that fit their fields. */
  predicate Encodable(p: Packet, byCount: bool)
    decreases p
  {
    && p.version < 8
    && match p.payload
       case LiteralValue(v) => v <= USIZE_MAX
       case OperatorPayload(_, subs) =>
         && (forall i :: 0 <= i < |subs| ==> Encodable(subs[i], byCount))
         && if byCount then |subs| < Pow2(11) else |Body(p, byCount, 0)| < Pow2(15)
  }

  lemma Associative<T>(a: seq<T>, b: seq<T>, c: seq<T>)
    ensures a + b + c == a + (b + c)
  {
  }

  lemma ConsSlice<T>(s: seq<T>, k: nat)
    requires k < |s|
    ensures [s[k]] + s[k + 1..] == s[k..] && s[0..] == s
  {
  }

  /** A read of `len` bits from a value written in `len` bits. */
  lemma ReadBitsOf(v: nat, len: nat, more: seq<bool>, broken: bool)
    requires v < Pow2(len)
    ensures Read(Stream(BitsOf(v, len) + more, broken), len) == Ok((v, Stream(more, broken)))
  {
    TakeBitsOf(v, len, more, broken);
  }

  /** Parsing after a version and a type id that were written in 3 bits each. */
  lemma ParseAfterHeader(version: nat, typeId: nat, tail: seq<bool>, broken: bool)
    requires version < 8 && typeId < 8
    ensures ParsePacket(Stream(BitsOf(version, 3) + BitsOf(typeId, 3) + tail, broken))
         == if typeId == 4 then
              var lit := Literal(Stream(tail, broken));
              if lit.Err? then Err(lit.error) else Ok((Packet(version, LiteralValue(lit.value.0)), lit.value.1))
            else
              var op := ParseOperator(Stream(tail, broken), typeId);
              if op.Err? then Err(op.error) else Ok((Packet(version, op.value.0), op.value.1))
  {
    Pow2Facts();
    assert BitsOf(version, 3) + BitsOf(typeId, 3) + tail == BitsOf(version, 3) + (BitsOf(typeId, 3) + tail);
    ReadBitsOf(version, 3, BitsOf(typeId, 3) + tail, broken);
    ReadBitsOf(typeId, 3, tail, broken);
  }

  /** Parsing an operator whose count was written in 11 bits, when its subpackets parse. */
  lemma ParseByCount(count: nat, typeId: nat, op: OperatorType, tail: seq<bool>, broken: bool, subs: seq<Packet>, end: Stream)
    requires count < Pow2(11) && OperatorOf(typeId) == Some(op)
    requires ParseCount(Stream(tail, broken), count) == Ok((subs, end))
    ensures ParseOperator(Stream(BitsOf(1, 1) + BitsOf(count, 11) + tail, broken), typeId) == Ok((OperatorPayload(op, subs), end))
  {
    Pow2Facts();
    Associative(BitsOf(1, 1), BitsOf(count, 11), tail);
    ReadBitsOf(1, 1, BitsOf(count, 11) + tail, broken);
    ReadBitsOf(count, 11, tail, broken);
  }

  /** Parsing an operator whose bit length was written in 15 bits, when its subpackets parse. */
  lemma ParseBySpan(total: nat, typeId: nat, op: OperatorType, tail: seq<bool>, broken: bool, subs: seq<Packet>, end: Stream)
    requires total < Pow2(15) && OperatorOf(typeId) == Some(op)
    requires ParseSpan(Stream(tail, broken), total, |tail|) == Ok((subs, end))
    ensures ParseOperator(Stream(BitsOf(0, 1) + BitsOf(total, 15) + tail, broken), typeId) == Ok((OperatorPayload(op, subs), end))
  {
    Pow2Facts();
    Associative(BitsOf(0, 1), BitsOf(total, 15), tail);
    ReadBitsOf(0, 1, BitsOf(total, 15) + tail, broken);
    ReadBitsOf(total, 15, tail, broken);
  }

  /** Reading back what was written gives the packet and leaves the bits after it. */
  lemma {:induction false} EncodeParse(p: Packet, byCount: bool, more: seq<bool>, broken: bool)
    requires Encodable(p, byCount)
    ensures ParsePacket(Stream(Encode(p, byCount) + more, broken)) == Ok((p, Stream(more, broken)))
    decreases p, Width(p) + 2
  {
    match p.payload
    case LiteralValue(v) =>
      var lit := LiteralBits(Digits(v));
      var header := BitsOf(p.version, 3) + BitsOf(4, 3);
      assert Encode(p, byCount) == header + lit;
      Associative(header, lit, more);
      ParseAfterHeader(p.version, 4, lit + more, broken);
      LiteralRoundTrip(v, more, broken);
    case OperatorPayload(op, subs) =>
      var header := BitsOf(p.version, 3) + BitsOf(OperatorId(op), 3);
      var length, body := LengthBits(p, byCount), Body(p, byCount, 0);
      var tail := length + body + more;
      assert Encode(p, byCount) == header + length + body;
      Associative(header + length, body, more);
      Associative(header, length, body + more);
      Associative(length, body, more);
      ParseAfterHeader(p.version, OperatorId(op), tail, broken);
      EncodeParseOperator(p, byCount, more, broken);
  }

  lemma {:induction false} EncodeParseOperator(p: Packet, byCount: bool, more: seq<bool>, broken: bool)
    requires p.payload.OperatorPayload? && Encodable(p, byCount)
    ensures ParseOperator(Stream(LengthBits(p, byCount) + Body(p, byCount, 0) + more, broken), OperatorId(p.payload.op))
         == Ok((p.payload, Stream(more, broken)))
    decreases p, Width(p) + 1
  {
    var subs, op := p.payload.subpackets, p.payload.op;
    var body := Body(p, byCount, 0);
    OperatorIds(OperatorId(op), op);
    Associative(LengthBits(p, byCount), body, more);
    assert subs[0..] == subs;
    if byCount {
      EncodeParseCount(p, byCount, 0, |subs|, more, broken);
      ParseByCount(|subs|, OperatorId(op), op, body + more, broken, subs, Stream(more, broken));
    } else {
      EncodeParseSpan(p, byCount, 0, more, broken, |body|, |body + more|);
      ParseBySpan(|body|, OperatorId(op), op, body + more, broken, subs, Stream(more, broken));
    }
  }

  lemma {:induction false} EncodeParseCount(p: Packet, byCount: bool, k: nat, n: nat, more: seq<bool>, broken: bool)
    requires Writable(p, byCount) && k + n == |p.payload.subpackets|
    ensures ParseCount(Stream(Body(p, byCount, k) + more, broken), n)
         == Ok((p.payload.subpackets[k..], Stream(more, broken)))
    decreases p, n, 1
  {
    if n > 0 {
      CountTurn(p, byCount, k, n, more, broken);
    } else {
      CountDone(p, byCount, k, more, broken);
    }
  }

  /** After the last subpacket the count loop reads nothing more. */
  lemma CountDone(p: Packet, byCount: bool, k: nat, more: seq<bool>, broken: bool)
    requires p.payload.OperatorPayload? && k == |p.payload.subpackets|
    ensures ParseCount(Stream(Body(p, byCount, k) + more, broken), 0)
         == Ok((p.payload.subpackets[k..], Stream(more, broken)))
  {
    BodyEnd(p, byCount, k, more);
    CountEnd(Stream(more, broken));
  }

  /** One subpacket read back by the count loop, in front of the ones after it. */
  lemma CountTurn(p: Packet, byCount: bool, k: nat, n: nat, more: seq<bool>, broken: bool)
    requires Writable(p, byCount) && k + n == |p.payload.subpackets| && n > 0
    ensures ParseCount(Stream(Body(p, byCount, k) + more, broken), n)
         == Ok((p.payload.subpackets[k..], Stream(more, broken)))
    decreases p, n, 0
  {
    var subs := p.payload.subpackets;
    var rest := Body(p, byCount, k + 1) + more;
    BodyStep(p, byCount, k, more);
    EncodeParse(subs[k], byCount, rest, broken);
    EncodeParseCount(p, byCount, k + 1, n - 1, more, broken);
    CountCons(Stream(Body(p, byCount, k) + more, broken), n, subs[k], Stream(rest, broken), subs[k + 1..], Stream(more, broken));
    ConsSlice(subs, k);
  }

  lemma {:induction false} EncodeParseSpan(p: Packet, byCount: bool, k: nat, more: seq<bool>, broken: bool, total: nat, start: nat)
    requires Writable(p, byCount) && k <= |p.payload.subpackets|
    requires start == total + |more| && |Body(p, byCount, k)| + |more| <= start
    ensures ParseSpan(Stream(Body(p, byCount, k) + more, broken), total, start)
         == Ok((p.payload.subpackets[k..], Stream(more, broken)))
    decreases p, Width(p) - k, 1
  {
    var subs := p.payload.subpackets;
    if k < |subs| {
      BodyStep(p, byCount, k, more);
      EncodeParseSpan(p, byCount, k + 1, more, broken, total, start);
      SpanTurn(p, byCount, k, more, broken, total, start);
    } else {
      BodyEnd(p, byCount, k, more);
      SpanEnd(Stream(more, broken), total, start);
    }
  }

  /** One subpacket read back by the bit-length loop, in front of the ones after it. */
  lemma SpanTurn(p: Packet, byCount: bool, k: nat, more: seq<bool>, broken: bool, total: nat, start: nat)
    requires Writable(p, byCount) && k < |p.payload.subpackets|
    requires start == total + |more| && |Body(p, byCount, k)| + |more| <= start
    requires |Body(p, byCount, k + 1)| + |more| <= start
    requires ParseSpan(Stream(Body(p, byCount, k + 1) + more, broken), total, start)
          == Ok((p.payload.subpackets[k + 1..], Stream(more, broken)))
    ensures ParseSpan(Stream(Body(p, byCount, k) + more, broken), total, start)
         == Ok((p.payload.subpackets[k..], Stream(more, broken)))
    decreases p, Width(p) - k, 0
  {
    var subs := p.payload.subpackets;
    var rest := Body(p, byCount, k + 1) + more;
    BodyStep(p, byCount, k, more);
    EncodeParse(subs[k], byCount, rest, broken);
    SpanCons(Stream(Body(p, byCount, k) + more, broken), total, start, subs[k], Stream(rest, broken), subs[k + 1..], Stream(more, broken));
    ConsSlice(subs, k);
  }

  /** An operator packet that can be written (one proof obligation where it is required). */
  predicate Writable(p: Packet, byCount: bool)
  {
    var holds := p.payload.OperatorPayload? && Encodable(p, byCount);
    holds
  }

  /** The k-th subpacket's bits come first in the body from k on. */
  lemma BodyStep(p: Packet, byCount: bool, k: nat, more: seq<bool>)
    requires p.payload.OperatorPayload? && k < |p.payload.subpackets|
    ensures Body(p, byCount, k) + more == Encode(p.payload.subpackets[k], byCount) + (Body(p, byCount, k + 1) + more)
    ensures |Body(p, byCount, k)| == |Encode(p.payload.subpackets[k], byCount)| + |Body(p, byCount, k + 1)|
  {
    var first, others := Encode(p.payload.subpackets[k], byCount), Body(p, byCount, k + 1);
    assert Body(p, byCount, k) == first + others;
    Associative(first, others, more);
  }

  /** Past the last subpacket the body is empty. */
  lemma BodyEnd(p: Packet, byCount: bool, k: nat, more: seq<bool>)
    requires p.payload.OperatorPayload? && k == |p.payload.subpackets|
    ensures Body(p, byCount, k) + more == more && p.payload.subpackets[k..] == []
  {
  }

  /** The count loop with nothing left to count. */
  lemma CountEnd(st: Stream)
    ensures ParseCount(st, 0) == Ok(([], st))
  {
  }

  /** The bit-length loop once `total` bits are consumed. */
  lemma SpanEnd(st: Stream, total: nat, start: nat)
    requires start == total + |st.bits|
    ensures ParseSpan(st, total, start) == Ok(([], st))
  {
  }

  /** One turn of the count loop. */
  lemma CountCons(st: Stream, n: nat, p: Packet, rest: Stream, ps: seq<Packet>, end: Stream)
    requires n > 0 && ParsePacket(st) == Ok((p, rest)) && ParseCount(rest, n - 1) == Ok((ps, end))
    ensures ParseCount(st, n) == Ok(([p] + ps, end))
  {
  }

  /** One turn of the bit-length loop, for a packet that consumed bits. */
  lemma SpanCons(st: Stream, total: nat, start: nat, p: Packet, rest: Stream, ps: seq<Packet>, end: Stream)
    requires |st.bits| <= start && start - |st.bits| != total
    requires ParsePacket(st) == Ok((p, rest)) && |rest.bits| < |st.bits| && ParseSpan(rest, total, start) == Ok((ps, end))
    ensures ParseSpan(st, total, start) == Ok(([p] + ps, end))
  {
  }
}
