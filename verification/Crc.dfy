/** bit_lib_crc8 and bit_lib_crc16, with every combination of their parameters. */
module Crc {
  import opened Bits
  import opened BitLib
  import opened BitWords
  import opened CrcTheory

  // ---------------------------------------------------------------- messages and results

  /** The bits of a message in the order in which they are processed. */
  ghost function MessageBits(data: seq<bv8>, refIn: bool): (m: seq<bool>)
    ensures |m| == 8 * |data|
  {
    if data == [] then []
    else MessageBits(data[..|data| - 1], refIn) + Oriented(LowBits(data[|data| - 1], 8), refIn)
  }

  function Oriented(bits: seq<bool>, reflected: bool): (r: seq<bool>)
    ensures |r| == |bits|
  {
    if reflected then Reversed(bits) else bits
  }

  lemma MessageNext(data: seq<bv8>, i: nat, refIn: bool)
    requires i < |data|
    ensures MessageBits(data[..i + 1], refIn) == MessageBits(data[..i], refIn) + Oriented(LowBits(data[i], 8), refIn)
  {
    assert data[..i + 1][..i] == data[..i];
  }

  lemma {:induction false} MessageConcat(a: seq<bv8>, b: seq<bv8>, refIn: bool)
    ensures MessageBits(a + b, refIn) == MessageBits(a, refIn) + MessageBits(b, refIn)
    decreases |b|
  {
    if b == [] {
      assert a + b == a;
    } else {
      var front, last := b[..|b| - 1], b[|b| - 1];
      MessageConcat(a, front, refIn);
      MessageLast(a + b, a + front, last, refIn);
      MessageLast(b, front, last, refIn);
      Join3(MessageBits(a, refIn), MessageBits(front, refIn), Oriented(LowBits(last, 8), refIn));
    }
  }

  lemma MessageLast(data: seq<bv8>, front: seq<bv8>, last: bv8, refIn: bool)
    requires data == front + [last]
    ensures MessageBits(data, refIn) == MessageBits(front, refIn) + Oriented(LowBits(last, 8), refIn)
  {
    assert data[..|data| - 1] == front;
  }

  /** Byte by byte, and within a byte from the highest bit down, or from the lowest up if the input is
      reflected. */
  lemma {:induction false} MessageBit(data: seq<bv8>, refIn: bool, i: nat, j: nat)
    requires i < |data| && j < 8
    ensures 8 * i + j < |MessageBits(data, refIn)|
    ensures MessageBits(data, refIn)[8 * i + j] == BitOf(data[i], if refIn then 7 - j else j)
    decreases |data|
  {
    if i < |data| - 1 { MessageBit(data[..|data| - 1], refIn, i, j); }
  }

  /** The bits of the result. */
  ghost function CrcBits(init: seq<bool>, data: seq<bv8>, poly: seq<bool>, refIn: bool, refOut: bool, xorOut: seq<bool>):
    (r: seq<bool>)
    requires |init| == |poly| == |xorOut| > 0
    ensures |r| == |init|
  {
    XorBits(Oriented(FeedBits(init, MessageBits(data, refIn), poly), refOut), xorOut)
  }

  /** Bit i of the result is that of the register, counted from the other end if the output is reflected,
      and inverted if bit i of xorOut is set. */
  lemma OrientedBit(reg: seq<bool>, reflected: bool, xorOut: seq<bool>, i: nat)
    requires |reg| == |xorOut| > i
    ensures XorBits(Oriented(reg, reflected), xorOut)[i] == (reg[if reflected then |reg| - 1 - i else i] != xorOut[i])
  {
  }

  // ---------------------------------------------------------------- eight bits

  function Shift8(crc: bv8, polynom: bv8): bv8 {
    if crc & 0x80 != 0 then (crc << 1) ^ polynom else crc << 1
  }

  lemma XorAt8(a: bv8, b: bv8, m: bv8)
    requires m & (m - 1) == 0
    ensures ((a ^ b) & m != 0) == ((a & m != 0) != (b & m != 0))
  {
  }

  lemma MaskSingle8(k: nat)
    requires k < 8
    ensures Mask(k) & (Mask(k) - 1) == 0
  {
  }

  lemma XorBit8(a: bv8, b: bv8, k: nat)
    requires k < 8
    ensures BitOf(a ^ b, k) == (BitOf(a, k) != BitOf(b, k))
  {
    MaskSingle8(k);
    XorAt8(a, b, Mask(k));
  }

  lemma Xor8(a: bv8, b: bv8)
    ensures LowBits(a ^ b, 8) == XorBits(LowBits(a, 8), LowBits(b, 8))
  {
    forall k: nat | k < 8 ensures LowBits(a ^ b, 8)[k] == XorBits(LowBits(a, 8), LowBits(b, 8))[k] {
      XorBit8(a, b, k);
    }
  }

  lemma Shift8Bit(crc: bv8, polynom: bv8, k: nat)
    requires k < 8
    ensures BitOf(Shift8(crc, polynom), k) == ((k < 7 && BitOf(crc, k + 1)) != (BitOf(crc, 0) && BitOf(polynom, k)))
  {
    ShiftInBits(crc, false, k);
    assert ShiftIn(crc, false) == crc << 1;
    XorBit8(crc << 1, polynom, k);
  }

  lemma Shift8Bits(crc: bv8, polynom: bv8)
    ensures LowBits(Shift8(crc, polynom), 8) == StepBits(LowBits(crc, 8), false, LowBits(polynom, 8))
  {
    forall k: nat | k < 8
      ensures LowBits(Shift8(crc, polynom), 8)[k] == StepBits(LowBits(crc, 8), false, LowBits(polynom, 8))[k]
    {
      Shift8Bit(crc, polynom, k);
    }
  }

  lemma OneByte(b: bv8)
    ensures AllBits([b]) == LowBits(b, 8)
  {
    assert [b][..0] == [];
    assert AllBits([b]) == AllBits([b][..0]) + LowBits(b, 8);
  }

  /** bit_lib_reverse_bits on a single byte. */
  method ReverseByte(byte: bv8) returns (r: bv8)
    ensures LowBits(r, 8) == Reversed(LowBits(byte, 8))
  {
    var tmp := new bv8[1];
    tmp[0] := byte;
    assert tmp[..] == [byte];
    OneByte(byte);
    ReverseBits(tmp, 0, 8);
    r := tmp[0];
    assert tmp[..] == [r];
    OneByte(r);
    ReplacedWhole(LowBits(byte, 8), Reversed(LowBits(byte, 8)));
    assert LowBits(byte, 8)[0..8] == LowBits(byte, 8);
  }

  lemma ReplacedWhole(bits: seq<bool>, v: seq<bool>)
    requires |v| == |bits|
    ensures Replaced(bits, 0, v) == v
  {
    forall i: nat | i < |v| ensures Replaced(bits, 0, v)[i] == v[i] { ReplacedAt(bits, 0, v, i); }
  }

  method Oriented8(byte: bv8, reflected: bool) returns (r: bv8)
    ensures LowBits(r, 8) == Oriented(LowBits(byte, 8), reflected)
  {
    r := byte;
    if reflected { r := ReverseByte(byte); }
  }

  // the inner loop of bit_lib_crc8
  method EightShifts(start: bv8, polynom: bv8) returns (crc: bv8)
    ensures LowBits(crc, 8) == FeedBits(LowBits(start, 8), Clear(8), LowBits(polynom, 8))
  {
    crc := start;
    var j := 8;
    while j > 0
      invariant 0 <= j <= 8 && LowBits(crc, 8) == FeedBits(LowBits(start, 8), Clear(8 - j), LowBits(polynom, 8))
    {
      Shift8Bits(crc, polynom);
      assert Clear(9 - j)[..8 - j] == Clear(8 - j);
      crc := Shift8(crc, polynom);
      j := j - 1;
    }
  }

  method Crc8(data: seq<bv8>, polynom: bv8, init: bv8, refIn: bool, refOut: bool, xorOut: bv8) returns (crc: bv8)
    ensures LowBits(crc, 8) == CrcBits(LowBits(init, 8), data, LowBits(polynom, 8), refIn, refOut, LowBits(xorOut, 8))
    ensures var reg := FeedBits(LowBits(init, 8), MessageBits(data, refIn), LowBits(polynom, 8));
            forall i: nat :: i < 8 ==> BitOf(crc, i) == (reg[if refOut then 7 - i else i] != BitOf(xorOut, i))
  {
    ghost var start, poly := LowBits(init, 8), LowBits(polynom, 8);
    crc := init;
    var i := 0;
    while i < |data|
      invariant i <= |data| && LowBits(crc, 8) == FeedBits(start, MessageBits(data[..i], refIn), poly)
    {
      var byte := Oriented8(data[i], refIn);
      AddByte(crc, byte, start, MessageBits(data[..i], refIn), poly);
      MessageNext(data, i, refIn);
      crc := EightShifts(crc ^ byte, polynom);
      i := i + 1;
    }
    assert data[..|data|] == data;
    crc := Oriented8(crc, refOut);
    Xor8(crc, xorOut);
    crc := crc ^ xorOut;
    ResultBits8(crc, start, data, poly, refIn, refOut, xorOut);
  }

  lemma ResultBits8(crc: bv8, init: seq<bool>, data: seq<bv8>, poly: seq<bool>, refIn: bool, refOut: bool, xorOut: bv8)
    requires |init| == |poly| == 8
    requires LowBits(crc, 8) == CrcBits(init, data, poly, refIn, refOut, LowBits(xorOut, 8))
    ensures var reg := FeedBits(init, MessageBits(data, refIn), poly);
            forall i: nat :: i < 8 ==> BitOf(crc, i) == (reg[if refOut then 7 - i else i] != BitOf(xorOut, i))
  {
    var reg := FeedBits(init, MessageBits(data, refIn), poly);
    forall i: nat | i < 8 ensures BitOf(crc, i) == (reg[if refOut then 7 - i else i] != BitOf(xorOut, i)) {
      OrientedBit(reg, refOut, LowBits(xorOut, 8), i);
      assert BitOf(crc, i) == LowBits(crc, 8)[i] && BitOf(xorOut, i) == LowBits(xorOut, 8)[i];
    }
  }

  lemma AddByte(crc: bv8, byte: bv8, start: seq<bool>, m: seq<bool>, poly: seq<bool>)
    requires |start| == |poly| == 8 && LowBits(crc, 8) == FeedBits(start, m, poly)
    ensures FeedBits(LowBits(crc ^ byte, 8), Clear(8), poly) == FeedBits(start, m + LowBits(byte, 8), poly)
  {
    Xor8(crc, byte);
    AddFirst(LowBits(crc, 8), LowBits(byte, 8), poly);
    FeedConcat(start, m, LowBits(byte, 8), poly);
  }

  // ---------------------------------------------------------------- sixteen bits

  function Mask16(k: nat): bv16
    requires k < 16
  {
    if k == 0 then 0x8000 else if k == 1 then 0x4000 else if k == 2 then 0x2000 else if k == 3 then 0x1000
    else if k == 4 then 0x0800 else if k == 5 then 0x0400 else if k == 6 then 0x0200 else if k == 7 then 0x0100
    else if k == 8 then 0x0080 else if k == 9 then 0x0040 else if k == 10 then 0x0020 else if k == 11 then 0x0010
    else if k == 12 then 0x0008 else if k == 13 then 0x0004 else if k == 14 then 0x0002 else 0x0001
  }

  predicate BitOf16(x: bv16, k: nat)
    requires k < 16
  {
    x & Mask16(k) != 0
  }

  /** All bits of a word, highest first. */
  function WordBits(x: bv16): (r: seq<bool>)
    ensures |r| == 16
  {
    seq(16, i requires 0 <= i < 16 => BitOf16(x, i))
  }

  lemma XorAt16(a: bv16, b: bv16, m: bv16)
    requires m & (m - 1) == 0
    ensures ((a ^ b) & m != 0) == ((a & m != 0) != (b & m != 0))
  {
  }

  lemma MaskSingle16(k: nat)
    requires k < 16
    ensures Mask16(k) & (Mask16(k) - 1) == 0
  {
  }

  lemma XorBit16(a: bv16, b: bv16, k: nat)
    requires k < 16
    ensures BitOf16(a ^ b, k) == (BitOf16(a, k) != BitOf16(b, k))
  {
    MaskSingle16(k);
    XorAt16(a, b, Mask16(k));
  }

  lemma ShiftBit16(a: bv16, k: nat)
    requires k < 16
    ensures BitOf16(a << 1, k) == (k < 15 && BitOf16(a, k + 1))
  {
    if k < 8 {
      if k == 0 {} else if k == 1 {} else if k == 2 {} else if k == 3 {}
      else if k == 4 {} else if k == 5 {} else if k == 6 {} else {}
    } else {
      if k == 8 {} else if k == 9 {} else if k == 10 {} else if k == 11 {}
      else if k == 12 {} else if k == 13 {} else if k == 14 {} else {}
    }
  }

  lemma Xor16(a: bv16, b: bv16)
    ensures WordBits(a ^ b) == XorBits(WordBits(a), WordBits(b))
  {
    forall k: nat | k < 16 ensures WordBits(a ^ b)[k] == XorBits(WordBits(a), WordBits(b))[k] {
      XorBit16(a, b, k);
    }
  }

  // the body of the inner loop of bit_lib_crc16
  function Step16(crc: bv16, bit: bool, polynom: bv16): bv16 {
    var c15 := BitOf16(crc, 0);
    if c15 != bit then (crc << 1) ^ polynom else crc << 1
  }

  lemma ShiftedWord(x: bv16)
    ensures WordBits(x << 1) == WordBits(x)[1..] + [false]
  {
    forall k: nat | k < 16 ensures WordBits(x << 1)[k] == (WordBits(x)[1..] + [false])[k] {
      ShiftBit16(x, k);
    }
  }

  lemma Step16Bits(crc: bv16, bit: bool, polynom: bv16)
    ensures WordBits(Step16(crc, bit, polynom)) == StepBits(WordBits(crc), bit, WordBits(polynom))
  {
    ShiftedWord(crc);
    Xor16(crc << 1, polynom);
    StepOf(WordBits(crc), WordBits(crc << 1), WordBits(polynom), bit, WordBits(Step16(crc, bit, polynom)));
  }

  lemma StepOf(reg: seq<bool>, up: seq<bool>, poly: seq<bool>, b: bool, r: seq<bool>)
    requires |reg| == |poly| > 0 && up == reg[1..] + [false]
    requires r == if reg[0] != b then XorBits(up, poly) else up
    ensures r == StepBits(reg, b, poly)
  {
    StepIsShiftAndAdd(reg, b, poly);
    XorWithClear(up);
  }

  /** bit_lib_reverse_16_fast. */
  function Reverse16(data: bv16): bv16 {
    ((data & 0x8000) >> 15) | ((data & 0x4000) >> 13) | ((data & 0x2000) >> 11) | ((data & 0x1000) >> 9)
    | ((data & 0x0800) >> 7) | ((data & 0x0400) >> 5) | ((data & 0x0200) >> 3) | ((data & 0x0100) >> 1)
    | ((data & 0x0080) << 1) | ((data & 0x0040) << 3) | ((data & 0x0020) << 5) | ((data & 0x0010) << 7)
    | ((data & 0x0008) << 9) | ((data & 0x0004) << 11) | ((data & 0x0002) << 13) | ((data & 0x0001) << 15)
  }

  lemma Reverse16Bit(x: bv16, k: nat)
    requires k < 16
    ensures BitOf16(Reverse16(x), k) == BitOf16(x, 15 - k)
  {
    if k < 8 {
      if k == 0 {} else if k == 1 {} else if k == 2 {} else if k == 3 {}
      else if k == 4 {} else if k == 5 {} else if k == 6 {} else {}
    } else {
      if k == 8 {} else if k == 9 {} else if k == 10 {} else if k == 11 {}
      else if k == 12 {} else if k == 13 {} else if k == 14 {} else {}
    }
  }

  lemma Reverse16Bits(x: bv16)
    ensures WordBits(Reverse16(x)) == Reversed(WordBits(x))
  {
    forall k: nat | k < 16 ensures BitOf16(Reverse16(x), k) == BitOf16(x, 15 - k) {
      Reverse16Bit(x, k);
    }
    MirrorImage(x, Reverse16(x));
  }

  lemma MirrorImage(x: bv16, y: bv16)
    requires forall k: nat :: k < 16 ==> BitOf16(y, k) == BitOf16(x, 15 - k)
    ensures WordBits(y) == Reversed(WordBits(x))
  {
  }

  /** bit_lib_reverse_16_fast(byte) >> 8, as a byte. */
  function ReverseLow(byte: bv8): bv8 {
    var w: bv16 := Reverse16(byte as bv16) >> 8;
    (w & 0xFF) as bv8
  }

  lemma ReverseLowBit(byte: bv8, k: nat)
    requires k < 8
    ensures BitOf(ReverseLow(byte), k) == BitOf(byte, 7 - k)
  {
    if k == 0 {} else if k == 1 {} else if k == 2 {} else if k == 3 {}
    else if k == 4 {} else if k == 5 {} else if k == 6 {} else {}
  }

  lemma ReverseLowBits(byte: bv8)
    ensures LowBits(ReverseLow(byte), 8) == Reversed(LowBits(byte, 8))
  {
    forall k: nat | k < 8 ensures LowBits(ReverseLow(byte), 8)[k] == Reversed(LowBits(byte, 8))[k] {
      ReverseLowBit(byte, k);
    }
  }

  method Oriented16(byte: bv8, reflected: bool) returns (r: bv8)
    ensures LowBits(r, 8) == Oriented(LowBits(byte, 8), reflected)
  {
    r := byte;
    if reflected {
      ReverseLowBits(byte);
      r := ReverseLow(byte);
    }
  }

  // the inner loop of bit_lib_crc16
  method EightSteps(start: bv16, byte: bv8, polynom: bv16) returns (crc: bv16)
    ensures WordBits(crc) == FeedBits(WordBits(start), LowBits(byte, 8), WordBits(polynom))
  {
    ghost var m := LowBits(byte, 8);
    crc := start;
    var j := 0;
    while j < 8
      invariant 0 <= j <= 8 && WordBits(crc) == FeedBits(WordBits(start), m[..j], WordBits(polynom))
    {
      Step16Bits(crc, BitOf(byte, j), polynom);
      assert m[..j + 1][..j] == m[..j];
      crc := Step16(crc, BitOf(byte, j), polynom);
      j := j + 1;
    }
    assert m[..8] == m;
  }

  method Crc16(data: seq<bv8>, polynom: bv16, init: bv16, refIn: bool, refOut: bool, xorOut: bv16) returns (crc: bv16)
    ensures WordBits(crc) == CrcBits(WordBits(init), data, WordBits(polynom), refIn, refOut, WordBits(xorOut))
    ensures var reg := FeedBits(WordBits(init), MessageBits(data, refIn), WordBits(polynom));
            forall i: nat :: i < 16 ==> BitOf16(crc, i) == (reg[if refOut then 15 - i else i] != BitOf16(xorOut, i))
  {
    ghost var start, poly := WordBits(init), WordBits(polynom);
    crc := init;
    var i := 0;
    while i < |data|
      invariant i <= |data| && WordBits(crc) == FeedBits(start, MessageBits(data[..i], refIn), poly)
    {
      var byte := Oriented16(data[i], refIn);
      MessageNext(data, i, refIn);
      FeedConcat(start, MessageBits(data[..i], refIn), LowBits(byte, 8), poly);
      crc := EightSteps(crc, byte, polynom);
      i := i + 1;
    }
    assert data[..|data|] == data;
    if refOut {
      Reverse16Bits(crc);
      crc := Reverse16(crc);
    }
    Xor16(crc, xorOut);
    crc := crc ^ xorOut;
    ResultBits16(crc, start, data, poly, refIn, refOut, xorOut);
  }

  lemma ResultBits16(crc: bv16, init: seq<bool>, data: seq<bv8>, poly: seq<bool>, refIn: bool, refOut: bool, xorOut: bv16)
    requires |init| == |poly| == 16
    requires WordBits(crc) == CrcBits(init, data, poly, refIn, refOut, WordBits(xorOut))
    ensures var reg := FeedBits(init, MessageBits(data, refIn), poly);
            forall i: nat :: i < 16 ==> BitOf16(crc, i) == (reg[if refOut then 15 - i else i] != BitOf16(xorOut, i))
  {
    var reg := FeedBits(init, MessageBits(data, refIn), poly);
    forall i: nat | i < 16 ensures BitOf16(crc, i) == (reg[if refOut then 15 - i else i] != BitOf16(xorOut, i)) {
      OrientedBit(reg, refOut, WordBits(xorOut), i);
      assert BitOf16(crc, i) == WordBits(crc)[i] && BitOf16(xorOut, i) == WordBits(xorOut)[i];
    }
  }

  // ---------------------------------------------------------------- appending the result

  /** The bytes of a result of whole bytes: the highest first if nothing is reflected, the lowest
      first if everything is. */
  ghost predicate ResultBytes(tail: seq<bv8>, result: seq<bool>, reflected: bool) {
    MessageBits(tail, reflected) == Oriented(result, reflected)
  }

  /** With input and output reflected alike, the check of a message followed by its own check depends on
      what is added at the end and the polynomial alone: not on the message, nor on the initial value. */
  lemma AppendedCrcResidue(init: seq<bool>, data: seq<bv8>, poly: seq<bool>, reflected: bool, xorOut: seq<bool>, tail: seq<bv8>)
    requires |init| == |poly| == |xorOut| > 0
    requires ResultBytes(tail, CrcBits(init, data, poly, reflected, reflected, xorOut), reflected)
    ensures CrcBits(init, data + tail, poly, reflected, reflected, xorOut)
            == XorBits(Oriented(FeedBits(Clear(|init|), Oriented(xorOut, reflected), poly), reflected), xorOut)
  {
    MessageConcat(data, tail, reflected);
    TailBits(init, data, poly, reflected, xorOut, MessageBits(tail, reflected));
    FedBack(init, MessageBits(data, reflected), MessageBits(tail, reflected), Oriented(xorOut, reflected), poly);
  }

  lemma TailBits(init: seq<bool>, data: seq<bv8>, poly: seq<bool>, reflected: bool, xorOut: seq<bool>, tail: seq<bool>)
    requires |init| == |poly| == |xorOut| > 0
    requires tail == Oriented(CrcBits(init, data, poly, reflected, reflected, xorOut), reflected)
    ensures tail == XorBits(FeedBits(init, MessageBits(data, reflected), poly), Oriented(xorOut, reflected))
  {
    OrientedBack(FeedBits(init, MessageBits(data, reflected), poly), xorOut, reflected);
  }

  lemma OrientedBack(reg: seq<bool>, xorOut: seq<bool>, reflected: bool)
    requires |reg| == |xorOut|
    ensures Oriented(XorBits(Oriented(reg, reflected), xorOut), reflected) == XorBits(reg, Oriented(xorOut, reflected))
  {
    OrientedXor(Oriented(reg, reflected), xorOut, reflected);
    OrientedTwice(reg, reflected);
  }

  lemma FedBack(init: seq<bool>, m: seq<bool>, tail: seq<bool>, x: seq<bool>, poly: seq<bool>)
    requires |init| == |poly| == |x| > 0 && tail == XorBits(FeedBits(init, m, poly), x)
    ensures FeedBits(init, m + tail, poly) == FeedBits(Clear(|init|), x, poly)
  {
    FeedConcat(init, m, tail, poly);
    ResidueAndMore(FeedBits(init, m, poly), x, poly);
  }

  lemma OrientedXor(a: seq<bool>, b: seq<bool>, reflected: bool)
    requires |a| == |b|
    ensures Oriented(XorBits(a, b), reflected) == XorBits(Oriented(a, reflected), Oriented(b, reflected))
  {
    if reflected { ReversedXor(a, b); }
  }

  lemma ReversedXor(a: seq<bool>, b: seq<bool>)
    requires |a| == |b|
    ensures Reversed(XorBits(a, b)) == XorBits(Reversed(a), Reversed(b))
  {
    forall i: nat | i < |a| ensures Reversed(XorBits(a, b))[i] == XorBits(Reversed(a), Reversed(b))[i] {
      assert Reversed(XorBits(a, b))[i] == XorBits(a, b)[|a| - 1 - i];
    }
  }

  /** With nothing added at the end, and input and output reflected alike, a message followed by
      its own check has check zero, for every polynomial, initial value and message. */
  lemma AppendedCrcIsZero(init: seq<bool>, data: seq<bv8>, poly: seq<bool>, reflected: bool, tail: seq<bv8>)
    requires |init| == |poly| > 0
    requires ResultBytes(tail, CrcBits(init, data, poly, reflected, reflected, Clear(|init|)), reflected)
    ensures CrcBits(init, data + tail, poly, reflected, reflected, Clear(|init|)) == Clear(|init|)
  {
    var reg := FeedBits(init, MessageBits(data, reflected), poly);
    XorWithClear(Oriented(reg, reflected));
    OrientedTwice(reg, reflected);
    assert MessageBits(tail, reflected) == reg;
    MessageConcat(data, tail, reflected);
    Residue(init, MessageBits(data, reflected), poly);
    OrientedClear(|init|, reflected);
    XorWithClear(Clear(|init|));
  }

  lemma XorWithClear(a: seq<bool>)
    ensures XorBits(a, Clear(|a|)) == a
  {
  }

  lemma OrientedTwice(a: seq<bool>, reflected: bool)
    ensures Oriented(Oriented(a, reflected), reflected) == a
  {
  }

  lemma OrientedClear(n: nat, reflected: bool)
    ensures Oriented(Clear(n), reflected) == Clear(n)
  {
  }

  /** The one byte of a check of eight bits. */
  lemma TailOf8(crc: bv8, reflected: bool)
    ensures ResultBytes([crc], LowBits(crc, 8), reflected)
  {
    assert [crc][..0] == [];
    assert MessageBits([crc], reflected) == MessageBits([crc][..0], reflected) + Oriented(LowBits(crc, 8), reflected);
  }

  /** The two bytes of a check of sixteen bits: the high byte first if nothing is reflected, the low
      byte first if everything is. */
  lemma TailOf16(crc: bv16, high: bv8, low: bv8, reflected: bool)
    requires LowBits(high, 8) + LowBits(low, 8) == WordBits(crc)
    ensures ResultBytes(if reflected then [low, high] else [high, low], WordBits(crc), reflected)
  {
    var a, b := if reflected then low else high, if reflected then high else low;
    MessageConcat([a], [b], reflected);
    assert [a, b] == [a] + [b];
    TailOf8(a, reflected);
    TailOf8(b, reflected);
    if reflected { ReversedConcat(LowBits(high, 8), LowBits(low, 8)); }
  }

  lemma ReversedConcat(a: seq<bool>, b: seq<bool>)
    ensures Reversed(a + b) == Reversed(b) + Reversed(a)
  {
  }
}
