/** Strings of bits as numbers: parities, words of 32 bits, and the reading of up to 32 bits. */
module BitWords {
  import opened Bits

  // ---------------------------------------------------------------- ones and words

  /** Whether the number of ones is odd. */
  function OddOnes(bits: seq<bool>): bool {
    if bits == [] then false else OddOnes(bits[..|bits| - 1]) != bits[|bits| - 1]
  }

  /** The number of ones. */
  function Ones(bits: seq<bool>): nat {
    if bits == [] then 0 else Ones(bits[..|bits| - 1]) + if bits[|bits| - 1] then 1 else 0
  }

  lemma {:induction false} OddOnesIs(bits: seq<bool>)
    ensures OddOnes(bits) <==> Ones(bits) % 2 == 1
    decreases |bits|
  {
    if bits != [] { OddOnesIs(bits[..|bits| - 1]); }
  }

  lemma {:induction false} OddOnesConcat(a: seq<bool>, b: seq<bool>)
    ensures OddOnes(a + b) == (OddOnes(a) != OddOnes(b))
    decreases |b|
  {
    if b == [] {
      assert a + b == a;
    } else {
      OddOnesConcat(a, b[..|b| - 1]);
      assert (a + b)[..|a + b| - 1] == a + b[..|b| - 1];
    }
  }

  /** The number that a string of bits stands for, highest bit first. */
  function Val(bits: seq<bool>): nat {
    if bits == [] then 0 else 2 * Val(bits[..|bits| - 1]) + if bits[|bits| - 1] then 1 else 0
  }

  /** __builtin_parity. */
  function WordParity(w: nat): bool {
    if w == 0 then false else WordParity(w / 2) != (w % 2 == 1)
  }

  lemma {:induction false} WordParityIsOddOnes(bits: seq<bool>)
    ensures WordParity(Val(bits)) == OddOnes(bits)
    decreases |bits|
  {
    if bits != [] {
      WordParityIsOddOnes(bits[..|bits| - 1]);
      var w := Val(bits[..|bits| - 1]);
      assert Val(bits) / 2 == w;
    }
  }

  function Pow2(n: nat): (p: nat)
    ensures p > 0
  {
    if n == 0 then 1 else 2 * Pow2(n - 1)
  }

  /** The highest bit is worth its power of two, and the rest less than that. */
  lemma {:induction false} ValTop(bits: seq<bool>)
    requires bits != []
    ensures Val(bits) == Val(bits[1..]) + if bits[0] then Pow2(|bits| - 1) else 0
    ensures Val(bits[1..]) < Pow2(|bits| - 1)
    decreases |bits|
  {
    var n := |bits|;
    if n > 1 {
      var init := bits[..n - 1];
      ValTop(init);
      assert bits[1..][..n - 2] == init[1..];
    }
  }

  lemma {:induction false} Pow2Add(m: nat, n: nat)
    ensures Pow2(m + n) == Pow2(m) * Pow2(n)
  {
    if n > 0 {
      Pow2Add(m, n - 1);
      TimesTwo(Pow2(m), Pow2(n - 1));
    }
  }

  lemma TimesTwo(x: nat, y: nat)
    ensures x * (2 * y) == 2 * (x * y)
  {
  }

  lemma Pow2Of32()
    ensures Pow2(32) == 0x1_0000_0000
  {
    assert Pow2(4) == 16;
    Pow2Add(4, 4);
    Pow2Add(8, 8);
    Pow2Add(16, 16);
  }

  lemma {:induction false} Pow2Grows(m: nat, n: nat)
    requires m <= n
    ensures Pow2(m) <= Pow2(n)
  {
    if m < n { Pow2Grows(m, n - 1); }
  }

  lemma {:induction false} ValBelow(v: seq<bool>)
    ensures Val(v) < Pow2(|v|)
    decreases |v|
  {
    if v != [] { ValBelow(v[..|v| - 1]); }
  }

  lemma ValStep(bits: seq<bool>)
    requires bits != []
    ensures Val(bits) == 2 * Val(bits[..|bits| - 1]) + if bits[|bits| - 1] then 1 else 0
  {
  }

  /** x << up. */
  function ShiftedUp(x: nat, up: nat): nat {
    if up == 0 then x else 2 * ShiftedUp(x, up - 1)
  }

  lemma {:induction false} ValConcat(a: seq<bool>, b: seq<bool>)
    ensures Val(a + b) == ShiftedUp(Val(a), |b|) + Val(b)
    decreases |b|
  {
    var s := a + b;
    if b == [] {
      assert s == a;
    } else {
      ValConcat(a, b[..|b| - 1]);
      assert s[..|s| - 1] == a + b[..|b| - 1];
      ValStep(s);
      ValStep(b);
    }
  }

  lemma {:induction false} ZeroShifted(up: nat)
    ensures ShiftedUp(0, up) == 0
  {
    if up > 0 { ZeroShifted(up - 1); }
  }

  function Clear(n: nat): (r: seq<bool>)
    ensures |r| == n
  {
    seq(n, i => false)
  }

  lemma {:induction false} ValClear(n: nat)
    ensures Val(Clear(n)) == 0
  {
    if n > 0 {
      assert Clear(n)[..n - 1] == Clear(n - 1);
      ValClear(n - 1);
    }
  }

  /** The last 32 bits: what is left in a uint32_t into which all bits were shifted. */
  function Window(bits: seq<bool>): (w: seq<bool>)
    ensures |w| == if |bits| <= 32 then |bits| else 32
  {
    if |bits| <= 32 then bits else bits[|bits| - 32..]
  }

  /** (word << 1) | bit on 32 bits. */
  function NextWord(w: nat, b: bool): nat {
    (2 * w + if b then 1 else 0) % 0x1_0000_0000
  }

  lemma ShiftWord(bits: seq<bool>, b: bool)
    ensures NextWord(Val(Window(bits)), b) == Val(Window(bits + [b]))
  {
    var w := Window(bits) + [b];
    assert w[..|w| - 1] == Window(bits);
    ValStep(w);
    WordOverflow(w);
    if |bits| >= 32 {
      WindowSlides(bits, b);
    } else {
      assert w == Window(bits + [b]);
    }
  }

  lemma WordOverflow(w: seq<bool>)
    requires 0 < |w| <= 33
    ensures Val(w) % 0x1_0000_0000 == Val(if |w| == 33 then w[1..] else w)
  {
    Pow2Of32();
    if |w| < 33 {
      ValBelow(w);
      Pow2Grows(|w|, 32);
    } else {
      ValTop(w);
    }
  }

  lemma WindowSlides(bits: seq<bool>, b: bool)
    requires |bits| >= 32
    ensures (Window(bits) + [b])[1..] == Window(bits + [b])
  {
    var k := |bits| - 32;
    assert Window(bits) == bits[k..];
    assert (bits[k..] + [b])[1..] == bits[k + 1..] + [b];
    assert (bits + [b])[k + 1..] == bits[k + 1..] + [b];
  }

  // ---------------------------------------------------------------- whole blocks

  lemma DivStep(a: nat, d: nat)
    requires 0 < d <= a
    ensures (a - d) / d == a / d - 1 && (a - d) % d == a % d
  {
    var q, r := a / d, a % d;
    assert a - d == d * (q - 1) + r;
    DivUnique(a - d, d, q - 1, r);
  }

  lemma DivUnique(a: nat, d: nat, q: int, r: nat)
    requires r < d && a == d * q + r
    ensures a / d == q && a % d == r
  {
    var e := a / d - q;
    assert d * e == r - a % d;
    Multiple(d, e);
  }

  lemma Multiple(d: nat, e: int)
    ensures e >= 1 ==> d * e >= d
    ensures e <= -1 ==> d * e + d <= 0
  {
  }

  // ---------------------------------------------------------------- reading a few bits as a number

  /** b >> t. */
  function Shr(b: bv8, t: nat): bv8 {
    if t == 0 then b else Shr(b, t - 1) >> 1
  }

  /** b << t on 8 bits. */
  function Shl(b: bv8, t: nat): bv8 {
    if t == 0 then b else Shl(b, t - 1) << 1
  }

  lemma ShrOne(b: bv8, k: nat)
    requires k < 8
    ensures BitOf(b >> 1, k) == (k > 0 && BitOf(b, k - 1))
  {
    if k == 0 {} else if k == 1 {} else if k == 2 {} else if k == 3 {}
    else if k == 4 {} else if k == 5 {} else if k == 6 {} else {}
  }

  lemma ShrStep(b: bv8, t: nat, k: nat)
    requires 0 < t && k < 8
    ensures BitOf(Shr(b, t), k) == (k > 0 && BitOf(Shr(b, t - 1), k - 1))
  {
    ShrOne(Shr(b, t - 1), k);
  }

  lemma {:induction false} ShrBit(b: bv8, t: nat, k: nat)
    requires k < 8
    ensures BitOf(Shr(b, t), k) == (k >= t && BitOf(b, k - t))
  {
    if t > 0 {
      ShrStep(b, t, k);
      if k > 0 { ShrBit(b, t - 1, k - 1); }
    }
  }

  lemma {:induction false} ShlBit(b: bv8, t: nat, k: nat)
    requires k < 8
    ensures BitOf(Shl(b, t), k) == (k + t < 8 && BitOf(b, k + t))
  {
    if t > 0 {
      ShiftInBits(Shl(b, t - 1), false, k);
      assert ShiftIn(Shl(b, t - 1), false) == Shl(b, t);
      if k < 7 { ShlBit(b, t - 1, k + 1); }
    }
  }

  lemma OrBit(a: bv8, b: bv8, k: nat)
    requires k < 8
    ensures BitOf(a | b, k) == (BitOf(a, k) || BitOf(b, k))
  {
    OrMasked(a, b, Mask(k));
  }

  lemma OrMasked(a: bv8, b: bv8, m: bv8)
    ensures (a | b) & m == 0 <==> a & m == 0 && b & m == 0
  {
    assert (a | b) & m == (a & m) | (b & m);
  }

  /** bit_lib_get_bits reads the next byte whenever it does not start at a byte, needed or not. */
  predicate Readable(s: seq<bv8>, position: nat) {
    position / 8 < |s| && (position % 8 != 0 ==> position / 8 + 1 < |s|)
  }

  /** The number of a byte. */
  function ByteVal(b: bv8): nat { Val(LowBits(b, 8)) }

  /** The shifts and the or, on the lists of all eight bits. */
  lemma ShrBits(b: bv8, t: nat)
    requires t <= 8
    ensures LowBits(Shr(b, t), 8) == Clear(t) + LowBits(b, 8)[..8 - t]
  {
    forall k: nat | k < 8 ensures LowBits(Shr(b, t), 8)[k] == (Clear(t) + LowBits(b, 8)[..8 - t])[k] {
      ShrBit(b, t, k);
    }
  }

  lemma ShlBits(b: bv8, t: nat)
    requires t <= 8
    ensures LowBits(Shl(b, t), 8) == LowBits(b, 8)[t..] + Clear(t)
  {
    forall k: nat | k < 8 ensures LowBits(Shl(b, t), 8)[k] == (LowBits(b, 8)[t..] + Clear(t))[k] {
      ShlBit(b, t, k);
    }
  }

  lemma OrBits(a: bv8, b: bv8)
    ensures LowBits(a | b, 8) == EitherBits(LowBits(a, 8), LowBits(b, 8))
  {
    forall k: nat | k < 8 ensures LowBits(a | b, 8)[k] == EitherBits(LowBits(a, 8), LowBits(b, 8))[k] {
      OrBit(a, b, k);
    }
  }

  function EitherBits(a: seq<bool>, b: seq<bool>): (r: seq<bool>)
    requires |a| == |b|
    ensures |r| == |a|
  {
    seq(|a|, i requires 0 <= i < |a| => a[i] || b[i])
  }

  lemma EitherHalf(u: seq<bool>, v: seq<bool>)
    ensures EitherBits(u + Clear(|v|), Clear(|u|) + v) == u + v
  {
  }

  /** Two bytes, joined at `shift`. */
  lemma JoinedBits(x: bv8, y: bv8, shift: nat)
    requires 0 < shift < 8
    ensures LowBits(Shl(x, shift) | Shr(y, 8 - shift), 8) == LowBits(x, 8)[shift..] + LowBits(y, 8)[..shift]
  {
    ShlBits(x, shift);
    ShrBits(y, 8 - shift);
    OrBits(Shl(x, shift), Shr(y, 8 - shift));
    EitherHalf(LowBits(x, 8)[shift..], LowBits(y, 8)[..shift]);
  }

  lemma ByteSlice(s: seq<bv8>, q: nat)
    requires q < |s|
    ensures AllBits(s)[8 * q..8 * q + 8] == LowBits(s[q], 8)
  {
    forall k: nat | k < 8 ensures AllBits(s)[8 * q..8 * q + 8][k] == LowBits(s[q], 8)[k] {
      BitOfByte(s, q, k);
    }
  }

  lemma AlignedPadded(s: seq<bv8>, q: nat, length: nat)
    requires length <= 8 && q < |s|
    ensures LowBits(Shr(s[q], 8 - length), 8) == Clear(8 - length) + AllBits(s)[8 * q..8 * q + length]
  {
    ByteSlice(s, q);
    ShiftedPadded(s[q], AllBits(s), 8 * q, length);
  }

  lemma Prefix(bits: seq<bool>, p: nat, v: seq<bool>, n: nat)
    requires p + |v| <= |bits| && bits[p..p + |v|] == v && n <= |v|
    ensures v[..n] == bits[p..p + n]
  {
  }

  lemma ShiftedPadded(b: bv8, bits: seq<bool>, p: nat, length: nat)
    requires length <= 8 && p + 8 <= |bits| && LowBits(b, 8) == bits[p..p + 8]
    ensures LowBits(Shr(b, 8 - length), 8) == Clear(8 - length) + bits[p..p + length]
  {
    ShrBits(b, 8 - length);
    Prefix(bits, p, LowBits(b, 8), length);
  }

  lemma JoinedByte(s: seq<bv8>, q: nat, shift: nat)
    requires 0 < shift < 8 && q + 1 < |s|
    ensures LowBits(Shl(s[q], shift) | Shr(s[q + 1], 8 - shift), 8) == AllBits(s)[8 * q + shift..8 * q + shift + 8]
  {
    var p := 8 * q;
    ByteSlice(s, q);
    ByteSlice(s, q + 1);
    assert 8 * (q + 1) == p + 8;
    JoinedInside(s[q], s[q + 1], shift, AllBits(s), p);
  }

  lemma JoinedInside(x: bv8, y: bv8, shift: nat, bits: seq<bool>, p: nat)
    requires 0 < shift < 8 && p + 16 <= |bits| && LowBits(x, 8) == bits[p..p + 8] && LowBits(y, 8) == bits[p + 8..p + 16]
    ensures LowBits(Shl(x, shift) | Shr(y, 8 - shift), 8) == bits[p + shift..p + shift + 8]
  {
    JoinedBits(x, y, shift);
    JoinedSlice(bits, LowBits(x, 8), LowBits(y, 8), p, shift, LowBits(Shl(x, shift) | Shr(y, 8 - shift), 8));
  }

  lemma JoinedSlice(bits: seq<bool>, x: seq<bool>, y: seq<bool>, p: nat, shift: nat, j: seq<bool>)
    requires |x| == 8 == |y| && p + 16 <= |bits| && x == bits[p..p + 8] && y == bits[p + 8..p + 16] && shift <= 8
    requires j == x[shift..] + y[..shift]
    ensures j == bits[p + shift..p + shift + 8]
  {
    forall k: nat | k < 8 ensures j[k] == bits[p + shift..p + shift + 8][k] {}
  }

  /** bit_lib_get_bits for the byte and the shift of a position. */
  function GetBitsAt(s: seq<bv8>, q: nat, shift: nat, length: nat): (r: bv8)
    requires length <= 8 && shift < 8 && q < |s| && (shift != 0 ==> q + 1 < |s|)
    ensures LowBits(r, 8) == Clear(8 - length) + AllBits(s)[8 * q + shift..8 * q + shift + length]
  {
    if shift == 0 then
      AlignedPadded(s, q, length);
      Shr(s[q], 8 - length)
    else
      JoinedByte(s, q, shift);
      ShiftedPadded(Shl(s[q], shift) | Shr(s[q + 1], 8 - shift), AllBits(s), 8 * q + shift, length);
      Shr(Shl(s[q], shift) | Shr(s[q + 1], 8 - shift), 8 - length)
  }

  /** bit_lib_get_bits: zeros, and then the addressed bits. */
  function GetBits(s: seq<bv8>, position: nat, length: nat): (r: bv8)
    requires length <= 8 && Readable(s, position)
    ensures position + length <= 8 * |s| && LowBits(r, 8) == Clear(8 - length) + AllBits(s)[position..position + length]
  {
    assert 8 * (position / 8) + position % 8 == position;
    GetBitsAt(s, position / 8, position % 8, length)
  }

  lemma ValPadded(n: nat, v: seq<bool>, r: seq<bool>)
    requires r == Clear(n) + v
    ensures Val(r) == Val(v)
  {
    ValConcat(Clear(n), v);
    ValClear(n);
    ZeroShifted(|v|);
  }

  lemma GetBitsValue(s: seq<bv8>, position: nat, length: nat)
    requires length <= 8 && Readable(s, position) && position + length <= 8 * |s|
    ensures ByteVal(GetBits(s, position, length)) == Val(AllBits(s)[position..position + length])
  {
    PaddedByte(GetBits(s, position, length), 8 - length, AllBits(s)[position..position + length]);
  }

  lemma PaddedByte(b: bv8, n: nat, v: seq<bool>)
    requires LowBits(b, 8) == Clear(n) + v
    ensures ByteVal(b) == Val(v)
  {
    ValPadded(n, v, LowBits(b, 8));
  }

  /** a | b. */
  function BitOr(a: nat, b: nat): nat
    decreases a + b
  {
    if a == 0 && b == 0 then 0
    else 2 * BitOr(a / 2, b / 2) + if a % 2 == 1 || b % 2 == 1 then 1 else 0
  }

  lemma OrDouble(a: nat, b: nat)
    ensures BitOr(2 * a, b) == 2 * BitOr(a, b / 2) + b % 2
  {
    assert 2 * a / 2 == a && 2 * a % 2 == 0;
  }

  lemma {:induction false} OrZero(a: nat)
    ensures BitOr(a, 0) == a
  {
    if a > 0 { OrZero(a / 2); }
  }

  /** Numbers that occupy different bits: | is +. */
  lemma {:induction false} OrDisjoint(a: nat, n: nat, b: nat)
    requires b < Pow2(n)
    ensures BitOr(ShiftedUp(a, n), b) == ShiftedUp(a, n) + b
  {
    if n == 0 {
      OrZero(a);
    } else {
      OrDisjoint(a, n - 1, b / 2);
      OrDouble(ShiftedUp(a, n - 1), b);
    }
  }

  lemma {:induction false} OrShifted(a: nat, b: nat, up: nat)
    ensures BitOr(ShiftedUp(a, up), ShiftedUp(b, up)) == ShiftedUp(BitOr(a, b), up)
  {
    if up > 0 {
      OrShifted(a, b, up - 1);
      OrDouble(ShiftedUp(a, up - 1), ShiftedUp(b, up));
      assert ShiftedUp(b, up) / 2 == ShiftedUp(b, up - 1) && ShiftedUp(b, up) % 2 == 0;
    }
  }

  lemma {:induction false} ShiftedTwice(x: nat, n: nat, up: nat)
    ensures ShiftedUp(x, n + up) == ShiftedUp(ShiftedUp(x, n), up)
  {
    if up > 0 { ShiftedTwice(x, n, up - 1); }
  }

  /** Two adjacent stretches of bits u and v, shifted to their places in a wider number, are joined by |. */
  lemma OrGlues(u: seq<bool>, v: seq<bool>, up: nat)
    ensures BitOr(ShiftedUp(Val(u), |v| + up), ShiftedUp(Val(v), up)) == ShiftedUp(Val(u + v), up)
  {
    ShiftedTwice(Val(u), |v|, up);
    OrShifted(ShiftedUp(Val(u), |v|), Val(v), up);
    ValBelow(v);
    OrDisjoint(Val(u), |v|, Val(v));
    ValConcat(u, v);
  }

  lemma GluedSlices(bits: seq<bool>, from: nat, to: nat, n: nat, up: nat)
    requires from <= to && to + n <= |bits|
    ensures BitOr(ShiftedUp(Val(bits[from..to]), n + up), ShiftedUp(Val(bits[to..to + n]), up))
            == ShiftedUp(Val(bits[from..to + n]), up)
  {
    OrGlues(bits[from..to], bits[to..to + n], up);
    assert bits[from..to] + bits[to..to + n] == bits[from..to + n];
  }

  /** A part of a wider result: bit_lib_get_bits shifted left by `up`. */
  function Part(s: seq<bv8>, position: nat, length: nat, up: nat): (r: nat)
    requires length <= 8 && Readable(s, position) && position + length <= 8 * |s|
    ensures r == ShiftedUp(Val(AllBits(s)[position..position + length]), up)
  {
    GetBitsValue(s, position, length);
    ShiftedUp(ByteVal(GetBits(s, position, length)), up)
  }

  /** The number of the bits of s from one position to another, shifted left by `up`. */
  ghost predicate HasBits(value: nat, s: seq<bv8>, from: nat, to: nat, up: nat) {
    from <= to <= 8 * |s| && value == ShiftedUp(Val(AllBits(s)[from..to]), up)
  }

  /** value |= part: the part brings the next n bits. */
  function WithPart(value: nat, s: seq<bv8>, ghost from: nat, position: nat, n: nat, up: nat): (r: nat)
    requires n <= 8 && Readable(s, position) && position + n <= 8 * |s| && HasBits(value, s, from, position, n + up)
    ensures HasBits(r, s, from, position + n, up)
  {
    GluedSlices(AllBits(s), from, position, n, up);
    BitOr(value, Part(s, position, n, up))
  }

  /** Every byte that bit_lib_get_bits_32 reads is there; with a length that is not a multiple of 8
      it reads past the byte that holds the last bit. */
  predicate ReadableTo(s: seq<bv8>, position: nat, length: nat) {
    && Readable(s, position) && position + length <= 8 * |s|
    && (length > 8 ==> Readable(s, position + 8)) && (length > 16 ==> Readable(s, position + 16))
    && (length > 24 ==> Readable(s, position + 24))
  }

  /** The first two whole bytes of a wider result. */
  function FirstTwo(s: seq<bv8>, position: nat, up: nat): (r: nat)
    requires position + 16 <= 8 * |s| && Readable(s, position) && Readable(s, position + 8)
    ensures HasBits(r, s, position, position + 16, up)
  {
    WithPart(Part(s, position, 8, 8 + up), s, position, position + 8, 8, up)
  }

  function TwoParts(s: seq<bv8>, position: nat, length: nat): (r: nat)
    requires 8 < length <= 16 && ReadableTo(s, position, length)
    ensures HasBits(r, s, position, position + length, 0)
  {
    WithPart(Part(s, position, 8, length - 8), s, position, position + 8, length - 8, 0)
  }

  function ThreeParts(s: seq<bv8>, position: nat, length: nat): (r: nat)
    requires 16 < length <= 24 && ReadableTo(s, position, length)
    ensures HasBits(r, s, position, position + length, 0)
  {
    WithPart(FirstTwo(s, position, length - 16), s, position, position + 16, length - 16, 0)
  }

  function FourParts(s: seq<bv8>, position: nat, length: nat): (r: nat)
    requires 24 < length <= 32 && ReadableTo(s, position, length)
    ensures HasBits(r, s, position, position + length, 0)
  {
    var value := WithPart(FirstTwo(s, position, length - 16), s, position, position + 16, 8, length - 24);
    WithPart(value, s, position, position + 24, length - 24, 0)
  }

  /** bit_lib_get_bits_32: the parts that are combined by | give the number of the addressed bits. */
  function GetBits32(s: seq<bv8>, position: nat, length: nat): (r: nat)
    requires length <= 32 && ReadableTo(s, position, length)
    ensures r == Val(AllBits(s)[position..position + length])
  {
    if length <= 8 then Part(s, position, length, 0)
    else if length <= 16 then TwoParts(s, position, length)
    else if length <= 24 then ThreeParts(s, position, length)
    else FourParts(s, position, length)
  }
}
