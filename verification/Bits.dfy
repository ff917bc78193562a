/** Big-endian bit addressing of a byte array: bit 0 is the top bit of byte 0. */
module Bits {

  /** uint8_t. */
  type Byte = n: nat | n < 0x100

  // ---------------------------------------------------------------- one byte

  /** 1 << (7 - k). */
  function Mask(k: nat): bv8
    requires k < 8
  {
    if k == 0 then 0x80 else if k == 1 then 0x40 else if k == 2 then 0x20 else if k == 3 then 0x10
    else if k == 4 then 0x08 else if k == 5 then 0x04 else if k == 6 then 0x02 else 0x01
  }

  /** Bit k of a byte, counted from the top. */
  predicate BitOf(b: bv8, k: nat)
    requires k < 8
  {
    b & Mask(k) != 0
  }

  function WithBit(b: bv8, k: nat, v: bool): bv8
    requires k < 8
  {
    if v then b | Mask(k) else b & !Mask(k)
  }

  lemma WithBitSame(b: bv8, k: nat, v: bool)
    requires k < 8
    ensures BitOf(WithBit(b, k, v), k) == v
  {
    if k == 0 {} else if k == 1 {} else if k == 2 {} else if k == 3 {}
    else if k == 4 {} else if k == 5 {} else if k == 6 {} else {}
  }

  lemma WithBitOther(b: bv8, k: nat, v: bool, j: nat)
    requires k < 8 && j < 8 && j != k
    ensures BitOf(WithBit(b, k, v), j) == BitOf(b, j)
  {
    MaskApart(k, j);
    MaskedOff(b, Mask(k), Mask(j));
  }

  lemma MaskedOff(b: bv8, m: bv8, n: bv8)
    requires m & n == 0
    ensures (b | m) & n == b & n && (b & !m) & n == b & n
  {
  }

  lemma MaskApart(k: nat, j: nat)
    requires k < 8 && j < 8 && j != k
    ensures Mask(k) & Mask(j) == 0
  {
  }

  /** (b << 1) | v. */
  function ShiftIn(b: bv8, v: bool): bv8 {
    (b << 1) | if v then 1 else 0
  }

  lemma ShiftInBits(b: bv8, v: bool, k: nat)
    requires k < 8
    ensures BitOf(ShiftIn(b, v), k) == if k == 7 then v else BitOf(b, k + 1)
  {
    if k == 0 {} else if k == 1 {} else if k == 2 {} else if k == 3 {}
    else if k == 4 {} else if k == 5 {} else if k == 6 {} else {}
  }

  /** The lowest n bits of a byte, highest first. */
  function LowBits(b: bv8, n: nat): (r: seq<bool>)
    requires n <= 8
    ensures |r| == n
  {
    seq(n, i requires 0 <= i < n => BitOf(b, 8 - n + i))
  }

  lemma LowBitsShiftIn(b: bv8, n: nat, v: bool)
    requires n < 8
    ensures LowBits(ShiftIn(b, v), n + 1) == LowBits(b, n) + [v]
  {
    forall i: nat | i <= n ensures LowBits(ShiftIn(b, v), n + 1)[i] == (LowBits(b, n) + [v])[i] {
      ShiftInBits(b, v, 7 - n + i);
    }
  }

  // ---------------------------------------------------------------- an array of bytes

  predicate Bit(s: seq<bv8>, i: nat)
    requires i < 8 * |s|
  {
    BitOf(s[i / 8], i % 8)
  }

  /** All bits of an array, in address order. */
  ghost function AllBits(s: seq<bv8>): (r: seq<bool>)
    ensures |r| == 8 * |s|
  {
    if s == [] then [] else AllBits(s[..|s| - 1]) + LowBits(s[|s| - 1], 8)
  }

  lemma {:induction false} AllBitsAt(s: seq<bv8>, i: nat)
    requires i < 8 * |s|
    ensures AllBits(s)[i] == Bit(s, i)
  {
    if i < 8 * (|s| - 1) {
      AllBitsAt(s[..|s| - 1], i);
    }
  }

  lemma BitOfByte(s: seq<bv8>, q: nat, r: nat)
    requires q < |s| && r < 8
    ensures AllBits(s)[8 * q + r] == BitOf(s[q], r)
  {
    AllBitsAt(s, 8 * q + r);
    ByteIndex(q, r);
  }

  lemma ByteIndex(q: nat, r: nat)
    requires r < 8
    ensures (8 * q + r) / 8 == q && (8 * q + r) % 8 == r
  {
  }

  lemma AllBitsSet(s: seq<bv8>, p: nat, v: bool)
    requires p < 8 * |s|
    ensures AllBits(s[p / 8 := WithBit(s[p / 8], p % 8, v)]) == AllBits(s)[p := v]
  {
    var t := s[p / 8 := WithBit(s[p / 8], p % 8, v)];
    forall i: nat | i < 8 * |s| ensures AllBits(t)[i] == AllBits(s)[p := v][i] {
      AllBitsAt(s, i);
      AllBitsAt(t, i);
      if i == p {
        WithBitSame(s[p / 8], p % 8, v);
      } else if i / 8 == p / 8 {
        WithBitOther(s[p / 8], p % 8, v, i % 8);
      }
    }
  }

  /** bits with the |v| of them from p on replaced by v. */
  function Replaced(bits: seq<bool>, p: nat, v: seq<bool>): (r: seq<bool>)
    requires p + |v| <= |bits|
    ensures |r| == |bits|
    decreases |v|
  {
    if v == [] then bits
    else Replaced(bits, p, v[..|v| - 1])[p + |v| - 1 := v[|v| - 1]]
  }

  lemma {:induction false} ReplacedAt(bits: seq<bool>, p: nat, v: seq<bool>, i: nat)
    requires p + |v| <= |bits| && i < |bits|
    ensures Replaced(bits, p, v)[i] == if p <= i < p + |v| then v[i - p] else bits[i]
    decreases |v|
  {
    if v != [] {
      ReplacedAt(bits, p, v[..|v| - 1], i);
    }
  }

  /** Replacing two adjacent stretches. */
  lemma {:induction false} ReplacedTwice(bits: seq<bool>, p: nat, v: seq<bool>, w: seq<bool>)
    requires p + |v| + |w| <= |bits|
    ensures Replaced(Replaced(bits, p, v), p + |v|, w) == Replaced(bits, p, v + w)
    decreases |w|
  {
    if w == [] {
      assert v + w == v;
    } else {
      var w' := w[..|w| - 1];
      ReplacedTwice(bits, p, v, w');
      assert (v + w)[..|v + w| - 1] == v + w';
    }
  }

  /** The first j bits of v have been written from p on, and nothing else. */
  ghost predicate Written(bits: seq<bool>, now: seq<bool>, p: nat, v: seq<bool>, j: nat) {
    && |now| == |bits| && p + |v| <= |bits| && j <= |v|
    && forall i: nat :: i < |bits| ==> now[i] == if p <= i < p + j then v[i - p] else bits[i]
  }

  lemma AllWritten(bits: seq<bool>, now: seq<bool>, p: nat, v: seq<bool>)
    requires Written(bits, now, p, v, |v|)
    ensures now == Replaced(bits, p, v)
  {
    forall i: nat | i < |bits| ensures now[i] == Replaced(bits, p, v)[i] {
      ReplacedAt(bits, p, v, i);
    }
  }

  lemma OneMoreWritten(bits: seq<bool>, now: seq<bool>, p: nat, v: seq<bool>, j: nat)
    requires Written(bits, now, p, v, j) && j < |v|
    ensures Written(bits, now[p + j := v[j]], p, v, j + 1)
  {
  }
}
