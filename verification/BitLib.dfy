/** bit_lib: reading, writing, shifting and deleting bits in place. */
module BitLib {
  import opened Bits
  import opened BitWords

  // ---------------------------------------------------------------- single bits and bytes

  method SetBit(data: array<bv8>, position: nat, bit: bool)
    requires position < 8 * data.Length
    modifies data
    ensures AllBits(data[..]) == old(AllBits(data[..]))[position := bit]
  {
    AllBitsSet(data[..], position, bit);
    data[position / 8] := WithBit(data[position / 8], position % 8, bit);
  }

  function GetBit(s: seq<bv8>, position: nat): (b: bool)
    requires position < 8 * |s|
    ensures b == AllBits(s)[position]
  {
    AllBitsAt(s, position);
    BitOf(s[position / 8], position % 8)
  }

  /** Bit j of a stretch v that is being written from p on. */
  method WriteNext(data: array<bv8>, at: nat, bit: bool, ghost bits: seq<bool>, ghost p: nat, ghost v: seq<bool>, ghost j: nat)
    requires Written(bits, AllBits(data[..]), p, v, j) && j < |v|
    requires at == p + j && bit == v[j]
    modifies data
    ensures Written(bits, AllBits(data[..]), p, v, j + 1)
  {
    OneMoreWritten(bits, AllBits(data[..]), p, v, j);
    SetBit(data, at, bit);
  }

  /** The lowest `length` bits of `byte`, highest first, are stored from `position` on. */
  method SetBits(data: array<bv8>, position: nat, byte: bv8, length: nat)
    requires 0 < length <= 8 && position + length <= 8 * data.Length
    modifies data
    ensures AllBits(data[..]) == Replaced(old(AllBits(data[..])), position, LowBits(byte, length))
  {
    ghost var bits, v := AllBits(data[..]), LowBits(byte, length);
    var i := 0;
    while i < length
      invariant Written(bits, AllBits(data[..]), position, v, i)
    {
      WriteNext(data, position + i, BitOf(byte, 8 - length + i), bits, position, v, i);
      i := i + 1;
    }
    AllWritten(bits, AllBits(data[..]), position, v);
  }

  /** The n bits that copying from p to q brings. Within one array and to a higher address the copy
      reads back what it has written, so that the first q - p bits come again and again. */
  function CopiedBits(src: seq<bool>, p: nat, n: nat, inPlace: bool, q: nat): (r: seq<bool>)
    requires p + n <= |src|
    ensures |r| == n
  {
    seq(n, i requires 0 <= i < n => src[CopiedFrom(p, i, inPlace, q)])
  }

  function CopiedFrom(p: nat, i: nat, inPlace: bool, q: nat): (k: nat)
    ensures k <= p + i
  {
    if inPlace && p < q && q <= p + i then CopiedFrom(p, i - (q - p), inPlace, q) else p + i
  }

  /** Between two arrays, to a lower address, or without an overlap, this is the source stretch; otherwise
      its beginning, repeated. */
  lemma CopiedMeaning(src: seq<bool>, p: nat, n: nat, inPlace: bool, q: nat, i: nat)
    requires p + n <= |src| && i < n
    ensures CopiedBits(src, p, n, inPlace, q)[i]
            == if !inPlace || q <= p || p + n <= q then src[p..p + n][i] else src[p + i % (q - p)]
  {
    if inPlace && p < q < p + n { CopiedRemainder(p, i, q); }
  }

  lemma {:induction false} CopiedRemainder(p: nat, i: nat, q: nat)
    requires p < q
    ensures 0 <= i % (q - p) <= i && CopiedFrom(p, i, true, q) == p + i % (q - p)
  {
    var d := q - p;
    if d <= i {
      DivStep(i, d);
      CopiedRemainder(p, i - d, q);
    } else {
      DivUnique(i, d, 0, i);
    }
  }

  /** The bit that is read after i of them have been written. */
  lemma CopyReads(bits: seq<bool>, now: seq<bool>, p: nat, n: nat, q: nat, i: nat)
    requires p + n <= |bits| && i < n && Written(bits, now, q, CopiedBits(bits, p, n, true, q), i)
    ensures now[p + i] == CopiedBits(bits, p, n, true, q)[i]
  {
    if p < q <= p + i {
      assert CopiedBits(bits, p, n, true, q)[i - (q - p)] == bits[CopiedFrom(p, i - (q - p), true, q)];
    }
  }

  method CopyBits(data: array<bv8>, position: nat, length: nat, source: array<bv8>, sourcePosition: nat)
    requires position + length <= 8 * data.Length && sourcePosition + length <= 8 * source.Length
    modifies data
    ensures AllBits(data[..]) == Replaced(old(AllBits(data[..])), position,
                                          CopiedBits(old(AllBits(source[..])), sourcePosition, length, data == source, position))
  {
    ghost var bits, src := AllBits(data[..]), AllBits(source[..]);
    ghost var v := CopiedBits(src, sourcePosition, length, data == source, position);
    var i := 0;
    while i < length
      invariant Written(bits, AllBits(data[..]), position, v, i)
      invariant data != source ==> AllBits(source[..]) == src
    {
      if data == source { CopyReads(bits, AllBits(data[..]), sourcePosition, length, position, i); }
      WriteNext(data, position + i, GetBit(source[..], sourcePosition + i), bits, position, v, i);
      i := i + 1;
    }
    AllWritten(bits, AllBits(data[..]), position, v);
  }

  /** bit_lib_push_bit: the whole array, as one string of bits, moves up by one. */
  method PushBit(data: array<bv8>, bit: bool)
    requires data.Length > 0
    modifies data
    ensures PushedUp(old(AllBits(data[..])), AllBits(data[..]), bit)
  {
    var last := data.Length - 1;
    ghost var was := data[..];
    var i := 0;
    while i < last
      invariant i <= last
      invariant forall q: nat :: q < i ==> PushedByte(data[q], was, bit, q)
      invariant forall j :: i <= j < data.Length ==> data[j] == was[j]
    {
      data[i] := ShiftIn(data[i], BitOf(data[i + 1], 0));
      i := i + 1;
    }
    data[last] := ShiftIn(data[last], bit);
    PushedBits(was, data[..], bit);
  }

  /** Every bit has moved up by one place, and `bit` has become the last one. */
  ghost predicate PushedUp(was: seq<bool>, now: seq<bool>, bit: bool) {
    |now| == |was| && forall i: nat :: i < |now| ==> now[i] == if i + 1 < |was| then was[i + 1] else bit
  }

  lemma PushedBits(s: seq<bv8>, t: seq<bv8>, bit: bool)
    requires |s| == |t| > 0 && forall q: nat :: q < |s| ==> PushedByte(t[q], s, bit, q)
    ensures PushedUp(AllBits(s), AllBits(t), bit)
  {
    forall i: nat | i < 8 * |s| ensures AllBits(t)[i] == if i + 1 < 8 * |s| then AllBits(s)[i + 1] else bit {
      PushedIndex(s, t, bit, i);
    }
  }

  lemma PushedIndex(s: seq<bv8>, t: seq<bv8>, bit: bool, i: nat)
    requires i < 8 * |s| && |s| == |t| && PushedByte(t[i / 8], s, bit, i / 8)
    ensures AllBits(t)[i] == if i + 1 < 8 * |s| then AllBits(s)[i + 1] else bit
  {
    PushedBit(s, t, bit, i / 8, i % 8);
  }

  ghost predicate PushedByte(b: bv8, s: seq<bv8>, bit: bool, q: nat)
    requires q < |s|
  {
    b == ShiftIn(s[q], if q + 1 < |s| then BitOf(s[q + 1], 0) else bit)
  }

  lemma PushedBit(s: seq<bv8>, t: seq<bv8>, bit: bool, q: nat, r: nat)
    requires q < |s| == |t| && r < 8 && PushedByte(t[q], s, bit, q)
    ensures AllBits(t)[8 * q + r] == if 8 * q + r + 1 < 8 * |s| then AllBits(s)[8 * q + r + 1] else bit
  {
    BitOfByte(t, q, r);
    ShiftInBits(s[q], if q + 1 < |s| then BitOf(s[q + 1], 0) else bit, r);
    if r < 7 {
      BitOfByte(s, q, r + 1);
    } else if q + 1 < |s| {
      BitOfByte(s, q + 1, 0);
    }
  }

  function Reversed(bits: seq<bool>): (r: seq<bool>)
    ensures |r| == |bits|
  {
    seq(|bits|, i requires 0 <= i < |bits| => bits[|bits| - 1 - i])
  }

  method ExchangeBits(data: array<bv8>, p: nat, q: nat)
    requires p < 8 * data.Length && q < 8 * data.Length
    modifies data
    ensures AllBits(data[..]) == old(AllBits(data[..])[p := AllBits(data[..])[q]][q := AllBits(data[..])[p]])
  {
    var tmp := GetBit(data[..], p);
    SetBit(data, p, GetBit(data[..], q));
    SetBit(data, q, tmp);
  }

  // the body of the loop of bit_lib_reverse_bits
  method ExchangeEnds(data: array<bv8>, p: nat, i: nat, j: nat, ghost bits: seq<bool>, ghost n: nat)
    requires HalfReversed(bits, AllBits(data[..]), p, n, i) && i < j == n - 1 - i
    modifies data
    ensures HalfReversed(bits, AllBits(data[..]), p, n, i + 1)
  {
    HalfStep(bits, AllBits(data[..]), p, n, i);
    ExchangeBits(data, p + i, p + j);
  }

  /** bit_lib_reverse_bits; a length of zero would start from the last address. */
  method ReverseBits(data: array<bv8>, position: nat, length: Byte)
    requires 0 < length && position + length <= 8 * data.Length
    modifies data
    ensures AllBits(data[..])
            == Replaced(old(AllBits(data[..])), position, Reversed(old(AllBits(data[..]))[position..position + length]))
  {
    ghost var bits := AllBits(data[..]);
    var i, j := 0, length - 1;
    while i < j
      invariant 0 <= i <= length && j == length - 1 - i
      invariant HalfReversed(bits, AllBits(data[..]), position, length, i)
    {
      ExchangeEnds(data, position, i, j, bits, length);
      i := i + 1;
      j := j - 1;
    }
    AllReversed(bits, AllBits(data[..]), position, length, i);
  }

  /** The outer i bits on both sides of the stretch have been exchanged. */
  ghost predicate HalfReversed(bits: seq<bool>, now: seq<bool>, p: nat, n: nat, i: nat) {
    |now| == |bits| && p + n <= |bits| && forall k: nat :: k < |bits| ==> now[k] == bits[HalfFrom(p, n, i, k)]
  }

  /** Where the bit at k comes from. */
  function HalfFrom(p: nat, n: nat, i: nat, k: nat): (j: nat)
    ensures p <= k < p + n ==> p <= j < p + n
    ensures !(p <= k < p + n) ==> j == k
  {
    if p <= k < p + n && (k - p < i || n - 1 - (k - p) < i) then 2 * p + n - 1 - k else k
  }

  lemma HalfStep(bits: seq<bool>, now: seq<bool>, p: nat, n: nat, i: nat)
    requires HalfReversed(bits, now, p, n, i) && i < n - 1 - i
    ensures HalfReversed(bits, now[p + i := now[p + n - 1 - i]][p + n - 1 - i := now[p + i]], p, n, i + 1)
  {
    var next := now[p + i := now[p + n - 1 - i]][p + n - 1 - i := now[p + i]];
    forall k: nat | k < |bits| ensures next[k] == bits[HalfFrom(p, n, i + 1, k)] {
      HalfMoved(p, n, i, k);
    }
  }

  lemma HalfMoved(p: nat, n: nat, i: nat, k: nat)
    requires i < n - 1 - i
    ensures HalfFrom(p, n, i + 1, k)
            == HalfFrom(p, n, i, if k == p + i then p + n - 1 - i else if k == p + n - 1 - i then p + i else k)
  {
  }

  lemma AllReversed(bits: seq<bool>, now: seq<bool>, p: nat, n: nat, i: nat)
    requires HalfReversed(bits, now, p, n, i) && i >= n - 1 - i
    ensures now == Replaced(bits, p, Reversed(bits[p..p + n]))
  {
    forall k: nat | k < |bits| ensures now[k] == Replaced(bits, p, Reversed(bits[p..p + n]))[k] {
      ReversedIndex(bits, now, p, n, i, k);
    }
  }

  lemma ReversedIndex(bits: seq<bool>, now: seq<bool>, p: nat, n: nat, i: nat, k: nat)
    requires HalfReversed(bits, now, p, n, i) && i >= n - 1 - i && k < |bits|
    ensures now[k] == Replaced(bits, p, Reversed(bits[p..p + n]))[k]
  {
    var v := Reversed(bits[p..p + n]);
    ReplacedAt(bits, p, v, k);
    if p <= k < p + n {
      assert v[k - p] == bits[p..p + n][n - 1 - (k - p)];
      assert bits[p..p + n][n - 1 - (k - p)] == bits[2 * p + n - 1 - k];
      assert HalfFrom(p, n, i, k) == 2 * p + n - 1 - k;
    }
  }

  // ---------------------------------------------------------------- deleting every n-th bit

  /** The bits from index c on that are kept when every n-th bit is removed. */
  function KeptFrom(bits: seq<bool>, n: nat, c: nat): (r: seq<bool>)
    requires n > 0 && c <= |bits|
    ensures |r| <= |bits| - c
    decreases |bits| - c
  {
    if c == |bits| then []
    else (if (c + 1) % n != 0 then [bits[c]] else []) + KeptFrom(bits, n, c + 1)
  }

  function KeptUpTo(bits: seq<bool>, n: nat, c: nat): (r: seq<bool>)
    requires n > 0 && c <= |bits|
    ensures |r| <= c
  {
    if c == 0 then [] else KeptUpTo(bits, n, c - 1) + if c % n != 0 then [bits[c - 1]] else []
  }

  lemma {:induction false} KeptUpToLength(bits: seq<bool>, n: nat, c: nat)
    requires n > 0 && c <= |bits|
    ensures |KeptUpTo(bits, n, c)| == c - c / n
  {
    if c > 0 {
      KeptUpToLength(bits, n, c - 1);
      NextQuotient(c - 1, n);
    }
  }

  lemma NextQuotient(c: nat, n: nat)
    requires n > 0
    ensures (c + 1) / n == c / n + if (c + 1) % n == 0 then 1 else 0
    ensures (c + 1) % n == if c % n + 1 == n then 0 else c % n + 1
  {
    var q, r := c / n, c % n;
    if r + 1 == n {
      assert n * (q + 1) == n * q + n;
      DivUnique(c + 1, n, q + 1, 0);
    } else {
      DivUnique(c + 1, n, q, r + 1);
    }
  }

  /** Index c is kept as number c - c / n, and that number leads back to c. */
  lemma KeptNumber(c: nat, n: nat)
    requires n > 1 && (c + 1) % n != 0
    ensures c / n <= c && (c - c / n) + (c - c / n) / (n - 1) == c
  {
    var q, r := c / n, c % n;
    NextQuotient(c, n);
    assert c - q == (n - 1) * q + r;
    DivUnique(c - q, n - 1, q, r);
  }

  lemma Join3(a: seq<bool>, b: seq<bool>, c: seq<bool>)
    ensures a + (b + c) == (a + b) + c
  {
  }

  lemma {:induction false} KeptSplit(bits: seq<bool>, n: nat, c: nat)
    requires n > 0 && c <= |bits|
    ensures KeptUpTo(bits, n, c) + KeptFrom(bits, n, c) == KeptFrom(bits, n, 0)
  {
    if c == 0 {
      assert [] + KeptFrom(bits, n, 0) == KeptFrom(bits, n, 0);
    } else {
      KeptSplit(bits, n, c - 1);
      Join3(KeptUpTo(bits, n, c - 1), if c % n != 0 then [bits[c - 1]] else [], KeptFrom(bits, n, c));
    }
  }

  /** Number i of the kept bits is the one with n - 1 bits of every n before it. */
  predicate KeptAt(bits: seq<bool>, n: nat, kept: seq<bool>, i: nat)
    requires n > 1 && i < |kept|
  {
    var c := i + i / (n - 1);
    c < |bits| && kept[i] == bits[c]
  }

  lemma {:induction false} KeptUpToAt(bits: seq<bool>, n: nat, c: nat, i: nat)
    requires n > 1 && c <= |bits| && i < |KeptUpTo(bits, n, c)|
    ensures KeptAt(bits, n, KeptUpTo(bits, n, c), i)
  {
    if i < |KeptUpTo(bits, n, c - 1)| {
      KeptUpToAt(bits, n, c - 1, i);
    } else {
      KeptUpToLength(bits, n, c - 1);
      KeptNumber(c - 1, n);
    }
  }

  lemma KeptAll(bits: seq<bool>, n: nat)
    requires n > 0
    ensures KeptFrom(bits, n, 0) == KeptUpTo(bits, n, |bits|)
  {
    KeptSplit(bits, n, |bits|);
    assert KeptUpTo(bits, n, |bits|) + [] == KeptUpTo(bits, n, |bits|);
  }

  /** Up to index c only the first c bits matter, and more of them give more. */
  lemma {:induction false} KeptPrefix(bits: seq<bool>, n: nat, c: nat, d: nat)
    requires n > 0 && c <= d <= |bits|
    ensures KeptUpTo(bits[..d], n, c) == KeptUpTo(bits, n, c)
  {
    if c > 0 { KeptPrefix(bits, n, c - 1, d); }
  }

  lemma {:induction false} KeptGrows(bits: seq<bool>, n: nat, c: nat, d: nat)
    requires n > 0 && c <= d <= |bits|
    ensures KeptUpTo(bits, n, c) <= KeptUpTo(bits, n, d)
    ensures n > 1 && c + 2 <= d ==> |KeptUpTo(bits, n, c)| < |KeptUpTo(bits, n, d)|
    decreases d
  {
    if c < d {
      KeptGrows(bits, n, c, d - 1);
      if c + 2 == d { NextQuotient(c, n); NextQuotient(c + 1, n); }
    }
  }

  /** Of a shorter stretch, fewer bits are kept, and they are the first of those. */
  lemma KeptOfPrefix(bits: seq<bool>, n: nat, c: nat)
    requires n > 0 && c <= |bits|
    ensures KeptFrom(bits[..c], n, 0) <= KeptFrom(bits, n, 0)
    ensures n > 1 && c + 2 <= |bits| ==> |KeptFrom(bits[..c], n, 0)| < |KeptFrom(bits, n, 0)|
  {
    KeptAll(bits, n);
    KeptAll(bits[..c], n);
    KeptPrefix(bits, n, c, c);
    KeptGrows(bits, n, c, |bits|);
  }

  /** Which bits are kept: the first n - 1 of every n, and all of an incomplete rest. */
  lemma KeptIndex(bits: seq<bool>, n: nat)
    requires n > 0
    ensures |KeptFrom(bits, n, 0)| == |bits| - |bits| / n
    ensures n > 1 ==> forall i: nat :: i < |KeptFrom(bits, n, 0)| ==> KeptAt(bits, n, KeptFrom(bits, n, 0), i)
  {
    KeptAll(bits, n);
    var kept := KeptUpTo(bits, n, |bits|);
    KeptUpToLength(bits, n, |bits|);
    if n > 1 {
      forall i: nat | i < |kept| ensures KeptAt(bits, n, kept, i) {
        KeptUpToAt(bits, n, |bits|, i);
      }
    }
  }

  /** bit_lib_remove_bit_every_nth: the stretch is compacted in place. The buffered writes always
      stay behind the bit that is read next, so nothing is overwritten before it is used, and
      the bits behind the result keep their old values. */
  method RemoveBitEveryNth(data: array<bv8>, position: nat, length: Byte, n: Byte) returns (count: nat)
    requires n > 0 && position + length <= 8 * data.Length
    modifies data
    ensures var kept := KeptFrom(old(AllBits(data[..]))[position..position + length], n, 0);
            count == |kept| && AllBits(data[..]) == Replaced(old(AllBits(data[..])), position, kept)
  {
    ghost var bits := AllBits(data[..]);
    ghost var src := bits[position..position + length];
    ghost var done;
    var buffer: bv8, bitCounter: nat;
    buffer, bitCounter, count, done := Compact(data, position, length, n, bits, src);
    done := FlushRest(data, position, buffer, bitCounter, count, bits, done);
    count := count + bitCounter;
    KeptAll(src, n);
  }

  // bit_lib_remove_bit_every_nth, the loop
  method Compact(data: array<bv8>, position: nat, length: nat, n: nat, ghost bits: seq<bool>, ghost src: seq<bool>)
    returns (buffer: bv8, bitCounter: nat, count: nat, ghost done: seq<bool>)
    requires n > 0 && AllBits(data[..]) == bits && |bits| == 8 * data.Length && |src| == length
    requires position + length <= |bits| && src == bits[position..position + length]
    modifies data
    ensures bitCounter < 8 && count == |done| && count + bitCounter <= length
    ensures KeptUpTo(src, n, length) == done + LowBits(buffer, bitCounter)
    ensures AllBits(data[..]) == Replaced(bits, position, done)
  {
    done, bitCounter, buffer, count := [], 0, 0, 0;
    var counter := 0;
    assert [] + LowBits(buffer, 0) == [];
    while counter < length
      invariant counter <= length && bitCounter < 8 && count == |done| && count + bitCounter <= counter
      invariant KeptUpTo(src, n, counter) == done + LowBits(buffer, bitCounter)
      invariant AllBits(data[..]) == Replaced(bits, position, done)
    {
      buffer, bitCounter, count, done := NextBit(data, position, counter, n, buffer, bitCounter, count, bits, src, done);
      counter := counter + 1;
    }
  }

  /** bit_lib_remove_bit_every_nth, the bits left in the buffer at the end. */
  method FlushRest(data: array<bv8>, position: nat, buffer: bv8, bitCounter: nat, count: nat,
                   ghost bits: seq<bool>, ghost done: seq<bool>) returns (ghost done': seq<bool>)
    requires bitCounter <= 8 && count == |done| && position + count + bitCounter <= |bits| == 8 * data.Length
    requires AllBits(data[..]) == Replaced(bits, position, done)
    modifies data
    ensures done' == done + LowBits(buffer, bitCounter)
    ensures AllBits(data[..]) == Replaced(bits, position, done')
  {
    if bitCounter != 0 {
      done' := Flush(data, position, buffer, bitCounter, count, bits, done);
    } else {
      done' := done;
    }
  }

  /** bit_lib_remove_bit_every_nth, the body of the loop. */
  method NextBit(data: array<bv8>, position: nat, c: nat, n: nat, buffer: bv8, bitCounter: nat, count: nat,
                 ghost bits: seq<bool>, ghost src: seq<bool>, ghost done: seq<bool>)
    returns (buffer': bv8, bitCounter': nat, count': nat, ghost done': seq<bool>)
    requires n > 0 && c < |src| && bitCounter < 8 && count == |done| && count + bitCounter <= c
    requires position + |src| <= |bits| == 8 * data.Length && src == bits[position..position + |src|]
    requires KeptUpTo(src, n, c) == done + LowBits(buffer, bitCounter)
    requires AllBits(data[..]) == Replaced(bits, position, done)
    modifies data
    ensures bitCounter' < 8 && count' == |done'| && count' + bitCounter' <= c + 1
    ensures KeptUpTo(src, n, c + 1) == done' + LowBits(buffer', bitCounter')
    ensures AllBits(data[..]) == Replaced(bits, position, done')
  {
    UnreadBit(bits, position, done, c, src);
    buffer', bitCounter' := Absorb(buffer, bitCounter, GetBit(data[..], position + c), c, n, src, done);
    count', done' := count, done;
    if bitCounter' == 8 {
      done' := Flush(data, position, buffer', 8, count, bits, done);
      bitCounter', buffer', count' := 0, 0, count + 8;
      assert done' + LowBits(buffer', 0) == done';
    }
  }

  /** The bit at index c goes to the buffer, unless it is an n-th one. */
  method Absorb(buffer: bv8, bitCounter: nat, bit: bool, c: nat, n: nat, ghost src: seq<bool>, ghost done: seq<bool>)
    returns (buffer': bv8, bitCounter': nat)
    requires n > 0 && c < |src| && bitCounter < 8 && bit == src[c]
    requires KeptUpTo(src, n, c) == done + LowBits(buffer, bitCounter)
    ensures bitCounter' <= 8 && bitCounter <= bitCounter' <= bitCounter + 1
    ensures KeptUpTo(src, n, c + 1) == done + LowBits(buffer', bitCounter')
  {
    buffer', bitCounter' := buffer, bitCounter;
    if (c + 1) % n != 0 {
      LowBitsShiftIn(buffer, bitCounter, bit);
      Join3(done, LowBits(buffer, bitCounter), [bit]);
      buffer', bitCounter' := ShiftIn(buffer, bit), bitCounter + 1;
    } else {
      assert KeptUpTo(src, n, c) + [] == KeptUpTo(src, n, c);
    }
  }

  /** The buffered bits are written behind the `count` that are already in place. */
  method Flush(data: array<bv8>, position: nat, buffer: bv8, bitCounter: nat, count: nat,
               ghost bits: seq<bool>, ghost done: seq<bool>) returns (ghost done': seq<bool>)
    requires 0 < bitCounter <= 8 && count == |done| && position + count + bitCounter <= |bits| == 8 * data.Length
    requires AllBits(data[..]) == Replaced(bits, position, done)
    modifies data
    ensures done' == done + LowBits(buffer, bitCounter)
    ensures AllBits(data[..]) == Replaced(bits, position, done')
  {
    SetBits(data, position + count, buffer, bitCounter);
    done' := done + LowBits(buffer, bitCounter);
    ReplacedTwice(bits, position, done, LowBits(buffer, bitCounter));
  }

  /** A bit that has not been read yet is still the original one. */
  lemma UnreadBit(bits: seq<bool>, p: nat, done: seq<bool>, c: nat, src: seq<bool>)
    requires |done| <= c < |src| && p + |src| <= |bits| && src == bits[p..p + |src|]
    ensures Replaced(bits, p, done)[p + c] == src[c]
  {
    ReplacedAt(bits, p, done, p + c);
  }

}
