/** bit_lib: adding parity bits to a string of bits, and the round trip with the removal of every
    n-th bit. */
module Parity {
  import opened Bits
  import opened BitLib
  import opened BitWords
  import opened BitBlocks

  datatype Parity = Even | Odd | Always0 | Always1

  // ---------------------------------------------------------------- adding parity

  /** The bit that is appended to a block. */
  function ParityBit(block: seq<bool>, parity: Parity): bool {
    match parity
    case Even => OddOnes(Window(block))
    case Odd => !OddOnes(Window(block))
    case Always0 => false
    case Always1 => true
  }

  /** With Even, appending the parity bit makes the number of ones in the last 33 bits even, and
      with Odd, odd: of the whole block exactly when the bits before those have evenly many. */
  lemma ParityOfBlock(block: seq<bool>)
    ensures OddOnes(block + [ParityBit(block, Even)]) == OddOnes(block[..|block| - |Window(block)|])
    ensures OddOnes(block + [ParityBit(block, Odd)]) == !OddOnes(block[..|block| - |Window(block)|])
  {
    var early, w := block[..|block| - |Window(block)|], Window(block);
    assert block == early + w;
    OddOnesConcat(early, w);
    OddOnesConcat(block, [ParityBit(block, Even)]);
    OddOnesConcat(block, [ParityBit(block, Odd)]);
    assert forall b: bool :: OddOnes([b]) == b;
  }

  // bit_lib_test_parity_32 for the two parities that look at the word
  function TestWord(word: nat, parity: Parity): bool {
    if parity == Even then WordParity(word) else !WordParity(word)
  }

  // the parity bit of bit_lib_add_parity
  function WordBit(word: nat, parity: Parity): bool {
    match parity
    case Always0 => false
    case Always1 => true
    case _ => (TestWord(word, Odd) != (parity == Odd)) != true
  }

  lemma WordBitIsParityBit(block: seq<bool>, parity: Parity)
    ensures WordBit(Val(Window(block)), parity) == ParityBit(block, parity)
  {
    WordParityIsOddOnes(Window(block));
  }

  function ParityOf(parity: Parity): Choice {
    block => ParityBit(block, parity)
  }

  /** Every whole block of m bits of the source, followed by its parity bit. */
  function WithParity(src: seq<bool>, m: nat, parity: Parity): seq<bool>
    requires m > 0
  {
    WithBits(src, 0, m, ParityOf(parity))
  }

  /** The block from bit p of the source on is followed by a bit: a zero or a one, or the one with which the number
      of ones in the last 32 bits of the block and in this bit is even or odd. */
  lemma AddedBits(src: seq<bool>, m: nat, parity: Parity, p: nat, at: nat)
    requires m > 0 && Whole(p, m) && p + m <= |src| && at == AddedLength(p, m)
    ensures at + m < |WithParity(src, m, parity)|
    ensures var r, block := WithParity(src, m, parity), src[p..p + m];
            var b, ones := r[at + m], Ones(if m <= 32 then block else block[m - 32..]);
            && r[at..at + m] == block
            && match parity
               case Always0 => !b
               case Always1 => b
               case Even => b == (ones % 2 == 1)
               case Odd => b == (ones % 2 == 0)
  {
    var r, block := WithParity(src, m, parity), src[p..p + m];
    AddedBlockAt(src, m, parity, p, at, r, block);
    ParityBitIs(block, parity, r[at + m]);
  }

  lemma AddedBlockAt(src: seq<bool>, m: nat, parity: Parity, p: nat, at: nat, r: seq<bool>, block: seq<bool>)
    requires m > 0 && Whole(p, m) && p + m <= |src| && at == AddedLength(p, m)
    requires r == WithParity(src, m, parity) && block == src[p..p + m]
    ensures at + m < |r| && r[at..at + m] == block && r[at + m] == ParityBit(block, parity)
  {
    AddedAt(src, 0, m, ParityOf(parity), p, at, r, block);
  }

  lemma ParityBitIs(block: seq<bool>, parity: Parity, b: bool)
    requires b == ParityBit(block, parity)
    ensures var ones := Ones(if |block| <= 32 then block else block[|block| - 32..]);
            match parity
            case Always0 => !b
            case Always1 => b
            case Even => b == (ones % 2 == 1)
            case Odd => b == (ones % 2 == 0)
  {
    OddOnesIs(Window(block));
  }

  // ---------------------------------------------------------------- in place or between arrays

  /** The arrays before the call: the bits of the source, read from p on, and those of the
      destination, written from q on. They may be one and the same. */
  datatype Move = Move(orig: seq<bool>, p: nat, bits: seq<bool>, q: nat, inPlace: bool)

  /** `done` has been written, and nothing else. */
  ghost predicate Moved(v: Move, data: array<bv8>, dest: array<bv8>, done: seq<bool>)
    reads data, dest
  {
    && v.inPlace == (data == dest) && v.q + |done| <= |v.bits|
    && (if v.inPlace then v.orig == v.bits else AllBits(data[..]) == v.orig)
    && AllBits(dest[..]) == Replaced(v.bits, v.q, done)
  }

  /** The bit at index c of the source once the first j bits of r have been written. */
  ghost function SourceBit(v: Move, r: seq<bool>, j: nat, c: nat): bool
    requires v.p + c < |v.orig| && j <= |r|
  {
    if v.inPlace && v.q <= v.p + c < v.q + j then r[v.p + c - v.q] else v.orig[v.p + c]
  }

  /** Index c of the source is read when c bits have been copied and c / m parity bits inserted. */
  ghost predicate ReadAt(v: Move, src: seq<bool>, m: nat, r: seq<bool>, c: nat)
    requires m > 0 && c < |src| && v.p + |src| <= |v.orig|
  {
    c + c / m <= |r| && src[c] == SourceBit(v, r, c + c / m, c)
  }

  /** src is what has been read, and r what has been written. */
  ghost predicate ReadBack(v: Move, src: seq<bool>, m: nat, r: seq<bool>) {
    && m > 0 && v.p + |src| <= |v.orig|
    && forall c: nat :: c < |src| ==> ReadAt(v, src, m, r, c)
  }

  lemma ReadBackStep(v: Move, src: seq<bool>, m: nat, r: seq<bool>, b: bool)
    requires ReadBack(v, src, m, r) && v.p + |src| < |v.orig|
    requires |r| == |src| + |src| / m && b == SourceBit(v, r, |r|, |src|)
    ensures ReadBack(v, src + [b], m, r + [b])
  {
    forall c: nat | c <= |src| ensures ReadAt(v, src + [b], m, r + [b], c) {
      if c < |src| { assert ReadAt(v, src, m, r, c); }
    }
  }

  lemma ReadBackParity(v: Move, src: seq<bool>, m: nat, r: seq<bool>, b: bool)
    requires ReadBack(v, src, m, r)
    ensures ReadBack(v, src, m, r + [b])
  {
    forall c: nat | c < |src| ensures ReadAt(v, src, m, r + [b], c) {
      assert ReadAt(v, src, m, r, c);
    }
  }

  /** Unless one array is read where it has been written, the source is read as it was: the destination
      begins behind the source stretch, or so far before it that the inserted bits never catch up. */
  lemma ReadUnchanged(v: Move, src: seq<bool>, m: nat, r: seq<bool>)
    requires ReadBack(v, src, m, r)
    requires !v.inPlace || v.p + |src| <= v.q || v.q + |src| / m <= v.p + if |src| % m == 0 then 1 else 0
    ensures src == v.orig[v.p..v.p + |src|]
  {
    forall c: nat | c < |src| ensures src[c] == v.orig[v.p + c] {
      assert ReadAt(v, src, m, r, c);
      QuotientGrows(c, |src|, m);
    }
  }

  lemma {:induction false} QuotientGrows(c: nat, n: nat, m: nat)
    requires m > 0 && c < n
    ensures c / m + (if n % m == 0 then 1 else 0) <= n / m
    decreases n
  {
    NextQuotient(n - 1, m);
    if c < n - 1 { QuotientGrows(c, n - 1, m); }
  }

  // ---------------------------------------------------------------- bit_lib_add_parity

  // one bit is read and written
  method MoveBit(data: array<bv8>, dest: array<bv8>, from: nat, to: nat, m: nat, ghost v: Move, ghost src: seq<bool>,
                 ghost done: seq<bool>) returns (b: bool)
    requires Moved(v, data, dest, done) && from == v.p + |src| < |v.orig| == 8 * data.Length
    requires to == v.q + |done| < |v.bits| == 8 * dest.Length
    requires ReadBack(v, src, m, done) && |done| == |src| + |src| / m
    modifies dest
    ensures Moved(v, data, dest, done + [b]) && ReadBack(v, src + [b], m, done + [b])
  {
    ReplacedAt(v.bits, v.q, done, if data == dest then from else v.q);
    b := GetBit(data[..], from);
    ReadBackStep(v, src, m, done, b);
    PutBit(data, dest, to, b, v, done);
  }

  method PutBit(data: array<bv8>, dest: array<bv8>, to: nat, b: bool, ghost v: Move, ghost done: seq<bool>)
    requires Moved(v, data, dest, done) && to == v.q + |done| < |v.bits| == 8 * dest.Length
    modifies dest
    ensures Moved(v, data, dest, done + [b])
  {
    assert (done + [b])[..|done|] == done;
    SetBit(dest, to, b);
  }

  lemma InBlock(c: nat, m: nat, t: nat)
    requires 0 < m && Whole(c, m) && t < m
    ensures (c + t) / m == c / m && (c + t) % m == t
  {
    WholeMeaning(c, m);
    DivUnique(c + t, m, c / m, t);
  }

  // the inner loop of bit_lib_add_parity: one block of m bits, and its parity word
  method AddBlock(data: array<bv8>, dest: array<bv8>, from: nat, to: nat, m: nat, ghost v: Move, ghost src: seq<bool>,
                  ghost done: seq<bool>) returns (word: nat, ghost block: seq<bool>)
    requires Moved(v, data, dest, done) && from == v.p + |src| && from + m <= |v.orig| == 8 * data.Length
    requires to == v.q + |done| && to + m <= |v.bits| == 8 * dest.Length
    requires ReadBack(v, src, m, done) && |done| == |src| + |src| / m && Whole(|src|, m)
    modifies dest
    ensures |block| == m && word == Val(Window(block))
    ensures Moved(v, data, dest, done + block) && ReadBack(v, src + block, m, done + block)
  {
    word, block := 0, [];
    assert src + [] == src && done + [] == done;
    var bit := 0;
    while bit < m
      invariant bit == |block| <= m && word == Val(Window(block))
      invariant Moved(v, data, dest, done + block) && ReadBack(v, src + block, m, done + block)
    {
      InBlock(|src|, m, bit);
      var b := MoveBit(data, dest, from + bit, to + bit, m, v, src + block, done + block);
      ShiftWord(block, b);
      Join3(src, block, [b]);
      Join3(done, block, [b]);
      word, block := NextWord(word, b), block + [b];
      bit := bit + 1;
    }
  }

  /** From `src`, whole blocks, the bits `done` have been made and written. */
  ghost predicate BlocksAdded(v: Move, data: array<bv8>, dest: array<bv8>, src: seq<bool>, done: seq<bool>, m: nat,
                              parity: Parity)
    requires m > 0
    reads data, dest
  {
    Whole(|src|, m) && done == WithParity(src, m, parity) && Moved(v, data, dest, done) && ReadBack(v, src, m, done)
  }

  // the body of the loop of bit_lib_add_parity
  method AddBlockWithParity(data: array<bv8>, dest: array<bv8>, from: nat, to: nat, m: nat, parity: Parity,
                            ghost v: Move, ghost src: seq<bool>, ghost done: seq<bool>)
    returns (ghost src': seq<bool>, ghost done': seq<bool>)
    requires m > 0 && BlocksAdded(v, data, dest, src, done, m, parity)
    requires from == v.p + |src| && from + m <= |v.orig| == 8 * data.Length
    requires to == v.q + |done| && to + m < |v.bits| == 8 * dest.Length
    modifies dest
    ensures |src'| == |src| + m && |done'| == |done| + m + 1 && BlocksAdded(v, data, dest, src', done', m, parity)
  {
    WholeLength(|src|, m);
    var word, block := AddBlock(data, dest, from, to, m, v, src, done);
    WordBitIsParityBit(block, parity);
    PutBit(data, dest, to + m, WordBit(word, parity), v, done + block);
    ReadBackParity(v, src + block, m, done + block, ParityBit(block, parity));
    BlockAdded(src, m, ParityOf(parity), block, done);
    src', done' := src + block, (done + block) + [ParityBit(block, parity)];
  }

  /** In the loop of bit_lib_add_parity, `word` bits have been read and `count` written. */
  ghost predicate Adding(v: Move, data: array<bv8>, dest: array<bv8>, src: seq<bool>, done: seq<bool>, length: nat, m: nat,
                         parity: Parity, word: nat, count: nat)
    reads data, dest
  {
    && m > 0 && BlocksAdded(v, data, dest, src, done, m, parity)
    && word == |src| && count == |done| && Progress(length, m, word, count)
    && v.p + Padded(length, m) <= |v.orig| == 8 * data.Length
    && v.q + Padded(length, m) + Blocks(length, m) <= |v.bits| == 8 * dest.Length
  }

  // the body of the loop, at the two positions
  method AddNextBlock(data: array<bv8>, position: nat, dest: array<bv8>, destPosition: nat, m: nat, parity: Parity,
                      word: nat, count: nat, ghost v: Move, ghost src: seq<bool>, ghost done: seq<bool>, ghost length: nat)
    returns (ghost src': seq<bool>, ghost done': seq<bool>)
    requires Adding(v, data, dest, src, done, length, m, parity, word, count) && word < length
    requires position == v.p && destPosition == v.q
    modifies dest
    ensures Adding(v, data, dest, src', done', length, m, parity, word + m, count + m + 1)
  {
    ProgressStep(length, m, word, count);
    src', done' := AddBlockWithParity(data, dest, position + word, destPosition + count, m, parity, v, src, done);
  }

  // the loop of bit_lib_add_parity
  method AddBlocks(data: array<bv8>, position: nat, dest: array<bv8>, destPosition: nat, length: nat, m: nat, parity: Parity,
                   ghost v: Move) returns (count: nat, ghost src: seq<bool>, ghost done: seq<bool>)
    requires Adding(v, data, dest, [], [], length, m, parity, 0, 0) && position == v.p && destPosition == v.q
    modifies dest
    ensures Adding(v, data, dest, src, done, length, m, parity, |src|, count) && |src| >= length
  {
    count, src, done := 0, [], [];
    var word := 0;
    while word < length
      invariant m > 0 && Adding(v, data, dest, src, done, length, m, parity, word, count)
      decreases length - word
    {
      src, done := AddNextBlock(data, position, dest, destPosition, m, parity, word, count, v, src, done, length);
      word, count := word + m, count + m + 1;
    }
  }

  /** bit_lib_add_parity. Blocks are read whole, beyond the source length if need be. In place, a bit of
      the source that has been overwritten is read back as it is then. */
  method AddParity(data: array<bv8>, position: nat, dest: array<bv8>, destPosition: nat,
                   sourceLength: Byte, parityLength: Byte, parity: Parity) returns (count: nat, ghost src: seq<bool>)
    requires parityLength >= 2
    requires var n := Padded(sourceLength, parityLength - 1);
             position + n <= 8 * data.Length && destPosition + n + Blocks(sourceLength, parityLength - 1) <= 8 * dest.Length
    modifies dest
    ensures |src| == Padded(sourceLength, parityLength - 1)
    ensures var r := WithParity(src, parityLength - 1, parity);
            && count == |r| && destPosition + count <= 8 * dest.Length
            && AllBits(dest[..]) == Replaced(old(AllBits(dest[..])), destPosition, r)
            && ReadBack(Move(old(AllBits(data[..])), position, old(AllBits(dest[..])), destPosition, data == dest),
                        src, parityLength - 1, r)
    ensures data != dest ==> src == AllBits(data[..])[position..position + |src|]
  {
    var m := parityLength - 1;
    ghost var v := Move(AllBits(data[..]), position, AllBits(dest[..]), destPosition, data == dest);
    assert WithParity([], m, parity) == [] && Replaced(v.bits, v.q, []) == v.bits;
    ghost var done;
    count, src, done := AddBlocks(data, position, dest, destPosition, sourceLength, m, parity, v);
    ProgressDone(sourceLength, m, |src|, count);
    if data != dest { ReadUnchanged(v, src, m, done); }
  }

  // ---------------------------------------------------------------- round trip

  /** What bit_lib_add_parity has put at p for a source of any length, bit_lib_remove_bit_every_nth turns
      back into the bits that were read, whatever the parity, if and only if the result has less than
      256 bits: its length argument has eight. Otherwise only the first of the bits come back. */
  lemma ParityRoundTrip(src: seq<bool>, length: Byte, m: nat, parity: Parity, bits: seq<bool>, p: nat, r: seq<bool>)
    requires 0 < m < 0xFF && |src| == Padded(length, m)
    requires r == WithParity(src, m, parity) && p + |r| <= |bits|
    ensures Back(bits, p, r, m + 1) <= src
    ensures Back(bits, p, r, m + 1) == src <==> Padded(length, m) + Blocks(length, m) < 0x100
  {
    BlocksComeBack(src, length, m, ParityOf(parity), bits, p, r);
  }

  /** 128 bits in blocks of one: with their parity bits they are 256, and nothing comes back. */
  lemma NothingComesBack(src: seq<bool>, parity: Parity, bits: seq<bool>, p: nat)
    requires |src| == 128 && p + 256 <= |bits|
    ensures var r := WithParity(src, 1, parity); |r| == 256 && Back(bits, p, r, 2) == []
  {
    DoubleLength(128);
  }

  lemma {:induction false} DoubleLength(n: nat)
    ensures AddedLength(n, 1) == 2 * n
  {
    if n > 0 { DoubleLength(n - 1); }
  }

  /** bit_lib_add_parity, and then bit_lib_remove_bit_every_nth where it has written: the count is
      reduced to eight bits on the way. */
  method AddThenRemove(data: array<bv8>, position: nat, dest: array<bv8>, destPosition: nat, sourceLength: Byte,
                       parityLength: Byte, parity: Parity) returns (count: nat, ghost src: seq<bool>)
    requires parityLength >= 2 && data != dest
    requires var n := Padded(sourceLength, parityLength - 1);
             position + n <= 8 * data.Length && destPosition + n + Blocks(sourceLength, parityLength - 1) <= 8 * dest.Length
    modifies dest
    ensures |src| == Padded(sourceLength, parityLength - 1) && src == AllBits(data[..])[position..position + |src|]
    ensures count <= |src| && destPosition + count <= 8 * dest.Length
    ensures AllBits(dest[..])[destPosition..destPosition + count] == src[..count]
    ensures count == |src| <==> |src| + Blocks(sourceLength, parityLength - 1) < 0x100
  {
    ghost var bits := AllBits(dest[..]);
    count, src := AddParity(data, position, dest, destPosition, sourceLength, parityLength, parity);
    ghost var r := WithParity(src, parityLength - 1, parity);
    ParityRoundTrip(src, sourceLength, parityLength - 1, parity, bits, destPosition, r);
    WrappedLength(|r|);
    count := RemoveAgain(dest, destPosition, count % 0x100, parityLength, bits, r);
  }

  method RemoveAgain(dest: array<bv8>, position: nat, length: Byte, n: Byte, ghost bits: seq<bool>, ghost r: seq<bool>)
    returns (count: nat)
    requires n > 1 && position + |r| <= |bits| == 8 * dest.Length && length == |r| % 0x100 <= |r|
    requires AllBits(dest[..]) == Replaced(bits, position, r)
    modifies dest
    ensures count == |Back(bits, position, r, n)| && position + count <= 8 * dest.Length
    ensures AllBits(dest[..])[position..position + count] == Back(bits, position, r, n)
  {
    ghost var now := AllBits(dest[..]);
    count := RemoveBitEveryNth(dest, position, length, n);
    SliceOfReplaced(now, position, Back(bits, position, r, n));
  }
}
