/** bit_lib: testing the parity of blocks, and what the test says about added parity. */
module ParityTest {
  import opened Bits
  import opened BitLib
  import opened BitWords
  import opened BitBlocks
  import opened Parity

  /** What bit_lib_test_parity asks of a block: Even wants an odd number of ones, Odd an even one. */
  ghost predicate BlockPasses(block: seq<bool>, parity: Parity)
    requires block != []
  {
    match parity
    case Even => OddOnes(block)
    case Odd => !OddOnes(block)
    case Always0 => !block[|block| - 1]
    case Always1 => block[|block| - 1]
  }

  /** The blocks of n bits from index c on, as far as they are whole, pass. */
  ghost predicate AllPass(bits: seq<bool>, c: nat, n: nat, parity: Parity)
    requires n > 0
    decreases |bits| - c
  {
    c + n <= |bits| ==> BlockPasses(bits[c..c + n], parity) && AllPass(bits, c + n, n, parity)
  }

  // the body of the loop of bit_lib_test_parity
  method TestBlock(data: seq<bv8>, at: nat, parity: Parity, parityLength: nat) returns (pass: bool)
    requires 0 < parityLength && at + parityLength <= 8 * |data|
    requires parity == Even || parity == Odd ==> parityLength <= 32 && ReadableTo(data, at, parityLength)
    ensures pass == BlockPasses(AllBits(data)[at..at + parityLength], parity)
  {
    ghost var block := AllBits(data)[at..at + parityLength];
    match parity
    case Always0 => pass := !GetBit(data, at + parityLength - 1);
    case Always1 => pass := GetBit(data, at + parityLength - 1);
    case _ =>
      pass := TestWord(GetBits32(data, at, parityLength), parity);
      WordParityIsOddOnes(block);
  }

  method TestNext(data: seq<bv8>, position: nat, at: nat, parity: Parity, parityLength: nat, ghost length: nat,
                  ghost bits: seq<bool>) returns (pass: bool)
    requires 0 < parityLength && position + length <= 8 * |data| && at + parityLength <= length
    requires bits == AllBits(data)[position..position + length]
    requires parity == Even || parity == Odd ==> parityLength <= 32 && ReadableTo(data, position + at, parityLength)
    ensures AllPass(bits, at, parityLength, parity) == (pass && AllPass(bits, at + parityLength, parityLength, parity))
  {
    SliceOfSlice(AllBits(data), position, length, at, parityLength);
    pass := TestBlock(data, position + at, parity, parityLength);
  }

  // the loop of bit_lib_test_parity
  method TestBlocks(data: seq<bv8>, position: nat, length: nat, parity: Parity, parityLength: nat, blocks: nat,
                    ghost bits: seq<bool>) returns (result: bool)
    requires 0 < parityLength && position + length <= 8 * |data| && IsCount(blocks, length, parityLength)
    requires bits == AllBits(data)[position..position + length]
    requires parity == Even || parity == Odd ==> parityLength <= 32 && BlocksReadable(data, position, length, parityLength)
    ensures result == AllPass(bits, 0, parityLength, parity)
  {
    result := true;
    var i, at := 0, 0;
    while i < blocks
      invariant i <= blocks && at <= length && IsCount(blocks - i, length - at, parityLength)
      invariant result
      invariant parity == Even || parity == Odd ==> BlocksReadable(data, position + at, length - at, parityLength)
      invariant AllPass(bits, 0, parityLength, parity) == AllPass(bits, at, parityLength, parity)
    {
      result := TestNext(data, position, at, parity, parityLength, length, bits);
      if !result { break; }
      i, at := i + 1, at + parityLength;
    }
  }

  /** bit_lib_test_parity accepts exactly when every whole block passes. */
  method TestParity(data: seq<bv8>, position: nat, length: Byte, parity: Parity, parityLength: Byte) returns (result: bool)
    requires 0 < parityLength && position + length <= 8 * |data|
    requires parity == Even || parity == Odd ==> parityLength <= 32 && BlocksReadable(data, position, length, parityLength)
    ensures result == AllPass(AllBits(data)[position..position + length], 0, parityLength, parity)
  {
    CountIsQuotient(length, parityLength);
    result := TestBlocks(data, position, length, parity, parityLength, length / parityLength,
                         AllBits(data)[position..position + length]);
  }

  /** In numbers, Even asks for an odd number of ones in every whole block, Odd for an even one, and the others
      for the last bit of the block. */
  lemma {:induction false} TestAccepts(bits: seq<bool>, c: nat, n: nat, parity: Parity, j: nat)
    requires n > 0 && AllPass(bits, c, n, parity) && c + n * j + n <= |bits|
    ensures var block := bits[c + n * j..c + n * j + n];
            match parity
            case Even => Ones(block) % 2 == 1
            case Odd => Ones(block) % 2 == 0
            case Always0 => !block[n - 1]
            case Always1 => block[n - 1]
    decreases j
  {
    if j > 0 {
      OneTimesMore(n, j);
      TestAccepts(bits, c + n, n, parity, j - 1);
    } else {
      OddOnesIs(bits[c..c + n]);
    }
  }

  /** And a test that is not passed has found a whole block for which this is not so. */
  lemma {:induction false} TestRejects(bits: seq<bool>, c: nat, n: nat, parity: Parity) returns (j: nat)
    requires n > 0 && !AllPass(bits, c, n, parity)
    ensures c + n * j + n <= |bits|
    ensures var block := bits[c + n * j..c + n * j + n];
            match parity
            case Even => Ones(block) % 2 == 0
            case Odd => Ones(block) % 2 == 1
            case Always0 => block[n - 1]
            case Always1 => !block[n - 1]
    decreases |bits| - c
  {
    if BlockPasses(bits[c..c + n], parity) {
      j := TestRejects(bits, c + n, n, parity);
      OneTimesMore(n, j + 1);
      j := j + 1;
    } else {
      j := 0;
      OddOnesIs(bits[c..c + n]);
    }
  }

  /** Every byte that is read for the blocks of n bits from `at` on is there. */
  ghost predicate BlocksReadable(data: seq<bv8>, at: nat, length: nat, n: nat)
    requires n > 0
    decreases length
  {
    n <= length ==> ReadableTo(data, at, n) && BlocksReadable(data, at + n, length - n, n)
  }

  /** n has `count` times room for d. */
  ghost predicate IsCount(count: nat, n: nat, d: nat) {
    if count == 0 then n < d else d <= n && IsCount(count - 1, n - d, d)
  }

  lemma {:induction false} CountIsQuotient(n: nat, d: nat)
    requires 0 < d
    ensures IsCount(n / d, n, d)
  {
    if d <= n {
      DivStep(n, d);
      CountIsQuotient(n - d, d);
    } else {
      DivUnique(n, d, 0, n);
    }
  }

  lemma SliceOfSlice(bits: seq<bool>, p: nat, length: nat, c: nat, n: nat)
    requires p + length <= |bits| && c + n <= length
    ensures bits[p..p + length][c..c + n] == bits[p + c..p + c + n]
  {
    var s := bits[p..p + length];
    assert forall k: nat :: k < length ==> s[k] == bits[p + k];
  }

  /** Between the two functions, Even and Odd are the other way round. */
  function Opposite(parity: Parity): Parity {
    match parity
    case Even => Odd
    case Odd => Even
    case _ => parity
  }

  /** The tests for Even and Odd look at no more than 32 bits of a block and its parity bit. */
  predicate Testable(m: nat, parity: Parity) {
    parity == Even || parity == Odd ==> m < 32
  }

  lemma AddedBlockPasses(block: seq<bool>, parity: Parity, test: Parity)
    requires Testable(|block|, parity) && (test == Opposite(parity) || test == parity)
    ensures BlockPasses(AddedBlock(block, ParityOf(parity)), test) == (test == Opposite(parity))
  {
    if parity == Even || parity == Odd {
      ParityOfBlock(block);
      assert block[..|block| - |Window(block)|] == [];
    }
  }

  lemma {:induction false} AllPassBehind(front: seq<bool>, rest: seq<bool>, c: nat, n: nat, parity: Parity)
    requires n > 0
    ensures AllPass(front + rest, |front| + c, n, parity) == AllPass(rest, c, n, parity)
    decreases |rest| - c
  {
    if c + n <= |rest| {
      AllPassBehind(front, rest, c + n, n, parity);
      assert (front + rest)[|front| + c..|front| + c + n] == rest[c..c + n];
    }
  }

  lemma AllPassFirst(block: seq<bool>, rest: seq<bool>, parity: Parity)
    requires block != []
    ensures AllPass(block + rest, 0, |block|, parity)
            == (BlockPasses(block, parity) && AllPass(rest, 0, |block|, parity))
  {
    AllPassBehind(block, rest, 0, |block|, parity);
    assert (block + rest)[0..|block|] == block;
  }

  /** Every block with its bit passes, or every one fails. */
  ghost predicate Uniform(m: nat, f: Choice, test: Parity, pass: bool) {
    forall block: seq<bool> :: |block| == m ==> BlockPasses(AddedBlock(block, f), test) == pass
  }

  /** Of what was added, the first n bits pass then, or fail if there is a whole block. */
  lemma {:induction false} UniformTo(src: seq<bool>, c: nat, m: nat, f: Choice, test: Parity, pass: bool, n: nat)
    requires m > 0 && c <= |src| && Uniform(m, f, test, pass) && n <= |WithBits(src, c, m, f)|
    ensures AllPass(WithBits(src, c, m, f)[..n], 0, m + 1, test) == (pass || n < m + 1)
    decreases |src| - c
  {
    if n >= m + 1 {
      UniformTo(src, c + m, m, f, test, pass, n - (m + 1));
      Unfolded(src, c, m, f);
      UniformStep(src[c..c + m], f, WithBits(src, c + m, m, f), test, pass, n, WithBits(src, c, m, f));
    } else {
      NoBlock(WithBits(src, c, m, f)[..n], m + 1, test);
    }
  }

  lemma UniformStep(block: seq<bool>, f: Choice, rest: seq<bool>, test: Parity, pass: bool, n: nat, added: seq<bool>)
    requires |block| < n <= |added| && added == AddedBlock(block, f) + rest && Uniform(|block|, f, test, pass)
    requires AllPass(rest[..n - (|block| + 1)], 0, |block| + 1, test) == (pass || n - (|block| + 1) < |block| + 1)
    ensures AllPass(added[..n], 0, |block| + 1, test) == pass
  {
    AddedFront(AddedBlock(block, f), rest, test, n, added);
  }

  lemma NoBlock(bits: seq<bool>, n: nat, test: Parity)
    requires |bits| < n
    ensures AllPass(bits, 0, n, test)
  {
  }

  lemma AddedFront(block: seq<bool>, rest: seq<bool>, test: Parity, n: nat, added: seq<bool>)
    requires 0 < |block| <= n <= |block| + |rest| && added == block + rest
    ensures AllPass(added[..n], 0, |block|, test)
            == (BlockPasses(block, test) && AllPass(rest[..n - |block|], 0, |block|, test))
  {
    FrontOf(block, rest, n);
    AllPassFirst(block, rest[..n - |block|], test);
  }

  lemma FrontOf(a: seq<bool>, rest: seq<bool>, n: nat)
    requires |a| <= n <= |a| + |rest|
    ensures (a + rest)[..n] == a + rest[..n - |a|]
  {
  }

  /** What was added with Even passes the test for Odd, and the other way round; Always0 and Always1 pass
      their own. It fails the test for its own name unless that looks at no whole block, which has two
      reasons: there is none, or the number of bits, of which the test gets the lowest eight, has become
      too small. In any case only the first blocks of more than 255 bits are looked at. */
  lemma AddedPasses(src: seq<bool>, m: nat, parity: Parity, test: Parity)
    requires 0 < m < 0xFF && Testable(m, parity) && (test == Opposite(parity) || test == parity)
    ensures var r := WithParity(src, m, parity);
            AllPass(r[..|r| % 0x100], 0, m + 1, test) == (test == Opposite(parity) || |r| % 0x100 < m + 1)
  {
    forall block: seq<bool> | |block| == m
      ensures BlockPasses(AddedBlock(block, ParityOf(parity)), test) == (test == Opposite(parity))
    {
      AddedBlockPasses(block, parity, test);
    }
    UniformTo(src, 0, m, ParityOf(parity), test, test == Opposite(parity), |WithParity(src, m, parity)| % 0x100);
  }
}
