/** Blocks of bits, each followed by a bit that is chosen by the block, and the removal of these bits. */
module BitBlocks {
  import opened Bits
  import opened BitLib
  import opened BitWords

  // ---------------------------------------------------------------- lengths

  /** The number of source bits that are read: whole blocks, as many as the length needs. */
  function Padded(length: nat, m: nat): (n: nat)
    requires m > 0
    ensures n >= length
  {
    if length == 0 then 0 else if length <= m then m else m + Padded(length - m, m)
  }

  /** The number of these blocks. */
  function Blocks(length: nat, m: nat): nat
    requires m > 0
  {
    if length == 0 then 0 else if length <= m then 1 else 1 + Blocks(length - m, m)
  }

  /** The bit that is chosen for a block. */
  type Choice = seq<bool> -> bool

  /** A block, followed by its bit. */
  function AddedBlock(block: seq<bool>, f: Choice): (r: seq<bool>)
    ensures |r| == |block| + 1
  {
    block + [f(block)]
  }

  /** The number of bits of the whole blocks in n bits, and of the bits behind them. */
  function AddedLength(n: nat, m: nat): nat
    requires m > 0
  {
    if n < m then 0 else m + 1 + AddedLength(n - m, m)
  }

  /** From bit c of the source on: every block of m bits, followed by its bit. */
  function WithBits(src: seq<bool>, c: nat, m: nat, f: Choice): (r: seq<bool>)
    requires m > 0
    ensures c <= |src| ==> |r| == AddedLength(|src| - c, m)
    decreases |src| - c
  {
    if c + m > |src| then []
    else AddedBlock(src[c..c + m], f) + WithBits(src, c + m, m, f)
  }

  /** The block behind the first p bits, whole blocks, of the source from c on, and the bit behind it. */
  lemma {:induction false} AddedAt(src: seq<bool>, c: nat, m: nat, f: Choice, p: nat, at: nat, r: seq<bool>, block: seq<bool>)
    requires m > 0 && Whole(p, m) && c + p + m <= |src| && at == AddedLength(p, m)
    requires r == WithBits(src, c, m, f) && block == src[c + p..c + p + m]
    ensures at + m < |r| && r[at..at + m] == block && r[at + m] == f(block)
    decreases p
  {
    Unfolded(src, c, m, f);
    var rest := WithBits(src, c + m, m, f);
    if p > 0 {
      AddedAt(src, c + m, m, f, p - m, AddedLength(p - m, m), rest, block);
      BehindFirst(AddedBlock(src[c..c + m], f), rest, r, AddedLength(p - m, m), at, block, f(block));
    } else {
      FirstOf(block, f, rest);
    }
  }

  lemma FirstOf(block: seq<bool>, f: Choice, rest: seq<bool>)
    ensures var r := AddedBlock(block, f) + rest; r[0..|block|] == block && r[|block|] == f(block)
  {
  }

  /** Block j begins behind j * m bits of the source, and behind j more bits of the result. */
  lemma {:induction false} BlockStart(m: nat, j: nat, p: nat)
    requires m > 0 && p == m * j
    ensures Whole(p, m) && AddedLength(p, m) == p + j
  {
    if j > 0 {
      OneTimesMore(m, j);
      BlockStart(m, j - 1, p - m);
    }
  }

  lemma OneTimesMore(x: nat, j: nat)
    requires j > 0
    ensures x * j == x + x * (j - 1)
  {
  }

  lemma BehindFirst(a: seq<bool>, rest: seq<bool>, r: seq<bool>, at: nat, to: nat, block: seq<bool>, b: bool)
    requires r == a + rest && to == |a| + at && at + |block| < |rest|
    requires rest[at..at + |block|] == block && rest[at + |block|] == b
    ensures to + |block| < |r| && r[to..to + |block|] == block && r[to + |block|] == b
  {
  }

  /** n bits are a number of blocks of m bits. */
  predicate Whole(n: nat, m: nat)
    requires m > 0
  {
    n == 0 || (m <= n && Whole(n - m, m))
  }

  lemma {:induction false} WholeMeaning(n: nat, m: nat)
    requires m > 0
    ensures Whole(n, m) <==> n % m == 0
  {
    if m <= n {
      DivStep(n, m);
      WholeMeaning(n - m, m);
    } else {
      DivUnique(n, m, 0, n);
    }
  }

  lemma {:induction false} WholePlus(n: nat, m: nat)
    requires m > 0 && Whole(n, m)
    ensures Whole(n + m, m)
  {
  }

  /** One block more. */
  lemma {:induction false} Grows(src: seq<bool>, c: nat, m: nat, f: Choice, block: seq<bool>)
    requires m > 0 && c <= |src| && Whole(|src| - c, m) && |block| == m
    ensures WithBits(src + block, c, m, f)
            == WithBits(src, c, m, f) + AddedBlock(block, f)
    decreases |src| - c
  {
    if c == |src| {
      LastBlock(src, m, f, block);
    } else {
      Grows(src, c + m, m, f, block);
      MoreBehind(src, c, m, f, block, AddedBlock(block, f));
    }
  }

  lemma MoreBehind(src: seq<bool>, c: nat, m: nat, f: Choice, more: seq<bool>, added: seq<bool>)
    requires m > 0 && c + m <= |src|
    requires WithBits(src + more, c + m, m, f) == WithBits(src, c + m, m, f) + added
    ensures WithBits(src + more, c, m, f) == WithBits(src, c, m, f) + added
  {
    assert (src + more)[c..c + m] == src[c..c + m];
    Join3(AddedBlock(src[c..c + m], f), WithBits(src, c + m, m, f), added);
  }

  lemma LastBlock(src: seq<bool>, m: nat, f: Choice, block: seq<bool>)
    requires |block| == m > 0
    ensures WithBits(src + block, |src|, m, f) == WithBits(src, |src|, m, f) + AddedBlock(block, f)
  {
    assert (src + block)[|src|..|src| + m] == block;
    assert WithBits(src + block, |src| + m, m, f) == [];
  }

  lemma BlockAdded(src: seq<bool>, m: nat, f: Choice, block: seq<bool>, done: seq<bool>)
    requires m > 0 && Whole(|src|, m) && |block| == m && done == WithBits(src, 0, m, f)
    ensures Whole(|src + block|, m)
    ensures WithBits(src + block, 0, m, f) == (done + block) + [f(block)]
  {
    Grows(src, 0, m, f, block);
    Join3(done, block, [f(block)]);
    WholePlus(|src|, m);
  }

  /** To whole blocks, one bit is added for every m. */
  lemma {:induction false} WholeLength(n: nat, m: nat)
    requires m > 0 && Whole(n, m)
    ensures AddedLength(n, m) == n + n / m
  {
    if n == 0 {
      DivUnique(0, m, 0, 0);
    } else {
      WholeLength(n - m, m);
      DivStep(n, m);
    }
  }

  function Left(length: nat, word: nat): nat {
    if word < length then length - word else 0
  }

  /** `word` bits of the source have been read and `count` written, and so many are left. */
  predicate Progress(length: nat, m: nat, word: nat, count: nat)
    requires m > 0
  {
    var left := Left(length, word);
    Padded(length, m) == word + Padded(left, m)
    && Padded(length, m) + Blocks(length, m) == count + Padded(left, m) + Blocks(left, m)
  }

  lemma PaddedStep(length: nat, m: nat)
    requires m > 0 && length > 0
    ensures Padded(length, m) == m + Padded(Left(length, m), m) && Blocks(length, m) == 1 + Blocks(Left(length, m), m)
  {
  }

  lemma ProgressDone(length: nat, m: nat, word: nat, count: nat)
    requires m > 0 && Progress(length, m, word, count) && word >= length
    ensures Padded(length, m) == word
  {
  }

  lemma ProgressStep(length: nat, m: nat, word: nat, count: nat)
    requires m > 0 && Progress(length, m, word, count) && word < length
    ensures Progress(length, m, word + m, count + m + 1)
    ensures word + m <= Padded(length, m) && count + m + 1 <= Padded(length, m) + Blocks(length, m)
  {
    PaddedStep(Left(length, word), m);
    assert Left(Left(length, word), m) == Left(length, word + m);
  }

  // ---------------------------------------------------------------- round trip

  lemma ModInBlock(t: nat, n: nat)
    requires 0 < t <= n
    ensures t % n == if t == n then 0 else t
  {
    if t == n { DivUnique(t, n, 1, 0); } else { DivUnique(t, n, 0, t); }
  }

  lemma KeptUnfold(bits: seq<bool>, n: nat, c: nat)
    requires n > 0 && c < |bits|
    ensures KeptFrom(bits, n, c) == (if (c + 1) % n != 0 then [bits[c]] else []) + KeptFrom(bits, n, c + 1)
  {
  }

  /** Of a block of m bits and the bit behind it, the m bits are kept. */
  lemma {:induction false} KeptOfBlock(block: seq<bool>, b: bool, rest: seq<bool>, t: nat)
    requires t <= |block|
    ensures var r := (block + [b]) + rest;
            KeptFrom(r, |block| + 1, t) == block[t..] + KeptFrom(r, |block| + 1, |block| + 1)
    decreases |block| - t
  {
    var r := (block + [b]) + rest;
    ModInBlock(t + 1, |block| + 1);
    KeptUnfold(r, |block| + 1, t);
    if t < |block| {
      assert r[t] == block[t];
      KeptOfBlock(block, b, rest, t + 1);
      assert block[t..] == [block[t]] + block[t + 1..];
      Join3([block[t]], block[t + 1..], KeptFrom(r, |block| + 1, |block| + 1));
    }
  }

  /** Behind n bits, every n-th bit is what it was. */
  lemma {:induction false} KeptBehind(a: seq<bool>, rest: seq<bool>, c: nat)
    requires a != [] && c <= |rest|
    ensures KeptFrom(a + rest, |a|, |a| + c) == KeptFrom(rest, |a|, c)
    decreases |rest| - c
  {
    if c < |rest| {
      DivStep(|a| + c + 1, |a|);
      KeptBehind(a, rest, c + 1);
      KeptUnfold(a + rest, |a|, |a| + c);
      KeptUnfold(rest, |a|, c);
    }
  }

  lemma {:induction false} KeptOfAdded(src: seq<bool>, c: nat, m: nat, f: Choice)
    requires m > 0 && c <= |src| && Whole(|src| - c, m)
    ensures KeptFrom(WithBits(src, c, m, f), m + 1, 0) == src[c..]
    decreases |src| - c
  {
    if c < |src| {
      KeptOfAdded(src, c + m, m, f);
      Unfolded(src, c, m, f);
      KeptMore(src, c, m, f, WithBits(src, c, m, f), WithBits(src, c + m, m, f));
    } else {
      assert WithBits(src, c, m, f) == [];
    }
  }

  lemma Unfolded(src: seq<bool>, c: nat, m: nat, f: Choice)
    requires m > 0 && c + m <= |src|
    ensures WithBits(src, c, m, f) == AddedBlock(src[c..c + m], f) + WithBits(src, c + m, m, f)
  {
  }

  lemma KeptMore(src: seq<bool>, c: nat, m: nat, f: Choice, added: seq<bool>, rest: seq<bool>)
    requires m > 0 && c + m <= |src| && added == AddedBlock(src[c..c + m], f) + rest
    requires KeptFrom(rest, m + 1, 0) == src[c + m..]
    ensures KeptFrom(added, m + 1, 0) == src[c..]
  {
    KeptFirst(src[c..c + m], f, rest, src[c + m..]);
    SuffixSplit(src, c, m);
  }

  lemma KeptFirst(block: seq<bool>, f: Choice, rest: seq<bool>, kept: seq<bool>)
    requires KeptFrom(rest, |block| + 1, 0) == kept
    ensures KeptFrom(AddedBlock(block, f) + rest, |block| + 1, 0) == block + kept
  {
    KeptOfBlock(block, f(block), rest, 0);
    KeptBehind(AddedBlock(block, f), rest, 0);
  }

  lemma SuffixSplit(src: seq<bool>, c: nat, m: nat)
    requires c + m <= |src|
    ensures src[c..] == src[c..c + m] + src[c + m..]
  {
  }

  lemma KeptOfAll(src: seq<bool>, m: nat, f: Choice)
    requires m > 0 && Whole(|src|, m)
    ensures KeptFrom(WithBits(src, 0, m, f), m + 1, 0) == src
  {
    KeptOfAdded(src, 0, m, f);
    assert src[0..] == src;
  }

  lemma SliceOfReplaced(bits: seq<bool>, p: nat, v: seq<bool>)
    requires p + |v| <= |bits|
    ensures Replaced(bits, p, v)[p..p + |v|] == v
  {
    forall k: nat | k < |v| ensures Replaced(bits, p, v)[p..p + |v|][k] == v[k] {
      ReplacedAt(bits, p, v, p + k);
    }
  }

  /** A length is padded to the next multiple of m. */
  lemma {:induction false} PaddedMeaning(length: nat, m: nat)
    requires m > 0
    ensures Whole(Padded(length, m), m) && Padded(length, m) < length + m
    ensures Padded(length, m) == length <==> Whole(length, m)
  {
    if length > m {
      PaddedMeaning(length - m, m);
    }
  }

  lemma {:induction false} BlocksLength(length: nat, m: nat)
    requires m > 0
    ensures AddedLength(Padded(length, m), m) == Padded(length, m) + Blocks(length, m)
  {
    if length > m { BlocksLength(length - m, m); }
  }

  /** What bit_lib_remove_bit_every_nth makes of the bits r at p, of whose number it gets the lowest eight
      bits. */
  function Back(bits: seq<bool>, p: nat, r: seq<bool>, n: nat): seq<bool>
    requires n > 0 && p + |r| <= |bits|
  {
    KeptFrom(Replaced(bits, p, r)[p..p + |r| % 0x100], n, 0)
  }

  /** The bits that have been read for a source of any length come back if and only if they and those
      added to them are less than 256; otherwise only the first of them do. */
  lemma BlocksComeBack(src: seq<bool>, length: nat, m: nat, f: Choice, bits: seq<bool>, p: nat, r: seq<bool>)
    requires m > 0 && |src| == Padded(length, m) && r == WithBits(src, 0, m, f) && p + |r| <= |bits|
    ensures Back(bits, p, r, m + 1) <= src
    ensures Back(bits, p, r, m + 1) == src <==> Padded(length, m) + Blocks(length, m) < 0x100
  {
    PaddedMeaning(length, m);
    ReadLength(src, length, m, f, r);
    KeptOfAll(src, m, f);
    KeptWrapped(src, r, m + 1, bits, p);
  }

  /** These bits are as many as the source has exactly if that is a multiple of the block length; else the
      last block comes back padded. */
  lemma PaddedLength(length: nat, m: nat)
    requires m > 0
    ensures length <= Padded(length, m) < length + m && (Padded(length, m) == length <==> length % m == 0)
  {
    PaddedMeaning(length, m);
    WholeMeaning(length, m);
  }

  lemma ReadLength(src: seq<bool>, length: nat, m: nat, f: Choice, r: seq<bool>)
    requires m > 0 && |src| == Padded(length, m) && r == WithBits(src, 0, m, f)
    ensures |r| == Padded(length, m) + Blocks(length, m)
  {
    BlocksLength(length, m);
  }

  lemma KeptWrapped(src: seq<bool>, r: seq<bool>, n: nat, bits: seq<bool>, p: nat)
    requires n > 1 && p + |r| <= |bits| && KeptFrom(r, n, 0) == src
    ensures Back(bits, p, r, n) <= src && (Back(bits, p, r, n) == src <==> |r| < 0x100)
  {
    WrappedLength(|r|);
    PrefixOfReplaced(bits, p, r, |r| % 0x100);
    KeptOfFront(src, r, n, |r| % 0x100, Back(bits, p, r, n));
  }

  lemma KeptOfFront(src: seq<bool>, r: seq<bool>, n: nat, l: nat, back: seq<bool>)
    requires n > 1 && l <= |r| && (l < |r| ==> l + 2 <= |r|) && src == KeptFrom(r, n, 0) && back == KeptFrom(r[..l], n, 0)
    ensures back <= src && (back == src <==> l == |r|)
  {
    KeptOfPrefix(r, n, l);
    assert r[..|r|] == r;
  }

  lemma WrappedLength(n: nat)
    ensures 0 <= n % 0x100 <= n
    ensures n < 0x100 ==> n % 0x100 == n
    ensures n >= 0x100 ==> n % 0x100 + 2 <= n
  {
  }

  lemma PrefixOfReplaced(bits: seq<bool>, p: nat, v: seq<bool>, n: nat)
    requires p + |v| <= |bits| && n <= |v|
    ensures Replaced(bits, p, v)[p..p + n] == v[..n]
  {
    SliceOfReplaced(bits, p, v);
    assert Replaced(bits, p, v)[p..p + n] == Replaced(bits, p, v)[p..p + |v|][..n];
  }
}
