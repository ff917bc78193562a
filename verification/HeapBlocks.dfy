/** The heap seen as intervals. All positions and lengths are counted in heap units of
    portBYTE_ALIGNMENT = 8 bytes, which is also the size of a block header.

    The only state an observer needs is the set of live (allocated) blocks: the free list
    is `Gaps` of it, the maximal runs of units that no live block occupies. */
module HeapBlocks {

  datatype Block = Block(at: nat, len: nat) {
    function End(): nat { at + len }
  }

  /** A live block: its length, who allocated it, the rounded request that was charged to
      that thread, and whether the thread was being traced when it allocated. */
  datatype Tenant = Tenant(len: nat, owner: nat, charged: nat, traced: bool)

  type LiveMap = map<nat, Tenant>

  // ---------------------------------------------------------------- interval lists

  /** Nonempty blocks in strictly increasing address order, no two of them touching. */
  ghost predicate Separated(f: seq<Block>) {
    && (forall i :: 0 <= i < |f| ==> f[i].len >= 1)
    && (forall i, j :: 0 <= i < j < |f| ==> f[i].End() < f[j].at)
  }

  ghost predicate Covered(f: seq<Block>, x: nat) {
    exists i :: 0 <= i < |f| && f[i].at <= x < f[i].End()
  }

  ghost predicate Within(f: seq<Block>, lo: nat, hi: nat) {
    forall i :: 0 <= i < |f| ==> lo <= f[i].at && f[i].End() <= hi
  }

  lemma CoveredTail(f: seq<Block>, x: nat)
    requires Separated(f) && f != []
    ensures Covered(f, x) <==> f[0].at <= x < f[0].End() || Covered(f[1..], x)
    ensures Covered(f[1..], x) ==> f[0].End() < x
  {
    if Covered(f, x) {
      var i :| 0 <= i < |f| && f[i].at <= x < f[i].End();
      if i > 0 { assert f[1..][i - 1] == f[i]; }
    }
    if Covered(f[1..], x) {
      var i :| 0 <= i < |f[1..]| && f[1..][i].at <= x < f[1..][i].End();
      assert f[i + 1] == f[1..][i];
    }
  }

  lemma CoveredFirst(f: seq<Block>, x: nat)
    requires Separated(f) && Covered(f, x)
    ensures f[0].at <= x
  {
    CoveredTail(f, x);
  }

  lemma EmptyCovers(f: seq<Block>, g: seq<Block>)
    requires Separated(f) && Separated(g)
    requires forall x: nat :: Covered(f, x) <==> Covered(g, x)
    ensures f == [] <==> g == []
  {
    assert f != [] ==> Covered(f, f[0].at);
    assert g != [] ==> Covered(g, g[0].at);
  }

  lemma CoveredConcat(f: seq<Block>, g: seq<Block>, x: nat)
    ensures Covered(f + g, x) <==> Covered(f, x) || Covered(g, x)
  {
    if Covered(f, x) {
      var i :| 0 <= i < |f| && f[i].at <= x < f[i].End();
      assert (f + g)[i] == f[i];
    }
    if Covered(g, x) {
      var i :| 0 <= i < |g| && g[i].at <= x < g[i].End();
      assert (f + g)[|f| + i] == g[i];
    }
  }

  lemma CoveredParts(f: seq<Block>, i: nat, j: nat, x: nat)
    requires i <= j <= |f|
    ensures Covered(f, x) <==> Covered(f[..i], x) || Covered(f[i..j], x) || Covered(f[j..], x)
  {
    assert f == f[..i] + f[i..j] + f[j..];
    CoveredConcat(f[..i] + f[i..j], f[j..], x);
    CoveredConcat(f[..i], f[i..j], x);
  }

  lemma CoveredOne(b: Block, x: nat)
    ensures Covered([b], x) <==> b.at <= x < b.End()
  {
    assert [b][0] == b;
  }

  lemma CoveredTwo(b: Block, c: Block, x: nat)
    ensures Covered([b, c], x) <==> b.at <= x < b.End() || c.at <= x < c.End()
  {
    CoveredConcat([b], [c], x);
    CoveredOne(b, x);
    CoveredOne(c, x);
    assert [b] + [c] == [b, c];
  }

  /** Gluing two separated lists with room between them. */
  lemma SeparatedConcat(f: seq<Block>, g: seq<Block>)
    requires Separated(f) && Separated(g)
    requires forall i, j :: 0 <= i < |f| && 0 <= j < |g| ==> f[i].End() < g[j].at
    ensures Separated(f + g)
  {
  }

  /** Two separated lists covering the same units start with the same block. */
  lemma SameHead(f: seq<Block>, g: seq<Block>)
    requires Separated(f) && Separated(g) && f != [] && g != []
    requires forall x: nat :: Covered(f, x) <==> Covered(g, x)
    ensures f[0] == g[0]
  {
    assert Covered(f, f[0].at) && Covered(g, g[0].at);
    CoveredFirst(f, g[0].at);
    CoveredFirst(g, f[0].at);
    CoveredTail(f, f[0].End());
    CoveredTail(g, g[0].End());
    CoveredTail(f, g[0].End());
    CoveredTail(g, f[0].End());
  }

  /** A separated list is determined by the set of units it covers. */
  lemma {:induction false} SeparatedUnique(f: seq<Block>, g: seq<Block>)
    requires Separated(f) && Separated(g)
    requires forall x: nat :: Covered(f, x) <==> Covered(g, x)
    ensures f == g
  {
    EmptyCovers(f, g);
    if f != [] {
      SameHead(f, g);
      forall x: nat ensures Covered(f[1..], x) <==> Covered(g[1..], x) {
        CoveredTail(f, x);
        CoveredTail(g, x);
      }
      SeparatedUnique(f[1..], g[1..]);
      assert f == [f[0]] + f[1..] && g == [g[0]] + g[1..];
    }
  }

  // ---------------------------------------------------------------- live blocks

  ghost predicate Placed(live: LiveMap, lo: nat, hi: nat) {
    && (forall a :: a in live ==> lo <= a && live[a].len >= 1 && a + live[a].len <= hi)
    && (forall a, b :: a in live && b in live && a < b ==> a + live[a].len <= b)
  }

  ghost predicate InLive(live: LiveMap, x: nat) {
    exists a :: a in live && a <= x < a + live[a].len
  }

  /** The maximal runs of units in [x, hi) that no live block occupies. */
  ghost function Gaps(live: LiveMap, x: nat, hi: nat): (f: seq<Block>)
    decreases hi - x
  {
    if x >= hi then []
    else if x in live && live[x].len >= 1 then Gaps(live, x + live[x].len, hi)
    else Prepend(x, Gaps(live, x + 1, hi))
  }

  /** One more free unit x in front of a list of gaps above it. */
  function Prepend(x: nat, rest: seq<Block>): (f: seq<Block>)
    ensures f != []
  {
    if rest != [] && rest[0].at == x + 1 then [Block(x, rest[0].len + 1)] + rest[1..]
    else [Block(x, 1)] + rest
  }

  /** x is not strictly inside a live block. */
  ghost predicate Boundary(live: LiveMap, x: nat) {
    forall a :: a in live && a < x ==> a + live[a].len <= x
  }

  lemma PrependSeparated(x: nat, rest: seq<Block>)
    requires Separated(rest) && (forall i :: 0 <= i < |rest| ==> x + 1 <= rest[i].at)
    ensures Separated(Prepend(x, rest))
    ensures Prepend(x, rest)[0].at == x
    ensures rest == [] ==> Prepend(x, rest)[0].End() == x + 1
  {
    if rest != [] && rest[0].at == x + 1 {
      SeparatedConcat([Block(x, rest[0].len + 1)], rest[1..]);
    } else {
      SeparatedConcat([Block(x, 1)], rest);
    }
  }

  lemma PrependWithin(x: nat, rest: seq<Block>, hi: nat)
    requires Within(rest, x + 1, hi) && x < hi
    ensures Within(Prepend(x, rest), x, hi)
  {
  }

  lemma PrependCovers(x: nat, rest: seq<Block>, y: nat)
    ensures Covered(Prepend(x, rest), y) <==> y == x || Covered(rest, y)
  {
    if rest != [] && rest[0].at == x + 1 {
      CoveredConcat([Block(x, rest[0].len + 1)], rest[1..], y);
      CoveredOne(Block(x, rest[0].len + 1), y);
      CoveredOne(rest[0], y);
      CoveredConcat([rest[0]], rest[1..], y);
      assert rest == [rest[0]] + rest[1..];
    } else {
      CoveredConcat([Block(x, 1)], rest, y);
      CoveredOne(Block(x, 1), y);
    }
  }

  /** What Gaps means: a separated list inside [x, hi) covering exactly the free units. */
  lemma {:induction false} GapsMeaning(live: LiveMap, lo: nat, x: nat, hi: nat)
    requires Placed(live, lo, hi) && lo <= x <= hi && Boundary(live, x)
    ensures Separated(Gaps(live, x, hi)) && Within(Gaps(live, x, hi), x, hi)
    ensures forall y: nat :: x <= y < hi ==> (Covered(Gaps(live, x, hi), y) <==> !InLive(live, y))
    decreases hi - x
  {
    if x >= hi {
    } else if x in live {
      GapsMeaning(live, lo, x + live[x].len, hi);
    } else {
      GapsMeaning(live, lo, x + 1, hi);
      var rest := Gaps(live, x + 1, hi);
      PrependSeparated(x, rest);
      PrependWithin(x, rest, hi);
      assert !InLive(live, x);
      forall y: nat | x <= y < hi
        ensures Covered(Prepend(x, rest), y) <==> !InLive(live, y)
      {
        PrependCovers(x, rest, y);
        assert !Covered(rest, x);
      }
    }
  }

  /** Any separated list in [lo, hi) covering exactly the free units is the gap list: the
      free list is a function of the live blocks, whatever the history. */
  lemma GapsUnique(live: LiveMap, lo: nat, hi: nat, f: seq<Block>)
    requires Placed(live, lo, hi) && lo <= hi
    requires Separated(f) && Within(f, lo, hi)
    requires forall y: nat :: lo <= y < hi ==> (Covered(f, y) <==> !InLive(live, y))
    ensures f == Gaps(live, lo, hi)
  {
    GapsMeaning(live, lo, lo, hi);
    SeparatedUnique(f, Gaps(live, lo, hi));
  }

  lemma {:induction false} GapsOfNothing(x: nat, hi: nat)
    requires x < hi
    ensures Gaps(map[], x, hi) == [Block(x, hi - x)]
    decreases hi - x
  {
    if x + 1 < hi {
      GapsOfNothing(x + 1, hi);
    }
  }

  // ---------------------------------------------------------------- taking and giving back

  predicate JoinsLeft(f: seq<Block>, k: nat, b: Block)
    requires k <= |f|
  {
    k > 0 && f[k - 1].End() == b.at
  }

  predicate JoinsRight(f: seq<Block>, k: nat, b: Block)
    requires k <= |f|
  {
    k < |f| && b.End() == f[k].at
  }

  function Left(f: seq<Block>, k: nat, b: Block): (i: nat)
    requires k <= |f|
    ensures i <= k
  {
    if JoinsLeft(f, k, b) then k - 1 else k
  }

  function Right(f: seq<Block>, k: nat, b: Block): (i: nat)
    requires k <= |f|
    ensures k <= i <= |f|
  {
    if JoinsRight(f, k, b) then k + 1 else k
  }

  /** b together with its left neighbour, if it touches that. */
  function LeftJoined(f: seq<Block>, k: nat, b: Block): Block
    requires k <= |f|
  {
    if JoinsLeft(f, k, b) then Block(f[k - 1].at, f[k - 1].len + b.len) else b
  }

  /** b together with the neighbours that it touches. */
  function Joined(f: seq<Block>, k: nat, b: Block): Block
    requires k <= |f|
  {
    Block(if JoinsLeft(f, k, b) then f[k - 1].at else b.at,
          (if JoinsLeft(f, k, b) then f[k - 1].len else 0) + b.len + (if JoinsRight(f, k, b) then f[k].len else 0))
  }

  /** List f with block b put between its first k blocks and the rest, merged with each
      neighbour that it touches. */
  function Splice(f: seq<Block>, k: nat, b: Block): seq<Block>
    requires k <= |f|
  {
    f[..Left(f, k, b)] + [Joined(f, k, b)] + f[Right(f, k, b)..]
  }

  /** b lies in the hole between blocks k - 1 and k of f. */
  ghost predicate FitsAt(f: seq<Block>, k: nat, b: Block) {
    && k <= |f| && b.len >= 1
    && (forall i :: 0 <= i < k ==> f[i].End() <= b.at)
    && (forall i :: k <= i < |f| ==> b.End() <= f[i].at)
  }

  lemma SeparatedSlice(f: seq<Block>, i: nat, j: nat)
    requires Separated(f) && i <= j <= |f|
    ensures Separated(f[i..j])
  {
  }

  /** The joined block lies strictly between the blocks that are kept on its two sides. */
  lemma JoinedBetween(f: seq<Block>, k: nat, b: Block)
    requires Separated(f) && FitsAt(f, k, b)
    ensures Joined(f, k, b).len >= 1
    ensures forall i :: 0 <= i < Left(f, k, b) ==> f[i].End() < Joined(f, k, b).at
    ensures forall i :: Right(f, k, b) <= i < |f| ==> Joined(f, k, b).End() < f[i].at
  {
  }

  lemma SpliceSeparated(f: seq<Block>, k: nat, b: Block)
    requires Separated(f) && FitsAt(f, k, b)
    ensures Separated(Splice(f, k, b))
  {
    var left, right, one := Left(f, k, b), Right(f, k, b), [Joined(f, k, b)];
    SeparatedSlice(f, 0, left);
    SeparatedSlice(f, right, |f|);
    JoinedBetween(f, k, b);
    SeparatedConcat(f[..left], one);
    SeparatedGlue(f, left, right, one[0]);
  }

  lemma SeparatedGlue(f: seq<Block>, left: nat, right: nat, b: Block)
    requires left <= right <= |f| && Separated(f) && Separated(f[..left] + [b]) && Separated(f[right..])
    requires forall i :: right <= i < |f| ==> b.End() < f[i].at
    ensures Separated(f[..left] + [b] + f[right..])
  {
    SeparatedConcat(f[..left] + [b], f[right..]);
  }

  lemma SpliceCovers(f: seq<Block>, k: nat, b: Block, x: nat)
    requires FitsAt(f, k, b)
    ensures Covered(Splice(f, k, b), x) <==> Covered(f, x) || b.at <= x < b.End()
  {
    var left, right := Left(f, k, b), Right(f, k, b);
    CoveredParts(f, left, right, x);
    CoveredConcat(f[..left] + [Joined(f, k, b)], f[right..], x);
    CoveredConcat(f[..left], [Joined(f, k, b)], x);
    CoveredOne(Joined(f, k, b), x);
    JoinedCovers(f, k, b, x);
  }

  lemma JoinedCovers(f: seq<Block>, k: nat, b: Block, x: nat)
    requires FitsAt(f, k, b)
    ensures Joined(f, k, b).at <= x < Joined(f, k, b).End()
            <==> Covered(f[Left(f, k, b)..Right(f, k, b)], x) || b.at <= x < b.End()
  {
    if JoinsLeft(f, k, b) {
      CoveredOne(f[k - 1], x);
      if JoinsRight(f, k, b) {
        CoveredTwo(f[k - 1], f[k], x);
        assert f[k - 1..k + 1] == [f[k - 1], f[k]];
      } else {
        assert f[k - 1..k] == [f[k - 1]];
      }
    } else if JoinsRight(f, k, b) {
      CoveredOne(f[k], x);
      assert f[k..k + 1] == [f[k]];
    }
  }

  lemma WithinConcat(f: seq<Block>, g: seq<Block>, lo: nat, hi: nat)
    requires Within(f, lo, hi) && Within(g, lo, hi)
    ensures Within(f + g, lo, hi)
  {
  }

  lemma WithinSlice(f: seq<Block>, i: nat, j: nat, lo: nat, hi: nat)
    requires Within(f, lo, hi) && i <= j <= |f|
    ensures Within(f[i..j], lo, hi)
  {
  }

  lemma SpliceWithin(f: seq<Block>, k: nat, b: Block, lo: nat, hi: nat)
    requires Within(f, lo, hi) && k <= |f| && lo <= b.at && b.End() <= hi
    ensures Within(Splice(f, k, b), lo, hi)
  {
    var left, right, one := Left(f, k, b), Right(f, k, b), [Joined(f, k, b)];
    WithinSlice(f, 0, left, lo, hi);
    WithinSlice(f, right, |f|, lo, hi);
    assert lo <= one[0].at && one[0].End() <= hi;
    WithinConcat(f[..left], one, lo, hi);
    WithinConcat(f[..left] + one, f[right..], lo, hi);
  }

  lemma StillLive(live: LiveMap, lo: nat, hi: nat, a: nat, y: nat)
    requires Placed(live, lo, hi) && a in live
    ensures InLive(live - {a}, y) <==> InLive(live, y) && !(a <= y < a + live[a].len)
  {
    if InLive(live, y) {
      var c :| c in live && c <= y < c + live[c].len;
      if c != a { assert c in live - {a}; }
    }
    if InLive(live - {a}, y) {
      var c :| c in live - {a} && c <= y < c + live[c].len;
      assert c in live;
    }
  }

  /** Giving a live block back turns the gap list into its splice with that block. */
  lemma GapsAfterFree(live: LiveMap, lo: nat, hi: nat, a: nat, k: nat)
    requires Placed(live, lo, hi) && lo <= hi && a in live
    requires FitsAt(Gaps(live, lo, hi), k, Block(a, live[a].len))
    ensures Splice(Gaps(live, lo, hi), k, Block(a, live[a].len)) == Gaps(live - {a}, lo, hi)
  {
    var f, b, live' := Gaps(live, lo, hi), Block(a, live[a].len), live - {a};
    GapsMeaning(live, lo, lo, hi);
    SpliceSeparated(f, k, b);
    SpliceWithin(f, k, b, lo, hi);
    forall y: nat | lo <= y < hi
      ensures Covered(Splice(f, k, b), y) <==> !InLive(live', y)
    {
      SpliceCovers(f, k, b, y);
      StillLive(live, lo, hi, a, y);
    }
    GapsUnique(live', lo, hi, Splice(f, k, b));
  }

  /** What is left of the list when the first `len` units of block k are taken. */
  function Carve(f: seq<Block>, k: nat, len: nat): seq<Block>
    requires k < |f| && len <= f[k].len
  {
    if len == f[k].len then f[..k] + f[k + 1..]
    else f[k := Block(f[k].at + len, f[k].len - len)]
  }

  lemma CarveSeparated(f: seq<Block>, k: nat, len: nat)
    requires Separated(f) && k < |f| && 1 <= len <= f[k].len
    ensures Separated(Carve(f, k, len))
  {
  }

  lemma CarveCovers(f: seq<Block>, k: nat, len: nat, x: nat)
    requires Separated(f) && k < |f| && 1 <= len <= f[k].len
    ensures Covered(Carve(f, k, len), x) <==> Covered(f, x) && !(f[k].at <= x < f[k].at + len)
  {
    CoveredParts(f, k, k + 1, x);
    assert f[k..k + 1] == [f[k]];
    CoveredOne(f[k], x);
    if len == f[k].len {
      CoveredConcat(f[..k], f[k + 1..], x);
    } else {
      var rest := Block(f[k].at + len, f[k].len - len);
      assert Carve(f, k, len) == f[..k] + [rest] + f[k + 1..];
      CoveredConcat(f[..k] + [rest], f[k + 1..], x);
      CoveredConcat(f[..k], [rest], x);
      CoveredOne(rest, x);
    }
  }

  /** A block taken from the front of a gap is in range and disjoint from every live block. */
  lemma TakePlaced(live: LiveMap, lo: nat, hi: nat, k: nat, t: Tenant)
    requires Placed(live, lo, hi) && lo <= hi && k < |Gaps(live, lo, hi)|
    requires 1 <= t.len <= Gaps(live, lo, hi)[k].len
    ensures Gaps(live, lo, hi)[k].at !in live
    ensures Placed(live[Gaps(live, lo, hi)[k].at := t], lo, hi)
  {
    GapsMeaning(live, lo, lo, hi);
    var b := Gaps(live, lo, hi)[k];
    forall c | c in live ensures c + live[c].len <= b.at || b.End() <= c {
      if b.at <= c < b.End() {
        assert Covered(Gaps(live, lo, hi), c);
        assert InLive(live, c);
      } else if c < b.at < c + live[c].len {
        assert Covered(Gaps(live, lo, hi), b.at);
        assert InLive(live, b.at);
      }
    }
  }

  lemma TakenUnit(live: LiveMap, a: nat, t: Tenant, y: nat)
    requires a !in live
    ensures InLive(live[a := t], y) <==> InLive(live, y) || a <= y < a + t.len
  {
    var live' := live[a := t];
    if InLive(live, y) {
      var c :| c in live && c <= y < c + live[c].len;
      assert c in live' && live'[c] == live[c];
    }
    if InLive(live', y) {
      var c :| c in live' && c <= y < c + live'[c].len;
      if c != a { assert c in live; }
    }
    if a <= y < a + t.len { assert a in live'; }
  }

  /** Allocating from the front of gap k carves that gap and touches no other. */
  lemma GapsAfterTake(live: LiveMap, lo: nat, hi: nat, k: nat, t: Tenant)
    requires Placed(live, lo, hi) && lo <= hi && k < |Gaps(live, lo, hi)|
    requires 1 <= t.len <= Gaps(live, lo, hi)[k].len
    ensures Carve(Gaps(live, lo, hi), k, t.len) == Gaps(live[Gaps(live, lo, hi)[k].at := t], lo, hi)
  {
    var f := Gaps(live, lo, hi);
    var a := f[k].at;
    var live' := live[a := t];
    GapsMeaning(live, lo, lo, hi);
    TakePlaced(live, lo, hi, k, t);
    CarveSeparated(f, k, t.len);
    forall y: nat | lo <= y < hi
      ensures Covered(Carve(f, k, t.len), y) <==> !InLive(live', y)
    {
      CarveCovers(f, k, t.len, y);
      TakenUnit(live, a, t, y);
    }
    GapsUnique(live', lo, hi, Carve(f, k, t.len));
  }

  // ---------------------------------------------------------------- sizes

  function SumLen(f: seq<Block>): nat {
    if f == [] then 0 else f[0].len + SumLen(f[1..])
  }

  lemma {:induction false} SumLenConcat(f: seq<Block>, g: seq<Block>)
    ensures SumLen(f + g) == SumLen(f) + SumLen(g)
  {
    if f == [] {
      assert f + g == g;
    } else {
      assert (f + g)[1..] == f[1..] + g;
      SumLenConcat(f[1..], g);
    }
  }

  lemma SumLenSplit(f: seq<Block>, k: nat)
    requires k < |f|
    ensures SumLen(f) == SumLen(f[..k]) + f[k].len + SumLen(f[k + 1..])
  {
    assert f == f[..k] + f[k..];
    SumLenConcat(f[..k], f[k..]);
    assert f[k..][0] == f[k] && f[k..][1..] == f[k + 1..];
  }

  lemma SumLenCarve(f: seq<Block>, k: nat, len: nat)
    requires k < |f| && len <= f[k].len
    ensures SumLen(Carve(f, k, len)) == SumLen(f) - len
  {
    SumLenSplit(f, k);
    if len == f[k].len {
      SumLenConcat(f[..k], f[k + 1..]);
    } else {
      var g := Carve(f, k, len);
      SumLenSplit(g, k);
      assert g[..k] == f[..k] && g[k + 1..] == f[k + 1..];
    }
  }

  lemma SumLenParts(f: seq<Block>, i: nat, j: nat)
    requires i <= j <= |f|
    ensures SumLen(f) == SumLen(f[..i]) + SumLen(f[i..j]) + SumLen(f[j..])
  {
    assert f == f[..i] + f[i..j] + f[j..];
    SumLenConcat(f[..i] + f[i..j], f[j..]);
    SumLenConcat(f[..i], f[i..j]);
  }

  lemma JoinedLen(f: seq<Block>, k: nat, b: Block)
    requires k <= |f|
    ensures Joined(f, k, b).len == SumLen(f[Left(f, k, b)..Right(f, k, b)]) + b.len
  {
    var mid := f[Left(f, k, b)..Right(f, k, b)];
    if JoinsLeft(f, k, b) {
      if JoinsRight(f, k, b) {
        assert mid == [f[k - 1]] + [f[k]];
        SumLenConcat([f[k - 1]], [f[k]]);
      } else {
        assert mid == [f[k - 1]];
      }
    } else if JoinsRight(f, k, b) {
      assert mid == [f[k]];
    }
  }

  lemma SumLenSplice(f: seq<Block>, k: nat, b: Block)
    requires k <= |f|
    ensures SumLen(Splice(f, k, b)) == SumLen(f) + b.len
  {
    var left, right, one := Left(f, k, b), Right(f, k, b), [Joined(f, k, b)];
    SumLenParts(f, left, right);
    SumLenConcat(f[..left] + one, f[right..]);
    SumLenConcat(f[..left], one);
    JoinedLen(f, k, b);
  }

  /** Some block of the list has at least n units. */
  ghost predicate HasRoom(f: seq<Block>, n: nat) {
    exists i :: 0 <= i < |f| && f[i].len >= n
  }

  lemma RoomNeedsTotal(f: seq<Block>, n: nat)
    requires HasRoom(f, n)
    ensures n <= SumLen(f)
  {
    var i :| 0 <= i < |f| && f[i].len >= n;
    SumLenSplit(f, i);
  }

  lemma SplitGapFits(f: seq<Block>, k: nat, b: Block)
    requires Separated(f) && k < |f| && f[k].at <= b.at && b.len >= 1 && b.End() == f[k].End()
    ensures var g := f[..k] + f[k + 1..];
            FitsAt(g, k, b) && !JoinsRight(g, k, b) && (f[k].at < b.at ==> !JoinsLeft(g, k, b))
  {
    var g := f[..k] + f[k + 1..];
    assert forall i :: 0 <= i < k ==> g[i] == f[i];
    assert forall i :: k <= i < |g| ==> g[i] == f[i + 1];
  }

  /** Splitting a gap: what is put back after its first `len` units touches no other gap. */
  lemma SplitGap(f: seq<Block>, k: nat, len: nat)
    requires Separated(f) && k < |f| && 1 <= len < f[k].len
    ensures var g, b := f[..k] + f[k + 1..], Block(f[k].at + len, f[k].len - len);
            FitsAt(g, k, b) && Splice(g, k, b) == Carve(f, k, len)
  {
    var g, b := f[..k] + f[k + 1..], Block(f[k].at + len, f[k].len - len);
    SplitGapFits(f, k, b);
    SpliceAlone(g, k, b);
    Replacement(f, k, b);
  }

  lemma Replacement(f: seq<Block>, k: nat, b: Block)
    requires k < |f|
    ensures var g := f[..k] + f[k + 1..]; g[..k] + [b] + g[k..] == f[k := b]
  {
  }

  lemma SpliceAlone(g: seq<Block>, k: nat, b: Block)
    requires k <= |g| && !JoinsLeft(g, k, b) && !JoinsRight(g, k, b)
    ensures Splice(g, k, b) == g[..k] + [b] + g[k..]
  {
    assert Joined(g, k, b) == b;
  }

  /** No gap covers a unit of a live block, and no gap reaches beyond the heap. */
  lemma GapApart(live: LiveMap, lo: nat, hi: nat, i: nat, x: nat)
    requires Placed(live, lo, hi) && lo <= hi && i < |Gaps(live, lo, hi)|
    requires Gaps(live, lo, hi)[i].at <= x < Gaps(live, lo, hi)[i].End()
    ensures !InLive(live, x) && lo <= x < hi
  {
    GapsMeaning(live, lo, lo, hi);
    assert Covered(Gaps(live, lo, hi), x);
  }

  /** How many blocks of f lie before position x. */
  ghost function Rank(f: seq<Block>, x: nat): (k: nat)
    requires Separated(f)
    ensures k <= |f|
    ensures forall i :: 0 <= i < k ==> f[i].at < x
    ensures forall i :: k <= i < |f| ==> x <= f[i].at
  {
    if f == [] || x <= f[0].at then 0
    else
      var k := Rank(f[1..], x);
      assert forall i :: 1 <= i < |f| ==> f[i] == f[1..][i - 1];
      k + 1
  }

  /** A live block fits in the free list at its rank. */
  lemma LiveFits(live: LiveMap, lo: nat, hi: nat, a: nat)
    requires Placed(live, lo, hi) && lo <= hi && a in live && Separated(Gaps(live, lo, hi))
    ensures FitsAt(Gaps(live, lo, hi), Rank(Gaps(live, lo, hi), a), Block(a, live[a].len))
  {
    var f := Gaps(live, lo, hi);
    var k := Rank(f, a);
    forall i | 0 <= i < |f|
      ensures f[i].at != a && (f[i].at < a ==> f[i].End() <= a) && (a < f[i].at ==> a + live[a].len <= f[i].at)
    {
      if f[i].at <= a < f[i].End() {
        GapApart(live, lo, hi, i, a);
        assert InLive(live, a);
      }
      if a <= f[i].at < a + live[a].len {
        GapApart(live, lo, hi, i, f[i].at);
        assert InLive(live, f[i].at);
      }
    }
  }

  /** Two sets of live blocks with the same places and lengths, whoever owns them. */
  ghost predicate SameShape(live: LiveMap, live': LiveMap) {
    live.Keys == live'.Keys && forall a :: a in live ==> live[a].len == live'[a].len
  }

  lemma {:induction false} SameShapeGaps(live: LiveMap, live': LiveMap, x: nat, hi: nat)
    requires SameShape(live, live')
    ensures Gaps(live, x, hi) == Gaps(live', x, hi)
    decreases hi - x
  {
    if x < hi {
      if x in live && live[x].len >= 1 {
        SameShapeGaps(live, live', x + live[x].len, hi);
      } else {
        SameShapeGaps(live, live', x + 1, hi);
      }
    }
  }
}
