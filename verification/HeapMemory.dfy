/** The bytes under the heap: memory is an array of 8-byte cells, and a block header is just
    the first cell of the block, two little-endian 32-bit words (next pointer, size). User
    data lives in the same cells, so every header write and every memset is visible to both. */
module HeapMemory {
  import opened HeapBlocks

  /** portBYTE_ALIGNMENT, and xHeapStructSize (two words, already aligned). */
  const UNIT := 8
  /** The top bit of a 32-bit size_t, set in the size word of an allocated block. */
  const TOP_BIT := 0x8000_0000

  type Word = w: nat | w < 0x1_0000_0000

  datatype Cell = Cell(next: Word, size: Word)

  // ---------------------------------------------------------------- bytes

  function Pow256(k: nat): nat
    requires k <= 4
  {
    if k == 0 then 1 else if k == 1 then 0x100 else if k == 2 then 0x1_0000
    else if k == 3 then 0x100_0000 else 0x1_0000_0000
  }

  function ByteOfWord(w: Word, i: nat): nat
    requires i < 4
  {
    (w / Pow256(i)) % 256
  }

  function ByteOfCell(c: Cell, i: nat): nat
    requires i < 8
  {
    if i < 4 then ByteOfWord(c.next, i) else ByteOfWord(c.size, i - 4)
  }

  /** The byte at address a. */
  function ByteAt(m: seq<Cell>, a: nat): nat
    requires a < UNIT * |m|
  {
    ByteOfCell(m[a / UNIT], a % UNIT)
  }

  /** w with its k lowest-addressed bytes cleared. */
  function WipeWord(w: Word, k: nat): Word
    requires k <= 4
  {
    w - w % Pow256(k)
  }

  function WipeCell(c: Cell, k: nat): Cell
    requires k <= 8
  {
    if k <= 4 then Cell(WipeWord(c.next, k), c.size) else Cell(0, WipeWord(c.size, k - 4))
  }

  lemma DigitsOfWord(w: Word) returns (b0: nat, b1: nat, b2: nat, b3: nat)
    ensures b0 < 256 && b1 < 256 && b2 < 256 && b3 < 256
    ensures w == b0 + 0x100 * b1 + 0x1_0000 * b2 + 0x100_0000 * b3
  {
    b0, b1, b2, b3 := w % 256, w / 256 % 256, w / 256 / 256 % 256, w / 256 / 256 / 256;
  }

  lemma ByteOfDigits(b0: nat, b1: nat, b2: nat, b3: nat)
    requires b0 < 256 && b1 < 256 && b2 < 256 && b3 < 256
    ensures var w := b0 + 0x100 * b1 + 0x1_0000 * b2 + 0x100_0000 * b3;
            ByteOfWord(w, 0) == b0 && ByteOfWord(w, 1) == b1 && ByteOfWord(w, 2) == b2 && ByteOfWord(w, 3) == b3
  {
    var w := b0 + 0x100 * b1 + 0x1_0000 * b2 + 0x100_0000 * b3;
    assert w / 0x100 == b1 + 0x100 * b2 + 0x1_0000 * b3;
    assert w / 0x1_0000 == b2 + 0x100 * b3;
    assert w / 0x100_0000 == b3;
  }

  /** The eight bytes of a cell, in address order, are its two words, each lowest byte first. */
  lemma CellOfBytes(c: Cell)
    ensures forall i: nat :: i < 8 ==> ByteOfCell(c, i) < 256
    ensures c.next == ByteOfCell(c, 0) + 0x100 * ByteOfCell(c, 1) + 0x1_0000 * ByteOfCell(c, 2) + 0x100_0000 * ByteOfCell(c, 3)
    ensures c.size == ByteOfCell(c, 4) + 0x100 * ByteOfCell(c, 5) + 0x1_0000 * ByteOfCell(c, 6) + 0x100_0000 * ByteOfCell(c, 7)
  {
    var a0, a1, a2, a3 := DigitsOfWord(c.next);
    var b0, b1, b2, b3 := DigitsOfWord(c.size);
    ByteOfDigits(a0, a1, a2, a3);
    ByteOfDigits(b0, b1, b2, b3);
  }

  lemma WipeWordBytes(w: Word, k: nat, i: nat)
    requires k <= 4 && i < 4
    ensures ByteOfWord(WipeWord(w, k), i) == if i < k then 0 else ByteOfWord(w, i)
  {
    var b0, b1, b2, b3 := DigitsOfWord(w);
    ByteOfDigits(b0, b1, b2, b3);
    ByteOfDigits(if k > 0 then 0 else b0, if k > 1 then 0 else b1, if k > 2 then 0 else b2, if k > 3 then 0 else b3);
    LowDigits(b0, b1, b2, b3);
  }

  lemma LowDigits(b0: nat, b1: nat, b2: nat, b3: nat)
    requires b0 < 256 && b1 < 256 && b2 < 256 && b3 < 256
    ensures var w := b0 + 0x100 * b1 + 0x1_0000 * b2 + 0x100_0000 * b3;
            && w % 0x100 == b0 && w % 0x1_0000 == b0 + 0x100 * b1
            && w % 0x100_0000 == b0 + 0x100 * b1 + 0x1_0000 * b2 && w % 0x1_0000_0000 == w
  {
  }

  lemma WipeCellBytes(c: Cell, k: nat, i: nat)
    requires k <= 8 && i < 8
    ensures ByteOfCell(WipeCell(c, k), i) == if i < k then 0 else ByteOfCell(c, i)
  {
    if k <= 4 {
      if i < 4 { WipeWordBytes(c.next, k, i); }
    } else if i >= 4 {
      WipeWordBytes(c.size, k - 4, i - 4);
    } else {
      WipeWordBytes(c.next, 4, i);
    }
  }

  /** Memory m after memset(8 * u, 0, n). */
  function Wiped(m: seq<Cell>, u: nat, n: nat): (r: seq<Cell>)
    ensures |r| == |m|
  {
    seq(|m|, i requires 0 <= i < |m| => WipedCell(m[i], i, u, n))
  }

  function WipedCell(c: Cell, i: nat, u: nat, n: nat): Cell {
    if u <= i < u + n / UNIT then Cell(0, 0)
    else if i == u + n / UNIT then WipeCell(c, n % UNIT)
    else c
  }

  /** memset clears exactly the bytes it is asked to clear. */
  lemma WipedBytes(m: seq<Cell>, u: nat, n: nat, a: nat)
    requires a < UNIT * |m|
    ensures ByteAt(Wiped(m, u, n), a) == if UNIT * u <= a < UNIT * u + n then 0 else ByteAt(m, a)
  {
    var i := a / UNIT;
    assert Wiped(m, u, n)[i] == WipedCell(m[i], i, u, n);
    if i == u + n / UNIT {
      WipeCellBytes(m[i], n % UNIT, a % UNIT);
    } else if u <= i < u + n / UNIT {
      WipeCellBytes(m[i], 8, a % UNIT);
    }
  }

  // ---------------------------------------------------------------- the list in memory

  /** The unit of the k-th node of the free list, the end marker after the last block. */
  function NodeAt(f: seq<Block>, k: nat, hi: nat): nat {
    if k < |f| then f[k].at else hi
  }

  /** The unit of the node before the k-th one, the start marker before the first block. */
  function PrevAt(f: seq<Block>, k: nat, start: nat): nat
    requires k <= |f|
  {
    if k == 0 then start else f[k - 1].at
  }

  /** The singly linked list from the start marker threads exactly the blocks of f, in
      order, and ends at the end marker. */
  ghost predicate Linked(m: seq<Cell>, start: nat, hi: nat, f: seq<Block>) {
    && start < |m| && hi < |m|
    && m[start].next == UNIT * NodeAt(f, 0, hi) && m[start].size == 0
    && (forall k :: 0 <= k < |f| ==> NodeOk(m, f, k, hi))
    && m[hi] == Cell(0, 0)
  }

  ghost predicate NodeOk(m: seq<Cell>, f: seq<Block>, k: nat, hi: nat)
    requires k < |f|
  {
    f[k].at < |m| && m[f[k].at].next == UNIT * NodeAt(f, k + 1, hi) && m[f[k].at].size == UNIT * f[k].len
  }

  /** Every live block carries the allocated bit, its size and a null next pointer. */
  ghost predicate Allocated(m: seq<Cell>, live: LiveMap) {
    forall a :: a in live ==> a < |m| && m[a].next == 0 && m[a].size == TOP_BIT + UNIT * live[a].len
  }

  /** Two memories that agree everywhere except on the units satisfying `touched`. */
  ghost predicate AgreeOff(m: seq<Cell>, m': seq<Cell>, touched: set<nat>) {
    |m| == |m'| && forall u: nat :: u < |m| && u !in touched ==> m'[u] == m[u]
  }

  lemma AgreeTwice(m: seq<Cell>, m1: seq<Cell>, m2: seq<Cell>, p: nat, x: nat, y: nat)
    requires AgreeOff(m, m1, {x, y}) && AgreeOff(m1, m2, {p, y})
    ensures AgreeOff(m, m2, {p, x, y})
  {
  }

  /** The list head lies outside block b. */
  ghost predicate Clear(start: nat, b: Block) {
    start < b.at || b.End() <= start
  }

  /** The list and its markers occupy distinct units. */
  ghost predicate Distinct(start: nat, hi: nat, f: seq<Block>) {
    && Separated(f)
    && start != hi
    && (forall i :: 0 <= i < |f| ==> Clear(start, f[i]) && f[i].End() <= hi)
  }

  /** Distinct nodes sit at distinct units, away from both markers. */
  lemma NodesApart(start: nat, hi: nat, f: seq<Block>, i: nat, k: nat)
    requires Distinct(start, hi, f) && i < |f| && k <= |f|
    ensures f[i].at < hi && f[i].at != start
    ensures i + 1 != k ==> f[i].at != PrevAt(f, k, start)
  {
    if i + 1 < k { assert f[i].End() < f[k - 1].at; }
    if k >= 1 && k - 1 < i { assert f[k - 1].End() < f[i].at; }
  }

  /** Unlinking node k. */
  lemma UnlinkNode(m: seq<Cell>, m': seq<Cell>, start: nat, hi: nat, f: seq<Block>, k: nat)
    requires Linked(m, start, hi, f) && Distinct(start, hi, f) && k < |f|
    requires AgreeOff(m, m', {PrevAt(f, k, start)})
    requires var p := PrevAt(f, k, start);
             p < |m| && m'[p].next == m[f[k].at].next && m'[p].size == m[p].size
    ensures Linked(m', start, hi, f[..k] + f[k + 1..])
  {
    var g := f[..k] + f[k + 1..];
    assert NodeOk(m, f, k, hi);
    forall j | 0 <= j < |g| ensures NodeOk(m', g, j, hi) {
      UnlinkedNode(m, m', start, hi, f, k, j);
    }
  }

  lemma UnlinkedNode(m: seq<Cell>, m': seq<Cell>, start: nat, hi: nat, f: seq<Block>, k: nat, j: nat)
    requires Linked(m, start, hi, f) && Distinct(start, hi, f) && k < |f| && j + 1 < |f|
    requires AgreeOff(m, m', {PrevAt(f, k, start)})
    requires var p := PrevAt(f, k, start);
             p < |m| && m'[p].next == m[f[k].at].next && m'[p].size == m[p].size
    ensures NodeOk(m', f[..k] + f[k + 1..], j, hi)
  {
    var i := if j < k then j else j + 1;
    assert NodeOk(m, f, i, hi) && NodeOk(m, f, k, hi);
    NodesApart(start, hi, f, i, k);
    RemovedNode(f, k, j, hi);
  }

  lemma RemovedNode(f: seq<Block>, k: nat, j: nat, hi: nat)
    requires k < |f| && j + 1 < |f|
    ensures var g, i := f[..k] + f[k + 1..], if j < k then j else j + 1;
            g[j] == f[i] && NodeAt(g, j + 1, hi) == if j + 1 == k then NodeAt(f, k + 1, hi) else NodeAt(f, i + 1, hi)
  {
  }

  lemma UnlinkDistinct(start: nat, hi: nat, f: seq<Block>, k: nat)
    requires Distinct(start, hi, f) && k < |f|
    ensures Distinct(start, hi, f[..k] + f[k + 1..])
  {
  }

  /** The memory after the writes that splice b in: only the header of the joined block and,
      when b is not joined to its left neighbour, the next pointer before it have changed. */
  ghost predicate SpliceWritten(m: seq<Cell>, m': seq<Cell>, start: nat, hi: nat, f: seq<Block>, k: nat, b: Block)
    requires Linked(m, start, hi, f) && k <= |f| && b.at < |m|
  {
    var p, c := PrevAt(f, k, start), Joined(f, k, b).at;
    && p < |m| && c < |m|
    && AgreeOff(m, m', {p, b.at})
    && m'[c].next == UNIT * NodeAt(f, Right(f, k, b), hi) && m'[c].size == UNIT * Joined(f, k, b).len
    && (!JoinsLeft(f, k, b) ==> m'[p].next == UNIT * b.at && m'[p].size == m[p].size)
  }

  /** Writing those two headers splices b into the list. */
  lemma LinkSplice(m: seq<Cell>, m': seq<Cell>, start: nat, hi: nat, f: seq<Block>, k: nat, b: Block)
    requires Linked(m, start, hi, f) && Distinct(start, hi, f) && FitsAt(f, k, b)
    requires b.at < |m| && b.End() <= hi && Clear(start, b)
    requires SpliceWritten(m, m', start, hi, f, k, b)
    ensures Linked(m', start, hi, Splice(f, k, b))
  {
    var g := Splice(f, k, b);
    forall j | 0 <= j < |g| ensures NodeOk(m', g, j, hi) {
      SplicedNode(m, m', start, hi, f, k, b, j);
    }
    if k > 0 { NodesApart(start, hi, f, k - 1, 0); }
  }

  /** Where the nodes of a spliced list come from. */
  lemma SpliceNodes(f: seq<Block>, k: nat, b: Block, j: nat, hi: nat)
    requires k <= |f| && j <= |Splice(f, k, b)|
    ensures |Splice(f, k, b)| == Left(f, k, b) + 1 + |f| - Right(f, k, b)
    ensures Left(f, k, b) < j < |Splice(f, k, b)| ==>
              Splice(f, k, b)[j] == f[Right(f, k, b) + (j - Left(f, k, b) - 1)]
    ensures var left, right := Left(f, k, b), Right(f, k, b);
            NodeAt(Splice(f, k, b), j, hi)
            == if j < left then f[j].at else if j == left then Joined(f, k, b).at else NodeAt(f, right + (j - left - 1), hi)
  {
    var left, right := Left(f, k, b), Right(f, k, b);
    if left < j < |Splice(f, k, b)| {
      assert Splice(f, k, b)[j] == f[right..][j - left - 1];
    }
  }

  lemma SplicedNode(m: seq<Cell>, m': seq<Cell>, start: nat, hi: nat, f: seq<Block>, k: nat, b: Block, j: nat)
    requires Linked(m, start, hi, f) && Distinct(start, hi, f) && FitsAt(f, k, b)
    requires b.at < |m| && b.End() <= hi && Clear(start, b) && j < |Splice(f, k, b)|
    requires SpliceWritten(m, m', start, hi, f, k, b)
    ensures NodeOk(m', Splice(f, k, b), j, hi)
  {
    var left := Left(f, k, b);
    SpliceNodes(f, k, b, j, hi);
    if j < left {
      SpliceNodes(f, k, b, j + 1, hi);
      SplicedBefore(m, m', start, hi, f, k, b, j);
    } else if j == left {
      SplicedHere(m, m', start, hi, f, k, b);
    } else {
      SplicedLater(m, m', start, hi, f, k, b, j);
    }
  }

  lemma SplicedHere(m: seq<Cell>, m': seq<Cell>, start: nat, hi: nat, f: seq<Block>, k: nat, b: Block)
    requires Linked(m, start, hi, f) && k <= |f| && b.at < |m| && SpliceWritten(m, m', start, hi, f, k, b)
    ensures NodeOk(m', Splice(f, k, b), Left(f, k, b), hi)
  {
    SpliceNodes(f, k, b, Left(f, k, b), hi);
    SpliceNodes(f, k, b, Left(f, k, b) + 1, hi);
  }

  lemma SplicedLater(m: seq<Cell>, m': seq<Cell>, start: nat, hi: nat, f: seq<Block>, k: nat, b: Block, j: nat)
    requires Linked(m, start, hi, f) && Distinct(start, hi, f) && FitsAt(f, k, b)
    requires b.at < |m| && Left(f, k, b) < j < |Splice(f, k, b)| && SpliceWritten(m, m', start, hi, f, k, b)
    ensures NodeOk(m', Splice(f, k, b), j, hi)
  {
    var i := Right(f, k, b) + (j - Left(f, k, b) - 1);
    LaterNode(f, k, b, j, hi);
    SplicedAfter(m, m', start, hi, f, k, b, i);
    SameNode(m', f, i, Splice(f, k, b), j, hi);
  }

  lemma LaterNode(f: seq<Block>, k: nat, b: Block, j: nat, hi: nat)
    requires k <= |f| && Left(f, k, b) < j < |Splice(f, k, b)|
    ensures var i := Right(f, k, b) + (j - Left(f, k, b) - 1);
            i < |f| && Splice(f, k, b)[j] == f[i] && NodeAt(Splice(f, k, b), j + 1, hi) == NodeAt(f, i + 1, hi)
  {
    SpliceNodes(f, k, b, j, hi);
    SpliceNodes(f, k, b, j + 1, hi);
  }

  lemma SameNode(m: seq<Cell>, f: seq<Block>, i: nat, g: seq<Block>, j: nat, hi: nat)
    requires i < |f| && j < |g| && g[j] == f[i] && NodeAt(g, j + 1, hi) == NodeAt(f, i + 1, hi) && NodeOk(m, f, i, hi)
    ensures NodeOk(m, g, j, hi)
  {
  }

  lemma SplicedAfter(m: seq<Cell>, m': seq<Cell>, start: nat, hi: nat, f: seq<Block>, k: nat, b: Block, i: nat)
    requires Linked(m, start, hi, f) && Distinct(start, hi, f) && FitsAt(f, k, b)
    requires b.at < |m| && Right(f, k, b) <= i < |f|
    requires SpliceWritten(m, m', start, hi, f, k, b)
    ensures NodeOk(m', f, i, hi)
  {
    assert NodeOk(m, f, i, hi);
    NodesApart(start, hi, f, i, k);
  }

  lemma SplicedBefore(m: seq<Cell>, m': seq<Cell>, start: nat, hi: nat, f: seq<Block>, k: nat, b: Block, j: nat)
    requires Linked(m, start, hi, f) && Distinct(start, hi, f) && FitsAt(f, k, b)
    requires b.at < |m| && b.End() <= hi && Clear(start, b) && j < Left(f, k, b)
    requires SpliceWritten(m, m', start, hi, f, k, b)
    ensures f[j].at < |m| && m'[f[j].at].size == UNIT * f[j].len
    ensures m'[f[j].at].next
            == UNIT * if j + 1 < Left(f, k, b) then f[j + 1].at else Joined(f, k, b).at
  {
    assert NodeOk(m, f, j, hi);
    NodesApart(start, hi, f, j, k);
  }

  // ---------------------------------------------------------------- the writes of an insertion

  /** 32-bit addition. */
  function AddWord(a: Word, b: Word): Word {
    (a + b) % 0x1_0000_0000
  }

  /** The facts about the neighbourhood of an insertion point that the writes depend on. */
  lemma InsertionPoint(m: seq<Cell>, start: nat, hi: nat, f: seq<Block>, k: nat, b: Block)
    requires Linked(m, start, hi, f) && Distinct(start, hi, f) && FitsAt(f, k, b)
    requires b.End() <= hi && Clear(start, b)
    ensures var p := PrevAt(f, k, start);
            && p < |m| && p != b.at && m[p].next == UNIT * NodeAt(f, k, hi)
            && (UNIT * p + m[p].size == UNIT * b.at <==> JoinsLeft(f, k, b))
            && (JoinsLeft(f, k, b) ==> p == f[k - 1].at && m[p].size == UNIT * f[k - 1].len)
    ensures NodeAt(f, k, hi) < |m| && b.End() <= NodeAt(f, k, hi) && NodeAt(f, k, hi) <= hi
    ensures k < |f| ==> f[k].at < hi && m[f[k].at].next == UNIT * NodeAt(f, k + 1, hi) && m[f[k].at].size == UNIT * f[k].len
  {
    if k > 0 { assert NodeOk(m, f, k - 1, hi); }
    if k < |f| { assert NodeOk(m, f, k, hi); }
  }

  /** b has been merged with its left neighbour, if they touch: the header of the joined block has
      their length, and nothing else has changed. */
  ghost predicate LeftMerged(m: seq<Cell>, m': seq<Cell>, f: seq<Block>, k: nat, b: Block)
    requires k <= |f|
  {
    var c := LeftJoined(f, k, b);
    && AgreeOff(m, m', {c.at}) && c.at < |m| && m'[c.at].next == m[c.at].next && m'[c.at].size == UNIT * c.len
  }

  /** And with its right neighbour: the header of the joined block has the length of all, and leads to
      the node behind them. */
  ghost predicate RightMerged(m: seq<Cell>, m': seq<Cell>, hi: nat, f: seq<Block>, k: nat, b: Block)
    requires k <= |f|
  {
    var c := Joined(f, k, b);
    && AgreeOff(m, m', {c.at}) && c.at < |m|
    && m'[c.at].next == UNIT * NodeAt(f, Right(f, k, b), hi) && m'[c.at].size == UNIT * c.len
  }

  /** The node before an insertion point touches the block exactly if the block joins it, which then has
      its header there. */
  lemma LeftTouches(m: seq<Cell>, start: nat, hi: nat, f: seq<Block>, k: nat, b: Block)
    requires Linked(m, start, hi, f) && Distinct(start, hi, f) && FitsAt(f, k, b)
    requires b.End() <= hi && Clear(start, b) && UNIT * hi < 0x1_0000_0000 && b.at < |m| && m[b.at].size == UNIT * b.len
    ensures var p, c := PrevAt(f, k, start), LeftJoined(f, k, b);
            && p < |m| && (UNIT * p + m[p].size == UNIT * b.at <==> JoinsLeft(f, k, b))
            && (JoinsLeft(f, k, b) ==> c.at == p && AddWord(m[p].size, m[b.at].size) == UNIT * c.len)
            && p != b.at
  {
    InsertionPoint(m, start, hi, f, k, b);
  }

  /** After the left merge, the joined block touches the next node exactly if it joins a block there, or
      reaches the end marker. */
  lemma RightTouches(m: seq<Cell>, m': seq<Cell>, start: nat, hi: nat, f: seq<Block>, k: nat, b: Block)
    requires Linked(m, start, hi, f) && Distinct(start, hi, f) && FitsAt(f, k, b) && LeftMerged(m, m', f, k, b)
    requires b.End() <= hi && Clear(start, b) && UNIT * hi < 0x1_0000_0000
    ensures var p, c, x := PrevAt(f, k, start), LeftJoined(f, k, b), NodeAt(f, k, hi);
            && p < |m| && x < |m| && m'[p].next == UNIT * x && m'[c.at].size == UNIT * c.len
            && (UNIT * c.at + UNIT * c.len == UNIT * x && x != hi <==> JoinsRight(f, k, b))
            && (JoinsRight(f, k, b) ==> m'[x].next == UNIT * NodeAt(f, k + 1, hi)
                                        && AddWord(m'[c.at].size, m'[x].size) == UNIT * Joined(f, k, b).len)
  {
    InsertionPoint(m, start, hi, f, k, b);
    JoinedOnRight(f, k, b);
    if JoinsRight(f, k, b) { AddSizes(LeftJoined(f, k, b).len, f[k].len, hi); }
  }

  /** A left merge does not move the end of the block, and the right merge does not move its start. */
  lemma JoinedOnRight(f: seq<Block>, k: nat, b: Block)
    requires k <= |f|
    ensures LeftJoined(f, k, b).End() == b.End() && LeftJoined(f, k, b).at <= b.at
    ensures JoinsRight(f, k, b) ==> Joined(f, k, b).len == LeftJoined(f, k, b).len + f[k].len
  {
  }

  lemma AddSizes(x: nat, y: nat, hi: nat)
    requires x + y <= hi && UNIT * hi < 0x1_0000_0000
    ensures AddWord(UNIT * x, UNIT * y) == UNIT * (x + y)
  {
  }

  /** After both merges and, if the block stands alone on its left, the redirection of the node before it,
      the headers are those of the spliced list. */
  lemma InsertWritesSplice(m: seq<Cell>, m1: seq<Cell>, m2: seq<Cell>, m3: seq<Cell>, start: nat, hi: nat, f: seq<Block>,
                           k: nat, b: Block)
    requires Linked(m, start, hi, f) && Distinct(start, hi, f) && FitsAt(f, k, b) && b.End() <= hi && Clear(start, b)
    requires LeftMerged(m, m1, f, k, b) && RightMerged(m1, m2, hi, f, k, b) && PrevAt(f, k, start) < |m|
    requires var p := PrevAt(f, k, start);
             if JoinsLeft(f, k, b) then m3 == m2 else UNIT * b.at < 0x1_0000_0000 && m3 == m2[p := m2[p].(next := UNIT * b.at)]
    ensures b.at < |m| && SpliceWritten(m, m3, start, hi, f, k, b)
  {
    InsertionPoint(m, start, hi, f, k, b);
  }

  /** Writes away from the nodes and the markers leave the list alone. */
  lemma LinkedFrame(m: seq<Cell>, m': seq<Cell>, start: nat, hi: nat, f: seq<Block>)
    requires Linked(m, start, hi, f) && |m'| == |m|
    requires m'[start] == m[start] && m'[hi] == m[hi]
    requires forall i :: 0 <= i < |f| ==> f[i].at < |m| && m'[f[i].at] == m[f[i].at]
    ensures Linked(m', start, hi, f)
  {
    forall k | 0 <= k < |f| ensures NodeOk(m', f, k, hi) {
      assert NodeOk(m, f, k, hi);
    }
  }

  /** Unit x carries no node of the list and no marker. */
  ghost predicate Unused(start: nat, hi: nat, g: seq<Block>, x: nat) {
    x != start && x != hi && forall i :: 0 <= i < |g| ==> g[i].at != x
  }

  /** The units of block k carry none of the list without block k. */
  lemma HoleUnused(start: nat, hi: nat, f: seq<Block>, k: nat, x: nat)
    requires Distinct(start, hi, f) && k < |f| && f[k].at <= x < f[k].End()
    ensures Unused(start, hi, f[..k] + f[k + 1..], x)
  {
    var g := f[..k] + f[k + 1..];
    forall i | 0 <= i < |g| ensures g[i].at != x {
      if i < k { assert f[i].End() < f[k].at; } else { assert f[k].End() < f[i + 1].at; }
    }
  }

  /** After the headers of the two parts of a block that is not in the list have been written, the list is
      still there. */
  lemma SplitReady(m: seq<Cell>, m': seq<Cell>, start: nat, hi: nat, g: seq<Block>, x: nat, y: nat)
    requires Linked(m, start, hi, g) && Unused(start, hi, g, x) && Unused(start, hi, g, y) && AgreeOff(m, m', {x, y})
    ensures Linked(m', start, hi, g)
  {
    forall i | 0 <= i < |g| ensures g[i].at < |m| && m'[g[i].at] == m[g[i].at] { assert NodeOk(m, g, i, hi); }
    LinkedFrame(m, m', start, hi, g);
  }

  /** Without block k, the list has room for what remains of the block behind its first w units, and with
      that it is the carved list. */
  lemma SplitPlan(start: nat, hi: nat, f: seq<Block>, k: nat, w: nat)
    requires Distinct(start, hi, f) && k < |f| && 0 < w < f[k].len
    ensures var g, b := f[..k] + f[k + 1..], Block(f[k].at + w, f[k].len - w);
            && FitsAt(g, k, b) && b.End() <= hi && Clear(start, b) && Splice(g, k, b) == Carve(f, k, w)
            && Unused(start, hi, g, f[k].at) && Unused(start, hi, g, b.at) && PrevAt(g, k, start) == PrevAt(f, k, start)
  {
    SplitGap(f, k, w);
    HoleUnused(start, hi, f, k, f[k].at);
    HoleUnused(start, hi, f, k, f[k].at + w);
    SamePrev(f, k, start);
  }

  lemma SamePrev(f: seq<Block>, k: nat, start: nat)
    requires k < |f|
    ensures PrevAt(f[..k] + f[k + 1..], k, start) == PrevAt(f, k, start)
  {
  }

  lemma SpliceDistinct(start: nat, hi: nat, f: seq<Block>, k: nat, b: Block)
    requires Distinct(start, hi, f) && FitsAt(f, k, b) && b.End() <= hi && Clear(start, b)
    ensures Distinct(start, hi, Splice(f, k, b))
  {
    SpliceSeparated(f, k, b);
    var g, c := Splice(f, k, b), Joined(f, k, b);
    assert Clear(start, c) && c.End() <= hi;
    forall j | 0 <= j < |g| ensures Clear(start, g[j]) && g[j].End() <= hi {
      SplicedOld(f, k, b, j);
    }
  }

  lemma SplicedOld(f: seq<Block>, k: nat, b: Block, j: nat)
    requires k <= |f| && j < |Splice(f, k, b)|
    ensures Splice(f, k, b)[j] == Joined(f, k, b) || Splice(f, k, b)[j] in f
  {
    if j > Left(f, k, b) {
      assert Splice(f, k, b)[j] == f[Right(f, k, b) + (j - Left(f, k, b) - 1)];
    }
  }
}
