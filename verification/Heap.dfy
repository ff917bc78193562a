/** The allocator itself: pvPortMalloc, vPortFree and the list surgery beneath them, on the
    cells of HeapMemory. Addresses are byte addresses; 0 is NULL. */
module Heap {
  import opened HeapBlocks
  import opened HeapMemory

  const SRAM_BASE := 0x2000_0000
  const SRAM_SIZE := 1024 * 256

  /** The request n plus a header, rounded up to whole units. */
  function UnitsFor(n: nat): (w: nat)
    ensures UNIT * w >= n + UNIT && UNIT * w < n + 2 * UNIT
  {
    (n + UNIT + UNIT - 1) / UNIT
  }

  /** The first block of f with room for w units, |f| when there is none. */
  ghost function FirstFit(f: seq<Block>, w: nat): (k: nat)
    ensures k <= |f|
    ensures forall i :: 0 <= i < k ==> f[i].len < w
    ensures k < |f| ==> f[k].len >= w
  {
    if f == [] then 0 else if f[0].len >= w then 0
    else
      var k := FirstFit(f[1..], w);
      assert forall i :: 1 <= i <= k ==> f[i] == f[1..][i - 1];
      k + 1
  }

  /** How many units a request of w units takes from a gap of `len`: all of it unless the
      rest would be larger than heapMINIMUM_BLOCK_SIZE (two units). */
  function UnitsTaken(len: nat, w: nat): nat {
    if len > w + 2 then w else len
  }

  /** The smallest value of a nonempty history. */
  ghost function MinOf(h: seq<nat>): (m: nat)
    requires h != []
    ensures m in h && forall i :: 0 <= i < |h| ==> m <= h[i]
  {
    var n := |h| - 1;
    if n == 0 then h[0]
    else
      var m := MinOf(h[..n]);
      assert forall i :: 0 <= i < n ==> h[..n][i] == h[i];
      if h[n] < m then h[n] else m
  }

  /** The request is answered with NULL: it is empty, has the top bit set, or no gap has room. */
  ghost predicate Refused(f: seq<Block>, n: nat) {
    n == 0 || n >= TOP_BIT || !HasRoom(f, UnitsFor(n))
  }

  /** The length of the largest of the first k blocks of f. */
  ghost function MaxLen(f: seq<Block>, k: nat): nat
    requires k <= |f|
  {
    if k == 0 then 0
    else if f[k - 1].len > MaxLen(f, k - 1) then f[k - 1].len else MaxLen(f, k - 1)
  }

  ghost function TenantFor(gapLen: nat, n: nat, thread: nat, traced: bool): Tenant {
    Tenant(UnitsTaken(gapLen, UnitsFor(n)), thread, UNIT * UnitsFor(n), traced)
  }

  /** What a successful request does: block a is taken from the front of the first gap with
      room, and it is the only one that becomes live. */
  ghost predicate Granted(live: LiveMap, f: seq<Block>, n: nat, thread: nat, traced: bool, a: nat, live': LiveMap) {
    var k := FirstFit(f, UnitsFor(n));
    && k < |f| && a == f[k].at
    && live' == live[a := TenantFor(f[k].len, n, thread, traced)]
  }

  /** The unit is outside the heap and its markers, or inside a live block. */
  ghost predicate Foreign(live: LiveMap, lo: nat, hi: nat, start: nat, u: nat) {
    u != start && (u < lo || u > hi || InLive(live, u))
  }

  lemma AlignedUp(x: nat)
    ensures UNIT * ((x + UNIT - 1) / UNIT) == if x % UNIT != 0 then x + (UNIT - 1) - (x + (UNIT - 1)) % UNIT else x
  {
    var q, r := x / 8, x % 8;
    if r != 0 {
      assert x + 7 == 8 * (q + 1) + (r - 1);
    } else {
      assert x + 7 == 8 * q + 7;
    }
  }

  lemma AlignedDown(x: nat)
    ensures UNIT * (x / UNIT) == x - x % UNIT
  {
  }

  lemma Multiple(u: nat)
    ensures UNIT * u % UNIT == 0
  {
  }

  class Heap {
    const mem: array<Cell>
    /** Linker symbols around the heap area, and the address of the static list head. */
    const heapStart: nat
    const heapEnd: nat
    const xStart: nat

    var pxEnd: nat
    var xFreeBytesRemaining: nat
    var xMinimumEverFreeBytesRemaining: nat
    var xBlockAllocatedBit: nat

    ghost var live: LiveMap
    /** xFreeBytesRemaining after each operation since initialisation. */
    ghost var history: seq<nat>

    ghost predicate Board()
    {
      && SRAM_BASE <= heapStart && heapEnd <= SRAM_BASE + SRAM_SIZE
      && heapEnd <= UNIT * mem.Length
      && xStart % UNIT == 0 && xStart + UNIT <= UNIT * mem.Length
      && (xStart + UNIT <= heapStart || heapEnd <= xStart)
      && heapStart + 3 * UNIT <= heapEnd
    }

    /** First unit of the heap, the unit of the end marker and that of the list head. */
    ghost function Lo(): (u: nat)
      ensures heapStart <= UNIT * u < heapStart + UNIT
    {
      (heapStart + UNIT - 1) / UNIT
    }

    ghost function Hi(): (u: nat)
      requires Board()
      ensures UNIT * u + UNIT <= heapEnd < UNIT * u + 2 * UNIT
    {
      (heapEnd - UNIT) / UNIT
    }

    ghost function Start(): nat { xStart / UNIT }

    ghost predicate ListIs(f: seq<Block>)
      reads this, mem
    {
      && Board() && pxEnd == UNIT * Hi()
      && Linked(mem[..], Start(), Hi(), f) && Distinct(Start(), Hi(), f)
    }

    /** The free list: the gaps between the live blocks. */
    ghost function FreeList(): seq<Block>
      requires Board()
      reads this
    {
      Gaps(live, Lo(), Hi())
    }

    ghost predicate Counted()
      requires Board()
      reads this
    {
      && xFreeBytesRemaining == UNIT * SumLen(FreeList())
      && history != [] && history[|history| - 1] == xFreeBytesRemaining
      && xMinimumEverFreeBytesRemaining == MinOf(history)
    }

    ghost predicate Ready()
      reads this, mem
    {
      && Board() && xBlockAllocatedBit == TOP_BIT
      && Placed(live, Lo(), Hi())
      && ListIs(FreeList()) && Allocated(mem[..], live) && Counted()
    }

    ghost predicate Valid()
      reads this, mem
    {
      && Board()
      && (pxEnd == 0 ==> live == map[] && history == [])
      && (pxEnd != 0 ==> Ready())
    }

    constructor (mem: array<Cell>, heapStart: nat, heapEnd: nat, xStart: nat)
      requires SRAM_BASE <= heapStart && heapEnd <= SRAM_BASE + SRAM_SIZE && heapStart + 3 * UNIT <= heapEnd
      requires heapEnd <= UNIT * mem.Length && xStart % UNIT == 0 && xStart + UNIT <= UNIT * mem.Length
      requires xStart + UNIT <= heapStart || heapEnd <= xStart
      ensures Valid() && live == map[] && pxEnd == 0
      ensures this.mem == mem && this.heapStart == heapStart && this.heapEnd == heapEnd && this.xStart == xStart
    {
      this.mem, this.heapStart, this.heapEnd, this.xStart := mem, heapStart, heapEnd, xStart;
      pxEnd, xFreeBytesRemaining, xMinimumEverFreeBytesRemaining, xBlockAllocatedBit := 0, 0, 0, 0;
      live, history := map[], [];
    }

    // prvHeapInit, the aligned bounds of the heap
    method AlignedBounds() returns (first: nat, end: nat)
      requires Board()
      ensures first == UNIT * Lo() && end == UNIT * Hi()
      // the first unit from the start of the area on, and the last one that lies within it
      ensures first % UNIT == 0 && heapStart <= first < heapStart + UNIT
      ensures end % UNIT == 0 && end + UNIT <= heapEnd < end + 2 * UNIT
    {
      AlignedUp(heapStart);
      AlignedDown(heapEnd - UNIT);
      var total := heapEnd - heapStart;
      first := heapStart;
      if first % UNIT != 0 {
        first := first + (UNIT - 1);
        first := first - first % UNIT;
        total := total - (first - heapStart);
      }
      assert first == UNIT * Lo() && first + total == heapEnd;
      end := first + total;
      end := end - UNIT;
      end := end - end % UNIT;
      Multiple(Lo());
      Multiple(Hi());
    }

    // prvHeapInit
    method Init()
      requires Valid() && pxEnd == 0
      modifies this, mem
      ensures Valid() && pxEnd != 0 && live == old(live)
      ensures FreeList() == [Block(Lo(), Hi() - Lo())]
      ensures history == [UNIT * (Hi() - Lo())]
      // in bytes: from the first aligned address to the end marker, which is the last unit of the area
      ensures pxEnd % UNIT == 0 && pxEnd + UNIT <= heapEnd < pxEnd + 2 * UNIT
      ensures var first := UNIT * FreeList()[0].at;
              && heapStart <= first < heapStart + UNIT
              && UNIT * FreeList()[0].len == xFreeBytesRemaining == xMinimumEverFreeBytesRemaining == pxEnd - first
      ensures AgreeOff(old(mem[..]), mem[..], {Lo(), Hi(), Start()})
    {
      var first, end := AlignedBounds();
      mem[xStart / UNIT] := Cell(first, 0);
      pxEnd := end;
      mem[pxEnd / UNIT] := Cell(0, 0);
      mem[first / UNIT] := Cell(pxEnd, end - first);
      xMinimumEverFreeBytesRemaining := end - first;
      xFreeBytesRemaining := end - first;
      xBlockAllocatedBit := TOP_BIT;
      history := [xFreeBytesRemaining];
      GapsOfNothing(Lo(), Hi());
      assert NodeOk(mem[..], FreeList(), 0, Hi());
    }

    // pvPortMalloc, the initialisation at the first call
    method InitOnce()
      requires Valid()
      modifies this, mem
      ensures Ready() && pxEnd != 0 && live == old(live)
      ensures history == if old(pxEnd) == 0 then [UNIT * (Hi() - Lo())] else old(history)
      ensures forall u: nat :: u < mem.Length && Foreign(live, Lo(), Hi(), Start(), u) ==> mem[..][u] == old(mem[..])[u]
    {
      if pxEnd == 0 {
        Init();
      }
    }

    // prvInsertBlockIntoFreeList, the walk
    method FindPlace(b: nat, ghost f: seq<Block>, ghost k: nat) returns (it: nat)
      requires ListIs(f) && b % UNIT == 0
      requires k <= |f|
      requires forall i :: 0 <= i < k ==> f[i].at < b / UNIT
      requires b / UNIT < NodeAt(f, k, Hi())
      ensures it == UNIT * PrevAt(f, k, Start())
    {
      it := xStart;
      ghost var i: nat := 0;
      while mem[it / UNIT].next < b
        invariant i <= k && it == UNIT * PrevAt(f, i, Start())
        invariant it / UNIT < mem.Length && mem[it / UNIT].next == UNIT * NodeAt(f, i, Hi())
        decreases k - i
      {
        assert i < k;
        assert NodeOk(mem[..], f, i, Hi());
        it := mem[it / UNIT].next;
        i := i + 1;
      }
    }

    /** Block b can be put between blocks k - 1 and k of the list. */
    ghost predicate Insertable(f: seq<Block>, k: nat, b: Block)
      requires Board()
    {
      FitsAt(f, k, b) && b.End() <= Hi() && Clear(Start(), b)
    }

    // prvInsertBlockIntoFreeList, joining the block with the one that ends where it starts
    method MergeLeft(it: nat, block: nat, ghost f: seq<Block>, ghost k: nat, ghost b: Block) returns (merged: nat)
      requires ListIs(f) && Insertable(f, k, b) && it == UNIT * PrevAt(f, k, Start())
      requires block == UNIT * b.at && b.at < mem.Length && mem[b.at].size == UNIT * b.len
      modifies mem
      ensures merged == UNIT * LeftJoined(f, k, b).at && (merged == it <==> JoinsLeft(f, k, b))
      ensures LeftMerged(old(mem[..]), mem[..], f, k, b)
    {
      LeftTouches(mem[..], Start(), Hi(), f, k, b);
      merged := block;
      if it + mem[it / UNIT].size == block {
        mem[it / UNIT] := mem[it / UNIT].(size := AddWord(mem[it / UNIT].size, mem[block / UNIT].size));
        merged := it;
      }
    }

    // prvInsertBlockIntoFreeList, joining it with the one that starts where it ends
    method MergeRight(it: nat, merged: nat, ghost m: seq<Cell>, ghost f: seq<Block>, ghost k: nat, ghost b: Block)
      requires Board() && pxEnd == UNIT * Hi() && Linked(m, Start(), Hi(), f) && Distinct(Start(), Hi(), f)
      requires Insertable(f, k, b) && it == UNIT * PrevAt(f, k, Start()) && merged == UNIT * LeftJoined(f, k, b).at
      requires LeftMerged(m, mem[..], f, k, b)
      modifies mem
      ensures RightMerged(old(mem[..]), mem[..], Hi(), f, k, b)
    {
      RightTouches(m, mem[..], Start(), Hi(), f, k, b);
      var next := mem[it / UNIT].next;
      assert next / UNIT == NodeAt(f, k, Hi()) && merged / UNIT == LeftJoined(f, k, b).at;
      if merged + mem[merged / UNIT].size == next {
        if next != pxEnd {
          mem[merged / UNIT] := mem[merged / UNIT].(size := AddWord(mem[merged / UNIT].size, mem[next / UNIT].size));
          mem[merged / UNIT] := mem[merged / UNIT].(next := mem[next / UNIT].next);
        } else {
          mem[merged / UNIT] := mem[merged / UNIT].(next := next);
        }
      } else {
        mem[merged / UNIT] := mem[merged / UNIT].(next := next);
      }
    }

    // prvInsertBlockIntoFreeList
    method InsertBlock(block: nat, ghost f: seq<Block>, ghost k: nat, ghost b: Block)
      requires ListIs(f) && Insertable(f, k, b)
      requires block == UNIT * b.at && mem[b.at].size == UNIT * b.len
      modifies mem
      ensures ListIs(Splice(f, k, b))
      ensures AgreeOff(old(mem[..]), mem[..], {PrevAt(f, k, Start()), b.at})
    {
      ghost var m := mem[..];
      var it := FindPlace(block, f, k);
      var merged := MergeLeft(it, block, f, k, b);
      ghost var m1 := mem[..];
      MergeRight(it, merged, m, f, k, b);
      ghost var m2 := mem[..];
      LeftTouches(m, Start(), Hi(), f, k, b);
      if it != merged {
        mem[it / UNIT] := mem[it / UNIT].(next := merged);
      }
      InsertWritesSplice(m, m1, m2, mem[..], Start(), Hi(), f, k, b);
      LinkSplice(m, mem[..], Start(), Hi(), f, k, b);
      SpliceDistinct(Start(), Hi(), f, k, b);
    }

    // pvPortMalloc, the search for the first block that is large enough
    method FindFit(wanted: nat, ghost f: seq<Block>) returns (prev: nat, block: nat, ghost k: nat)
      requires ListIs(f) && wanted % UNIT == 0 && wanted > 0
      ensures k == FirstFit(f, wanted / UNIT)
      ensures prev == UNIT * PrevAt(f, k, Start()) && block == UNIT * NodeAt(f, k, Hi())
      ensures mem[prev / UNIT].next == block
    {
      prev := xStart;
      block := mem[xStart / UNIT].next;
      k := 0;
      if |f| > 0 { assert NodeOk(mem[..], f, 0, Hi()); }
      while mem[block / UNIT].size < wanted && mem[block / UNIT].next != 0
        invariant k <= |f|
        invariant prev == UNIT * PrevAt(f, k, Start()) && block == UNIT * NodeAt(f, k, Hi())
        invariant prev / UNIT < mem.Length && mem[prev / UNIT].next == block
        invariant block / UNIT < mem.Length
        invariant k < |f| ==> NodeOk(mem[..], f, k, Hi())
        invariant forall i :: 0 <= i < k ==> f[i].len < wanted / UNIT
        decreases |f| - k
      {
        prev := block;
        block := mem[block / UNIT].next;
        k := k + 1;
        if k < |f| { assert NodeOk(mem[..], f, k, Hi()); }
      }
      FirstFitIs(f, wanted / UNIT, k);
    }

    // pvPortMalloc, unlinking the block that was found
    method Unlink(prev: nat, block: nat, ghost f: seq<Block>, ghost k: nat)
      requires ListIs(f) && k < |f|
      requires prev == UNIT * PrevAt(f, k, Start()) && block == UNIT * f[k].at
      modifies mem
      ensures ListIs(f[..k] + f[k + 1..]) && mem[f[k].at].size == UNIT * f[k].len
      ensures AgreeOff(old(mem[..]), mem[..], {PrevAt(f, k, Start())})
    {
      ghost var m := mem[..];
      assert NodeOk(m, f, k, Hi());
      NodesApart(Start(), Hi(), f, k, k);
      if k > 0 { NodesApart(Start(), Hi(), f, k - 1, 0); assert NodeOk(m, f, k - 1, Hi()); }
      mem[prev / UNIT] := mem[prev / UNIT].(next := mem[block / UNIT].next);
      UnlinkNode(m, mem[..], Start(), Hi(), f, k);
      UnlinkDistinct(Start(), Hi(), f, k);
    }

    // pvPortMalloc, the headers of the two parts of a split block
    method WriteSizes(block: nat, wanted: nat, ghost at: nat, ghost w: nat)
      requires block == UNIT * at && wanted == UNIT * w && w > 0
      requires at + w < mem.Length && wanted <= mem[at].size
      modifies mem
      ensures AgreeOff(old(mem[..]), mem[..], {at, at + w})
      ensures mem[at].size == wanted && mem[at + w].size == old(mem[at].size) - wanted
    {
      var newBlock := block + wanted;
      mem[newBlock / UNIT] := mem[newBlock / UNIT].(size := mem[block / UNIT].size - wanted);
      mem[block / UNIT] := mem[block / UNIT].(size := wanted);
    }

    // pvPortMalloc, returning the unused end b of the block at unit `at`, which is not in the list, to the list
    method Split(block: nat, wanted: nat, ghost at: nat, ghost w: nat, ghost g: seq<Block>, ghost k: nat, ghost b: Block)
      requires ListIs(g) && Insertable(g, k, b) && block == UNIT * at && wanted == UNIT * w && w > 0 && b.at == at + w
      requires Unused(Start(), Hi(), g, at) && Unused(Start(), Hi(), g, b.at) && mem[at].size == UNIT * (w + b.len)
      modifies mem
      ensures ListIs(Splice(g, k, b)) && mem[at].size == wanted
      ensures AgreeOff(old(mem[..]), mem[..], {PrevAt(g, k, Start()), at, b.at})
    {
      ghost var m := mem[..];
      WriteSizes(block, wanted, at, w);
      ghost var m1 := mem[..];
      SplitReady(m, m1, Start(), Hi(), g, at, b.at);
      if k > 0 { assert Unused(Start(), Hi(), g, at) && g[k - 1].at != at; }
      InsertBlock(block + wanted, g, k, b);
      AgreeTwice(m, m1, mem[..], PrevAt(g, k, Start()), at, b.at);
    }

    // pvPortMalloc, taking the block that was found out of the list
    method Take(prev: nat, block: nat, wanted: nat, ghost f: seq<Block>, ghost k: nat, ghost w: nat)
      requires ListIs(f) && k < |f| && wanted == UNIT * w && 0 < w <= f[k].len
      requires prev == UNIT * PrevAt(f, k, Start()) && block == UNIT * f[k].at
      modifies mem
      ensures ListIs(Carve(f, k, UnitsTaken(f[k].len, w)))
      ensures mem[f[k].at].size == UNIT * UnitsTaken(f[k].len, w)
      ensures AgreeOff(old(mem[..]), mem[..], TakeTouches(f, k, w, Start()))
    {
      ghost var m, g, b := mem[..], f[..k] + f[k + 1..], Block(f[k].at + w, f[k].len - w);
      Unlink(prev, block, f, k);
      ghost var m1 := mem[..];
      if mem[block / UNIT].size - wanted > 2 * UNIT {
        SplitPlan(Start(), Hi(), f, k, w);
        Split(block, wanted, f[k].at, w, g, k, b);
        TakenAgree(m, m1, mem[..], f, k, w, Start());
      } else {
        TakenWhole(m, m1, f, k, w, Start());
      }
    }

    // memset(p, 0, n), where p is the address of unit u
    method MemSet(p: nat, n: nat, ghost u: nat)
      requires p == UNIT * u && p + n <= UNIT * mem.Length
      modifies mem
      ensures mem[..] == Wiped(old(mem[..]), u, n)
    {
      var i := 0;
      while i < n / UNIT
        invariant i <= n / UNIT
        invariant forall x :: 0 <= x < mem.Length ==> mem[x] == if u <= x < u + i then Cell(0, 0) else old(mem[x])
      {
        mem[p / UNIT + i] := Cell(0, 0);
        i := i + 1;
      }
      if n % UNIT != 0 {
        mem[p / UNIT + i] := WipeCell(mem[p / UNIT + i], n % UNIT);
      }
    }

    // pvPortMalloc, the request in whole units
    method RoundedSize(n: nat) returns (wanted: nat)
      requires n > 0
      ensures wanted == UNIT * UnitsFor(n)
    {
      wanted := n + UNIT;
      if wanted % UNIT != 0 {
        wanted := wanted + (UNIT - wanted % UNIT);
      }
    }

    // pvPortMalloc, the counters
    method CountTaken(size: nat, ghost live': LiveMap)
      requires Board() && Counted() && size <= xFreeBytesRemaining
      requires UNIT * SumLen(Gaps(live', Lo(), Hi())) == xFreeBytesRemaining - size
      modifies `xFreeBytesRemaining, `xMinimumEverFreeBytesRemaining, `live, `history
      ensures Counted() && live == live'
      ensures history == old(history) + [xFreeBytesRemaining]
    {
      xFreeBytesRemaining := xFreeBytesRemaining - size;
      if xFreeBytesRemaining < xMinimumEverFreeBytesRemaining {
        xMinimumEverFreeBytesRemaining := xFreeBytesRemaining;
      }
      live := live';
      MinOfAppend(history, xFreeBytesRemaining);
      history := history + [xFreeBytesRemaining];
    }

    // pvPortMalloc, from the block that was found to its allocated header
    method AllocateCells(prev: nat, block: nat, wanted: nat, ghost k: nat, ghost w: nat, ghost t: Tenant) returns (size: nat)
      requires Board() && xBlockAllocatedBit == TOP_BIT
      requires ListIs(FreeList()) && Allocated(mem[..], live) && Placed(live, Lo(), Hi())
      requires k < |FreeList()| && wanted == UNIT * w && 0 < w <= FreeList()[k].len
      requires prev == UNIT * PrevAt(FreeList(), k, Start()) && block == UNIT * FreeList()[k].at
      requires t.len == UnitsTaken(FreeList()[k].len, w)
      modifies mem
      ensures var live' := live[FreeList()[k].at := t];
              ListIs(Gaps(live', Lo(), Hi())) && Allocated(mem[..], live')
      ensures size == UNIT * t.len
      ensures AgreeOff(old(mem[..]), mem[..], TakeTouches(FreeList(), k, w, Start()))
    {
      ghost var f, m0 := FreeList(), mem[..];
      Take(prev, block, wanted, f, k, w);
      ghost var m1 := mem[..];
      size := mem[block / UNIT].size;
      mem[block / UNIT] := Cell(0, size + xBlockAllocatedBit);
      AllocatedMemory(m0, m1, mem[..], Start(), Lo(), Hi(), live, k, w, t);
      GapsAfterTake(live, Lo(), Hi(), k, t);
    }

    // pvPortMalloc, taking a block for tenant t
    method Allocate(prev: nat, block: nat, wanted: nat, ghost k: nat, ghost w: nat, ghost t: Tenant)
      requires Ready()
      requires k < |FreeList()| && wanted == UNIT * w && 0 < w <= FreeList()[k].len
      requires prev == UNIT * PrevAt(FreeList(), k, Start()) && block == UNIT * FreeList()[k].at
      requires t.len == UnitsTaken(FreeList()[k].len, w)
      modifies mem, `xFreeBytesRemaining, `xMinimumEverFreeBytesRemaining, `live, `history
      ensures Ready()
      ensures live == old(live)[old(FreeList())[k].at := t]
      ensures history == old(history) + [xFreeBytesRemaining]
      ensures AgreeOff(old(mem[..]), mem[..], TakeTouches(old(FreeList()), k, w, Start()))
    {
      ghost var f := FreeList();
      ghost var live' := live[f[k].at := t];
      var size := AllocateCells(prev, block, wanted, k, w, t);
      assert Placed(live', Lo(), Hi()) && SumLen(Gaps(live', Lo(), Hi())) == SumLen(f) - t.len by {
        SumLenCarve(f, k, t.len);
        GapsAfterTake(live, Lo(), Hi(), k, t);
        TakePlaced(live, Lo(), Hi(), k, t);
      }
      CountTaken(size, live');
    }

    // the test of a size for the allocated bit
    method HasAllocatedBit(size: Word) returns (b: bool)
      requires xBlockAllocatedBit == TOP_BIT
      ensures b <==> size >= TOP_BIT
    {
      b := size / xBlockAllocatedBit % 2 != 0;
    }

    // pvPortMalloc, the search, which may run into the end marker
    method Search(wanted: nat, ghost w: nat) returns (prev: nat, block: nat, ghost k: nat)
      requires Ready() && wanted == UNIT * w && w > 0
      ensures block == 0 <==> !HasRoom(FreeList(), w)
      ensures block != 0 ==>
                && k == FirstFit(FreeList(), w) && k < |FreeList()|
                && prev == UNIT * PrevAt(FreeList(), k, Start()) && block == UNIT * FreeList()[k].at
                && mem[prev / UNIT].next == block
    {
      ghost var f := FreeList();
      prev, block, k := FindFit(wanted, f);
      if k < |f| { GapApart(live, Lo(), Hi(), k, f[k].at); }
      if block == pxEnd {
        block := 0;
      }
    }

    // pvPortMalloc, the tests on the request and the search; block is NULL when it is refused
    method Fit(n: Word) returns (wanted: nat, prev: nat, block: nat, ghost k: nat)
      requires Ready()
      ensures block == 0 <==> Refused(FreeList(), n)
      ensures block != 0 ==>
                && k == FirstFit(FreeList(), UnitsFor(n)) && k < |FreeList()| && wanted == UNIT * UnitsFor(n)
                && prev == UNIT * PrevAt(FreeList(), k, Start()) && block == UNIT * FreeList()[k].at
                && mem[prev / UNIT].next == block
    {
      wanted, prev, block, k := n, 0, 0, 0;
      var tooLarge := HasAllocatedBit(n);
      if !tooLarge {
        if wanted > 0 {
          wanted := RoundedSize(n);
        }
        if wanted > 0 && wanted <= xFreeBytesRemaining {
          prev, block, k := Search(wanted, UnitsFor(n));
        } else if n > 0 && HasRoom(FreeList(), UnitsFor(n)) {
          RoomNeedsTotal(FreeList(), UnitsFor(n));
        }
      }
    }

    // pvPortMalloc, the section under the suspended scheduler once the heap is initialised
    method Obtain(n: Word, ghost thread: nat, ghost traced: bool) returns (p: nat, wanted: nat, ghost a: nat)
      requires Ready()
      modifies this, mem
      ensures Ready()
      ensures p == 0 <==> Refused(old(FreeList()), n)
      ensures p == 0 ==> live == old(live) && history == old(history) && mem[..] == old(mem[..])
      ensures p != 0 ==>
                && p == UNIT * (a + 1) && wanted == UNIT * UnitsFor(n)
                && Granted(old(live), old(FreeList()), n, thread, traced, a, live)
                && history == old(history) + [xFreeBytesRemaining]
                && AgreeOff(old(mem[..]), mem[..],
                     TakeTouches(old(FreeList()), FirstFit(old(FreeList()), UnitsFor(n)), UnitsFor(n), Start()))
    {
      var prev, block;
      ghost var k;
      wanted, prev, block, k := Fit(n);
      p, a := 0, 0;
      if block != 0 {
        p := mem[prev / UNIT].next + UNIT;
        a := FreeList()[k].at;
        ghost var t := TenantFor(FreeList()[k].len, n, thread, traced);
        Allocate(prev, block, wanted, k, UnitsFor(n), t);
      }
    }

    // pvPortMalloc, clearing the first n bytes of the payload of live block a
    method ClearPayload(p: nat, n: nat, ghost a: nat)
      requires Ready() && a in live && p == UNIT * (a + 1) && n + UNIT <= UNIT * live[a].len
      modifies mem
      ensures Ready() && mem[..] == Wiped(old(mem[..]), a + 1, n)
    {
      WipeKeeps(mem[..], Start(), Lo(), Hi(), live, a, n);
      MemSet(p, n, a + 1);
    }

    // pvPortMalloc once the heap is initialised
    method MallocReady(n: Word, ghost thread: nat, ghost traced: bool) returns (p: nat, wanted: nat, ghost a: nat)
      requires Ready()
      modifies this, mem
      ensures Ready()
      ensures p == 0 <==> Refused(old(FreeList()), n)
      ensures p == 0 ==> live == old(live)
      ensures p != 0 ==> p == UNIT * (a + 1) && wanted == UNIT * UnitsFor(n)
      ensures p != 0 ==> Granted(old(live), old(FreeList()), n, thread, traced, a, live)
      ensures p != 0 ==> forall a: nat :: p <= a < p + n ==> ByteAt(mem[..], a) == 0
      ensures forall u: nat :: u < mem.Length && Foreign(old(live), Lo(), Hi(), Start(), u) ==> mem[..][u] == old(mem[..])[u]
      ensures history == old(history) + if p == 0 then [] else [xFreeBytesRemaining]
    {
      ghost var m1, live1 := mem[..], live;
      p, wanted, a := Obtain(n, thread, traced);
      if p != 0 {
        GrantedPlaced(live1, Lo(), Hi(), n, thread, traced, a, live);
        ClearGranted(p, n, thread, traced, a, live1, m1);
      }
    }

    // pvPortMalloc, clearing the payload of block a, which has just been granted
    method ClearGranted(p: nat, n: Word, ghost thread: nat, ghost traced: bool, ghost a: nat, ghost live1: LiveMap,
                        ghost m1: seq<Cell>)
      requires Ready() && n > 0 && a in live && p == UNIT * (a + 1) && n + UNIT <= UNIT * live[a].len
      requires Placed(live1, Lo(), Hi()) && Separated(Gaps(live1, Lo(), Hi()))
      requires Granted(live1, Gaps(live1, Lo(), Hi()), n, thread, traced, a, live)
      requires var f := Gaps(live1, Lo(), Hi());
               AgreeOff(m1, mem[..], TakeTouches(f, FirstFit(f, UnitsFor(n)), UnitsFor(n), Start()))
      modifies mem
      ensures Ready() && forall a: nat :: p <= a < p + n ==> ByteAt(mem[..], a) == 0
      ensures forall u: nat :: u < mem.Length && Foreign(live1, Lo(), Hi(), Start(), u) ==> mem[..][u] == m1[u]
    {
      ghost var m2 := mem[..];
      WipedPayload(m2, live, a, n);
      ClearPayload(p, n, a);
      GrantApart(m1, m2, mem[..], Start(), Lo(), Hi(), live1, n, thread, traced, a, live);
    }

    // pvPortMalloc; NULL stands for the crash "out of memory" / "malloc(0)"
    method Malloc(n: Word, ghost thread: nat, ghost traced: bool) returns (p: nat, wanted: nat, ghost a: nat)
      requires Valid()
      modifies this, mem
      ensures Valid() && pxEnd != 0
      // refused exactly when the request is empty, has the top bit set, or fits no gap
      ensures p == 0 <==> Refused(old(FreeList()), n)
      ensures p == 0 ==> live == old(live)
      // otherwise the lowest gap with room is used, and nothing else becomes live
      ensures p != 0 ==> p == UNIT * (a + 1) && wanted == UNIT * UnitsFor(n)
      ensures p != 0 ==> Granted(old(live), old(FreeList()), n, thread, traced, a, live)
      // the payload's first n bytes are zero
      ensures p != 0 ==> forall a: nat :: p <= a < p + n ==> ByteAt(mem[..], a) == 0
      // no cell of another live block, and none outside the heap, has changed
      ensures forall u: nat :: u < mem.Length && Foreign(old(live), Lo(), Hi(), Start(), u) ==> mem[..][u] == old(mem[..])[u]
      ensures history == (if old(pxEnd) == 0 then [UNIT * (Hi() - Lo())] else old(history))
                         + if p == 0 then [] else [xFreeBytesRemaining]
    {
      InitOnce();
      p, wanted, a := MallocReady(n, thread, traced);
    }

    // vPortFree, the counter
    method CountFreed(size: nat, ghost live': LiveMap)
      requires Board() && Counted()
      requires UNIT * SumLen(Gaps(live', Lo(), Hi())) == xFreeBytesRemaining + size
      modifies `xFreeBytesRemaining, `live, `history
      ensures Counted() && live == live'
      ensures history == old(history) + [xFreeBytesRemaining]
    {
      xFreeBytesRemaining := xFreeBytesRemaining + size;
      live := live';
      MinOfAppend(history, xFreeBytesRemaining);
      history := history + [xFreeBytesRemaining];
    }

    // vPortFree, the header of the block
    method ClearHeader(link: nat, ghost a: nat) returns (size: nat)
      requires Board() && xBlockAllocatedBit == TOP_BIT
      requires Allocated(mem[..], live) && Placed(live, Lo(), Hi()) && a in live && link == UNIT * a
      modifies mem
      ensures size == UNIT * live[a].len && mem[..] == old(mem[..])[a := old(mem[a]).(size := size)]
    {
      size := mem[link / UNIT].size - xBlockAllocatedBit;
      mem[link / UNIT] := mem[link / UNIT].(size := size);
    }

    // vPortFree, the header and the payload of the block
    method ClearBlock(pv: nat, ghost a: nat) returns (size: nat)
      requires Board() && xBlockAllocatedBit == TOP_BIT
      requires ListIs(FreeList()) && Allocated(mem[..], live) && Placed(live, Lo(), Hi())
      requires a in live && pv == UNIT * (a + 1)
      modifies mem
      ensures size == UNIT * live[a].len && mem[a].size == size
      ensures ListIs(FreeList()) && Cleared(old(mem[..]), mem[..], a, live[a].len)
    {
      ghost var m0 := mem[..];
      size := ClearHeader(pv - UNIT, a);
      ghost var m1 := mem[..];
      MemSet(pv, size - UNIT, a + 1);
      ReleasedHeader(m0, m1, mem[..], Start(), Lo(), Hi(), live, a);
    }

    // vPortFree, from the header of the block to the free list
    method FreeCells(pv: nat, ghost a: nat) returns (size: nat)
      requires Board() && xBlockAllocatedBit == TOP_BIT
      requires ListIs(FreeList()) && Allocated(mem[..], live) && Placed(live, Lo(), Hi())
      requires a in live && pv == UNIT * (a + 1)
      modifies mem
      ensures size == UNIT * live[a].len
      ensures ListIs(Gaps(live - {a}, Lo(), Hi())) && Allocated(mem[..], live - {a})
      ensures forall u: nat :: a < u < a + live[a].len ==> mem[..][u] == Cell(0, 0)
      ensures forall u: nat :: u < mem.Length && Foreign(live - {a}, Lo(), Hi(), Start(), u) ==> mem[..][u] == old(mem[..])[u]
    {
      ghost var f, b, m0 := FreeList(), Block(a, live[a].len), mem[..];
      size := ClearBlock(pv, a);
      ghost var m2 := mem[..];
      LiveFits(live, Lo(), Hi(), a);
      InsertBlock(pv - UNIT, f, Rank(f, a), b);
      ReleasedMemory(m0, m2, mem[..], Start(), Lo(), Hi(), live, a);
    }

    // vPortFree, for the payload address of live block a
    method FreeBlock(pv: nat, ghost a: nat)
      requires Ready() && a in live && pv == UNIT * (a + 1)
      modifies mem, `xFreeBytesRemaining, `live, `history
      ensures Ready()
      ensures live == old(live) - {a} && history == old(history) + [xFreeBytesRemaining]
      ensures forall u: nat :: a < u < a + old(live)[a].len ==> mem[..][u] == Cell(0, 0)
      ensures forall u: nat :: u < mem.Length && Foreign(live, Lo(), Hi(), Start(), u) ==> mem[..][u] == old(mem[..])[u]
    {
      var link := pv - UNIT;
      assert link / UNIT == a;
      var inUse := HasAllocatedBit(mem[link / UNIT].size);
      if inUse {
        if mem[link / UNIT].next == 0 {
          assert Placed(live - {a}, Lo(), Hi())
                 && SumLen(Gaps(live - {a}, Lo(), Hi())) == SumLen(FreeList()) + live[a].len by {
            ReleasedGaps(live, Lo(), Hi(), a);
          }
          var size := FreeCells(pv, a);
          CountFreed(size, live - {a});
        }
      }
    }

    // vPortFree
    method Free(pv: nat)
      requires Valid()
      requires pv != 0 ==> pxEnd != 0 && pv % UNIT == 0 && pv >= UNIT && pv / UNIT - 1 in live
      modifies mem, `xFreeBytesRemaining, `live, `history
      ensures Valid()
      ensures pv == 0 ==> live == old(live) && history == old(history) && mem[..] == old(mem[..])
      // exactly the block of pv stops being live; the free list is the gap list of the rest
      ensures pv != 0 ==> live == old(live) - {pv / UNIT - 1} && history == old(history) + [xFreeBytesRemaining]
      // the whole payload has been cleared
      ensures pv != 0 ==>
                forall u: nat :: pv / UNIT <= u < pv / UNIT - 1 + old(live)[pv / UNIT - 1].len ==> mem[..][u] == Cell(0, 0)
      // no cell of a remaining live block, and none outside the heap, has changed
      ensures forall u: nat :: u < mem.Length && Foreign(live, Lo(), Hi(), Start(), u) ==> mem[..][u] == old(mem[..])[u]
    {
      if pv != 0 {
        FreeBlock(pv, pv / UNIT - 1);
      }
    }

    /** Between the calls, the owner of a block writes to its payload, whatever it likes. */
    method WritePayload(u: nat, c: Cell, ghost a: nat)
      requires Valid() && a in live && a < u < a + live[a].len
      modifies mem
      ensures Valid() && mem[..] == old(mem[..])[u := c]
      ensures pxEnd != 0 ==> FreeList() == old(FreeList())
    {
      PayloadKeeps(mem[..], mem[..][u := c], Start(), Lo(), Hi(), live);
      mem[u] := c;
    }

    // memmgr_heap_get_max_free_block, the walk
    method LargestBlock(ghost f: seq<Block>) returns (max: nat)
      requires ListIs(f) && Hi() > 0 && forall i :: 0 <= i < |f| ==> f[i].at > 0
      ensures max == UNIT * MaxLen(f, |f|)
    {
      max := 0;
      var block := mem[xStart / UNIT].next;
      ghost var k: nat := 0;
      if |f| > 0 { assert NodeOk(mem[..], f, 0, Hi()); }
      while mem[block / UNIT].next != 0
        invariant k <= |f| && block == UNIT * NodeAt(f, k, Hi()) && block / UNIT < mem.Length
        invariant k < |f| ==> NodeOk(mem[..], f, k, Hi())
        invariant max == UNIT * MaxLen(f, k)
        decreases |f| - k
      {
        if mem[block / UNIT].size > max {
          max := mem[block / UNIT].size;
        }
        block := mem[block / UNIT].next;
        k := k + 1;
        if k < |f| { assert NodeOk(mem[..], f, k, Hi()); }
      }
    }

    // memmgr_heap_get_max_free_block
    method GetMaxFreeBlock() returns (max: nat)
      requires Ready()
      ensures max == UNIT * MaxLen(FreeList(), |FreeList()|)
    {
      GapsMeaning(live, Lo(), Lo(), Hi());
      max := LargestBlock(FreeList());
    }

    lemma Small()
      requires Board()
      ensures Lo() <= Hi() < Lo() + 0x8000 && Hi() < mem.Length
    {
    }

    lemma LivePlaced()
      requires Valid()
      ensures Placed(live, Lo(), Hi()) && Lo() <= Hi() <= mem.Length
    {
    }

    /** Changing who a block is attributed to changes nothing else. */
    ghost method Reattribute(live': LiveMap)
      requires Valid() && SameShape(live, live')
      modifies `live
      ensures Valid() && live == live'
    {
      if pxEnd == 0 {
        live := live';
      } else {
        ReattributeReady(live');
      }
    }

    ghost method ReattributeReady(live': LiveMap)
      requires Ready() && SameShape(live, live')
      modifies `live
      ensures Ready() && live == live'
    {
      ghost var f := FreeList();
      SameShapeReady(mem[..], live, live', Lo(), Hi());
      live := live';
      assert FreeList() == f;
    }
  }

  lemma SameShapeReady(m: seq<Cell>, live: LiveMap, live': LiveMap, lo: nat, hi: nat)
    requires SameShape(live, live') && Placed(live, lo, hi) && Allocated(m, live)
    ensures Placed(live', lo, hi) && Allocated(m, live') && Gaps(live', lo, hi) == Gaps(live, lo, hi)
  {
    SameShapeGaps(live, live', lo, hi);
  }

  lemma MinOfAppend(h: seq<nat>, x: nat)
    requires h != []
    ensures MinOf(h + [x]) == if x < MinOf(h) then x else MinOf(h)
  {
    assert (h + [x])[..|h|] == h;
  }

  /** The cells that taking w units from block k writes. */
  ghost function TakeTouches(f: seq<Block>, k: nat, w: nat, start: nat): set<nat>
    requires k < |f|
  {
    {PrevAt(f, k, start), f[k].at} + if f[k].len > w + 2 then {f[k].at + w} else {}
  }

  lemma TakenAgree(m: seq<Cell>, m1: seq<Cell>, m2: seq<Cell>, f: seq<Block>, k: nat, w: nat, start: nat)
    requires k < |f| && f[k].len > w + 2 && AgreeOff(m, m1, {PrevAt(f, k, start)})
    requires AgreeOff(m1, m2, {PrevAt(f, k, start), f[k].at, f[k].at + w})
    ensures AgreeOff(m, m2, TakeTouches(f, k, w, start)) && UnitsTaken(f[k].len, w) == w
  {
  }

  /** A block is taken whole. */
  lemma TakenWhole(m: seq<Cell>, m1: seq<Cell>, f: seq<Block>, k: nat, w: nat, start: nat)
    requires k < |f| && w <= f[k].len <= w + 2 && AgreeOff(m, m1, {PrevAt(f, k, start)})
    ensures AgreeOff(m, m1, TakeTouches(f, k, w, start)) && UnitsTaken(f[k].len, w) == f[k].len
    ensures Carve(f, k, f[k].len) == f[..k] + f[k + 1..]
  {
  }

  /** They lie in free blocks, or are the list head. */
  lemma TouchesFree(live: LiveMap, lo: nat, hi: nat, start: nat, k: nat, w: nat, u: nat)
    requires Placed(live, lo, hi) && lo <= hi && k < |Gaps(live, lo, hi)| && Separated(Gaps(live, lo, hi))
    requires u in TakeTouches(Gaps(live, lo, hi), k, w, start) && u != start
    ensures !InLive(live, u) && lo <= u < hi
  {
    var f := Gaps(live, lo, hi);
    if u == PrevAt(f, k, start) {
      GapApart(live, lo, hi, k - 1, u);
    } else {
      GapApart(live, lo, hi, k, u);
    }
  }

  /** Writing the allocated header of a taken block completes the step in memory. */
  lemma AllocatedMemory(m0: seq<Cell>, m1: seq<Cell>, m2: seq<Cell>, start: nat, lo: nat, hi: nat,
                        live: LiveMap, k: nat, w: nat, t: Tenant)
    requires Placed(live, lo, hi) && lo <= hi && Allocated(m0, live)
    requires Distinct(start, hi, Gaps(live, lo, hi)) && (start < lo || start > hi)
    requires k < |Gaps(live, lo, hi)| && 1 <= t.len <= Gaps(live, lo, hi)[k].len
    requires Linked(m1, start, hi, Carve(Gaps(live, lo, hi), k, t.len))
    requires AgreeOff(m0, m1, TakeTouches(Gaps(live, lo, hi), k, w, start))
    requires var a := Gaps(live, lo, hi)[k].at;
             a < |m1| && m1[a].size == UNIT * t.len && TOP_BIT + UNIT * t.len < 0x1_0000_0000
             && m2 == m1[a := Cell(0, TOP_BIT + UNIT * t.len)]
    ensures var live' := live[Gaps(live, lo, hi)[k].at := t];
            Linked(m2, start, hi, Gaps(live', lo, hi)) && Allocated(m2, live')
  {
    var f := Gaps(live, lo, hi);
    var a := f[k].at;
    GapsAfterTake(live, lo, hi, k, t);
    GapApart(live, lo, hi, k, a);
    CarveLeaves(f, k, t.len);
    forall i | 0 <= i < |Carve(f, k, t.len)|
      ensures var u := Carve(f, k, t.len)[i].at; u < |m1| && m2[u] == m1[u]
    {
      assert NodeOk(m1, Carve(f, k, t.len), i, hi);
    }
    LinkedFrame(m1, m2, start, hi, Carve(f, k, t.len));
    forall c | c in live && c != a
      ensures c < |m2| && m2[c].next == 0 && m2[c].size == TOP_BIT + UNIT * live[c].len
    {
      assert InLive(live, c);
      if c in TakeTouches(f, k, w, start) { TouchesFree(live, lo, hi, start, k, w, c); }
    }
  }

  lemma CarveLeaves(f: seq<Block>, k: nat, len: nat)
    requires Separated(f) && k < |f| && 1 <= len <= f[k].len
    ensures forall i :: 0 <= i < |Carve(f, k, len)| ==> Carve(f, k, len)[i].at != f[k].at
  {
    forall i | 0 <= i < |Carve(f, k, len)| ensures Carve(f, k, len)[i].at != f[k].at {
      var j := if len == f[k].len && i >= k then i + 1 else i;
      assert j != k ==> Carve(f, k, len)[i] == f[j];
      assert j < k ==> f[j].End() < f[k].at;
      assert j > k ==> f[k].End() < f[j].at;
    }
  }

  /** Clearing n bytes of the payload of live block a disturbs no header. */
  lemma WipeKeeps(m: seq<Cell>, start: nat, lo: nat, hi: nat, live: LiveMap, a: nat, n: nat)
    requires Placed(live, lo, hi) && lo <= hi < |m| && (start < lo || start > hi)
    requires Linked(m, start, hi, Gaps(live, lo, hi)) && Allocated(m, live)
    requires a in live && n + UNIT <= UNIT * live[a].len
    ensures var m' := Wiped(m, a + 1, n); Linked(m', start, hi, Gaps(live, lo, hi)) && Allocated(m', live)
  {
    WipedPayload(m, live, a, n);
    GapsMeaning(live, lo, lo, hi);
    PayloadKeeps(m, Wiped(m, a + 1, n), start, lo, hi, live);
  }

  /** Clearing touches only the payload, whose first n bytes become zero. */
  lemma WipedPayload(m: seq<Cell>, live: LiveMap, a: nat, n: nat)
    requires a in live && a + live[a].len <= |m| && n + UNIT <= UNIT * live[a].len
    ensures var m' := Wiped(m, a + 1, n);
            && (forall x: nat :: UNIT * (a + 1) <= x < UNIT * (a + 1) + n ==> ByteAt(m', x) == 0)
            && forall u: nat :: u < |m| && !(a < u < a + live[a].len) ==> m'[u] == m[u]
  {
    var m' := Wiped(m, a + 1, n);
    forall x: nat | UNIT * (a + 1) <= x < UNIT * (a + 1) + n ensures ByteAt(m', x) == 0 { WipedBytes(m, a + 1, n, x); }
    forall u: nat | u < |m| && !(a < u < a + live[a].len) ensures m'[u] == m[u] {
      if u == a + 1 + n / UNIT { assert n % UNIT == 0; }
    }
  }

  /** u is a cell of a live block behind its header. */
  ghost predicate Payload(live: LiveMap, u: nat) {
    exists a :: a in live && a < u < a + live[a].len
  }

  /** Whatever the owners of the live blocks write to their payloads, the free list and all headers stay. */
  lemma PayloadKeeps(m: seq<Cell>, m': seq<Cell>, start: nat, lo: nat, hi: nat, live: LiveMap)
    requires Placed(live, lo, hi) && lo <= hi < |m| && (start < lo || start > hi) && Separated(Gaps(live, lo, hi))
    requires Linked(m, start, hi, Gaps(live, lo, hi)) && Allocated(m, live)
    requires |m'| == |m| && forall u: nat :: u < |m| && !Payload(live, u) ==> m'[u] == m[u]
    ensures Linked(m', start, hi, Gaps(live, lo, hi)) && Allocated(m', live)
  {
    var f := Gaps(live, lo, hi);
    forall i | 0 <= i < |f| ensures f[i].at < |m| && m'[f[i].at] == m[f[i].at] {
      assert NodeOk(m, f, i, hi);
      GapApart(live, lo, hi, i, f[i].at);
      PayloadInLive(live, f[i].at);
    }
    PayloadInside(live, lo, hi, start);
    PayloadInside(live, lo, hi, hi);
    LinkedFrame(m, m', start, hi, f);
    forall c | c in live ensures m'[c] == m[c] { HeaderNoPayload(live, lo, hi, c); }
  }

  lemma PayloadInLive(live: LiveMap, u: nat)
    ensures Payload(live, u) ==> InLive(live, u)
  {
  }

  lemma PayloadInside(live: LiveMap, lo: nat, hi: nat, u: nat)
    requires Placed(live, lo, hi) && (u < lo || u >= hi)
    ensures !Payload(live, u)
  {
  }

  lemma HeaderNoPayload(live: LiveMap, lo: nat, hi: nat, c: nat)
    requires Placed(live, lo, hi) && c in live
    ensures !Payload(live, c)
  {
  }

  /** A unit outside the gap that is taken and the markers is not written. */
  lemma TakeApart(live: LiveMap, lo: nat, hi: nat, start: nat, k: nat, w: nat, u: nat)
    requires Placed(live, lo, hi) && lo <= hi && k < |Gaps(live, lo, hi)| && Separated(Gaps(live, lo, hi))
    requires Foreign(live, lo, hi, start, u)
    ensures u !in TakeTouches(Gaps(live, lo, hi), k, w, start)
    ensures !(Gaps(live, lo, hi)[k].at <= u < Gaps(live, lo, hi)[k].End())
  {
    if u in TakeTouches(Gaps(live, lo, hi), k, w, start) { TouchesFree(live, lo, hi, start, k, w, u); }
    if Gaps(live, lo, hi)[k].at <= u < Gaps(live, lo, hi)[k].End() { GapApart(live, lo, hi, k, u); }
  }

  lemma GrantedPlaced(live: LiveMap, lo: nat, hi: nat, n: nat, thread: nat, traced: bool, a: nat, live': LiveMap)
    requires Placed(live, lo, hi) && lo <= hi && n > 0
    requires Granted(live, Gaps(live, lo, hi), n, thread, traced, a, live')
    ensures Placed(live', lo, hi) && a !in live && a in live' && n + UNIT <= UNIT * live'[a].len
  {
    var f := Gaps(live, lo, hi);
    var k := FirstFit(f, UnitsFor(n));
    TakePlaced(live, lo, hi, k, live'[f[k].at]);
  }

  /** Neither taking the block nor clearing its payload writes to a foreign unit. */
  lemma GrantApart(m1: seq<Cell>, m2: seq<Cell>, m3: seq<Cell>, start: nat, lo: nat, hi: nat, live: LiveMap,
                   n: nat, thread: nat, traced: bool, a: nat, live': LiveMap)
    requires Placed(live, lo, hi) && lo <= hi && n > 0 && Separated(Gaps(live, lo, hi))
    requires Granted(live, Gaps(live, lo, hi), n, thread, traced, a, live')
    requires var f := Gaps(live, lo, hi);
             AgreeOff(m1, m2, TakeTouches(f, FirstFit(f, UnitsFor(n)), UnitsFor(n), start))
    requires |m3| == |m2|
    requires forall u: nat :: u < |m2| && !(a < u < a + live'[a].len) ==> m3[u] == m2[u]
    ensures forall u: nat :: u < |m1| && Foreign(live, lo, hi, start, u) ==> m3[u] == m1[u]
  {
    var f := Gaps(live, lo, hi);
    forall u: nat | u < |m1| && Foreign(live, lo, hi, start, u) ensures m3[u] == m1[u] {
      TakeApart(live, lo, hi, start, FirstFit(f, UnitsFor(n)), UnitsFor(n), u);
    }
  }

  /** The payload of block a is zero, and nothing outside the block has changed. */
  ghost predicate Cleared(m: seq<Cell>, m': seq<Cell>, a: nat, len: nat) {
    && |m'| == |m|
    && (forall u: nat :: a < u < a + len && u < |m| ==> m'[u] == Cell(0, 0))
    && (forall u: nat :: u < |m| && !(a <= u < a + len) ==> m'[u] == m[u])
  }

  /** Clearing the allocated bit and the payload of a live block leaves the free list and
      every other live header alone. */
  lemma ReleasedHeader(m0: seq<Cell>, m1: seq<Cell>, m2: seq<Cell>, start: nat, lo: nat, hi: nat, live: LiveMap, a: nat)
    requires Placed(live, lo, hi) && lo <= hi < |m0| && (start < lo || start > hi)
    requires Linked(m0, start, hi, Gaps(live, lo, hi)) && a in live && a < |m0| && UNIT * hi < 0x1_0000_0000
    requires m1 == m0[a := m0[a].(size := UNIT * live[a].len)]
    requires m2 == Wiped(m1, a + 1, UNIT * live[a].len - UNIT)
    ensures Linked(m2, start, hi, Gaps(live, lo, hi)) && m2[a].size == UNIT * live[a].len
    ensures Cleared(m0, m2, a, live[a].len)
  {
    forall u: nat | u < |m0| && !(a <= u < a + live[a].len) ensures m2[u] == m0[u] {
      assert m2[u] == WipedCell(m1[u], u, a + 1, UNIT * live[a].len - UNIT);
    }
    forall u: nat | a < u < a + live[a].len && u < |m0| ensures m2[u] == Cell(0, 0) {
      assert m2[u] == WipedCell(m1[u], u, a + 1, UNIT * live[a].len - UNIT);
    }
    assert m2[a] == WipedCell(m1[a], a, a + 1, UNIT * live[a].len - UNIT);
    var f := Gaps(live, lo, hi);
    forall i | 0 <= i < |f| ensures f[i].at < |m0| && m2[f[i].at] == m0[f[i].at] {
      GapsMeaning(live, lo, lo, hi);
      GapApart(live, lo, hi, i, f[i].at);
    }
    LinkedFrame(m0, m2, start, hi, f);
  }

  lemma ReleasedGaps(live: LiveMap, lo: nat, hi: nat, a: nat)
    requires Placed(live, lo, hi) && lo <= hi && a in live && Separated(Gaps(live, lo, hi))
    ensures Placed(live - {a}, lo, hi)
    ensures var f := Gaps(live, lo, hi);
            Gaps(live - {a}, lo, hi) == Splice(f, Rank(f, a), Block(a, live[a].len))
    ensures SumLen(Gaps(live - {a}, lo, hi)) == SumLen(Gaps(live, lo, hi)) + live[a].len
  {
    var f := Gaps(live, lo, hi);
    LiveFits(live, lo, hi, a);
    GapsAfterFree(live, lo, hi, a, Rank(f, a));
    SumLenSplice(f, Rank(f, a), Block(a, live[a].len));
  }

  /** Once the block has been inserted into the free list the step is complete in memory. */
  lemma ReleasedMemory(m0: seq<Cell>, m2: seq<Cell>, m3: seq<Cell>, start: nat, lo: nat, hi: nat, live: LiveMap, a: nat)
    requires Placed(live, lo, hi) && lo <= hi < |m0| && (start < lo || start > hi) && a in live
    requires Separated(Gaps(live, lo, hi)) && Allocated(m0, live)
    requires Cleared(m0, m2, a, live[a].len)
    requires AgreeOff(m2, m3, {PrevAt(Gaps(live, lo, hi), Rank(Gaps(live, lo, hi), a), start), a})
    ensures Allocated(m3, live - {a})
    ensures Gaps(live - {a}, lo, hi) == Splice(Gaps(live, lo, hi), Rank(Gaps(live, lo, hi), a), Block(a, live[a].len))
    ensures forall u: nat :: a < u < a + live[a].len && u < |m0| ==> m3[u] == Cell(0, 0)
    ensures forall u: nat :: u < |m0| && Foreign(live - {a}, lo, hi, start, u) ==> m3[u] == m0[u]
  {
    ReleasedPayloads(m0, m2, m3, start, lo, hi, live, a);
    ReleasedGaps(live, lo, hi, a);
    ReleasedForeign(m0, m2, m3, start, lo, hi, live, a);
    ReleasedHeaders(m0, m3, start, lo, hi, live, a);
  }

  lemma ReleasedPayloads(m0: seq<Cell>, m2: seq<Cell>, m3: seq<Cell>, start: nat, lo: nat, hi: nat, live: LiveMap, a: nat)
    requires Placed(live, lo, hi) && lo <= hi < |m0| && (start < lo || start > hi) && a in live && Separated(Gaps(live, lo, hi))
    requires Cleared(m0, m2, a, live[a].len)
    requires AgreeOff(m2, m3, {PrevAt(Gaps(live, lo, hi), Rank(Gaps(live, lo, hi), a), start), a})
    ensures forall u: nat :: a < u < a + live[a].len && u < |m0| ==> m3[u] == Cell(0, 0)
  {
    forall u: nat | a < u < a + live[a].len && u < |m0| ensures m3[u] == Cell(0, 0) {
      ReleasedPayload(live, lo, hi, start, a, u);
    }
  }

  lemma ReleasedForeign(m0: seq<Cell>, m2: seq<Cell>, m3: seq<Cell>, start: nat, lo: nat, hi: nat, live: LiveMap, a: nat)
    requires Placed(live, lo, hi) && lo <= hi < |m0| && a in live && Separated(Gaps(live, lo, hi))
    requires Cleared(m0, m2, a, live[a].len)
    requires AgreeOff(m2, m3, {PrevAt(Gaps(live, lo, hi), Rank(Gaps(live, lo, hi), a), start), a})
    ensures forall u: nat :: u < |m0| && Foreign(live - {a}, lo, hi, start, u) ==> m3[u] == m0[u]
  {
    forall u: nat | u < |m0| && Foreign(live - {a}, lo, hi, start, u) ensures m3[u] == m0[u] {
      ReleaseApart(live, lo, hi, start, a, u);
      assert u != a && m3[u] == m2[u];
    }
  }

  lemma ReleasedHeaders(m0: seq<Cell>, m3: seq<Cell>, start: nat, lo: nat, hi: nat, live: LiveMap, a: nat)
    requires Placed(live, lo, hi) && lo <= hi < |m0| == |m3| && Allocated(m0, live) && (start < lo || start > hi)
    requires forall u: nat :: u < |m0| && Foreign(live - {a}, lo, hi, start, u) ==> m3[u] == m0[u]
    ensures Allocated(m3, live - {a})
  {
    forall c | c in live - {a} ensures c < |m3| && m3[c] == m0[c] {
      assert InLive(live - {a}, c);
      assert Foreign(live - {a}, lo, hi, start, c);
    }
  }

  lemma ReleasedPayload(live: LiveMap, lo: nat, hi: nat, start: nat, a: nat, u: nat)
    requires Placed(live, lo, hi) && lo <= hi && (start < lo || start > hi) && a in live && Separated(Gaps(live, lo, hi))
    requires a < u < a + live[a].len
    ensures u != PrevAt(Gaps(live, lo, hi), Rank(Gaps(live, lo, hi), a), start)
  {
    LiveFits(live, lo, hi, a);
  }

  lemma ReleaseApart(live: LiveMap, lo: nat, hi: nat, start: nat, a: nat, u: nat)
    requires Placed(live, lo, hi) && lo <= hi && a in live && Separated(Gaps(live, lo, hi))
    requires Foreign(live - {a}, lo, hi, start, u)
    ensures !(a <= u < a + live[a].len)
    ensures u != PrevAt(Gaps(live, lo, hi), Rank(Gaps(live, lo, hi), a), start)
  {
    var f := Gaps(live, lo, hi);
    var k := Rank(f, a);
    if InLive(live - {a}, u) {
      var c :| c in live - {a} && c <= u < c + live[c].len;
      assert InLive(live, u);
    }
    if k > 0 && u == f[k - 1].at { GapApart(live, lo, hi, k - 1, u); }
  }

  lemma {:induction false} MaxLenMeaning(f: seq<Block>, k: nat)
    requires k <= |f|
    ensures forall i :: 0 <= i < k ==> f[i].len <= MaxLen(f, k)
    ensures MaxLen(f, k) == 0 || exists i :: 0 <= i < k && f[i].len == MaxLen(f, k)
  {
    if k > 0 {
      MaxLenMeaning(f, k - 1);
    }
  }

  /** The largest free block decides every request. */
  lemma MaxLenDecides(f: seq<Block>, n: nat)
    ensures Refused(f, n) <==> n == 0 || n >= TOP_BIT || UNIT * UnitsFor(n) > UNIT * MaxLen(f, |f|)
  {
    MaxLenMeaning(f, |f|);
    if UnitsFor(n) <= MaxLen(f, |f|) {
      var i :| 0 <= i < |f| && f[i].len == MaxLen(f, |f|);
    }
  }

  lemma FirstFitIs(f: seq<Block>, w: nat, k: nat)
    requires k <= |f| && (forall i :: 0 <= i < k ==> f[i].len < w) && (k < |f| ==> f[k].len >= w)
    ensures FirstFit(f, w) == k
  {
  }
}
