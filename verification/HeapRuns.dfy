/** Whole runs of the allocator, on the set of live blocks that its methods are specified by:
    what holds after any sequence of requests and releases. */
module HeapRuns {
  import opened HeapBlocks
  import opened HeapMemory
  import opened Heap

  datatype Op = Request(n: nat, thread: nat) | Release(a: nat)

  /** One operation. A request that is refused, or the release of a unit that starts no live
      block, changes nothing. */
  ghost function Step(live: LiveMap, op: Op, lo: nat, hi: nat): LiveMap {
    match op
    case Request(n, thread) =>
      var f := Gaps(live, lo, hi);
      var k := FirstFit(f, UnitsFor(n));
      if n == 0 || n >= TOP_BIT || k == |f| then live
      else live[f[k].at := TenantFor(f[k].len, n, thread, false)]
    case Release(a) => live - {a}
  }

  ghost function Run(live: LiveMap, ops: seq<Op>, lo: nat, hi: nat): LiveMap
    decreases |ops|
  {
    if ops == [] then live else Run(Step(live, ops[0], lo, hi), ops[1..], lo, hi)
  }

  /** The step of a run is what Heap.Malloc is specified to do. */
  lemma RequestStep(live: LiveMap, lo: nat, hi: nat, n: nat, thread: nat, a: nat, live': LiveMap)
    ensures Refused(Gaps(live, lo, hi), n) ==> Step(live, Request(n, thread), lo, hi) == live
    ensures !Refused(Gaps(live, lo, hi), n) && Granted(live, Gaps(live, lo, hi), n, thread, false, a, live')
            ==> Step(live, Request(n, thread), lo, hi) == live'
  {
    var f := Gaps(live, lo, hi);
    var k := FirstFit(f, UnitsFor(n));
    if k < |f| { assert HasRoom(f, UnitsFor(n)); }
  }

  // ---------------------------------------------------------------- invariants of every run

  lemma StepPlaced(live: LiveMap, op: Op, lo: nat, hi: nat)
    requires Placed(live, lo, hi) && lo <= hi
    ensures Placed(Step(live, op, lo, hi), lo, hi)
  {
    match op
    case Request(n, thread) =>
      var f := Gaps(live, lo, hi);
      var k := FirstFit(f, UnitsFor(n));
      if n != 0 && n < TOP_BIT && k < |f| {
        TakePlaced(live, lo, hi, k, TenantFor(f[k].len, n, thread, false));
      }
    case Release(a) =>
  }

  lemma {:induction false} RunPlaced(live: LiveMap, ops: seq<Op>, lo: nat, hi: nat)
    requires Placed(live, lo, hi) && lo <= hi
    ensures Placed(Run(live, ops, lo, hi), lo, hi)
    decreases |ops|
  {
    if ops != [] {
      StepPlaced(live, ops[0], lo, hi);
      RunPlaced(Step(live, ops[0], lo, hi), ops[1..], lo, hi);
    }
  }

  /** The units of the live blocks from x on. */
  ghost function LiveUnits(live: LiveMap, x: nat, hi: nat): nat
    decreases hi - x
  {
    if x >= hi then 0
    else if x in live && live[x].len >= 1 then live[x].len + LiveUnits(live, x + live[x].len, hi)
    else LiveUnits(live, x + 1, hi)
  }

  /** No unit is lost: free and live lengths always add up to the heap. */
  lemma {:induction false} Conservation(live: LiveMap, lo: nat, x: nat, hi: nat)
    requires Placed(live, lo, hi) && lo <= x <= hi && Boundary(live, x)
    ensures SumLen(Gaps(live, x, hi)) + LiveUnits(live, x, hi) == hi - x
    decreases hi - x
  {
    if x >= hi {
    } else if x in live {
      Conservation(live, lo, x + live[x].len, hi);
    } else {
      Conservation(live, lo, x + 1, hi);
      SumLenPrepend(x, Gaps(live, x + 1, hi));
    }
  }

  lemma SumLenPrepend(x: nat, rest: seq<Block>)
    ensures SumLen(Prepend(x, rest)) == SumLen(rest) + 1
  {
    if rest != [] && rest[0].at == x + 1 {
      assert Prepend(x, rest)[1..] == rest[1..];
    } else {
      assert Prepend(x, rest)[1..] == rest;
    }
  }

  /** After any run from the empty heap, the free list is strictly address-ordered, no two free
      blocks touch, every unit of the heap lies in exactly one of the free and live blocks, and
      the lengths add up. */
  lemma AnyRunTilesTheHeap(ops: seq<Op>, lo: nat, hi: nat)
    requires lo <= hi
    ensures var live := Run(map[], ops, lo, hi);
            var f := Gaps(live, lo, hi);
            && Placed(live, lo, hi) && Separated(f) && Within(f, lo, hi)
            && (forall x: nat :: lo <= x < hi ==> (Covered(f, x) <==> !InLive(live, x)))
            && SumLen(f) + LiveUnits(live, lo, hi) == hi - lo
  {
    RunPlaced(map[], ops, lo, hi);
    var live := Run(map[], ops, lo, hi);
    GapsMeaning(live, lo, lo, hi);
    Conservation(live, lo, lo, hi);
  }

  /** Two heaps over the same area with the same live blocks have the same free list and the
      same number of free bytes, however they got there. */
  lemma FreeListIndependentOfHistory(h1: Heap, h2: Heap)
    requires h1.Ready() && h2.Ready() && h1.Lo() == h2.Lo() && h1.Hi() == h2.Hi()
    requires SameShape(h1.live, h2.live)
    ensures h1.FreeList() == h2.FreeList() && h1.xFreeBytesRemaining == h2.xFreeBytesRemaining
    ensures forall n: nat :: Refused(h1.FreeList(), n) <==> Refused(h2.FreeList(), n)
  {
    SameShapeGaps(h1.live, h2.live, h1.Lo(), h1.Hi());
  }

  // ---------------------------------------------------------------- undoing

  /** Releasing a block just obtained restores the live blocks, and so the free list and the
      free byte count, whether or not the gap was split. */
  lemma ReleaseUndoesRequest(live: LiveMap, lo: nat, hi: nat, n: nat, thread: nat, traced: bool, a: nat, live': LiveMap)
    requires Placed(live, lo, hi) && lo <= hi && n > 0
    requires Granted(live, Gaps(live, lo, hi), n, thread, traced, a, live')
    ensures Step(live', Release(a), lo, hi) == live
    ensures Gaps(live' - {a}, lo, hi) == Gaps(live, lo, hi)
    ensures SumLen(Gaps(live', lo, hi)) < SumLen(Gaps(live, lo, hi))
  {
    var f := Gaps(live, lo, hi);
    var k := FirstFit(f, UnitsFor(n));
    GrantedPlaced(live, lo, hi, n, thread, traced, a, live');
    GapsAfterTake(live, lo, hi, k, live'[a]);
    SumLenCarve(f, k, live'[a].len);
    assert live' - {a} == live;
  }

  /** The operations that release the given units one after the other. */
  function Releases(order: seq<nat>): (ops: seq<Op>)
    ensures |ops| == |order|
  {
    if order == [] then [] else [Release(order[0])] + Releases(order[1..])
  }

  lemma {:induction false} ReleasesRemove(live: LiveMap, order: seq<nat>, lo: nat, hi: nat)
    ensures Run(live, Releases(order), lo, hi).Keys == live.Keys - (set a | a in order)
    decreases |order|
  {
    if order != [] {
      assert Releases(order)[1..] == Releases(order[1..]);
      ReleasesRemove(live - {order[0]}, order[1..], lo, hi);
      assert (set a | a in order) == {order[0]} + (set a | a in order[1..]);
    }
  }

  /** Once every live block has been released, in any order and after any run, the heap is the
      single initial block again. */
  lemma AllReleasedIsInitial(ops: seq<Op>, order: seq<nat>, lo: nat, hi: nat)
    requires lo < hi
    requires forall a :: a in Run(map[], ops, lo, hi) ==> a in order
    ensures Gaps(Run(map[], ops + Releases(order), lo, hi), lo, hi) == [Block(lo, hi - lo)]
  {
    var live := Run(map[], ops, lo, hi);
    RunConcat(map[], ops, Releases(order), lo, hi);
    ReleasesRemove(live, order, lo, hi);
    assert Run(live, Releases(order), lo, hi).Keys == {};
    assert Run(live, Releases(order), lo, hi) == map[];
    GapsOfNothing(lo, hi);
  }

  lemma {:induction false} RunConcat(live: LiveMap, ops: seq<Op>, more: seq<Op>, lo: nat, hi: nat)
    ensures Run(live, ops + more, lo, hi) == Run(Run(live, ops, lo, hi), more, lo, hi)
    decreases |ops|
  {
    if ops == [] {
      assert ops + more == more;
    } else {
      assert (ops + more)[1..] == ops[1..] + more;
      RunConcat(Step(live, ops[0], lo, hi), ops[1..], more, lo, hi);
    }
  }
}
