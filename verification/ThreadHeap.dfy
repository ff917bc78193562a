/** The heap as the threads see it: every allocation and release is traced under the thread
    that performs it, and a thread's live memory can be queried. */
module ThreadHeap {
  import opened HeapBlocks
  import opened HeapMemory
  import opened HeapTrace
  import opened Heap

  const UNKNOWN := 0xFFFF_FFFF  // MEMMGR_HEAP_UNKNOWN

  /** The header in front of payload address p has the allocated bit and a null next pointer. */
  ghost predicate LooksLive(m: seq<Cell>, p: nat) {
    UNIT <= p && p / UNIT <= |m| && m[p / UNIT - 1].size >= TOP_BIT && m[p / UNIT - 1].next == 0
  }

  /** What the query adds for a key of dictionary d. */
  ghost function Counted(d: map<nat, nat>, m: seq<Cell>): nat -> nat {
    p => if p in d && p != 0 && LooksLive(m, p) then d[p] else 0
  }

  /** The entries that belong to no block of t: its block was freed by another thread. */
  ghost function StaleKeys(d: map<nat, nat>, live: LiveMap, t: nat): set<nat> {
    set p | p in d && p != 0 && !Entry(live, t, p, d[p])
  }

  /** What the query adds for such entries, whose headers may look live by chance. */
  ghost function StaleSum(d: map<nat, nat>, m: seq<Cell>, live: LiveMap, t: nat): nat {
    SumBy(StaleKeys(d, live, t), Counted(d, m))
  }

  /** The other entries are exactly t's blocks. */
  lemma OwnEntriesCounted(d: map<nat, nat>, m: seq<Cell>, live: LiveMap, t: nat)
    requires OwnListed(d, live, t) && Allocated(m, live)
    ensures KeysFrom(d.Keys - StaleKeys(d, live, t), Counted(d, m), live, t, 0)
  {
    var own := d.Keys - StaleKeys(d, live, t);
    forall p: nat | p in own && p != 0
      ensures Entry(live, t, p, Counted(d, m)(p)) && UNIT <= p
    {
      assert Entry(live, t, p, d[p]) && LooksLive(m, p);
    }
    forall a: nat | Owned(live, t, a) ensures KeyListed(own, a) {
      assert Listed(d, a);
      assert Entry(live, t, UNIT * (a + 1), d[UNIT * (a + 1)]);
    }
  }

  /** Whoever frees: the entries add up to what the thread's live traced blocks were charged, and to
      what the stale ones add. */
  lemma LeftoversAre(d: map<nat, nat>, m: seq<Cell>, live: LiveMap, t: nat, lo: nat, hi: nat)
    requires OwnListed(d, live, t) && Allocated(m, live) && Placed(live, lo, hi) && lo <= hi
    ensures SumBy(d.Keys, Counted(d, m)) == ChargedTo(live, t, lo, hi) + StaleSum(d, m, live, t)
  {
    OwnEntriesCounted(d, m, live, t);
    SumBySplit(d.Keys, StaleKeys(d, live, t), Counted(d, m));
    KeysSum(d.Keys - StaleKeys(d, live, t), Counted(d, m), live, t, 0, hi);
    NothingBelow(live, t, lo, 0, hi);
  }

  /** They fit in 32 bits, and are exact if and only if no stale entry lies at an address whose header
      looks live. */
  lemma LeftoversExactIff(d: map<nat, nat>, m: seq<Cell>, live: LiveMap, t: nat, lo: nat, hi: nat)
    requires OwnListed(d, live, t) && Allocated(m, live) && Placed(live, lo, hi) && lo <= hi < lo + 0x8000
    requires AllRecorded(d, lo, hi)
    ensures SumBy(d.Keys, Counted(d, m)) < 0x1_0000_0000
    ensures SumBy(d.Keys, Counted(d, m)) == ChargedTo(live, t, lo, hi)
            <==> forall p <- StaleKeys(d, live, t) :: !LooksLive(m, p)
  {
    var v := Counted(d, m);
    LeftoversAre(d, m, live, t, lo, hi);
    SumIsZero(StaleKeys(d, live, t), v);
    forall p | p in StaleKeys(d, live, t) ensures v(p) == 0 <==> !LooksLive(m, p) {
      assert Recorded(p, d[p], lo, hi);
    }
    CountedWithin(d, m, lo, hi);
    SumFits(d.Keys, v, lo, hi);
  }

  lemma CountedWithin(d: map<nat, nat>, m: seq<Cell>, lo: nat, hi: nat)
    requires AllRecorded(d, lo, hi)
    ensures KeysWithin(d.Keys, Counted(d, m), lo, hi)
  {
    forall p: nat | p in d.Keys && p != 0 ensures KeyWithin(p, Counted(d, m)(p), lo, hi) {
      assert Recorded(p, d[p], lo, hi);
    }
  }

  /** In particular if nobody else has freed a traced block of the thread. */
  lemma NothingStale(d: map<nat, nat>, m: seq<Cell>, live: LiveMap, t: nat)
    requires Records(d, live, t)
    ensures StaleKeys(d, live, t) == {} && StaleSum(d, m, live, t) == 0
  {
    assert forall p :: p in d && p != 0 ==> Entry(live, t, p, d[p]);
  }

  lemma QueryMeaning(tr: Trace, live: LiveMap, strayed: set<nat>, t: nat, m: seq<Cell>, lo: nat, hi: nat)
    requires Traced(tr, live, strayed, lo, hi) && t in tr && Allocated(m, live)
    requires Placed(live, lo, hi) && lo <= hi < lo + 0x8000
    ensures var sum := SumBy(tr[t].Keys, Counted(tr[t], m));
            && sum % 0x1_0000_0000 == sum == ChargedTo(live, t, lo, hi) + StaleSum(tr[t], m, live, t)
            && (sum == ChargedTo(live, t, lo, hi) <==> forall p <- StaleKeys(tr[t], live, t) :: !LooksLive(m, p))
    ensures t !in strayed ==> StaleKeys(tr[t], live, t) == {}
  {
    LeftoversAre(tr[t], m, live, t, lo, hi);
    LeftoversExactIff(tr[t], m, live, t, lo, hi);
    if t !in strayed { NothingStale(tr[t], m, live, t); }
  }

  lemma {:induction false} NothingBelow(live: LiveMap, t: nat, lo: nat, x: nat, hi: nat)
    requires Placed(live, lo, hi) && x <= lo <= hi
    ensures ChargedTo(live, t, x, hi) == ChargedTo(live, t, lo, hi)
    decreases lo - x
  {
    if x < lo {
      NothingBelow(live, t, lo, x + 1, hi);
    }
  }

  ghost predicate DictInMemory(d: map<nat, nat>, cells: nat) {
    forall p :: p in d && p != 0 ==> p % UNIT == 0 && UNIT <= p && p / UNIT <= cells
  }

  /** leftovers += size, on a 32-bit counter that stands for `done`. */
  function AddWord32(leftovers: nat, size: nat, ghost done: nat): (r: nat)
    requires leftovers == done % 0x1_0000_0000
    ensures r == (done + size) % 0x1_0000_0000
  {
    (leftovers + size) % 0x1_0000_0000
  }

  class ThreadHeap {
    const heap: Heap
    /** memmgr_heap_thread_dict. */
    var trace: Trace
    /** The threads that had a traced block freed by another thread. */
    ghost var strayed: set<nat>

    ghost predicate Valid()
      reads this, heap, heap.mem
    {
      && heap.Valid()
      && Traced(trace, heap.live, strayed, heap.Lo(), heap.Hi())
      && (heap.pxEnd == 0 ==> trace == map[])
    }

    constructor (heap: Heap)
      requires heap.Valid() && heap.pxEnd == 0
      ensures Valid() && this.heap == heap && trace == map[]
    {
      this.heap, trace, strayed := heap, map[], {};
    }

    // pvPortMalloc with traceMALLOC
    method Malloc(thread: nat, n: Word) returns (p: nat, ghost a: nat)
      requires Valid()
      modifies this`trace, heap, heap.mem
      ensures Valid()
      ensures p == 0 <==> Refused(old(heap.FreeList()), n)
      ensures p == 0 ==> heap.live == old(heap.live)
      ensures p != 0 ==> p == UNIT * (a + 1)
                         && Granted(old(heap.live), old(heap.FreeList()), n, thread, thread in old(trace), a, heap.live)
                         && trace == OnMalloc(old(trace), thread, p, UNIT * UnitsFor(n))
      // the address is listed with the rounded request, if the thread is traced, and no other entry changes
      ensures p != 0 && thread !in old(trace) ==> trace == old(trace)
      ensures p != 0 && thread in old(trace) ==>
                var d: map<nat, nat> := old(trace)[thread];
                trace == old(trace)[thread := d[p := UNIT * UnitsFor(n)]]
    {
      var wanted;
      heap.LivePlaced();
      ghost var live, lo, hi := heap.live, heap.Lo(), heap.Hi();
      p, wanted, a := heap.Malloc(n, thread, thread in trace);
      if p != 0 {
        TracedAfterMalloc(trace, live, strayed, thread, lo, hi, n, a, heap.live);
      } else {
        FailedMallocKeepsTraced(trace, live, strayed, thread, wanted, lo, hi);
      }
      trace := OnMalloc(trace, thread, p, wanted);
    }

    // vPortFree with traceFREE, for the payload address of live block a
    method FreeLive(thread: nat, pv: nat, ghost a: nat)
      requires Valid() && heap.pxEnd != 0 && a in heap.live && pv == UNIT * (a + 1)
      modifies this, heap, heap.mem
      ensures Valid()
      ensures heap.live == old(heap.live) - {a} && strayed == StrayedBy(old(heap.live), old(strayed), thread, a)
      ensures trace == OnFree(old(trace), thread, pv)
    {
      FreeKeepsTraced(trace, heap.live, strayed, thread, a, heap.Lo(), heap.Hi());
      strayed := StrayedBy(heap.live, strayed, thread, a);
      heap.FreeBlock(pv, a);
      trace := OnFree(trace, thread, pv);
    }

    // vPortFree with traceFREE; any thread may free any block
    method Free(thread: nat, pv: nat)
      requires Valid()
      requires pv != 0 ==> heap.pxEnd != 0 && pv % UNIT == 0 && pv >= UNIT && pv / UNIT - 1 in heap.live
      modifies this, heap, heap.mem
      ensures Valid()
      ensures pv == 0 ==> heap.live == old(heap.live) && strayed == old(strayed) && trace == old(trace)
      ensures pv != 0 ==> heap.live == old(heap.live) - {pv / UNIT - 1}
                          && strayed == StrayedBy(old(heap.live), old(strayed), thread, pv / UNIT - 1)
                          && trace == OnFree(old(trace), thread, pv)
      // the address is no longer listed for the thread that frees it, and nothing else changes in the index
      ensures pv != 0 && thread !in old(trace) ==> trace == old(trace)
      ensures pv != 0 && thread in old(trace) ==>
                var d: map<nat, nat> := old(trace)[thread];
                trace == old(trace)[thread := d - {pv}]
      // and nobody strays when a thread frees its own blocks, or untraced ones
      ensures pv != 0 ==>
                var b := old(heap.live)[pv / UNIT - 1];
                strayed == if b.traced && b.owner != thread then old(strayed) + {b.owner} else old(strayed)
    {
      if pv != 0 {
        FreeLive(thread, pv, pv / UNIT - 1);
      }
    }

    // memmgr_heap_enable_thread_trace; the check crashes when the thread is already traced
    method EnableTrace(thread: nat)
      requires Valid() && heap.pxEnd != 0 && thread != 0 && thread !in trace
      modifies this
      ensures Valid() && trace == old(trace)[thread := map[]] && strayed == old(strayed) - {thread}
    {
      EnableKeepsExact(trace, heap.live, strayed, thread);
      trace := trace[thread := map[]];
      strayed := strayed - {thread};
    }

    // memmgr_heap_disable_thread_trace; the check crashes when the thread is not traced
    method DisableTrace(thread: nat)
      requires Valid() && heap.pxEnd != 0 && thread in trace
      modifies this, heap`live
      ensures Valid() && trace == old(trace) - {thread} && strayed == old(strayed) - {thread}
      ensures heap.live == OnDisable(old(heap.live), thread) && SameShape(old(heap.live), heap.live)
    {
      ghost var live := OnDisable(heap.live, thread);
      DisableKeepsTraced(trace, heap.live, strayed, thread, heap.Lo(), heap.Hi());
      heap.Reattribute(live);
      trace := trace - {thread};
      strayed := strayed - {thread};
    }

    /** And any thread may write to the payload of its blocks in between. */
    method WritePayload(u: nat, c: Cell, ghost a: nat)
      requires Valid() && a in heap.live && a < u < a + heap.live[a].len
      modifies heap.mem
      ensures Valid() && heap.mem[..] == old(heap.mem[..])[u := c]
    {
      heap.WritePayload(u, c, a);
    }

    // memmgr_heap_get_thread_memory, the test on one key
    method HeaderLooksLive(p: nat) returns (b: bool)
      requires heap.xBlockAllocatedBit == TOP_BIT && (p != 0 ==> p % UNIT == 0 && UNIT <= p && p / UNIT <= heap.mem.Length)
      ensures b <==> p != 0 && LooksLive(heap.mem[..], p)
      ensures b <==> p != 0 && heap.mem[p / UNIT - 1].size >= TOP_BIT && heap.mem[p / UNIT - 1].next == 0
    {
      b := false;
      if p != 0 {
        var link := p - UNIT;
        b := heap.HasAllocatedBit(heap.mem[link / UNIT].size);
        b := b && heap.mem[link / UNIT].next == 0;
      }
    }

    // memmgr_heap_get_thread_memory, one key
    method AddEntry(d: map<nat, nat>, rest: set<nat>, leftovers: nat, ghost v: nat -> nat, ghost done: nat)
      returns (rest': set<nat>, leftovers': nat, ghost done': nat)
      requires heap.xBlockAllocatedBit == TOP_BIT && DictInMemory(d, heap.mem.Length) && rest <= d.Keys && rest != {}
      requires v == Counted(d, heap.mem[..]) && leftovers == done % 0x1_0000_0000
      ensures rest' < rest && leftovers' == done' % 0x1_0000_0000
      ensures done' + SumBy(rest', v) == done + SumBy(rest, v)
    {
      var p :| p in rest;
      SumByRemove(rest, v, p);
      var counted := HeaderLooksLive(p);
      leftovers' := AddWord32(leftovers, if counted then d[p] else 0, done);
      done' := done + v(p);
      rest' := rest - {p};
    }

    // memmgr_heap_get_thread_memory, the walk over the dictionary of the thread
    method SumLeftovers(d: map<nat, nat>) returns (leftovers: nat)
      requires heap.xBlockAllocatedBit == TOP_BIT && DictInMemory(d, heap.mem.Length)
      ensures leftovers == SumBy(d.Keys, Counted(d, heap.mem[..])) % 0x1_0000_0000
    {
      leftovers := 0;
      var rest := d.Keys;
      ghost var v := Counted(d, heap.mem[..]);
      ghost var done: nat := 0;
      while rest != {}
        invariant rest <= d.Keys && leftovers == done % 0x1_0000_0000
        invariant done + SumBy(rest, v) == SumBy(d.Keys, v)
        decreases rest
      {
        rest, leftovers, done := AddEntry(d, rest, leftovers, v, done);
      }
    }

    // memmgr_heap_get_thread_memory
    method GetThreadMemory(thread: nat) returns (leftovers: nat)
      requires Valid()
      ensures thread !in trace ==> leftovers == UNKNOWN
      // what the thread's live traced blocks were charged, and what stale entries add
      ensures thread in trace ==>
                leftovers == ChargedTo(heap.live, thread, heap.Lo(), heap.Hi())
                             + StaleSum(trace[thread], heap.mem[..], heap.live, thread)
      // which is exact if and only if none of these lies at an address whose header looks live
      ensures thread in trace ==>
                (leftovers == ChargedTo(heap.live, thread, heap.Lo(), heap.Hi())
                 <==> forall p <- StaleKeys(trace[thread], heap.live, thread) :: !LooksLive(heap.mem[..], p))
      // and there are none if the traced blocks of the thread were freed by the thread itself, if at all
      ensures thread in trace && thread !in strayed ==> StaleKeys(trace[thread], heap.live, thread) == {}
    {
      leftovers := UNKNOWN;
      if thread in trace {
        leftovers := SumLeftovers(trace[thread]);
        heap.Small();
        QueryMeaning(trace, heap.live, strayed, thread, heap.mem[..], heap.Lo(), heap.Hi());
      }
    }

    /** Thread t, which has just been traced, allocates a block and thread u, which is not traced, frees
        it: the heap is as before, but the entry of t stays. */
    method AllocateAndStray(t: nat, u: nat, n: Word) returns (p: nat, ghost a: nat)
      requires Valid() && heap.pxEnd != 0 && t in trace && trace[t] == map[] && u !in trace
      requires !Refused(heap.FreeList(), n)
      modifies this, heap, heap.mem
      ensures Valid() && heap.pxEnd != 0 && heap.live == old(heap.live) && OwnsNothing(heap.live, t)
      ensures p == UNIT * (a + 1) && trace == old(trace)[t := map[p := UNIT * UnitsFor(n)]]
      ensures IsPlace(heap.FreeList(), n, a)
    {
      heap.LivePlaced();
      NewTraceOwnsNothing(trace, heap.live, strayed, t, heap.Lo(), heap.Hi());
      ghost var live := heap.live;
      p, a := Malloc(t, n);
      GrantUndone(live, heap.Lo(), heap.Hi(), n, t, true, a, heap.live);
      FreeLive(u, p, a);
    }

    /** Thread u asks for as much and gets that block. */
    method TakeAgain(u: nat, n: Word, ghost t: nat, ghost a: nat) returns (p: nat)
      requires Valid() && heap.pxEnd != 0 && u !in trace && !Refused(heap.FreeList(), n) && IsPlace(heap.FreeList(), n, a)
      requires t != u && OwnsNothing(heap.live, t)
      modifies this, heap, heap.mem
      ensures Valid() && trace == old(trace) && p == UNIT * (a + 1)
      ensures a in heap.live && heap.live[a].owner == u && OwnsNothing(heap.live, t)
    {
      heap.LivePlaced();
      ghost var live, b := heap.live, 0;
      p, b := Malloc(u, n);
      GrantTakes(live, heap.Lo(), heap.Hi(), n, u, false, b, heap.live, t);
    }

    /** A thread with nothing but a stale entry, whose address another thread has got, is charged for it. */
    method CountStale(t: nat, ghost u: nat, ghost a: nat, ghost size: nat) returns (leftovers: nat)
      requires Valid() && t in trace && trace[t] == map[UNIT * (a + 1) := size] && u != t
      requires a in heap.live && heap.live[a].owner == u && OwnsNothing(heap.live, t)
      ensures ChargedTo(heap.live, t, heap.Lo(), heap.Hi()) == 0 && leftovers == size
    {
      NothingOwned(heap.live, t, heap.Lo(), heap.Hi());
      OneStaleEntry(a, size, heap.mem[..], heap.live, t);
      leftovers := GetThreadMemory(t);
    }

    method TakeAndCount(t: nat, u: nat, n: Word, ghost a: nat) returns (p: nat, leftovers: nat)
      requires Valid() && heap.pxEnd != 0 && u !in trace && !Refused(heap.FreeList(), n) && IsPlace(heap.FreeList(), n, a)
      requires t in trace && trace[t] == map[UNIT * (a + 1) := UNIT * UnitsFor(n)] && u != t && OwnsNothing(heap.live, t)
      modifies this, heap, heap.mem
      ensures Valid() && p == UNIT * (a + 1) && a in heap.live && heap.live[a].owner == u
      ensures ChargedTo(heap.live, t, heap.Lo(), heap.Hi()) == 0
      ensures leftovers == UNIT * UnitsFor(n)
    {
      p := TakeAgain(u, n, t, a);
      leftovers := CountStale(t, u, a, UNIT * UnitsFor(n));
    }

    /** A run in which a stale entry is counted: a block of traced thread t is freed by thread u, which
        then asks for as much. It gets the same block, and t is charged for it, though t owns nothing. */
    method StaleEntryRun(t: nat, u: nat, n: Word) returns (p: nat, leftovers: nat, ghost a: nat)
      requires Valid() && heap.pxEnd != 0 && t != 0 && t !in trace && u != t && u !in trace
      requires !Refused(heap.FreeList(), n)
      modifies this, heap, heap.mem
      ensures Valid() && p == UNIT * (a + 1) && a in heap.live && heap.live[a].owner == u
      ensures ChargedTo(heap.live, t, heap.Lo(), heap.Hi()) == 0
      ensures 0 < leftovers == UNIT * UnitsFor(n)
    {
      EnableTrace(t);
      p, a := AllocateAndStray(t, u, n);
      p, leftovers := TakeAndCount(t, u, n, a);
    }
  }

  /** No traced live block is attributed to t. */
  ghost predicate OwnsNothing(live: LiveMap, t: nat) {
    forall c <- live :: !Owned(live, t, c)
  }

  /** a is where the first fit for a request of n bytes lies. */
  ghost predicate IsPlace(f: seq<Block>, n: nat, a: nat) {
    var k := FirstFit(f, UnitsFor(n));
    k < |f| && f[k].at == a
  }

  /** Another thread gets this place, and t still owns nothing. */
  lemma GrantTakes(live: LiveMap, lo: nat, hi: nat, n: nat, u: nat, traced: bool, a: nat, live': LiveMap, t: nat)
    requires Granted(live, Gaps(live, lo, hi), n, u, traced, a, live') && t != u && OwnsNothing(live, t)
    ensures IsPlace(Gaps(live, lo, hi), n, a) && a in live' && live'[a].owner == u && OwnsNothing(live', t)
  {
    forall c <- live' ensures !Owned(live', t, c) {
      assert c != a ==> !Owned(live, t, c);
    }
  }

  lemma NewTraceOwnsNothing(tr: Trace, live: LiveMap, strayed: set<nat>, t: nat, lo: nat, hi: nat)
    requires Traced(tr, live, strayed, lo, hi) && t in tr && tr[t] == map[]
    ensures OwnsNothing(live, t)
  {
    forall c <- live ensures !Owned(live, t, c) {
      assert !Listed(tr[t], c);
    }
  }

  lemma {:induction false} NothingOwned(live: LiveMap, t: nat, x: nat, hi: nat)
    requires OwnsNothing(live, t)
    ensures ChargedTo(live, t, x, hi) == 0
    decreases hi - x
  {
    if x < hi { NothingOwned(live, t, x + 1, hi); }
  }

  lemma GrantUndone(live: LiveMap, lo: nat, hi: nat, n: nat, thread: nat, traced: bool, a: nat, live': LiveMap)
    requires Placed(live, lo, hi) && lo <= hi && n > 0 && Granted(live, Gaps(live, lo, hi), n, thread, traced, a, live')
    ensures live' - {a} == live
  {
    GrantedPlaced(live, lo, hi, n, thread, traced, a, live');
  }

  lemma OneStaleEntry(a: nat, size: nat, m: seq<Cell>, live: LiveMap, t: nat)
    requires Allocated(m, live) && a in live && live[a].owner != t
    ensures StaleSum(map[UNIT * (a + 1) := size], m, live, t) == size
  {
    var p := UNIT * (a + 1);
    var d := map[p := size];
    assert !Entry(live, t, p, size) && LooksLive(m, p);
    assert StaleKeys(d, live, t) == {p};
    SumByRemove({p}, Counted(d, m), p);
    assert {p} - {p} == {};
  }

  lemma TracedAfterMalloc(tr: Trace, live: LiveMap, strayed: set<nat>, thread: nat, lo: nat, hi: nat, n: nat, a: nat,
                          live': LiveMap)
    requires Traced(tr, live, strayed, lo, hi) && Placed(live, lo, hi) && lo <= hi && n > 0
    requires Granted(live, Gaps(live, lo, hi), n, thread, thread in tr, a, live')
    ensures Traced(OnMalloc(tr, thread, UNIT * (a + 1), UNIT * UnitsFor(n)), live', strayed, lo, hi)
  {
    var f := Gaps(live, lo, hi);
    GrantedPlaced(live, lo, hi, n, thread, thread in tr, a, live');
    GapApart(live, lo, hi, FirstFit(f, UnitsFor(n)), a);
    MallocKeepsTraced(tr, live, strayed, thread, a, live'[a], lo, hi);
  }
}
