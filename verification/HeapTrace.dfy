/** Per-thread allocation tracing: for every traced thread a dictionary from payload address
    to rounded request size, maintained by traceMALLOC and traceFREE. */
module HeapTrace {
  import opened HeapBlocks
  import opened HeapMemory

  type Trace = map<nat, map<nat, nat>>

  /** traceMALLOC: recorded only when the allocating thread is being traced. */
  function OnMalloc(tr: Trace, thread: nat, p: nat, size: nat): Trace {
    if thread != 0 && thread in tr then var d: map<nat, nat> := tr[thread]; tr[thread := d[p := size]] else tr
  }

  /** traceFREE: erased from the dictionary of the freeing thread, whoever allocated it. */
  function OnFree(tr: Trace, thread: nat, p: nat): Trace {
    if thread != 0 && thread in tr then var d: map<nat, nat> := tr[thread]; tr[thread := d - {p}] else tr
  }

  function OnDisable(live: LiveMap, thread: nat): LiveMap {
    map a | a in live :: if live[a].owner == thread then live[a].(traced := false) else live[a]
  }

  /** Block a was allocated by thread t while t was being traced, and is still live. */
  ghost predicate Owned(live: LiveMap, t: nat, a: nat) {
    a in live && live[a].owner == t && live[a].traced
  }

  /** The entry p := v is the one of a block owned by t. */
  ghost predicate Entry(live: LiveMap, t: nat, p: nat, v: nat) {
    p % UNIT == 0 && p >= UNIT && Owned(live, t, p / UNIT - 1) && v == live[p / UNIT - 1].charged
  }

  ghost predicate Listed(d: map<nat, nat>, a: nat) {
    UNIT * (a + 1) in d
  }

  /** Dictionary d lists every block owned by t, with what it was charged. */
  ghost predicate OwnListed(d: map<nat, nat>, live: LiveMap, t: nat) {
    forall a: nat {:trigger Listed(d, a)} :: Owned(live, t, a) ==> Listed(d, a) && d[UNIT * (a + 1)] == live[a].charged
  }

  /** And it lists nothing else (key 0 stands for failed requests). */
  ghost predicate Records(d: map<nat, nat>, live: LiveMap, t: nat) {
    OwnListed(d, live, t) && forall p: nat :: p in d && p != 0 ==> Entry(live, t, p, d[p])
  }

  /** The dictionary of every traced thread lists the blocks it owns. It lists nothing else, unless
      the thread is one of `strayed`, which had a traced block freed by some other thread. */
  ghost predicate Exact(tr: Trace, live: LiveMap, strayed: set<nat>) {
    && 0 !in tr
    && (forall t :: t in tr ==> OwnListed(tr[t], live, t))
    && (forall t :: t in tr && t !in strayed ==> Records(tr[t], live, t))
    && (forall a :: a in live && live[a].traced ==> live[a].owner in tr)
  }

  /** The payload address p of a block in [lo, hi) that was charged `size`. */
  ghost predicate Recorded(p: nat, size: nat, lo: nat, hi: nat) {
    && p % UNIT == 0 && UNIT <= p && lo <= p / UNIT - 1 < hi
    && 0 < size <= UNIT * (hi - (p / UNIT - 1))
  }

  /** Every recorded key and size could be those of a block. */
  ghost predicate AllRecorded(d: map<nat, nat>, lo: nat, hi: nat) {
    forall p: nat :: p in d && p != 0 ==> Recorded(p, d[p], lo, hi)
  }

  ghost predicate EntriesInHeap(tr: Trace, lo: nat, hi: nat) {
    forall t :: t in tr ==> AllRecorded(tr[t], lo, hi)
  }

  lemma MallocKeepsExact(tr: Trace, live: LiveMap, strayed: set<nat>, thread: nat, a: nat, t: Tenant)
    requires Exact(tr, live, strayed) && a !in live
    requires t.owner == thread && t.traced == (thread in tr)
    ensures Exact(OnMalloc(tr, thread, UNIT * (a + 1), t.charged), live[a := t], strayed)
  {
    var tr', live' := OnMalloc(tr, thread, UNIT * (a + 1), t.charged), live[a := t];
    forall u | u in tr' ensures OwnListed(tr'[u], live', u) {
      forall b: nat | Owned(live', u, b) ensures Listed(tr'[u], b) && tr'[u][UNIT * (b + 1)] == live'[b].charged {
        if b != a { assert Owned(live, u, b) && Listed(tr[u], b); }
      }
    }
    forall u | u in tr' && u !in strayed ensures Records(tr'[u], live', u) {
      assert Records(tr[u], live, u);
      forall p: nat | p in tr'[u] && p != 0
        ensures Entry(live', u, p, tr'[u][p])
      {
        if p in tr[u] && tr[u][p] == tr'[u][p] { assert Entry(live, u, p, tr[u][p]); }
      }
    }
  }

  /** A request that fails is recorded under key 0, which no query counts. */
  lemma FailedMallocKeepsExact(tr: Trace, live: LiveMap, strayed: set<nat>, thread: nat, size: nat)
    requires Exact(tr, live, strayed)
    ensures Exact(OnMalloc(tr, thread, 0, size), live, strayed)
  {
    var tr' := OnMalloc(tr, thread, 0, size);
    forall u | u in tr' ensures OwnListed(tr'[u], live, u) {
      forall b: nat | Owned(live, u, b) ensures Listed(tr'[u], b) && tr'[u][UNIT * (b + 1)] == live[b].charged {
        assert Listed(tr[u], b);
      }
    }
    forall u | u in tr' && u !in strayed ensures Records(tr'[u], live, u) {
      assert Records(tr[u], live, u);
    }
  }

  /** The threads with a stray block after `thread` has freed block a. */
  ghost function StrayedBy(live: LiveMap, strayed: set<nat>, thread: nat, a: nat): set<nat>
    requires a in live
  {
    if live[a].traced && live[a].owner != thread then strayed + {live[a].owner} else strayed
  }

  lemma ErasedOwn(d: map<nat, nat>, live: LiveMap, t: nat, a: nat)
    requires OwnListed(d, live, t)
    ensures OwnListed(d - {UNIT * (a + 1)}, live - {a}, t)
  {
    var d' := d - {UNIT * (a + 1)};
    forall b: nat | Owned(live - {a}, t, b) ensures Listed(d', b) && d'[UNIT * (b + 1)] == (live - {a})[b].charged {
      assert Owned(live, t, b) && Listed(d, b);
    }
  }

  lemma UntouchedOwn(d: map<nat, nat>, live: LiveMap, t: nat, a: nat)
    requires OwnListed(d, live, t)
    ensures OwnListed(d, live - {a}, t)
  {
    forall b: nat | Owned(live - {a}, t, b) ensures Listed(d, b) && d[UNIT * (b + 1)] == (live - {a})[b].charged {
      assert Owned(live, t, b) && Listed(d, b);
    }
  }

  lemma ErasedRecords(d: map<nat, nat>, live: LiveMap, t: nat, a: nat)
    requires Records(d, live, t)
    ensures Records(d - {UNIT * (a + 1)}, live - {a}, t)
  {
    var d', live' := d - {UNIT * (a + 1)}, live - {a};
    ErasedOwn(d, live, t, a);
    forall p: nat | p in d' && p != 0 ensures Entry(live', t, p, d'[p]) {
      assert Entry(live, t, p, d[p]);
    }
  }

  lemma UntouchedRecords(d: map<nat, nat>, live: LiveMap, t: nat, a: nat)
    requires Records(d, live, t) && !Owned(live, t, a)
    ensures Records(d, live - {a}, t)
  {
    UntouchedOwn(d, live, t, a);
    forall p: nat | p in d && p != 0 ensures Entry(live - {a}, t, p, d[p]) {
      assert Entry(live, t, p, d[p]);
    }
  }

  lemma FreeKeepsExact(tr: Trace, live: LiveMap, strayed: set<nat>, thread: nat, a: nat)
    requires Exact(tr, live, strayed) && a in live
    ensures Exact(OnFree(tr, thread, UNIT * (a + 1)), live - {a}, StrayedBy(live, strayed, thread, a))
  {
    var tr' := OnFree(tr, thread, UNIT * (a + 1));
    forall u | u in tr' ensures OwnListed(tr'[u], live - {a}, u) {
      if u == thread { ErasedOwn(tr[u], live, u, a); } else { UntouchedOwn(tr[u], live, u, a); }
    }
    forall u | u in tr' && u !in StrayedBy(live, strayed, thread, a) ensures Records(tr'[u], live - {a}, u) {
      assert Records(tr[u], live, u);
      if u == thread { ErasedRecords(tr[u], live, u, a); } else { UntouchedRecords(tr[u], live, u, a); }
    }
  }

  lemma EnableKeepsExact(tr: Trace, live: LiveMap, strayed: set<nat>, thread: nat)
    requires Exact(tr, live, strayed) && thread !in tr && thread != 0
    ensures Exact(tr[thread := map[]], live, strayed - {thread})
  {
  }

  lemma DisableKeepsExact(tr: Trace, live: LiveMap, strayed: set<nat>, thread: nat)
    requires Exact(tr, live, strayed)
    ensures Exact(tr - {thread}, OnDisable(live, thread), strayed - {thread})
  {
    var live' := OnDisable(live, thread);
    forall u | u in tr - {thread} ensures OwnListed(tr[u], live', u) {
      forall b: nat | Owned(live', u, b) ensures Listed(tr[u], b) && tr[u][UNIT * (b + 1)] == live'[b].charged {
        assert Owned(live, u, b) && Listed(tr[u], b);
      }
    }
    forall u | u in tr - {thread} && u !in strayed ensures Records(tr[u], live', u) {
      assert Records(tr[u], live, u);
    }
  }

  ghost predicate ChargesFit(live: LiveMap) {
    forall a :: a in live ==> live[a].charged <= UNIT * live[a].len
  }

  /** The whole tracing invariant, for a heap of the units [lo, hi). */
  ghost predicate Traced(tr: Trace, live: LiveMap, strayed: set<nat>, lo: nat, hi: nat) {
    Exact(tr, live, strayed) && EntriesInHeap(tr, lo, hi) && ChargesFit(live)
  }

  lemma MallocKeepsTraced(tr: Trace, live: LiveMap, strayed: set<nat>, thread: nat, a: nat, t: Tenant, lo: nat,
                          hi: nat)
    requires Traced(tr, live, strayed, lo, hi) && a !in live && lo <= a && a + t.len <= hi
    requires t.owner == thread && t.traced == (thread in tr) && 0 < t.charged <= UNIT * t.len
    ensures Traced(OnMalloc(tr, thread, UNIT * (a + 1), t.charged), live[a := t], strayed, lo, hi)
  {
    MallocKeepsExact(tr, live, strayed, thread, a, t);
    assert Recorded(UNIT * (a + 1), t.charged, lo, hi);
  }

  lemma FailedMallocKeepsTraced(tr: Trace, live: LiveMap, strayed: set<nat>, thread: nat, size: nat, lo: nat, hi: nat)
    requires Traced(tr, live, strayed, lo, hi)
    ensures Traced(OnMalloc(tr, thread, 0, size), live, strayed, lo, hi)
  {
    FailedMallocKeepsExact(tr, live, strayed, thread, size);
  }

  lemma FreeKeepsTraced(tr: Trace, live: LiveMap, strayed: set<nat>, thread: nat, a: nat, lo: nat, hi: nat)
    requires Traced(tr, live, strayed, lo, hi) && a in live
    ensures Traced(OnFree(tr, thread, UNIT * (a + 1)), live - {a}, StrayedBy(live, strayed, thread, a), lo, hi)
  {
    FreeKeepsExact(tr, live, strayed, thread, a);
  }

  lemma DisableKeepsTraced(tr: Trace, live: LiveMap, strayed: set<nat>, thread: nat, lo: nat, hi: nat)
    requires Traced(tr, live, strayed, lo, hi)
    ensures Traced(tr - {thread}, OnDisable(live, thread), strayed - {thread}, lo, hi)
    ensures SameShape(live, OnDisable(live, thread))
  {
    DisableKeepsExact(tr, live, strayed, thread);
  }

  // ---------------------------------------------------------------- sums

  /** The sum of v over a set of keys, in whatever order they are walked. */
  ghost function SumBy(keys: set<nat>, v: nat -> nat): nat
    decreases |keys|
  {
    if keys == {} then 0
    else
      var p :| p in keys;
      v(p) + SumBy(keys - {p}, v)
  }

  lemma {:induction false} SumByRemove(keys: set<nat>, v: nat -> nat, p: nat)
    requires p in keys
    ensures SumBy(keys, v) == v(p) + SumBy(keys - {p}, v)
    decreases |keys|
  {
    var q :| q in keys && SumBy(keys, v) == v(q) + SumBy(keys - {q}, v);
    if q != p {
      SumByRemove(keys - {q}, v, p);
      SumByRemove(keys - {p}, v, q);
      assert keys - {q} - {p} == keys - {p} - {q};
    }
  }

  lemma {:induction false} SumBySplit(keys: set<nat>, part: set<nat>, v: nat -> nat)
    requires part <= keys
    ensures SumBy(keys, v) == SumBy(part, v) + SumBy(keys - part, v)
    decreases |part|
  {
    if part == {} {
      assert keys - part == keys;
    } else {
      var p :| p in part;
      SumByRemove(keys, v, p);
      SumByRemove(part, v, p);
      SumBySplit(keys - {p}, part - {p}, v);
      assert (keys - {p}) - (part - {p}) == keys - part;
    }
  }

  /** The rounded sizes of the blocks in [x, hi) owned by t, summed in address order. */
  ghost function ChargedTo(live: LiveMap, t: nat, x: nat, hi: nat): nat
    decreases hi - x
  {
    if x >= hi then 0
    else (if Owned(live, t, x) then live[x].charged else 0) + ChargedTo(live, t, x + 1, hi)
  }

  lemma {:induction false} NothingCharged(t: nat, x: nat, hi: nat)
    ensures ChargedTo(map[], t, x, hi) == 0
    decreases hi - x
  {
    if x < hi { NothingCharged(t, x + 1, hi); }
  }

  /** A block is charged in full, to the thread that owns it, and while it lives. */
  lemma {:induction false} ChargedMore(live: LiveMap, t: nat, x: nat, hi: nat, a: nat, b: Tenant)
    requires a !in live && a < hi
    ensures ChargedTo(live[a := b], t, x, hi)
            == ChargedTo(live, t, x, hi) + if x <= a && b.owner == t && b.traced then b.charged else 0
    decreases hi - x
  {
    if x < hi { ChargedMore(live, t, x + 1, hi, a, b); }
  }

  lemma ChargedLess(live: LiveMap, t: nat, x: nat, hi: nat, a: nat)
    requires a in live && x <= a < hi
    ensures ChargedTo(live - {a}, t, x, hi)
            == ChargedTo(live, t, x, hi) - if live[a].owner == t && live[a].traced then live[a].charged else 0
  {
    ChargedMore(live - {a}, t, x, hi, a, live[a]);
    assert (live - {a})[a := live[a]] == live;
  }

  /** The nonzero keys are exactly those of the blocks owned by t from unit x on, and v is
      what those blocks were charged. */
  ghost predicate KeysFrom(keys: set<nat>, v: nat -> nat, live: LiveMap, t: nat, x: nat) {
    && v(0) == 0
    && (forall p: nat :: p in keys && p != 0 ==> Entry(live, t, p, v(p)) && UNIT * (x + 1) <= p)
    && (forall a: nat {:trigger KeyListed(keys, a)} :: x <= a && Owned(live, t, a) ==> KeyListed(keys, a))
  }

  ghost predicate KeyListed(keys: set<nat>, a: nat) {
    UNIT * (a + 1) in keys
  }

  lemma NextKey(live: LiveMap, t: nat, p: nat, v: nat, x: nat)
    requires Entry(live, t, p, v) && UNIT * (x + 1) <= p && p != UNIT * (x + 1)
    ensures UNIT * (x + 2) <= p
  {
  }

  lemma KeyOfUnit(keys: set<nat>, v: nat -> nat, live: LiveMap, t: nat, x: nat)
    requires KeysFrom(keys, v, live, t, x)
    ensures UNIT * (x + 1) in keys <==> Owned(live, t, x)
    ensures UNIT * (x + 1) in keys ==> v(UNIT * (x + 1)) == live[x].charged
  {
    var p := UNIT * (x + 1);
    assert p / UNIT - 1 == x;
    if p in keys { assert Entry(live, t, p, v(p)); }
    if Owned(live, t, x) { assert KeyListed(keys, x); }
  }

  lemma KeysRest(keys: set<nat>, v: nat -> nat, live: LiveMap, t: nat, x: nat)
    requires KeysFrom(keys, v, live, t, x)
    ensures KeysFrom(keys - {UNIT * (x + 1)}, v, live, t, x + 1)
  {
    var keys' := keys - {UNIT * (x + 1)};
    forall q: nat | q in keys' && q != 0 ensures Entry(live, t, q, v(q)) && UNIT * (x + 2) <= q {
      assert Entry(live, t, q, v(q));
      NextKey(live, t, q, v(q), x);
    }
    forall b: nat | x + 1 <= b && Owned(live, t, b) ensures KeyListed(keys', b) {
      assert KeyListed(keys, b);
    }
  }

  /** Such keys sum to what t's blocks were charged. */
  lemma {:induction false} KeysSum(keys: set<nat>, v: nat -> nat, live: LiveMap, t: nat, x: nat, hi: nat)
    requires x <= hi && (forall a :: a in live ==> a < hi) && KeysFrom(keys, v, live, t, x)
    ensures SumBy(keys, v) == ChargedTo(live, t, x, hi)
    decreases hi - x
  {
    if x == hi {
      OnlyKeyZero(keys, v, live, t, hi);
    } else {
      var p := UNIT * (x + 1);
      KeyOfUnit(keys, v, live, t, x);
      KeysRest(keys, v, live, t, x);
      KeysSum(keys - {p}, v, live, t, x + 1, hi);
      if p in keys { SumByRemove(keys, v, p); } else { assert keys - {p} == keys; }
    }
  }

  lemma OnlyKeyZero(keys: set<nat>, v: nat -> nat, live: LiveMap, t: nat, hi: nat)
    requires (forall a :: a in live ==> a < hi) && KeysFrom(keys, v, live, t, hi)
    ensures SumBy(keys, v) == 0
  {
    assert forall p: nat :: p in keys ==> p == 0;
    if 0 in keys {
      SumByRemove(keys, v, 0);
      assert keys - {0} == {};
    } else {
      assert keys == {};
    }
  }

  // ---------------------------------------------------------------- the largest sum

  lemma {:induction false} SumIsZero(keys: set<nat>, v: nat -> nat)
    ensures SumBy(keys, v) == 0 <==> forall p :: p in keys ==> v(p) == 0
    decreases |keys|
  {
    if keys != {} {
      var p :| p in keys;
      SumByRemove(keys, v, p);
      SumIsZero(keys - {p}, v);
      assert forall q :: q in keys ==> q == p || q in keys - {p};
    }
  }

  function Triangle(n: nat): nat {
    if n == 0 then 0 else n + Triangle(n - 1)
  }

  /** Keys for the units from x on, each with at most what lies between it and the end. */
  ghost predicate KeysWithin(keys: set<nat>, v: nat -> nat, x: nat, hi: nat) {
    v(0) == 0 && forall p: nat :: p in keys && p != 0 ==> KeyWithin(p, v(p), x, hi)
  }

  ghost predicate KeyWithin(p: nat, size: nat, x: nat, hi: nat) {
    p % UNIT == 0 && UNIT * (x + 1) <= p <= UNIT * hi && size <= UNIT * (hi + 1) - p
  }

  /** However the blocks may have overlapped in time, their keys differ, so that their sizes add up to
      this at most. */
  lemma {:induction false} SumWithin(keys: set<nat>, v: nat -> nat, x: nat, hi: nat)
    requires x <= hi && KeysWithin(keys, v, x, hi)
    ensures SumBy(keys, v) <= UNIT * Triangle(hi - x)
    decreases hi - x
  {
    if x == hi {
      SumIsZero(keys, v);
    } else {
      var p := UNIT * (x + 1);
      forall q: nat | q in keys - {p} && q != 0 ensures KeyWithin(q, v(q), x + 1, hi) {
        assert KeyWithin(q, v(q), x, hi);
        NextUnit(q, v(q), x, hi);
      }
      SumWithin(keys - {p}, v, x + 1, hi);
      if p in keys {
        assert KeyWithin(p, v(p), x, hi);
        SumByRemove(keys, v, p);
      } else {
        assert keys - {p} == keys;
      }
    }
  }

  lemma NextUnit(p: nat, size: nat, x: nat, hi: nat)
    requires KeyWithin(p, size, x, hi) && p != UNIT * (x + 1)
    ensures KeyWithin(p, size, x + 1, hi)
  {
  }

  lemma {:induction false} TriangleIs(n: nat)
    ensures 2 * Triangle(n) == n * (n + 1)
  {
    if n > 0 { TriangleIs(n - 1); }
  }

  lemma {:induction false} TriangleGrows(m: nat, n: nat)
    requires m <= n
    ensures Triangle(m) <= Triangle(n)
  {
    if m < n { TriangleGrows(m, n - 1); }
  }

  /** A heap in 256 kilobytes has less than 2^15 units, so that no sum reaches 2^32. */
  lemma SumFits(keys: set<nat>, v: nat -> nat, lo: nat, hi: nat)
    requires lo <= hi < lo + 0x8000 && KeysWithin(keys, v, lo, hi)
    ensures SumBy(keys, v) < 0x1_0000_0000
  {
    SumWithin(keys, v, lo, hi);
    TriangleGrows(hi - lo, 0x7FFF);
    TriangleIs(0x7FFF);
  }

  lemma {:induction false} ChargedBelowHeap(live: LiveMap, t: nat, lo: nat, x: nat, hi: nat)
    requires Placed(live, lo, hi) && x <= hi && Boundary(live, x)
    requires forall a :: a in live ==> live[a].charged <= UNIT * live[a].len
    ensures ChargedTo(live, t, x, hi) <= UNIT * (hi - x)
    decreases hi - x
  {
    if x < hi {
      if x in live {
        SkipBlock(live, t, lo, x, x + 1, hi);
        ChargedBelowHeap(live, t, lo, x + live[x].len, hi);
      } else {
        ChargedBelowHeap(live, t, lo, x + 1, hi);
      }
    }
  }

  /** No block starts strictly inside block a, so the sum skips its units. */
  lemma {:induction false} SkipBlock(live: LiveMap, t: nat, lo: nat, a: nat, y: nat, hi: nat)
    requires Placed(live, lo, hi) && a in live && a < y <= a + live[a].len
    ensures ChargedTo(live, t, y, hi) == ChargedTo(live, t, a + live[a].len, hi)
    decreases a + live[a].len - y
  {
    if y < a + live[a].len {
      assert y !in live;
      SkipBlock(live, t, lo, a, y + 1, hi);
    }
  }
}
