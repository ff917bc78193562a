/** Where a request is placed, said of the units that no live block occupies, without the free list. */
module HeapPlacement {
  import opened HeapBlocks
  import opened HeapMemory
  import opened Heap

  /** No live block occupies unit u of the heap. */
  ghost predicate FreeUnit(live: LiveMap, lo: nat, hi: nat, u: nat) {
    lo <= u < hi && forall c :: c in live ==> u < c || c + live[c].len <= u
  }

  ghost predicate FreeStretch(live: LiveMap, lo: nat, hi: nat, c: nat, n: nat) {
    forall u: nat :: c <= u < c + n ==> FreeUnit(live, lo, hi, u)
  }

  lemma FreeIsCovered(live: LiveMap, lo: nat, hi: nat, u: nat)
    requires Placed(live, lo, hi) && lo <= hi
    ensures FreeUnit(live, lo, hi, u) <==> Covered(Gaps(live, lo, hi), u)
  {
    GapsMeaning(live, lo, lo, hi);
    if FreeUnit(live, lo, hi, u) {
      assert !InLive(live, u);
    }
    if Covered(Gaps(live, lo, hi), u) {
      assert !InLive(live, u);
    }
  }

  /** A stretch of free units lies within one gap. */
  lemma {:induction false} StretchInGap(live: LiveMap, lo: nat, hi: nat, c: nat, n: nat) returns (i: nat)
    requires Placed(live, lo, hi) && lo <= hi && n > 0 && FreeStretch(live, lo, hi, c, n)
    ensures i < |Gaps(live, lo, hi)| && Gaps(live, lo, hi)[i].at <= c && c + n <= Gaps(live, lo, hi)[i].End()
  {
    var f := Gaps(live, lo, hi);
    GapsMeaning(live, lo, lo, hi);
    FreeIsCovered(live, lo, hi, c + n - 1);
    i :| 0 <= i < |f| && f[i].at <= c + n - 1 < f[i].End();
    if n > 1 {
      var j := StretchInGap(live, lo, hi, c, n - 1);
    }
  }

  /** Every gap is one. */
  lemma GapIsStretch(live: LiveMap, lo: nat, hi: nat, i: nat)
    requires Placed(live, lo, hi) && lo <= hi && i < |Gaps(live, lo, hi)|
    ensures FreeStretch(live, lo, hi, Gaps(live, lo, hi)[i].at, Gaps(live, lo, hi)[i].len)
    ensures !FreeUnit(live, lo, hi, Gaps(live, lo, hi)[i].End())
  {
    var f := Gaps(live, lo, hi);
    GapsMeaning(live, lo, lo, hi);
    forall u: nat | f[i].at <= u < f[i].End() ensures FreeUnit(live, lo, hi, u) {
      assert Covered(f, u);
      FreeIsCovered(live, lo, hi, u);
    }
    FreeIsCovered(live, lo, hi, f[i].End());
  }

  /** A request is refused exactly if it is empty, has the top bit set, or if nowhere in the heap there are
      w free units in a row, where w units are the request and a header. */
  lemma RefusedIff(live: LiveMap, lo: nat, hi: nat, n: nat, w: nat)
    requires Placed(live, lo, hi) && lo <= hi && n + UNIT <= UNIT * w < n + 2 * UNIT
    ensures Refused(Gaps(live, lo, hi), n) <==> n == 0 || n >= TOP_BIT || forall c: nat :: !FreeStretch(live, lo, hi, c, w)
  {
    var f := Gaps(live, lo, hi);
    assert UnitsFor(n) == w;
    if HasRoom(f, w) {
      var i :| 0 <= i < |f| && f[i].len >= w;
      GapIsStretch(live, lo, hi, i);
      assert FreeStretch(live, lo, hi, f[i].at, w);
    }
    if c: nat :| FreeStretch(live, lo, hi, c, w) {
      var i := StretchInGap(live, lo, hi, c, w);
      assert f[i].len >= w;
    }
  }

  /** A request that is granted takes the lowest w free units in a row, and no more unless at most two units
      are left behind them, which it takes as well: the rest of a block is split off if there are three. */
  lemma GrantedPlace(live: LiveMap, lo: nat, hi: nat, n: nat, w: nat, thread: nat, traced: bool, a: nat, live': LiveMap)
    requires Placed(live, lo, hi) && lo <= hi && n > 0 && n + UNIT <= UNIT * w < n + 2 * UNIT
    requires Granted(live, Gaps(live, lo, hi), n, thread, traced, a, live')
    ensures a !in live && a in live' && live' == live[a := live'[a]]
    ensures live'[a].owner == thread && live'[a].traced == traced && live'[a].charged == UNIT * w
    ensures var len := live'[a].len;
            && FreeStretch(live, lo, hi, a, len)
            && if FreeStretch(live, lo, hi, a, w + 3) then len == w
               else w <= len <= w + 2 && !FreeUnit(live, lo, hi, a + len)
    ensures forall c: nat :: FreeStretch(live, lo, hi, c, w) ==> a <= c
  {
    assert UnitsFor(n) == w;
    var k := FirstFit(Gaps(live, lo, hi), w);
    TakenLength(live, lo, hi, k, w);
    forall c: nat | FreeStretch(live, lo, hi, c, w) ensures a <= c {
      LowestFit(live, lo, hi, w, c);
    }
  }

  lemma TakenLength(live: LiveMap, lo: nat, hi: nat, k: nat, w: nat)
    requires Placed(live, lo, hi) && lo <= hi && k < |Gaps(live, lo, hi)| && 0 < w <= Gaps(live, lo, hi)[k].len
    ensures var b, len := Gaps(live, lo, hi)[k], UnitsTaken(Gaps(live, lo, hi)[k].len, w);
            && b.at !in live && FreeStretch(live, lo, hi, b.at, len)
            && if FreeStretch(live, lo, hi, b.at, w + 3) then len == w
               else w <= len <= w + 2 && !FreeUnit(live, lo, hi, b.at + len)
  {
    var b := Gaps(live, lo, hi)[k];
    GapIsStretch(live, lo, hi, k);
    GapsMeaning(live, lo, lo, hi);
    assert FreeUnit(live, lo, hi, b.at);
    if b.len < w + 3 { assert b.at <= b.End() < b.at + (w + 3); }
  }

  lemma LowestFit(live: LiveMap, lo: nat, hi: nat, w: nat, c: nat)
    requires Placed(live, lo, hi) && lo <= hi && w > 0 && FreeStretch(live, lo, hi, c, w)
    ensures var f, k := Gaps(live, lo, hi), FirstFit(Gaps(live, lo, hi), w);
            k < |f| && f[k].at <= c
  {
    var f, k := Gaps(live, lo, hi), FirstFit(Gaps(live, lo, hi), w);
    var i := StretchInGap(live, lo, hi, c, w);
    GapsMeaning(live, lo, lo, hi);
    if i > k { assert f[k].End() < f[i].at; }
  }
}
