/** The ring buffer between digital_sequence_enqueue_period and the DMA channel that feeds the
    timer, as a state machine: every statement of the producer and every DMA transfer is a step
    of its own, and the two interleave freely. */
module DmaRing {

  const RING := 128
  const MIN_FREE := 2
  /** DIGITAL_SEQUENCE_TIMER_MAX, the reload value that stops the timer. */
  const SENTINEL := 0xFFFF_FFFF

  /** Where the producer is: about to test for space, to store the period, to advance, to store
      the sentinel, to decide whether to start the DMA, or done with all periods. */
  datatype Pc = Wait | StorePeriod | Advance | StoreSentinel | Decide | Finished

  /** The registers of the protocol, and three histories: the periods still to be enqueued, those
      that have been stored, and the values the DMA has loaded. */
  datatype State = State(data: seq<nat>, writePos: nat, active: bool, pc: Pc,
                         todo: seq<nat>, stored: seq<nat>, loaded: seq<nat>)

  /** 128 - LL_DMA_GetDataLength: the slot the channel loads next. */
  function ReadPos(s: State): nat {
    |s.loaded| % RING
  }

  function SizeFree(s: State): nat
    requires s.writePos < RING
  {
    (RING + ReadPos(s) - s.writePos) % RING
  }

  /** The contents of the buffer are arbitrary: it is reset after a transmission, not before. */
  ghost predicate Init(s: State) {
    && |s.data| == RING && s.writePos == 0 && !s.active
    && s.stored == [] && s.loaded == []
    && s.pc == if s.todo == [] then Decide else Wait
  }

  // ---------------------------------------------------------------- steps

  /** The wait is left only through the free-space test, and skipped while the DMA is idle. */
  ghost predicate LeaveWait(s: State, s': State) {
    && s.pc == Wait && s.writePos < RING && (s.active ==> SizeFree(s) > MIN_FREE)
    && s' == s.(pc := StorePeriod)
  }

  ghost predicate DoStorePeriod(s: State, s': State) {
    && s.pc == StorePeriod && s.writePos < |s.data| && s.todo != []
    && s' == s.(pc := Advance, data := s.data[s.writePos := s.todo[0]],
                todo := s.todo[1..], stored := s.stored + [s.todo[0]])
  }

  ghost predicate DoAdvance(s: State, s': State) {
    s.pc == Advance && s' == s.(pc := StoreSentinel, writePos := (s.writePos + 1) % RING)
  }

  ghost predicate DoStoreSentinel(s: State, s': State) {
    && s.pc == StoreSentinel && s.writePos < |s.data|
    && s' == s.(pc := Decide, data := s.data[s.writePos := SENTINEL])
  }

  /** The DMA is started when the buffer is filled or there is no more data. */
  ghost predicate DoDecide(s: State, s': State) {
    && s.pc == Decide
    && s' == s.(pc := if s.todo == [] then Finished else Wait,
                active := s.active || s.writePos >= RING - MIN_FREE || s.todo == [])
  }

  /** One DMA transfer, of a slot the producer has stored. */
  ghost predicate DmaLoad(s: State, s': State) {
    && s.active && |s.loaded| < |s.stored| && ReadPos(s) < |s.data|
    && s' == s.(loaded := s.loaded + [s.data[ReadPos(s)]])
  }

  ghost predicate Next(s: State, s': State) {
    LeaveWait(s, s') || DoStorePeriod(s, s') || DoAdvance(s, s') || DoStoreSentinel(s, s')
    || DoDecide(s, s') || DmaLoad(s, s')
  }

  /** A run in which the DMA has not loaded the slot after the last stored period. */
  ghost predicate IsRun(run: seq<State>) {
    && run != [] && Init(run[0])
    && forall i :: 0 <= i < |run| - 1 ==> Next(run[i], run[i + 1])
  }

  // ---------------------------------------------------------------- invariant

  /** Periods stored but not yet loaded. */
  function Unread(s: State): int {
    |s.stored| - |s.loaded|
  }

  /** Slot i holds a period that the DMA has still to load. */
  ghost predicate UnreadSlot(s: State, i: nat) {
    exists k: nat :: |s.loaded| <= k < |s.stored| && k % RING == i
  }

  ghost predicate SlotOk(s: State, k: nat)
    requires |s.data| == RING && k < |s.stored|
  {
    s.data[k % RING] == s.stored[k]
  }

  ghost predicate Inv(s: State) {
    && |s.data| == RING
    && s.writePos == (if s.pc == Advance then |s.stored| - 1 else |s.stored|) % RING
    && 0 <= Unread(s) <= RING - MIN_FREE
    && (s.pc == StorePeriod ==> Unread(s) < RING - MIN_FREE)
    && (s.pc in {Wait, StorePeriod} ==> s.todo != [])
    && (s.pc in {Advance, StoreSentinel} ==> s.stored != [])
    && (!s.active ==> s.loaded == [] && s.pc != Finished && (s.pc in {Wait, StorePeriod} ==> |s.stored| < RING - MIN_FREE))
    && (forall k: nat :: |s.loaded| <= k < |s.stored| ==> SlotOk(s, k))
    && s.loaded == s.stored[..|s.loaded|]
    && (s.pc !in {Advance, StoreSentinel} && s.stored != [] ==> s.data[|s.stored| % RING] == SENTINEL)
  }

  lemma SlotsDiffer(i: nat, j: nat)
    requires i < j < i + RING
    ensures i % RING != j % RING
  {
  }

  lemma FreeSpace(s: State)
    requires s.writePos == |s.stored| % RING && 0 <= Unread(s) <= RING - MIN_FREE
    ensures SizeFree(s) == if Unread(s) == 0 then 0 else RING - Unread(s)
  {
    var d := Unread(s);
    assert |s.stored| == |s.loaded| + d;
  }

  lemma StorePeriodKeeps(s: State, s': State)
    requires Inv(s) && DoStorePeriod(s, s')
    ensures Inv(s')
  {
    forall k: nat | |s'.loaded| <= k < |s'.stored| ensures SlotOk(s', k) {
      if k < |s.stored| {
        assert SlotOk(s, k);
        SlotsDiffer(k, |s.stored|);
      }
    }
  }

  lemma StoreSentinelKeeps(s: State, s': State)
    requires Inv(s) && DoStoreSentinel(s, s')
    ensures Inv(s')
  {
    forall k: nat | |s'.loaded| <= k < |s'.stored| ensures SlotOk(s', k) {
      assert SlotOk(s, k);
      SlotsDiffer(k, |s.stored|);
    }
  }

  lemma DmaLoadKeeps(s: State, s': State)
    requires Inv(s) && DmaLoad(s, s')
    ensures Inv(s')
  {
    assert SlotOk(s, |s.loaded|);
    forall k: nat | |s'.loaded| <= k < |s'.stored| ensures SlotOk(s', k) {
      assert SlotOk(s, k);
    }
  }

  lemma ControlKeeps(s: State, s': State)
    requires Inv(s) && (LeaveWait(s, s') || DoAdvance(s, s') || DoDecide(s, s'))
    ensures Inv(s')
  {
    if LeaveWait(s, s') { FreeSpace(s); }
    forall k: nat | |s'.loaded| <= k < |s'.stored| ensures SlotOk(s', k) {
      assert SlotOk(s, k);
    }
  }

  lemma NextKeeps(s: State, s': State)
    requires Inv(s) && Next(s, s')
    ensures Inv(s')
  {
    if DoStorePeriod(s, s') { StorePeriodKeeps(s, s'); }
    else if DoStoreSentinel(s, s') { StoreSentinelKeeps(s, s'); }
    else if DmaLoad(s, s') { DmaLoadKeeps(s, s'); }
    else { ControlKeeps(s, s'); }
  }

  lemma {:induction false} RunKeeps(run: seq<State>, i: nat)
    requires IsRun(run) && i < |run|
    ensures Inv(run[i])
  {
    if i > 0 {
      RunKeeps(run, i - 1);
      NextKeeps(run[i - 1], run[i]);
    }
  }

  // ---------------------------------------------------------------- what the ring guarantees

  /** Neither write of the producer, in whatever interleaving, touches an unread slot. */
  lemma WritesAvoidUnread(run: seq<State>, i: nat)
    requires IsRun(run) && i < |run|
    ensures run[i].pc in {StorePeriod, StoreSentinel} ==> !UnreadSlot(run[i], run[i].writePos)
  {
    RunKeeps(run, i);
    var s := run[i];
    forall k: nat | |s.loaded| <= k < |s.stored| && s.pc in {StorePeriod, StoreSentinel} ensures k % RING != s.writePos {
      SlotsDiffer(k, |s.stored|);
    }
  }

  /** The periods given to enqueue are the stored ones followed by the ones still to come. */
  lemma {:induction false} NothingLost(run: seq<State>, i: nat)
    requires IsRun(run) && i < |run|
    ensures run[i].stored + run[i].todo == run[0].todo
  {
    if i > 0 {
      NothingLost(run, i - 1);
      assert Next(run[i - 1], run[i]);
    } else {
      assert run[0].stored + run[0].todo == run[0].todo;
    }
  }

  /** The values the DMA loads are the enqueued ones, in order, none skipped, repeated or stale. */
  lemma LoadsInOrder(run: seq<State>, i: nat)
    requires IsRun(run) && i < |run|
    ensures run[i].loaded <= run[0].todo
  {
    RunKeeps(run, i);
    NothingLost(run, i);
    var s := run[i];
    assert s.stored <= s.stored + s.todo;
  }

  lemma {:induction false} UntouchedUntilStored(run: seq<State>, i: nat)
    requires IsRun(run) && i < |run|
    ensures run[i].stored == [] ==> run[i].data == run[0].data && run[i].pc != StoreSentinel
  {
    if i > 0 {
      UntouchedUntilStored(run, i - 1);
      RunKeeps(run, i - 1);
      assert Next(run[i - 1], run[i]);
    }
  }

  /** If the DMA catches up it loads the sentinel and the timer stops, except in the two steps
      between storing a period and storing the sentinel behind it, and except when nothing was
      enqueued into a buffer that has never been reset. */
  lemma CatchingUpStops(run: seq<State>, i: nat)
    requires IsRun(run) && i < |run| && |run[i].loaded| == |run[i].stored|
    requires run[i].pc !in {Advance, StoreSentinel}
    ensures |run[i].data| == RING
    ensures run[i].data[ReadPos(run[i])] == SENTINEL <==> run[i].stored != [] || run[0].data[0] == SENTINEL
  {
    RunKeeps(run, i);
    UntouchedUntilStored(run, i);
  }

  // ---------------------------------------------------------------- runs without the sentinel

  /** A buffer that was never reset: if nothing is enqueued, the DMA is started on whatever it holds. */
  lemma StartedUnset(data: seq<nat>) returns (run: seq<State>)
    requires |data| == RING && data[0] != SENTINEL
    ensures IsRun(run)
    ensures var s := run[|run| - 1];
            s.active && s.pc == Finished && ReadPos(s) == 0 && |s.data| == RING && s.data[0] != SENTINEL
  {
    var s := State(data, 0, false, Decide, [], [], []);
    run := [s, s.(pc := Finished, active := true)];
    assert DoDecide(run[0], run[1]);
  }

  lemma Extended(run: seq<State>, s: State) returns (run': seq<State>)
    requires IsRun(run) && Next(run[|run| - 1], s)
    ensures IsRun(run') && run'[|run'| - 1] == s
  {
    run' := run + [s];
  }

  function Zeros(n: nat): (z: seq<nat>)
    ensures |z| == n
  {
    seq(n, i => 0)
  }

  /** k of 128 periods have been stored in a buffer of zeros, and none has been loaded. */
  function Filled(k: nat): State
    requires k <= RING - MIN_FREE
  {
    State(if k == 0 then Zeros(RING) else Zeros(RING)[k := SENTINEL], k, k == RING - MIN_FREE, Wait,
          Zeros(RING - k), Zeros(k), [])
  }

  lemma FillStep(run: seq<State>, k: nat) returns (run': seq<State>)
    requires k < RING - MIN_FREE && IsRun(run) && run[|run| - 1] == Filled(k)
    ensures IsRun(run') && run'[|run'| - 1] == Filled(k + 1)
  {
    var s := Filled(k);
    var s1 := s.(pc := StorePeriod);
    var s2 := s1.(pc := Advance, data := s.data[k := 0], todo := Zeros(RING - k - 1), stored := Zeros(k + 1));
    var s3 := s2.(pc := StoreSentinel, writePos := k + 1);
    var s4 := s3.(pc := Decide, data := s2.data[k + 1 := SENTINEL]);
    run' := Extended(run, s1);
    assert s.todo[1..] == Zeros(RING - k - 1) && s.stored + [s.todo[0]] == Zeros(k + 1);
    assert DoStorePeriod(s1, s2);
    run' := Extended(run', s2);
    run' := Extended(run', s3);
    run' := Extended(run', s4);
    assert s4.data == Filled(k + 1).data;
    assert DoDecide(s4, Filled(k + 1));
    run' := Extended(run', Filled(k + 1));
  }

  lemma {:induction false} FillRun(k: nat) returns (run: seq<State>)
    requires k <= RING - MIN_FREE
    ensures IsRun(run) && run[|run| - 1] == Filled(k)
  {
    if k == 0 {
      run := [Filled(0)];
    } else {
      run := FillRun(k - 1);
      run := FillStep(run, k - 1);
    }
  }

  /** Then the producer has found space for one more, and the DMA has loaded j periods. */
  function Drained(j: nat): State {
    Filled(RING - MIN_FREE).(pc := StorePeriod, loaded := Zeros(j))
  }

  lemma {:induction false} DrainRun(j: nat) returns (run: seq<State>)
    requires 1 <= j <= RING - MIN_FREE
    ensures IsRun(run) && run[|run| - 1] == Drained(j)
  {
    if j == 1 {
      run := FillRun(RING - MIN_FREE);
      var s := Filled(RING - MIN_FREE).(loaded := Zeros(1));
      assert DmaLoad(Filled(RING - MIN_FREE), s);
      run := Extended(run, s);
      assert LeaveWait(s, Drained(1));
    } else {
      run := DrainRun(j - 1);
      assert Drained(j).loaded == Drained(j - 1).loaded + [0];
      assert DmaLoad(Drained(j - 1), Drained(j));
    }
    run := Extended(run, Drained(j));
  }

  /** A DMA that loads as soon as a period is stored overtakes the producer: it has loaded everything,
      and in the slot it loads next there is no sentinel yet. */
  lemma Overtaken() returns (run: seq<State>)
    ensures IsRun(run)
    ensures var s := run[|run| - 1];
            s.active && s.loaded == s.stored != [] && s.pc == Advance && |s.data| == RING && s.data[ReadPos(s)] != SENTINEL
  {
    var n := RING - MIN_FREE;
    run := DrainRun(n);
    var s := Drained(n);
    var s1 := s.(pc := Advance, data := s.data[n := 0], todo := Zeros(1), stored := s.stored + [0]);
    assert s.todo[1..] == Zeros(1);
    assert DoStorePeriod(s, s1);
    run := Extended(run, s1);
    var s2 := s1.(loaded := s1.loaded + [0]);
    assert DmaLoad(s1, s2);
    run := Extended(run, s2);
    assert s2.loaded == s2.stored;
  }

  /** The producer is never stuck while the DMA has something left to load after this period:
      it may leave the wait as soon as at most 125 and at least one period are unread. */
  lemma WaitEnds(s: State)
    requires Inv(s) && s.pc == Wait
    ensures (exists s' :: LeaveWait(s, s')) <==> !s.active || 1 <= Unread(s) < RING - MIN_FREE
  {
    FreeSpace(s);
    if !s.active || 1 <= Unread(s) < RING - MIN_FREE {
      assert LeaveWait(s, s.(pc := StorePeriod));
    }
  }

  /** The hand-over: when the DMA is started with periods left, exactly 126 are in the buffer. */
  lemma HandOver(run: seq<State>, i: nat)
    requires IsRun(run) && i + 1 < |run| && !run[i].active && run[i + 1].active
    ensures run[i].loaded == [] && (run[i].todo != [] ==> |run[i].stored| == RING - MIN_FREE)
  {
    RunKeeps(run, i);
    assert Next(run[i], run[i + 1]);
  }
}
