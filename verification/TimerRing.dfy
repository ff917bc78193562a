/** DigitalSequenceRingBuffer, the DMA channel that drains it, and the reload register of the timer
    into which the channel loads one slot after the other. */
module TimerRing {
  import opened DigitalSignal
  import opened DmaRing

  /** The values before the first stop value. */
  function UpToStop(v: seq<Word>): (r: seq<Word>)
    ensures |r| <= |v| && r == v[..|r|] && SENTINEL !in r && (|r| < |v| ==> v[|r|] == SENTINEL)
  {
    if v == [] || v[0] == SENTINEL then [] else [v[0]] + UpToStop(v[1..])
  }

  /** Nothing else has these properties. */
  lemma UpToStopIs(v: seq<Word>, n: nat)
    requires n <= |v| && SENTINEL !in v[..n] && (n < |v| ==> v[n] == SENTINEL)
    ensures UpToStop(v) == v[..n]
  {
    var r := UpToStop(v);
    forall i | 0 <= i < n ensures v[i] != SENTINEL { assert v[i] == v[..n][i]; }
    forall i | 0 <= i < |r| ensures v[i] != SENTINEL { assert v[i] == r[i]; }
  }

  /** How a transmission ends: the timer has been given everything up to the first stop value; or the
      channel had caught up with the producer before that; or digital_sequence_finish has given up waiting for
      the end; or an enqueue has given up waiting for free space, and what it stored may have been written over
      periods that had still to be loaded. */
  datatype Ending = Complete | Underrun | GaveUp | Overwritten

  /** What has been sent then of the stored periods. Only if they do not fit in the ring can they be
      overtaken or overwritten. */
  ghost predicate EndsAs(stored: seq<Word>, sent: seq<Word>, ending: Ending) {
    && (ending in {Underrun, Overwritten} ==> |stored| > RING - MIN_FREE)
    && match ending
       case Complete => sent == UpToStop(stored)
       case Underrun => sent < UpToStop(stored)
       case GaveUp => sent <= UpToStop(stored)
       case Overwritten => true
  }

  // ---------------------------------------------------------------- the speed of the channel

  /** How many slots the channel loads before each poll of a wait. At the last of the polls the time limit
      has passed. */
  type Polls = polls: seq<nat> | polls != [] witness [0]

  function Loads(polls: seq<nat>, n: nat): nat
    requires n <= |polls|
  {
    if n == 0 then 0 else Loads(polls, n - 1) + polls[n - 1]
  }

  /** Between two polls no more than one slot is loaded, and one is before the time limit. */
  predicate Steady(polls: seq<nat>) {
    (forall i :: 0 <= i < |polls| ==> polls[i] <= 1) && exists i :: 0 <= i < |polls| && polls[i] == 1
  }

  lemma {:induction false} SomeLoad(polls: seq<nat>, n: nat, i: nat)
    requires i < n <= |polls| && polls[i] >= 1
    ensures Loads(polls, n) >= 1
  {
    if i < n - 1 { SomeLoad(polls, n - 1, i); }
  }

  lemma SteadyLoads(polls: seq<nat>)
    requires Steady(polls)
    ensures Loads(polls, |polls|) >= 1
  {
    var i :| 0 <= i < |polls| && polls[i] == 1;
    SomeLoad(polls, |polls|, i);
  }

  /** With so many periods unread, a wait for space goes on. */
  predicate NoSpace(unread: int) {
    !(1 <= unread < RING - MIN_FREE)
  }

  /** The channel is hardware. Once it has loaded the stop value, it loads nothing for more than a minute. */
  class TimerRing {
    const data: array<Word>
    var writePos: nat
    var readPos: nat
    /** TIM2->ARR. */
    var reload: Word
    /** Every period stored, and every slot that the channel has loaded, since the last reset. */
    var stored: seq<Word>
    var loaded: seq<Word>
    /** An enqueue has given up waiting for free space. */
    var overwritten: bool
    /** The speed of the channel while period k is enqueued. */
    var pace: nat -> Polls

    /** The ring as a state of the protocol. */
    ghost function Abs(active: bool, pc: Pc, todo: seq<nat>): State
      reads this, data
    {
      State(data[..], writePos, active, pc, todo, stored, loaded)
    }

    ghost predicate Stopped()
      reads this
    {
      loaded != [] && loaded[|loaded| - 1] == SENTINEL
    }

    ghost predicate Valid(active: bool)
      reads this, data
    {
      ValidRing(active) && (OnPace() ==> Kept())
    }

    ghost predicate ValidRing(active: bool)
      reads this, data
    {
      && data.Length == RING && writePos < RING && (loaded != [] ==> reload == loaded[|loaded| - 1])
      && if overwritten then active && loaded != [] && |stored| > RING - MIN_FREE
         else if Stopped() then ValidStopped(active) else ValidGoing(active)
    }

    /** The stop value was loaded from a stored period, or from the slot behind all those stored until then.
        What has been stored since may have overwritten slots that were not loaded. */
    ghost predicate ValidStopped(active: bool)
      requires Stopped()
      reads this
    {
      var n := |loaded| - 1;
      && active && stored != [] && writePos == |stored| % RING && loaded[..n] <= stored && SENTINEL !in loaded[..n]
      && (n < |stored| && stored[n] != SENTINEL ==> |stored| > RING - MIN_FREE)
    }

    /** The invariant of the protocol. The channel loads the first slot when the timer is started. */
    ghost predicate ValidGoing(active: bool)
      requires data.Length == RING
      reads this, data
    {
      && Inv(Abs(active, Decide, [])) && SENTINEL !in loaded
      && (active ==> if stored == [] then reload == data[0] else loaded != [])
    }

    ghost predicate OnPace()
      reads `pace
    {
      forall k: nat :: Steady(pace(k))
    }

    /** The channel has stayed behind the producer, and the ring is nearly full from the start of the timer on. */
    ghost predicate Kept()
      reads this
    {
      && !overwritten
      && if Stopped() then loaded <= stored
         else |stored| >= RING - MIN_FREE ==> |stored| - |loaded| >= RING - MIN_FREE - 1
    }

    constructor ()
      ensures Valid(false) && stored == loaded == [] && fresh(data)
    {
      data := new Word[RING];
      writePos, readPos, reload, stored, loaded, overwritten, pace := 0, 0, 0, [], [], false, _ => [0];
    }

    // Environment: one DMA transfer.
    method DmaTransfer()
      requires ValidRing(true) && loaded != [] && reload != SENTINEL
      modifies `loaded, `reload
      ensures ValidRing(true) && loaded != [] && loaded == old(loaded) + [reload]
      ensures !overwritten && old(|loaded| < |stored|) ==> reload == stored[old(|loaded|)]
    {
      ghost var s := Abs(true, Decide, []);
      reload := data[|loaded| % RING];
      loaded := loaded + [reload];
      if !overwritten { Loaded(s, reload); }
    }

    // Environment: the channel goes on by n slots.
    method DmaProgress(n: nat)
      requires ValidRing(true) && loaded != []
      modifies `loaded, `reload
      ensures ValidRing(true) && loaded != [] && old(loaded) <= loaded && |loaded| <= old(|loaded|) + n
      ensures reload != SENTINEL ==> |loaded| == old(|loaded|) + n
      ensures !overwritten && old(loaded) <= stored && |loaded| <= |stored| ==> loaded <= stored
    {
      var i := 0;
      while i < n && reload != SENTINEL
        invariant ValidRing(true) && loaded != [] && old(loaded) <= loaded && i <= n
        invariant !overwritten && old(loaded) <= stored && |loaded| <= |stored| ==> loaded <= stored
        invariant |loaded| <= old(|loaded|) + i && (reload != SENTINEL ==> |loaded| == old(|loaded|) + i)
      {
        DmaTransfer();
        i := i + 1;
      }
    }

    // digital_sequence_enqueue_period, the free space as the channel shows it
    method FreeNow() returns (sizeFree: nat)
      requires ValidRing(true) && loaded != []
      modifies `readPos
      ensures ValidRing(true)
      ensures !overwritten && !Stopped() ==>
                sizeFree == if |loaded| == |stored| then 0 else RING - (|stored| - |loaded|)
    {
      readPos := |loaded| % RING;
      if !overwritten && !Stopped() { FreeSpace(Abs(true, Decide, [])); }
      sizeFree := (RING + readPos - writePos) % RING;
    }

    /** A wait that found `before` loaded has gone on for n polls, and none of them showed space. */
    ghost predicate Polled(polls: Polls, n: nat, before: seq<Word>)
      reads this
    {
      && n <= |polls| && before <= loaded
      && (!overwritten && !Stopped() ==>
            && |loaded| == |before| + Loads(polls, n)
            && forall i: nat :: 1 <= i <= n ==> NoSpace(|stored| - |before| - Loads(polls, i)))
    }

    /** So far it has kept the pace, and nothing has been loaded. */
    ghost predicate StillFull(polls: Polls, before: seq<Word>)
      reads this
    {
      Steady(polls) && Kept() && |stored| >= RING - MIN_FREE && loaded == before
    }

    // digital_sequence_enqueue_period, one poll of the wait for free space
    method Poll(polls: Polls, i: nat, ghost before: seq<Word>) returns (sizeFree: nat)
      requires ValidRing(true) && loaded != [] && i < |polls| && Polled(polls, i, before)
      modifies `loaded, `reload, `readPos
      ensures ValidRing(true) && loaded != [] && before <= loaded
      ensures if sizeFree > MIN_FREE then overwritten || Stopped() || !NoSpace(|stored| - |loaded|)
              else Polled(polls, i + 1, before)
      ensures old(StillFull(polls, before)) ==>
                KeptButOne() && (sizeFree <= MIN_FREE ==> Stopped() || StillFull(polls, before))
    {
      DmaProgress(polls[i]);
      sizeFree := FreeNow();
    }

    // digital_sequence_enqueue_period, the wait for free space; it hangs if the time limit has passed while the
    // timer goes on
    method WaitForSpace(polls: Polls) returns (hung: bool)
      requires ValidRing(true) && loaded != []
      modifies `loaded, `reload, `readPos
      ensures ValidRing(true) && loaded != []
      ensures hung || overwritten || Stopped() || !NoSpace(|stored| - |loaded|)
      // only if there was no space at any of the polls
      ensures hung ==> !Stopped() && Polled(polls, |polls|, old(loaded))
      // at a steady pace there is space after a single load at most
      ensures Steady(polls) && old(Kept()) && |stored| >= RING - MIN_FREE ==> !hung && KeptButOne()
    {
      hung := false;
      var i := 0;
      ghost var before, steady := loaded, Steady(polls) && Kept() && |stored| >= RING - MIN_FREE;
      while true
        invariant ValidRing(true) && loaded != [] && !hung && i < |polls| && Polled(polls, i, before)
        invariant steady ==> StillFull(polls, before)
        decreases |polls| - i
      {
        var sizeFree := Poll(polls, i, before);
        if sizeFree > MIN_FREE {
          break;
        }
        i := i + 1;
        if i == |polls| {
          hung := reload != SENTINEL;
          if hung && steady { SteadyLoads(polls); }
          break;
        }
        if reload == SENTINEL {
          break;
        }
      }
    }

    ghost predicate KeptButOne()
      reads this
    {
      && !overwritten
      && if Stopped() then loaded <= stored else |stored| - |loaded| >= RING - MIN_FREE - 2
    }

    // digital_sequence_enqueue_period
    method EnqueuePeriod(active: bool, length: Word)
      requires Valid(active) && if active then |stored| >= RING - MIN_FREE else |stored| < RING - MIN_FREE
      modifies `writePos, `readPos, `reload, `stored, `loaded, `overwritten, data
      ensures Valid(active) && stored == old(stored) + [length]
    {
      var hung := false;
      if active {
        assert OnPace() ==> Steady(pace(|stored|));
        hung := WaitForSpace(pace(|stored|));
      }
      Store(active, length, hung);
    }

    // digital_sequence_enqueue_period, the two stores
    method Store(active: bool, length: Word, hung: bool)
      requires ValidRing(active)
      requires if active then |stored| >= RING - MIN_FREE && loaded != [] else !hung && |stored| < RING - MIN_FREE
      requires active ==> hung || overwritten || Stopped() || |stored| - |loaded| < RING - MIN_FREE
      modifies `writePos, `stored, `overwritten, data
      ensures ValidRing(active) && stored == old(stored) + [length]
      ensures !hung && (active ==> old(KeptButOne())) ==> Kept()
    {
      ghost var s := Abs(active, Decide, []);
      StorePair(length);
      stored := stored + [length];
      overwritten := overwritten || hung;
      if !overwritten && !Stopped() { StoredBoth(s, Abs(active, Decide, []), length); }
    }

    method StorePair(length: Word)
      requires data.Length == RING && writePos < RING
      modifies `writePos, data
      ensures writePos == (old(writePos) + 1) % RING
      ensures data[..] == old(data[..])[old(writePos) := length][writePos := SENTINEL]
    {
      data[writePos] := length;
      writePos := (writePos + 1) % RING;
      data[writePos] := SENTINEL;
    }

    // digital_sequence_start_dma and digital_sequence_start_timer: the update event has the first slot loaded
    method StartTimer()
      requires Valid(false)
      modifies `loaded, `reload
      ensures Valid(true)
    {
      ghost var s := Abs(true, Decide, []);
      StartKeeps(Abs(false, Decide, []));
      reload := data[0];
      if stored != [] {
        assert SlotOk(s, 0);
        loaded := [reload];
        DmaLoadKeeps(s, Abs(true, Decide, []));
      }
    }

    /** What the timer has been given when `pos` slots have been loaded. */
    ghost predicate Given(sent: seq<Word>, pos: nat)
      reads this
    {
      && 1 <= pos && SENTINEL !in sent
      && if reload == SENTINEL then pos - 1 <= |stored| && sent == stored[..pos - 1]
         else pos <= |stored| && sent == stored[..pos]
    }

    /** If the stop value has been loaded, there was a reason. */
    ghost predicate CutLate(pos: nat)
      reads this
    {
      reload == SENTINEL && 1 <= pos <= |stored| && stored[pos - 1] != SENTINEL ==>
        Stopped() && |stored| > RING - MIN_FREE && !OnPace()
    }

    // digital_sequence_finish: until the stop value has been loaded, or the time limit, before which the channel
    // loads `patience` slots, has passed
    method Finish(patience: nat) returns (sent: seq<Word>, ending: Ending)
      requires Valid(true)
      modifies `reload
      ensures stored != [] ==> EndsAs(stored, sent, ending) && (OnPace() ==> ending in {Complete, GaveUp})
      ensures stored == [] && data[0] == SENTINEL ==> ending == Complete && sent == []
      ensures stored == [] && data[0] != SENTINEL ==> sent != [] && ending in {Complete, GaveUp}
      // it goes on to the stop value, or to the time limit, and gives up exactly if that comes first
      ensures reload == SENTINEL || |sent| == (if loaded == [] then 1 else |loaded|) + patience
      ensures stored != [] && !overwritten && !Stopped() ==> (ending == GaveUp <==> |loaded| + patience <= |UpToStop(stored)|)
      ensures ending == GaveUp ==> reload != SENTINEL
      // which it does not if that is enough for what has been stored, or for a full ring
      ensures stored != [] && (patience >= RING || patience >= |UpToStop(stored)|) ==> ending != GaveUp
    {
      var pos := if loaded == [] then 1 else |loaded|;
      sent := if reload == SENTINEL then loaded[..pos - 1] else if loaded == [] then [reload] else loaded;
      var hung := false;
      var left := patience;
      ghost var s, most := Abs(true, Decide, []), pos + patience;
      while true
        invariant pos >= 1 && pos + left == most && (reload != SENTINEL ==> |sent| == pos)
        invariant stored != [] && !overwritten ==>
                    Given(sent, pos) && CutLate(pos) && (reload == SENTINEL || (Inv(s) && |s.loaded| <= pos))
        invariant stored == [] ==> if data[0] == SENTINEL then reload == SENTINEL && sent == [] else sent != []
        decreases left
      {
        if reload == SENTINEL {
          break;
        }
        if left == 0 {
          hung := true;
          break;
        }
        sent := LoadNext(sent, pos, s);
        pos, left := pos + 1, left - 1;
      }
      ending := if overwritten then Overwritten
                else if hung then GaveUp
                else if pos - 1 < |stored| && stored[pos - 1] != SENTINEL then Underrun
                else Complete;
      if stored != [] && !overwritten { GivenIs(stored, sent, if reload == SENTINEL then pos - 1 else pos); }
    }

    // Environment: the channel loads the next slot, whatever it holds.
    method LoadNext(sent: seq<Word>, pos: nat, ghost s: State) returns (sent': seq<Word>)
      requires data.Length == RING && data[..] == s.data && stored == s.stored && s.pc == Decide && reload != SENTINEL
      requires stored != [] && !overwritten ==> Given(sent, pos) && Inv(s) && |s.loaded| <= pos
      modifies `reload
      ensures stored != [] && !overwritten ==> Given(sent', pos + 1) && CutLate(pos + 1)
      ensures sent <= sent' && (reload != SENTINEL ==> |sent'| == |sent| + 1)
    {
      if stored != [] && !overwritten { NextLoaded(s, pos); }
      reload := data[pos % RING];
      sent' := if reload == SENTINEL then sent else sent + [reload];
    }

    // digital_sequence_timer_buffer_reset
    method Reset()
      requires data.Length == RING
      modifies `writePos, `readPos, `stored, `loaded, `overwritten, data
      ensures Valid(false) && stored == loaded == [] && data[0] == SENTINEL
    {
      data[0] := SENTINEL;
      readPos, writePos, stored, loaded, overwritten := 0, 0, [], [], false;
    }
  }

  lemma GivenIs(stored: seq<Word>, sent: seq<Word>, n: nat)
    requires n <= |stored| && sent == stored[..n] && SENTINEL !in sent
    ensures sent <= UpToStop(stored)
    ensures sent == UpToStop(stored) <==> n == |stored| || stored[n] == SENTINEL
  {
    var r := UpToStop(stored);
    if n == |stored| || stored[n] == SENTINEL { UpToStopIs(stored, n); }
    forall i | 0 <= i < n ensures stored[i] != SENTINEL { assert stored[i] == sent[i]; }
  }

  /** The slot behind the last stored period holds the stop value. */
  lemma NextLoaded(s: State, pos: nat)
    requires Inv(s) && s.pc == Decide && s.stored != [] && |s.loaded| <= pos <= |s.stored|
    ensures s.data[pos % RING] == if pos < |s.stored| then s.stored[pos] else SENTINEL
  {
    if pos < |s.stored| { assert SlotOk(s, pos); }
  }

  /** A transfer loads the next stored period, or the stop value behind all of them. */
  lemma Loaded(s: State, x: nat)
    requires Inv(s) && s.pc == Decide && s.active && s.loaded != [] && x == s.data[|s.loaded| % RING]
    ensures |s.loaded| == |s.stored| ==> x == SENTINEL
    ensures |s.loaded| < |s.stored| ==> x == s.stored[|s.loaded|] && Inv(s.(loaded := s.loaded + [x]))
  {
    NextLoaded(s, |s.loaded|);
    if |s.loaded| < |s.stored| { DmaLoadKeeps(s, s.(loaded := s.loaded + [x])); }
  }

  /** Starting the DMA keeps the ring valid. */
  lemma StartKeeps(s: State)
    requires Inv(s) && s.pc == Decide
    ensures Inv(s.(active := true))
  {
    forall k: nat | |s.loaded| <= k < |s.stored| ensures SlotOk(s.(active := true), k) { assert SlotOk(s, k); }
  }

  /** Both stores of an enqueue, after a wait that has left room. */
  lemma StoredBoth(s: State, s': State, length: Word)
    requires Inv(s) && s.pc == Decide
    requires if s.active then Unread(s) < RING - MIN_FREE else |s.stored| < RING - MIN_FREE
    requires var next := (s.writePos + 1) % RING;
             s' == s.(data := s.data[s.writePos := length][next := SENTINEL], writePos := next, todo := [],
                      stored := s.stored + [length])
    ensures Inv(s')
  {
    var s1 := s.(pc := StorePeriod, todo := [length]);
    WaitedInv(s, s1);
    var s2 := s1.(pc := Advance, data := s.data[s.writePos := length], todo := [], stored := s'.stored);
    StorePeriodKeeps(s1, s2);
    var s3 := s2.(pc := StoreSentinel, writePos := s'.writePos);
    ControlKeeps(s2, s3);
    StoreSentinelKeeps(s3, s');
  }

  /** Leaving the wait, seen from the state before the call. */
  lemma WaitedInv(s: State, s': State)
    requires Inv(s) && s.pc == Decide && s'.todo != []
    requires s' == s.(pc := StorePeriod, todo := s'.todo)
    requires if s.active then Unread(s) < RING - MIN_FREE else |s.stored| < RING - MIN_FREE
    ensures Inv(s')
  {
    forall k: nat | |s'.loaded| <= k < |s'.stored| ensures SlotOk(s', k) { assert SlotOk(s, k); }
  }
}
