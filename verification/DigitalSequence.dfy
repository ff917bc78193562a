/** DigitalSequence: a bank of registered signals, the order in which they are sent, and the
    transmission through the DMA ring. */
module DigitalSequence {
  import opened DigitalSignal
  import opened Waveform
  import opened DmaRing
  import opened TimerRing

  const BANK_SIZE := 32

  // ---------------------------------------------------------------- the sequence

  datatype Slot = Empty | Registered(sig: Sig)

  ghost predicate AllSendable(sigs: seq<Sig>) {
    forall j :: 0 <= j < |sigs| ==> Sendable(sigs[j])
  }

  // ---------------------------------------------------------------- what is enqueued

  /** The reload values of a signal with a carry added to the first, in 32-bit arithmetic. */
  function WithCarry(s: Sig, carry: Word): (v: seq<Word>)
    requires s.data != []
    ensures |v| == |s.data|
  {
    s.data[0 := (s.data[0] + carry) % WORD]
  }

  /** What is carried out of a signal: nothing when the level changes, the last value when it
      does not, and 1 after the last signal, so that its last period is not enqueued. */
  function CarryOut(s: Sig, next: Slot, carry: Word): Word
    requires s.data != []
  {
    if next.Empty? then 1
    else if LevelAt(s, |s.data| - 1) == next.sig.startLevel then WithCarry(s, carry)[|s.data| - 1]
    else 0
  }

  /** What is enqueued for a signal: a zero carry means that the last period is, too. */
  function Enqueued(s: Sig, next: Slot, carry: Word): seq<Word>
    requires s.data != []
  {
    if CarryOut(s, next, carry) == 0 then WithCarry(s, carry) else WithCarry(s, carry)[..|s.data| - 1]
  }

  function NextSlot(sigs: seq<Sig>, k: nat): Slot {
    if k + 1 < |sigs| then Registered(sigs[k + 1]) else Empty
  }

  /** The carry with which the next signal is entered, its correction included. */
  function CarryInto(sigs: seq<Sig>, k: nat, carry: Word): Word
    requires k + 1 < |sigs| && sigs[k].data != []
  {
    (CarryOut(sigs[k], NextSlot(sigs, k), carry) + Correction(sigs, k + 1)) % WORD
  }

  /** All that is enqueued from signal k on. */
  ghost function EnqueuedFrom(sigs: seq<Sig>, k: nat, carry: Word): seq<Word>
    requires AllSendable(sigs) && k < |sigs|
    decreases |sigs| - k
  {
    assert Sendable(sigs[k]);
    if k + 1 == |sigs| then Enqueued(sigs[k], Empty, carry)
    else Enqueued(sigs[k], NextSlot(sigs, k), carry) + EnqueuedFrom(sigs, k + 1, CarryInto(sigs, k, carry))
  }

  /** The carry with which signal k is entered, and what has been enqueued before it. */
  ghost function EntryCarry(sigs: seq<Sig>, k: nat): Word
    requires AllSendable(sigs) && k < |sigs|
  {
    if k == 0 then 0
    else
      assert Sendable(sigs[k - 1]);
      CarryInto(sigs, k - 1, EntryCarry(sigs, k - 1))
  }

  ghost function EnqueuedBefore(sigs: seq<Sig>, k: nat): seq<Word>
    requires AllSendable(sigs) && k <= |sigs|
  {
    if k == 0 then []
    else
      assert Sendable(sigs[k - 1]);
      EnqueuedBefore(sigs, k - 1) + Enqueued(sigs[k - 1], NextSlot(sigs, k - 1), EntryCarry(sigs, k - 1))
  }

  lemma OneSignalMore(sigs: seq<Sig>, k: nat)
    requires AllSendable(sigs) && k < |sigs| && sigs[k].data != []
    ensures EnqueuedBefore(sigs, k + 1) == EnqueuedBefore(sigs, k) + Enqueued(sigs[k], NextSlot(sigs, k), EntryCarry(sigs, k))
    ensures k + 1 < |sigs| ==> EntryCarry(sigs, k + 1) == CarryInto(sigs, k, EntryCarry(sigs, k))
  {
  }

  lemma AssociateMore(a: seq<nat>, b: seq<nat>, c: seq<nat>)
    ensures a + (b + c) == (a + b) + c
  {
  }

  /** Forwards and backwards the same values are enqueued. */
  lemma {:induction false} EnqueuedSplit(sigs: seq<Sig>, k: nat)
    requires AllSendable(sigs) && k < |sigs|
    ensures EnqueuedBefore(sigs, |sigs|) == EnqueuedBefore(sigs, k) + EnqueuedFrom(sigs, k, EntryCarry(sigs, k))
    decreases |sigs| - k
  {
    if k + 1 < |sigs| {
      EnqueuedSplit(sigs, k + 1);
      assert Sendable(sigs[k]);
      AssociateMore(EnqueuedBefore(sigs, k), Enqueued(sigs[k], NextSlot(sigs, k), EntryCarry(sigs, k)),
                    EnqueuedFrom(sigs, k + 1, EntryCarry(sigs, k + 1)));
    }
  }

  // ---------------------------------------------------------------- and what it means

  /** The values of the periods of a signal from index i to the one before the last. */
  function Inner(s: Sig, i: nat): seq<nat>
    decreases |s.data| - i
  {
    if i + 1 >= |s.data| then [] else [s.data[i]] + Inner(s, i + 1)
  }

  lemma {:induction false} InnerIsSlice(s: Sig, i: nat)
    requires i < |s.data|
    ensures Inner(s, i) == s.data[i..|s.data| - 1]
    decreases |s.data| - i
  {
    if i + 1 < |s.data| { InnerIsSlice(s, i + 1); }
  }

  lemma Associate(x: nat, a: seq<nat>, b: seq<nat>)
    ensures [x] + (a + b) == ([x] + a) + b
  {
  }

  /** The periods of signal k from index i to the one before the last are sent as they are. */
  lemma {:induction false} InnerPeriods(sigs: seq<Sig>, k: nat, i: nat)
    requires k < |sigs| && i < |sigs[k].data|
    ensures Streamed(Tail(sigs, k, i)) == Inner(sigs[k], i) + Streamed(Tail(sigs, k, |sigs[k].data| - 1))
    decreases |sigs[k].data| - i
  {
    var n := |sigs[k].data|;
    var last := Streamed(Tail(sigs, k, n - 1));
    if i + 1 < n {
      TailSteps(sigs, k, i);
      InnerPeriods(sigs, k, i + 1);
      Associate(sigs[k].data[i], Inner(sigs[k], i + 1), last);
    } else {
      assert [] + last == last;
    }
  }

  /** Before the last period of signal k: all others are sent, the first with the carry. */
  lemma BeforeLast(sigs: seq<Sig>, k: nat, carry: Word)
    requires k < |sigs| && sigs[k].data != []
    ensures var n, v := |sigs[k].data|, WithCarry(sigs[k], carry);
            var c := if n == 1 then carry else 0;
            && Streamed(Tail(sigs, k, 0).Bump(carry)) == v[..n - 1] + Streamed(Tail(sigs, k, n - 1).Bump(c))
            && v[n - 1] == (sigs[k].data[n - 1] + c) % WORD
  {
    if |sigs[k].data| == 1 {
      var v, r := WithCarry(sigs[k], carry), Streamed(Tail(sigs, k, 0).Bump(carry));
      assert v[..0] + r == r;
    } else {
      BeforeLastMany(sigs, k, carry);
    }
  }

  lemma BeforeLastMany(sigs: seq<Sig>, k: nat, carry: Word)
    requires k < |sigs| && |sigs[k].data| > 1
    ensures var n, v := |sigs[k].data|, WithCarry(sigs[k], carry);
            && Streamed(Tail(sigs, k, 0).Bump(carry)) == v[..n - 1] + Streamed(Tail(sigs, k, n - 1).Bump(0))
            && v[n - 1] == sigs[k].data[n - 1] % WORD
  {
    var s, n, v := sigs[k], |sigs[k].data|, WithCarry(sigs[k], carry);
    TailSteps(sigs, k, 0);
    InnerPeriods(sigs, k, 1);
    BumpZero(Tail(sigs, k, n - 1));
    Associate(v[0], Inner(s, 1), Streamed(Tail(sigs, k, n - 1)));
    FirstAndInner(s, carry);
  }

  lemma FirstAndInner(s: Sig, carry: Word)
    requires |s.data| > 1
    ensures [WithCarry(s, carry)[0]] + Inner(s, 1) == WithCarry(s, carry)[..|s.data| - 1]
  {
    InnerIsSlice(s, 1);
  }

  lemma LastSignal(sigs: seq<Sig>, k: nat, carry: Word)
    requires k + 1 == |sigs| && sigs[k].data != []
    ensures Streamed(Tail(sigs, k, 0).Bump(carry)) == Enqueued(sigs[k], Empty, carry)
  {
    var n, v := |sigs[k].data|, WithCarry(sigs[k], carry);
    BeforeLast(sigs, k, carry);
    TailSteps(sigs, k, n - 1);
    assert v[..n - 1] + [] == v[..n - 1];
  }

  /** The last period of a signal is sent when the level changes after it, or when it is zero, and
      otherwise carried into the first period of the next signal. */
  lemma LastPeriod(sigs: seq<Sig>, k: nat, c: nat)
    requires k + 1 < |sigs| && sigs[k].data != [] && sigs[k + 1].data != []
    ensures var n, next := |sigs[k].data|, WaveFrom(sigs, k + 1);
            var v := (sigs[k].data[n - 1] + c) % WORD;
            Streamed(Tail(sigs, k, n - 1).Bump(c))
            == if LevelAt(sigs[k], n - 1) == sigs[k + 1].startLevel && v != 0 then Streamed(next.Bump(v))
               else [v] + Streamed(next.Bump(0))
  {
    TailSteps(sigs, k, |sigs[k].data| - 1);
    EnterSignal(sigs, k + 1, 0);
    BumpZero(WaveFrom(sigs, k + 1));
  }

  /** What signal k enqueues is what is sent of it, and the rest is sent with the carry. */
  lemma MiddleRuns(sigs: seq<Sig>, k: nat, carry: Word)
    requires k + 1 < |sigs| && sigs[k].data != [] && sigs[k + 1].data != []
    ensures Streamed(Tail(sigs, k, 0).Bump(carry))
            == Enqueued(sigs[k], NextSlot(sigs, k), carry)
               + Streamed(WaveFrom(sigs, k + 1).Bump(CarryOut(sigs[k], NextSlot(sigs, k), carry)))
  {
    var n, v := |sigs[k].data|, WithCarry(sigs[k], carry);
    BeforeLast(sigs, k, carry);
    LastPeriod(sigs, k, if n == 1 then carry else 0);
    SplitLast(sigs[k], sigs[k + 1], carry, Streamed(WaveFrom(sigs, k + 1).Bump(0)));
  }

  /** The last value of a signal is enqueued or carried. */
  lemma SplitLast(s: Sig, next: Sig, carry: Word, rest: seq<Word>)
    requires s.data != []
    ensures var v, out, n := WithCarry(s, carry), CarryOut(s, Registered(next), carry), |s.data|;
            if LevelAt(s, n - 1) == next.startLevel && v[n - 1] != 0 then
              out == v[n - 1] && Enqueued(s, Registered(next), carry) == v[..n - 1]
            else
              out == 0 && Enqueued(s, Registered(next), carry) + rest == v[..n - 1] + ([v[n - 1]] + rest)
  {
  }

  lemma MiddleSignal(sigs: seq<Sig>, k: nat, carry: Word)
    requires k + 1 < |sigs| && sigs[k].data != [] && sigs[k + 1].data != []
    ensures Streamed(Tail(sigs, k, 0).Bump(carry))
            == Enqueued(sigs[k], NextSlot(sigs, k), carry) + Streamed(Tail(sigs, k + 1, 0).Bump(CarryInto(sigs, k, carry)))
  {
    var out := CarryOut(sigs[k], NextSlot(sigs, k), carry);
    MiddleRuns(sigs, k, carry);
    EnterSignal(sigs, k + 1, out);
    BumpModulo(Tail(sigs, k + 1, 0), out + Correction(sigs, k + 1));
  }

  lemma BumpModulo(w: Wave, c: nat)
    ensures Streamed(w.Bump(c)) == Streamed(w.Bump(c % WORD))
  {
    if w.Per? {
      AddModulo(c, c % WORD, w.value);
      StreamedModulo(w.level, w.value + c, w.value + c % WORD, w.rest);
    }
  }

  /** Whatever the lengths, what is enqueued from signal k on is the stream of its periods and all
      that follow, the carry included. */
  lemma {:induction false} EnqueuedIsStreamed(sigs: seq<Sig>, k: nat, carry: Word)
    requires k < |sigs| && AllSendable(sigs)
    ensures EnqueuedFrom(sigs, k, carry) == Streamed(Tail(sigs, k, 0).Bump(carry))
    decreases |sigs| - k
  {
    assert Sendable(sigs[k]);
    if k + 1 == |sigs| {
      LastSignal(sigs, k, carry);
    } else {
      assert Sendable(sigs[k + 1]);
      MiddleSignal(sigs, k, carry);
      EnqueuedIsStreamed(sigs, k + 1, CarryInto(sigs, k, carry));
    }
  }

  /** The whole transmission, in 32-bit arithmetic. */
  lemma TransmissionIsStreamed(sigs: seq<Sig>)
    requires sigs != [] && AllSendable(sigs)
    ensures EnqueuedBefore(sigs, |sigs|) == Streamed(WaveFrom(sigs, 0))
  {
    assert Sendable(sigs[0]);
    EnqueuedSplit(sigs, 0);
    assert EnqueuedBefore(sigs, |sigs|) == EnqueuedFrom(sigs, 0, 0);
    EnterSignal(sigs, 0, 0);
    EnqueuedIsStreamed(sigs, 0, 0);
    BumpZero(WaveFrom(sigs, 0));
  }

  /** What is enqueued are the level-merged runs of all periods, corrections included and the last
      run dropped, if and only if the waveform is clean. */
  lemma TransmissionMeaning(sigs: seq<Sig>)
    requires sigs != [] && AllSendable(sigs)
    ensures EnqueuedBefore(sigs, |sigs|) == Expected(sigs) <==> Clean(WaveFrom(sigs, 0))
  {
    TransmissionIsStreamed(sigs);
    StreamedIff(WaveFrom(sigs, 0));
  }

  /** It is clean if every run fits in 32 bits, the last one included. */
  lemma RunsThatFit(sigs: seq<Sig>)
    requires sigs != [] && AllSendable(sigs) && AllWords(Values(Merge(WaveFrom(sigs, 0))))
    ensures EnqueuedBefore(sigs, |sigs|) == Expected(sigs)
  {
    PositiveFrom(sigs, 0);
    SmallRunsClean(WaveFrom(sigs, 0));
    TransmissionMeaning(sigs);
  }

  lemma {:induction false} PositiveSignal(s: Sig, i: nat, more: Wave)
    requires Sendable(s) && Positive(more)
    ensures Positive(SigWave(s, i, more))
    decreases |s.data| - i
  {
    if i < |s.data| { PositiveSignal(s, i + 1, more); }
  }

  lemma {:induction false} PositiveFrom(sigs: seq<Sig>, k: nat)
    requires AllSendable(sigs)
    ensures Positive(WaveFrom(sigs, k))
    decreases |sigs| - k
  {
    if k < |sigs| {
      assert Sendable(sigs[k]);
      PositiveFrom(sigs, k + 1);
      PositiveSignal(sigs[k], 0, WaveFrom(sigs, k + 1));
    }
  }

  // ---------------------------------------------------------------- what the timer is given

  /** The timer is given the merged runs without the last if and only if, besides, none of them has the
      stop value: at the first of these the transmission ends. */
  lemma {:induction false} StopIff(w: Wave)
    requires w.Per? ==> w.value >= 1
    requires Positive(w)
    ensures UpToStop(Streamed(w)) == SentRuns(w) <==> Clean(w) && SENTINEL !in SentRuns(w)
    decreases w.Length()
  {
    StreamedIff(w);
    if Clean(w) && SENTINEL !in SentRuns(w) {
      UpToStopIs(Streamed(w), |Streamed(w)|);
    }
    if UpToStop(Streamed(w)) == SentRuns(w) { StopClean(w); }
  }

  lemma {:induction false} StopClean(w: Wave)
    requires w.Per? ==> w.value >= 1
    requires Positive(w) && UpToStop(Streamed(w)) == SentRuns(w)
    ensures Clean(w)
    decreases w.Length()
  {
    if !w.End? && !w.rest.End? {
      assert w.Length() == 1 + w.rest.Length() && w.rest.Length() == 1 + w.rest.rest.Length();
      if w.level != w.rest.level {
        StopNext(w.value % WORD, Streamed(w.rest), w.value, SentRuns(w.rest));
        StopClean(w.rest);
      } else if w.value % WORD == 0 {
        StopNext(0, Streamed(w.rest), 0, []);
        FirstSent(Per(w.level, w.value + w.rest.value, w.rest.rest));
        assert false;
      } else {
        AddModulo(w.value, w.value, w.rest.value);
        StreamedModulo(w.level, w.value + w.rest.value, w.value % WORD + w.rest.value, w.rest.rest);
        StopClean(Per(w.level, w.value + w.rest.value, w.rest.rest));
      }
    }
  }

  lemma StopNext(x: Word, v: seq<Word>, y: nat, e: seq<nat>)
    ensures UpToStop([x] + v) == [y] + e ==> x == y && UpToStop(v) == e
    ensures x != SENTINEL ==> UpToStop([x] + v) == [x] + UpToStop(v)
  {
    assert ([x] + v)[1..] == v;
    assert ([y] + e)[0] == y && ([y] + e)[1..] == e;
  }

  lemma FirstSent(w: Wave)
    requires w.Per? && w.value >= 1
    ensures SentRuns(w) == [] || SentRuns(w)[0] >= 1
  {
    FirstRun(w);
  }

  /** The first i periods of a signal have been stored behind those before. */
  ghost predicate SentBehind(current: Sig, next: Slot, carryIn: Word, before: seq<nat>, stored: seq<nat>, i: nat, carry: Word) {
    && i <= |current.data| != 0
    && if i < |current.data| then
         carry == (if i == 0 then carryIn else 0) && stored == before + WithCarry(current, carryIn)[..i]
       else
         carry == CarryOut(current, next, carryIn) && stored == before + Enqueued(current, next, carryIn)
  }

  lemma OneMoreSent(current: Sig, next: Slot, carryIn: Word, before: seq<nat>, stored: seq<nat>, i: nat, carry: Word,
                    carry': Word)
    requires i < |current.data| && SentBehind(current, next, carryIn, before, stored, i, carry)
    requires carry' == if i + 1 < |current.data| then 0 else CarryOut(current, next, carryIn)
    ensures SentBehind(current, next, carryIn, before,
                       stored + if carry' == 0 then [(current.data[i] + carry) % WORD] else [], i + 1, carry')
  {
    var v := WithCarry(current, carryIn);
    assert v[i] == (current.data[i] + carry) % WORD && v[..i + 1] == v[..i] + [v[i]];
    assert i + 1 == |v| ==> v[..i + 1] == v;
    assert (before + v[..i]) + [v[i]] == before + v[..i + 1] && (before + v[..i]) + [] == before + v[..i];
  }

  ghost function InOrder(order: seq<nat>, bank: seq<Slot>): (sigs: seq<Sig>)
    requires forall i :: 0 <= i < |order| ==> order[i] < |bank| && bank[order[i]].Registered? && Sendable(bank[order[i]].sig)
    ensures |sigs| == |order| && AllSendable(sigs)
    ensures forall i :: 0 <= i < |order| ==> bank[order[i]] == Registered(sigs[i])
  {
    seq(|order|, i requires 0 <= i < |order| => bank[order[i]].sig)
  }

  class DigitalSequence {
    var size: nat
    const maxSize: nat
    const data: array<nat>
    const signals: array<Slot>
    const ring: TimerRing
    /** gpio_buf: the levels put out at even and at odd timer updates. */
    var gpioEven: bool
    var gpioOdd: bool
    var active: bool

    /** The bank and the order. */
    ghost predicate Shape()
      reads `size, data
    {
      && data.Length == maxSize && size <= maxSize && signals.Length == BANK_SIZE
      && (forall i :: 0 <= i < size ==> data[i] < BANK_SIZE)
    }

    ghost predicate Valid()
      reads this, data, ring, ring.data
    {
      Shape() && !active && ring.Valid(false) && ring.stored == []
    }

    /** Every signal in the sequence has been registered and can be sent. */
    ghost predicate AllRegistered()
      requires Shape()
      reads `size, data, signals
    {
      forall i :: 0 <= i < size ==> signals[data[i]].Registered? && Sendable(signals[data[i]].sig)
    }

    /** The signals in the order in which they are sent. */
    ghost function Signals(): (sigs: seq<Sig>)
      requires Shape() && AllRegistered()
      reads `size, data, signals
      ensures AllSendable(sigs) && Holds(sigs)
    {
      InOrder(data[..size], signals[..])
    }

    ghost predicate Holds(sigs: seq<Sig>)
      requires Shape()
      reads `size, data, signals
    {
      |sigs| == size && forall i :: 0 <= i < size ==> signals[data[i]] == Registered(sigs[i])
    }

    constructor (maxSize: nat)
      ensures Valid() && size == 0 && this.maxSize == maxSize && fresh(data) && fresh(signals) && fresh(ring) && fresh(ring.data)
    {
      this.maxSize := maxSize;
      size, gpioEven, gpioOdd, active := 0, false, false, false;
      data := new nat[maxSize](_ => 0);
      signals := new Slot[BANK_SIZE](_ => Empty);
      ring := new TimerRing();
    }

    // digital_sequence_register_signal
    method RegisterSignal(index: nat, sig: Sig)
      requires Valid() && index < BANK_SIZE
      modifies signals
      ensures Valid() && signals[..] == old(signals[..])[index := Registered(sig)]
    {
      signals[index] := Registered(sig);
    }

    // digital_sequence_add_signal
    method AddSignal(index: nat)
      requires Valid() && index < BANK_SIZE && size < maxSize
      modifies `size, data
      ensures Valid() && data[..size] == old(data[..size]) + [index]
    {
      data[size] := index;
      size := size + 1;
    }

    // digital_sequence_clear
    method Clear()
      requires Valid()
      modifies `size
      ensures Valid() && size == 0
    {
      size := 0;
    }

    // digital_sequence_transmit, the decision to start the DMA and the timer
    method MaybeStart(isEnd: bool)
      requires ring.Valid(active) && if active then |ring.stored| >= RING - MIN_FREE else |ring.stored| <= RING - MIN_FREE
      modifies `active, ring`loaded, ring`reload
      ensures ring.Valid(active) && (isEnd || CanEnqueue())
      ensures active <==> old(active) || ring.writePos >= RING - MIN_FREE || isEnd
    {
      if !active {
        if ring.writePos >= RING - MIN_FREE || isEnd {
          ring.StartTimer();
          active := true;
        }
      }
    }

    /** The producer may enqueue: there is room left, or the DMA has been started. */
    ghost predicate CanEnqueue()
      reads this, ring, ring.data
    {
      && ring.Valid(active)
      && if active then |ring.stored| >= RING - MIN_FREE else |ring.stored| < RING - MIN_FREE
    }

    // digital_sequence_transmit, what is done with one period: a nonzero carry keeps it back
    method SendPeriod(reload: Word, carry: Word, isEnd: bool)
      requires CanEnqueue()
      modifies `active, ring`writePos, ring`readPos, ring`reload, ring`stored, ring`loaded, ring`overwritten, ring.data
      ensures ring.Valid(active) && if isEnd then active else CanEnqueue()
      ensures ring.stored == old(ring.stored) + if carry == 0 then [reload] else []
      ensures ring.stored == [] ==> ring.data[0] == old(ring.data[0])
    {
      if carry == 0 {
        ring.EnqueuePeriod(active, reload);
      }
      MaybeStart(isEnd);
    }

    // digital_sequence_transmit, the special cases for the last period of a signal
    method CarryAt(current: Sig, next: Slot, isLast: bool, reload: Word) returns (carry: Word)
      requires current.data != []
      ensures carry == if !isLast then 0 else if next.Empty? then 1
                       else if LevelAt(current, |current.data| - 1) == next.sig.startLevel then reload else 0
    {
      carry := 0;
      if isLast {
        if next.Registered? {
          var endLevel := current.startLevel != (|current.data| % 2 == 0);
          if endLevel == next.sig.startLevel {
            carry := reload;
          }
        } else {
          carry := 1;
        }
      }
    }

    /** The first i periods of a signal have been sent. */
    ghost predicate SentTo(current: Sig, next: Slot, carryIn: Word, before: seq<nat>, i: nat, carry: Word)
      reads this, ring, ring.data
    {
      && ring.Valid(active) && (if i == |current.data| && next.Empty? then active else CanEnqueue())
      && SentBehind(current, next, carryIn, before, ring.stored, i, carry)
    }

    // digital_sequence_transmit, the body of the loop over the periods of a signal
    method SendNext(current: Sig, next: Slot, i: nat, carry: Word, ghost carryIn: Word, ghost before: seq<nat>)
      returns (carry': Word)
      requires i < |current.data| && SentTo(current, next, carryIn, before, i, carry)
      modifies `active, ring`writePos, ring`readPos, ring`reload, ring`stored, ring`loaded, ring`overwritten, ring.data
      ensures SentTo(current, next, carryIn, before, i + 1, carry')
      ensures ring.stored == [] ==> ring.data[0] == old(ring.data[0])
    {
      var isLast := i == |current.data| - 1;
      var reload := (current.data[i] + carry) % WORD;
      carry' := CarryAt(current, next, isLast, reload);
      OneMoreSent(current, next, carryIn, before, ring.stored, i, carry, carry');
      SendPeriod(reload, carry', next.Empty? && isLast);
    }

    // digital_sequence_transmit, the loop over the periods of a signal
    method SendSignal(current: Sig, next: Slot, carryIn: Word) returns (carry: Word)
      requires CanEnqueue() && current.data != []
      modifies `active, ring`writePos, ring`readPos, ring`reload, ring`stored, ring`loaded, ring`overwritten, ring.data
      ensures ring.Valid(active)
      ensures if next.Empty? then active else CanEnqueue()
      ensures carry == CarryOut(current, next, carryIn)
      ensures ring.stored == old(ring.stored) + Enqueued(current, next, carryIn)
      ensures ring.stored == [] ==> ring.data[0] == old(ring.data[0])
    {
      carry := carryIn;
      var i := 0;
      assert ring.stored + WithCarry(current, carryIn)[..0] == ring.stored;
      while i < |current.data|
        invariant SentTo(current, next, carryIn, old(ring.stored), i, carry)
        invariant ring.stored == [] ==> ring.data[0] == old(ring.data[0])
      {
        carry := SendNext(current, next, i, carry, carryIn, old(ring.stored));
        i := i + 1;
      }
    }

    // digital_sequence_transmit, the rounding error left by finished signal k
    method Distribute(ticks: int, carry: Word, remainder: int, ghost sigs: seq<Sig>, ghost k: nat)
      returns (ticks': int, carry': Word)
      requires k < |sigs| && remainder == sigs[k].remainder && ticks == RemainderAfter(sigs, k)
      ensures ticks' == RemainderAfter(sigs, k + 1) && carry' == (carry + Correction(sigs, k + 1)) % WORD
      // no error is lost, and one that is not small is reduced by a whole tick
      ensures ticks' + T_TIM * Correction(sigs, k + 1) == ticks + remainder
      ensures ticks < T_TIM_DIV2 && remainder < T_TIM_DIV2 ==> ticks' < T_TIM_DIV2
    {
      ticks', carry' := ticks + remainder, carry;
      if ticks' >= T_TIM_DIV2 {
        ticks' := ticks' - T_TIM;
        carry' := (carry' + 1) % WORD;
      }
    }

    // digital_sequence_transmit, the signal after the first `index` ones
    method NextSignal(index: nat, ghost sigs: seq<Sig>) returns (next: Slot)
      requires Shape() && Holds(sigs) && 1 <= index <= size
      ensures next == NextSlot(sigs, index - 1)
    {
      next := Empty;
      if index < size {
        next := signals[data[index]];
      }
    }

    /** Slot 0 still has the value `first` if nothing has been stored. */
    ghost predicate FirstKept(first: Word)
      requires ring.data.Length == RING
      reads this, ring, ring.data
    {
      ring.stored == [] ==> ring.data[0] == first
    }

    /** The signals before signal k have been sent, and it comes next. */
    ghost predicate AtSignal(sigs: seq<Sig>, k: nat, current: Sig, ticks: int, carry: Word, first: Word)
      reads this, ring, ring.data
    {
      && CanEnqueue() && FirstKept(first) && AllSendable(sigs) && k < |sigs| && current == sigs[k]
      && ticks == RemainderAfter(sigs, k) && carry == EntryCarry(sigs, k) && ring.stored == EnqueuedBefore(sigs, k)
    }

    /** All signals have been sent. */
    ghost predicate AtEnd(sigs: seq<Sig>, first: Word)
      requires AllSendable(sigs)
      reads this, ring, ring.data
    {
      active && ring.Valid(active) && FirstKept(first) && ring.stored == EnqueuedBefore(sigs, |sigs|)
    }

    // digital_sequence_transmit, what is done after a signal if another one follows
    method AfterSignal(current: Sig, next: Slot, ticks: int, carry: Word, ghost sigs: seq<Sig>, ghost k: nat)
      returns (ticks': int, carry': Word)
      requires AllSendable(sigs) && k < |sigs| && current == sigs[k] && Sendable(current) && next == NextSlot(sigs, k)
      requires ticks == RemainderAfter(sigs, k) && carry == CarryOut(current, next, EntryCarry(sigs, k))
      ensures next.Registered? ==>
                k + 1 < |sigs| && ticks' == RemainderAfter(sigs, k + 1) && carry' == EntryCarry(sigs, k + 1)
    {
      ticks', carry' := ticks, carry;
      if next.Registered? {
        ticks', carry' := Distribute(ticks, carry, current.remainder, sigs, k);
        OneSignalMore(sigs, k);
      }
    }

    // digital_sequence_transmit, one signal and the rounding error it leaves
    method SendOne(current: Sig, next: Slot, ticks: int, carry: Word, ghost sigs: seq<Sig>, ghost k: nat, ghost first: Word)
      returns (ticks': int, carry': Word)
      requires AtSignal(sigs, k, current, ticks, carry, first) && next == NextSlot(sigs, k)
      modifies `active, ring`writePos, ring`readPos, ring`reload, ring`stored, ring`loaded, ring`overwritten, ring.data
      ensures if next.Empty? then AtEnd(sigs, first) else AtSignal(sigs, k + 1, next.sig, ticks', carry', first)
    {
      assert Sendable(current);
      OneSignalMore(sigs, k);
      carry' := SendSignal(current, next, carry);
      ticks', carry' := AfterSignal(current, next, ticks, carry', sigs, k);
    }

    // digital_sequence_transmit, the body of the loop over the signals
    method SendAt(k: nat, current: Sig, ticks: int, carry: Word, ghost sigs: seq<Sig>, ghost first: Word)
      returns (next: Slot, ticks': int, carry': Word)
      requires AtSignal(sigs, k, current, ticks, carry, first) && Shape() && Holds(sigs)
      modifies `active, ring`writePos, ring`readPos, ring`reload, ring`stored, ring`loaded, ring`overwritten, ring.data
      ensures next.Empty? ==> AtEnd(sigs, first)
      ensures next.Registered? ==> AtSignal(sigs, k + 1, next.sig, ticks', carry', first)
    {
      next := NextSignal(k + 1, sigs);
      ticks', carry' := SendOne(current, next, ticks, carry, sigs, k, first);
    }

    // digital_sequence_transmit, the first signal
    method FirstSignal(ghost sigs: seq<Sig>) returns (current: Sig)
      requires Shape() && AllSendable(sigs) && Holds(sigs) && size > 0 && CanEnqueue() && ring.stored == []
      ensures AtSignal(sigs, 0, current, 0, 0, ring.data[0])
    {
      current := signals[data[0]].sig;
    }

    // digital_sequence_transmit, the loop over the signals
    method SendAll(ghost sigs: seq<Sig>)
      requires Shape() && AllSendable(sigs) && Holds(sigs) && size > 0 && CanEnqueue() && ring.stored == []
      modifies `active, ring`writePos, ring`readPos, ring`reload, ring`stored, ring`loaded, ring`overwritten, ring.data
      ensures AtEnd(sigs, old(ring.data[0]))
    {
      ghost var first := ring.data[0];
      var current := FirstSignal(sigs);
      var ticks: int, carry: Word, k := 0, 0, 0;
      while true
        invariant Shape() && Holds(sigs) && 0 <= k < size && AtSignal(sigs, k, current, ticks, carry, first)
        decreases size - k
      {
        var next;
        next, ticks, carry := SendAt(k, current, ticks, carry, sigs, first);
        k := k + 1;
        if next.Empty? {
          break;
        }
        current := next.sig;
      }
    }

    // digital_sequence_transmit, from the first period to the stop of the timer
    method SendAndFinish(patience: nat, ghost sigs: seq<Sig>) returns (sent: seq<Word>, ending: Ending)
      requires Valid() && AllSendable(sigs) && Holds(sigs) && size > 0
      modifies `active, ring`writePos, ring`readPos, ring`reload, ring`stored, ring`loaded, ring`overwritten, ring.data
      ensures Valid() && ring.data[0] == SENTINEL
      ensures Ended(EnqueuedBefore(sigs, |sigs|), old(ring.data[0]) == SENTINEL, sent, ending)
      ensures InTime(EnqueuedBefore(sigs, |sigs|), ring.OnPace(), patience, sent, ending)
    {
      SendAll(sigs);
      sent, ending := ring.Finish(patience);
      ring.Reset();
      active := false;
    }

    // digital_sequence_transmit, once the output levels are set
    method SendAtPace(pace: nat -> Polls, patience: nat, ghost sigs: seq<Sig>) returns (sent: seq<Word>, ending: Ending)
      requires Valid() && AllSendable(sigs) && Holds(sigs) && size > 0
      modifies `active, ring, ring.data
      ensures Valid() && ring.data[0] == SENTINEL
      ensures Ended(EnqueuedBefore(sigs, |sigs|), old(ring.data[0]) == SENTINEL, sent, ending)
      ensures InTime(EnqueuedBefore(sigs, |sigs|), forall k: nat :: Steady(pace(k)), patience, sent, ending)
      ensures ending == Complete ==>
                (sent == Expected(sigs) <==>
                 && Clean(WaveFrom(sigs, 0)) && SENTINEL !in Expected(sigs)
                 && (Expected(sigs) != [] || old(ring.data[0]) == SENTINEL))
    {
      ghost var isReset := ring.data[0] == SENTINEL;
      ring.pace := pace;
      sent, ending := SendAndFinish(patience, sigs);
      if ending == Complete { EndedMeaning(sigs, isReset, sent); }
    }

    /** digital_sequence_transmit: the values the timer is given before the stop value, from the first to the
        last, and how it ended. The channel loads pace(k) slots between the polls of the k-th enqueue, and
        `patience` slots before digital_sequence_finish gives up. */
    method Transmit(pace: nat -> Polls, patience: nat) returns (sent: seq<Word>, ending: Ending)
      requires Valid() && AllRegistered() && size > 0
      modifies `active, `gpioEven, `gpioOdd, ring, ring.data
      ensures Valid() && AllRegistered() && Signals() == old(Signals()) && ring.data[0] == SENTINEL
      // what has been enqueued up to the first stop value, or less of it
      ensures Ended(EnqueuedBefore(Signals(), |Signals()|), old(ring.data[0]) == SENTINEL, sent, ending)
      // it is complete if the values fit in the ring and the time limit is long enough for them, or if the channel
      // keeps a steady pace and the time limit is long enough for a full ring
      ensures var enqueued := EnqueuedBefore(Signals(), |Signals()|);
              && (0 < |enqueued| <= RING - MIN_FREE && patience >= |UpToStop(enqueued)| ==> ending == Complete)
              && (enqueued != [] && (forall k: nat :: Steady(pace(k))) && patience >= RING ==> ending == Complete)
      // and it is given up only after all of that time
      ensures ending == GaveUp ==> |sent| > patience
      // unless the channel or a time limit cuts it short, these are the level-merged runs of all periods,
      // corrections included, without the last run, if and only if the sums stay in 32 bits, no run has the
      // stop value, and an empty buffer has been reset
      ensures ending == Complete ==>
                (sent == Expected(Signals()) <==>
                 && Clean(WaveFrom(Signals(), 0)) && SENTINEL !in Expected(Signals())
                 && (Expected(Signals()) != [] || old(ring.data[0]) == SENTINEL))
      // and the output level alternates starting with that of the first signal
      ensures gpioEven == Signals()[0].startLevel && gpioOdd == !gpioEven
    {
      ghost var sigs := Signals();
      gpioEven := signals[data[0]].sig.startLevel;
      gpioOdd := !gpioEven;
      sent, ending := SendAtPace(pace, patience, sigs);
    }
  }

  /** What digital_sequence_finish has seen the timer being given, of what was enqueued. With nothing
      enqueued, the timer is given whatever a buffer holds that has not been reset. */
  ghost predicate Ended(enqueued: seq<Word>, isReset: bool, sent: seq<Word>, ending: Ending) {
    if enqueued != [] then EndsAs(enqueued, sent, ending)
    else if isReset then ending == Complete && sent == []
    else sent != [] && ending in {Complete, GaveUp}
  }

  /** What the time limit of digital_sequence_finish and the pace of the channel make of it. */
  ghost predicate InTime(enqueued: seq<Word>, onPace: bool, patience: nat, sent: seq<Word>, ending: Ending) {
    && (0 < |enqueued| <= RING - MIN_FREE && patience >= |UpToStop(enqueued)| ==> ending == Complete)
    && (enqueued != [] && onPace && patience >= RING ==> ending == Complete)
    && (ending == GaveUp ==> |sent| > patience)
  }

  lemma EndedMeaning(sigs: seq<Sig>, isReset: bool, sent: seq<Word>)
    requires sigs != [] && AllSendable(sigs) && Ended(EnqueuedBefore(sigs, |sigs|), isReset, sent, Complete)
    ensures sent == Expected(sigs) <==>
              Clean(WaveFrom(sigs, 0)) && SENTINEL !in Expected(sigs) && (Expected(sigs) != [] || isReset)
  {
    var w := WaveFrom(sigs, 0);
    TransmissionIsStreamed(sigs);
    PositiveFrom(sigs, 0);
    StopIff(w);
    StreamedLength(w);
    StreamedIff(w);
    assert UpToStop([]) == [];
  }

  /** With clean sums, the output is left in run n, where n values have been sent: that is the last run, as
      it should be, if no run before it has the stop value, and otherwise the first run that has it. */
  lemma HeldRun(sigs: seq<Sig>)
    requires sigs != [] && AllSendable(sigs) && Clean(WaveFrom(sigs, 0))
    ensures var runs, n := Merge(WaveFrom(sigs, 0)), |UpToStop(EnqueuedBefore(sigs, |sigs|))|;
            && n < runs.Length() == |Expected(sigs)| + 1
            && runs.HasLevel(n, if n % 2 == 0 then sigs[0].startLevel else !sigs[0].startLevel)
            && (n + 1 == runs.Length() <==> SENTINEL !in Expected(sigs))
            && (n + 1 < runs.Length() ==> Expected(sigs)[n] == SENTINEL && SENTINEL !in Expected(sigs)[..n])
  {
    var w, v := WaveFrom(sigs, 0), EnqueuedBefore(sigs, |sigs|);
    assert Sendable(sigs[0]);
    TransmissionMeaning(sigs);
    LengthOfAllButLast(Merge(w));
    EnterSignal(sigs, 0, 0);
    OutputLevels(sigs, |UpToStop(v)|);
    var e := Expected(sigs);
    assert v == e && v[..|UpToStop(v)|] == e[..|UpToStop(v)|];
    if |UpToStop(v)| == |v| {
      assert UpToStop(v) == v;
    } else {
      assert e[|UpToStop(v)|] == SENTINEL;
    }
  }
}
