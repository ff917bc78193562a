/** Sequences of signals as additions store them: how long a run can get, what that means for a
    transmission, and sequences that are not sent as they should be. */
module StoredSequences {
  import opened DigitalSignal
  import opened Waveform
  import opened DmaRing
  import opened TimerRing
  import opened DigitalSequence

  // ---------------------------------------------------------------- stored reload values

  /** The reload value of the longest duration of 32 bits, 2^32 - 1 units. */
  const MAX_RELOAD := 2749658

  /** s is what some series of additions leaves behind. */
  ghost predicate Storable(s: Sig) {
    exists ps :: AddAll(ps) == Stored(s)
  }

  predicate Reloadable(s: Sig) {
    forall i :: 0 <= i < |s.data| ==> s.data[i] <= MAX_RELOAD
  }

  lemma AddReloadable(s: Sig, p: Pulse)
    requires Reloadable(s) && Add(s, p).Stored?
    ensures Reloadable(Add(s, p).sig)
  {
  }

  lemma {:induction false} StoredReloadable(ps: seq<Pulse>)
    requires AddAll(ps).Stored?
    ensures Reloadable(AddAll(ps).sig)
  {
    if ps != [] {
      StoredReloadable(ps[..|ps| - 1]);
      AddReloadable(AddAll(ps[..|ps| - 1]).sig, ps[|ps| - 1]);
    }
  }

  /** Additions only ever store such values. */
  lemma StorableReloadable(s: Sig)
    requires Storable(s)
    ensures Reloadable(s)
  {
    var ps :| AddAll(ps) == Stored(s);
    StoredReloadable(ps);
  }

  /** A single pulse of whole timer ticks. */
  lemma SinglePulse(level: bool, value: Word)
    requires 1 <= value && T_TIM * (value + 1) < WORD
    ensures Storable(Sig(level, [value], 0))
  {
    var p := Pulse(T_TIM * (value + 1), level);
    assert AddAll([p][..0]) == Stored(EMPTY);
    assert AddAll([p]) == Add(EMPTY, p) == Stored(Sig(level, [value], 0));
  }

  // ---------------------------------------------------------------- short runs

  /** So many periods of this length, each with a correction, stay below the stop value. */
  const MAX_PERIODS := 1561

  /** w begins with the c-th period of a run, and no run has more than MAX_PERIODS of them. */
  predicate ShortRuns(w: Wave, c: nat) {
    w.End? || (c <= MAX_PERIODS && ShortRuns(w.rest, if !w.rest.End? && w.rest.level == w.level then c + 1 else 1))
  }

  predicate Below(w: Wave, bound: nat) {
    w.End? || (w.value < bound && Below(w.rest, bound))
  }

  lemma {:induction false} ShortRunsBelow(w: Wave, c: nat)
    requires w.Per? && 1 <= c && ShortRuns(w, c) && w.value <= c * (MAX_RELOAD + 1) && Below(w.rest, MAX_RELOAD + 2)
    ensures Below(Merge(w), SENTINEL)
    decreases w.Length()
  {
    if !w.rest.End? {
      assert w.Length() == 1 + w.rest.Length() && w.rest.Length() == 1 + w.rest.rest.Length();
      if w.level == w.rest.level {
        ShortRunsBelow(Per(w.level, w.value + w.rest.value, w.rest.rest), c + 1);
      } else {
        ShortRunsBelow(w.rest, 1);
      }
    }
  }

  lemma {:induction false} BelowValues(w: Wave, bound: nat)
    requires Below(w, bound) && bound < WORD
    ensures AllWords(Values(w)) && bound !in w.AllButLast()
  {
    if !w.End? {
      BelowValues(w.rest, bound);
      AllWordsNext(w.value, Values(w.rest));
    }
  }

  lemma {:induction false} BelowSignal(s: Sig, i: nat, more: Wave)
    requires Reloadable(s) && Below(more, MAX_RELOAD + 2)
    ensures Below(SigWave(s, i, more), MAX_RELOAD + 2)
    ensures i < |s.data| ==> Below(SigWave(s, i, more).Bump(1), MAX_RELOAD + 2)
    decreases |s.data| - i
  {
    if i < |s.data| { BelowSignal(s, i + 1, more); }
  }

  lemma {:induction false} BelowFrom(sigs: seq<Sig>, k: nat)
    requires forall j :: 0 <= j < |sigs| ==> Reloadable(sigs[j]) && sigs[j].data != []
    ensures Below(WaveFrom(sigs, k), MAX_RELOAD + 2)
    decreases |sigs| - k
  {
    if k < |sigs| {
      BelowFrom(sigs, k + 1);
      BelowSignal(sigs[k], 0, WaveFrom(sigs, k + 1));
    }
  }

  /** However they are chosen, signals that additions have stored are sent as they should be if no more than
      1561 periods of equal level ever follow each other. */
  lemma ShortRunsSent(sigs: seq<Sig>)
    requires sigs != [] && AllSendable(sigs) && (forall j :: 0 <= j < |sigs| ==> Reloadable(sigs[j]))
    requires ShortRuns(WaveFrom(sigs, 0), 1)
    ensures EnqueuedBefore(sigs, |sigs|) == Expected(sigs) && SENTINEL !in Expected(sigs)
    ensures UpToStop(EnqueuedBefore(sigs, |sigs|)) == Expected(sigs)
  {
    var w := WaveFrom(sigs, 0);
    forall j | 0 <= j < |sigs| ensures Reloadable(sigs[j]) && sigs[j].data != [] { assert Sendable(sigs[j]); }
    BelowFrom(sigs, 0);
    EnterSignal(sigs, 0, 0);
    ShortRunsBelow(w, 1);
    BelowValues(Merge(w), SENTINEL);
    RunsThatFit(sigs);
    UpToStopIs(EnqueuedBefore(sigs, |sigs|), |EnqueuedBefore(sigs, |sigs|)|);
  }

  lemma {:induction false} ShortSignal(s: Sig, i: nat, more: Wave, c: nat)
    requires i < |s.data| && 1 <= c <= MAX_PERIODS
    requires ShortRuns(more, if more.End? || more.level != LevelAt(s, |s.data| - 1) then 1
                             else if i + 1 == |s.data| then c + 1 else 2)
    ensures ShortRuns(SigWave(s, i, more), c)
    decreases |s.data| - i
  {
    if i + 1 < |s.data| { ShortSignal(s, i + 1, more, 1); }
  }

  /** A run takes at most one period of every signal. */
  lemma {:induction false} ShortFrom(sigs: seq<Sig>, k: nat, c: nat)
    requires |sigs| <= MAX_PERIODS && AllSendable(sigs) && 1 <= c <= k + 1
    ensures ShortRuns(WaveFrom(sigs, k), c)
    decreases |sigs| - k
  {
    if k < |sigs| {
      var s, more := sigs[k], WaveFrom(sigs, k + 1);
      assert Sendable(s);
      ShortFrom(sigs, k + 1, c + 1);
      ShortFrom(sigs, k + 1, 2);
      ShortFrom(sigs, k + 1, 1);
      ShortSignal(s, 0, more, c);
      BumpShort(SigWave(s, 0, more), Correction(sigs, k), c);
    }
  }

  lemma BumpShort(w: Wave, x: nat, c: nat)
    requires ShortRuns(w, c)
    ensures ShortRuns(w.Bump(x), c)
  {
  }

  /** In particular, a sequence of at most 1561 of them is. */
  lemma ShortSequenceSent(sigs: seq<Sig>)
    requires 0 < |sigs| <= MAX_PERIODS && AllSendable(sigs) && (forall j :: 0 <= j < |sigs| ==> Reloadable(sigs[j]))
    ensures EnqueuedBefore(sigs, |sigs|) == Expected(sigs) && SENTINEL !in Expected(sigs)
    ensures UpToStop(EnqueuedBefore(sigs, |sigs|)) == Expected(sigs)
  {
    ShortFrom(sigs, 0, 1);
    ShortRunsSent(sigs);
  }

  // ---------------------------------------------------------------- sequences that are not sent as they should be

  const LONG := 0x20_0000

  /** A pulse of 2^21 + 1 timer ticks, 33 ms. */
  const LONG_HIGH := Sig(true, [LONG], 0)

  ghost predicate Exact(sigs: seq<Sig>) {
    forall i :: 0 <= i < |sigs| ==> sigs[i].remainder == 0
  }

  lemma {:induction false} NoCorrections(sigs: seq<Sig>, k: nat)
    requires Exact(sigs) && k <= |sigs|
    ensures RemainderAfter(sigs, k) == 0 && Correction(sigs, k) == 0
  {
    if k > 0 { NoCorrections(sigs, k - 1); }
  }

  lemma OnePeriod(sigs: seq<Sig>, k: nat)
    requires Exact(sigs) && k < |sigs| && |sigs[k].data| == 1
    ensures WaveFrom(sigs, k) == Per(sigs[k].startLevel, sigs[k].data[0], WaveFrom(sigs, k + 1))
  {
    NoCorrections(sigs, k);
    assert SigWave(sigs[k], 1, WaveFrom(sigs, k + 1)) == WaveFrom(sigs, k + 1);
  }

  /** The same is sent of both, and the same should be. */
  ghost predicate SameSent(w: Wave, w': Wave) {
    Streamed(w) == Streamed(w') && Merge(w) == Merge(w') && Clean(w) == Clean(w')
  }

  /** The first k long pulses have been added up. */
  ghost function AddedUp(sigs: seq<Sig>, k: nat): Wave
    requires k <= |sigs|
  {
    Per(true, k * LONG, WaveFrom(sigs, k))
  }

  lemma {:induction false} LongRun(sigs: seq<Sig>, k: nat, n: nat)
    requires Exact(sigs) && 1 <= k <= n <= |sigs| && n <= 2048 && forall i :: 0 <= i < n ==> sigs[i] == LONG_HIGH
    ensures SameSent(AddedUp(sigs, k), AddedUp(sigs, n))
    decreases n - k
  {
    if k < n {
      LongStep(sigs, k);
      LongRun(sigs, k + 1, n);
    }
  }

  lemma LongStep(sigs: seq<Sig>, k: nat)
    requires Exact(sigs) && 1 <= k < |sigs| && k < 2048 && sigs[k] == LONG_HIGH
    ensures SameSent(AddedUp(sigs, k), AddedUp(sigs, k + 1))
  {
    OnePeriod(sigs, k);
    OneMoreLong(k * LONG, WaveFrom(sigs, k + 1));
  }

  lemma OneMoreLong(v: nat, rest: Wave)
    requires 0 < v < WORD
    ensures SameSent(Per(true, v, Per(true, LONG, rest)), Per(true, v + LONG, rest))
  {
    MergeFirst(true, v, LONG, rest);
  }

  lemma LongStart(sigs: seq<Sig>, n: nat)
    requires Exact(sigs) && 1 <= n <= |sigs| && n <= 2048 && forall i :: 0 <= i < n ==> sigs[i] == LONG_HIGH
    ensures SameSent(WaveFrom(sigs, 0), AddedUp(sigs, n))
  {
    OnePeriod(sigs, 0);
    LongRun(sigs, 1, n);
  }

  function Longs(n: nat): (sigs: seq<Sig>)
    ensures |sigs| == n
  {
    seq(n, _ => LONG_HIGH)
  }

  lemma LongStorable()
    ensures Storable(LONG_HIGH)
  {
    SinglePulse(true, LONG);
  }

  ghost predicate AllStorable(sigs: seq<Sig>) {
    forall i :: 0 <= i < |sigs| ==> Storable(sigs[i])
  }

  /** A single run whose sum passes through 2^32 at a boundary: nothing should be sent, as the last run is
      held, but a period of value zero is. */
  lemma SumOfZeroIsSent()
    ensures var sigs := Longs(2049);
            AllStorable(sigs) && AllSendable(sigs) && Expected(sigs) == [] && EnqueuedBefore(sigs, |sigs|) == [0]
  {
    LongStorable();
    ZeroOf(Longs(2049));
  }

  lemma ZeroOf(sigs: seq<Sig>)
    requires |sigs| == 2049 && AllSendable(sigs) && forall i :: 0 <= i < |sigs| ==> sigs[i] == LONG_HIGH
    ensures Expected(sigs) == [] && EnqueuedBefore(sigs, |sigs|) == [0]
  {
    LongStart(sigs, 2048);
    OnePeriod(sigs, 2048);
    assert WaveFrom(sigs, 2049) == End;
    TransmissionIsStreamed(sigs);
    ZeroSum();
  }

  lemma ZeroSum()
    ensures Streamed(Per(true, 2048 * LONG, Per(true, LONG, End))) == [0]
    ensures SentRuns(Per(true, 2048 * LONG, Per(true, LONG, End))) == []
  {
    assert 2048 * LONG == WORD;
  }

  /** Three runs, the first of which has the stop value: clean sums, and neither of the two that should be
      sent is. */
  lemma StopValueEnds()
    ensures var sigs := Longs(2047) + [Sig(true, [LONG - 1], 0), Sig(false, [5], 0), Sig(true, [1], 0)];
            && AllStorable(sigs) && AllSendable(sigs) && Clean(WaveFrom(sigs, 0))
            && EnqueuedBefore(sigs, |sigs|) == Expected(sigs) == [SENTINEL, 5]
            && UpToStop(EnqueuedBefore(sigs, |sigs|)) == []
  {
    var tail := [Sig(true, [LONG - 1], 0), Sig(false, [5], 0), Sig(true, [1], 0)];
    SinglePulse(true, LONG - 1);
    SinglePulse(false, 5);
    SinglePulse(true, 1);
    WithLongs(2047, tail);
    StopOf(Longs(2047) + tail);
  }

  lemma WithLongs(n: nat, tail: seq<Sig>)
    requires AllStorable(tail) && AllSendable(tail)
    ensures AllStorable(Longs(n) + tail) && AllSendable(Longs(n) + tail)
  {
    LongStorable();
  }

  lemma StopOf(sigs: seq<Sig>)
    requires |sigs| == 2050 && AllSendable(sigs) && (forall i :: 0 <= i < 2047 ==> sigs[i] == LONG_HIGH)
    requires sigs[2047] == Sig(true, [LONG - 1], 0) && sigs[2048] == Sig(false, [5], 0) && sigs[2049] == Sig(true, [1], 0)
    ensures Clean(WaveFrom(sigs, 0)) && EnqueuedBefore(sigs, |sigs|) == Expected(sigs) == [SENTINEL, 5]
    ensures UpToStop(EnqueuedBefore(sigs, |sigs|)) == []
  {
    LongStart(sigs, 2047);
    LastThree(sigs, 2047);
    StopSum();
    TransmissionMeaning(sigs);
  }

  lemma LastThree(sigs: seq<Sig>, n: nat)
    requires |sigs| == n + 3 && Exact(sigs)
    requires sigs[n] == Sig(true, [LONG - 1], 0) && sigs[n + 1] == Sig(false, [5], 0) && sigs[n + 2] == Sig(true, [1], 0)
    ensures WaveFrom(sigs, n) == Per(true, LONG - 1, Per(false, 5, Per(true, 1, End)))
  {
    OnePeriod(sigs, n);
    OnePeriod(sigs, n + 1);
    OnePeriod(sigs, n + 2);
    assert WaveFrom(sigs, n + 3) == End;
  }

  lemma StopSum()
    ensures var w := Per(true, 2047 * LONG, Per(true, LONG - 1, Per(false, 5, Per(true, 1, End))));
            Clean(w) && SentRuns(w) == [SENTINEL, 5]
  {
    var w := Per(true, 2047 * LONG, Per(true, LONG - 1, Per(false, 5, Per(true, 1, End))));
    MergeFirst(true, 2047 * LONG, LONG - 1, Per(false, 5, Per(true, 1, End)));
    assert 2047 * LONG + (LONG - 1) == SENTINEL;
    assert Merge(w) == Per(true, SENTINEL, Per(false, 5, Per(true, 1, End)));
    assert Clean(Per(true, SENTINEL, Per(false, 5, Per(true, 1, End))));
  }

  const SHORT := 0x1000

  /** A pulse of 2^12 + 1 timer ticks, 64 us: the ring holds 8 ms of them. */
  const SHORT_HIGH := Sig(true, [SHORT], 0)
  const SHORT_LOW := Sig(false, [SHORT], 0)

  lemma ShortStorable()
    ensures Storable(SHORT_HIGH) && Storable(SHORT_LOW)
  {
    SinglePulse(true, SHORT);
    SinglePulse(false, SHORT);
  }

  function Alternating(n: nat): (sigs: seq<Sig>)
    ensures |sigs| == n
  {
    seq(n, i => if i % 2 == 0 then SHORT_HIGH else SHORT_LOW)
  }

  lemma {:induction false} AlternatingWave(n: nat, k: nat)
    requires k <= n
    ensures var w := WaveFrom(Alternating(n), k);
            && Clean(w) && w.Weight() == (n - k) * SHORT && SentRuns(w) == seq(if n == k then 0 else n - k - 1, _ => SHORT)
            && (k < n ==> w.Per? && w.level == (k % 2 == 0) && w.value == SHORT)
    decreases n - k
  {
    var sigs := Alternating(n);
    if k < n {
      OnePeriod(sigs, k);
      AlternatingWave(n, k + 1);
    }
  }

  /** A transmission of more than 2^32 timer ticks in all, 67 seconds, is sent as it should be nevertheless. */
  lemma LongTransmission()
    ensures var sigs := Alternating(0x10_0001);
            && AllStorable(sigs) && WaveFrom(sigs, 0).Weight() > WORD
            && AllSendable(sigs) && EnqueuedBefore(sigs, |sigs|) == Expected(sigs) && SENTINEL !in Expected(sigs)
  {
    ShortStorable();
    AlternatingSent(0x10_0001);
  }

  lemma AlternatingSent(n: nat)
    requires n > 0
    ensures var sigs := Alternating(n);
            && AllSendable(sigs) && EnqueuedBefore(sigs, |sigs|) == Expected(sigs) && SENTINEL !in Expected(sigs)
            && WaveFrom(sigs, 0).Weight() == n * SHORT
  {
    AlternatingWave(n, 0);
    TransmissionMeaning(Alternating(n));
  }
}
