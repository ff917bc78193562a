/** What a sequence of signals should look like on the wire: the concatenated periods, the
    rounding corrections charged at signal boundaries, and the merging of equal levels. */
module Waveform {
  import opened DigitalSignal

  /** A signal that can be transmitted: one or more periods, each stored value at least 1, and a
      remainder within half a tick, all of which DigitalSignal guarantees. */
  ghost predicate Sendable(s: Sig) {
    && s.data != [] && (forall i :: 0 <= i < |s.data| ==> s.data[i] >= 1)
    && -T_TIM_DIV2 <= s.remainder < T_TIM_DIV2
  }

  // ---------------------------------------------------------------- rounding at boundaries

  /** remainder_ticks after the first k signals are finished. */
  function RemainderAfter(sigs: seq<Sig>, k: nat): int
    requires k <= |sigs|
    decreases k, 1
  {
    if k == 0 then 0
    else RemainderAfter(sigs, k - 1) + sigs[k - 1].remainder - T_TIM * Correction(sigs, k)
  }

  /** The tick added to the first period of signal k, for the signals finished before it. */
  function Correction(sigs: seq<Sig>, k: nat): nat
    requires k <= |sigs|
    decreases k, 0
  {
    if k > 0 && RemainderAfter(sigs, k - 1) + sigs[k - 1].remainder >= T_TIM_DIV2 then 1 else 0
  }

  function Corrections(sigs: seq<Sig>, k: nat): nat
    requires k <= |sigs|
  {
    if k == 0 then 0 else Corrections(sigs, k - 1) + Correction(sigs, k)
  }

  function SumRemainders(sigs: seq<Sig>, k: nat): int
    requires k <= |sigs|
  {
    if k == 0 then 0 else SumRemainders(sigs, k - 1) + sigs[k - 1].remainder
  }

  function NegativeRemainders(sigs: seq<Sig>, k: nat): (r: int)
    requires k <= |sigs|
    ensures r <= 0
  {
    if k == 0 then 0
    else NegativeRemainders(sigs, k - 1) + if sigs[k - 1].remainder < 0 then sigs[k - 1].remainder else 0
  }

  /** No rounding error is lost across boundaries; what is carried never reaches half a tick, and
      falls below minus half a tick only by what negative remainders contribute. */
  lemma {:induction false} DriftBounds(sigs: seq<Sig>, k: nat)
    requires k <= |sigs| && forall i :: 0 <= i < |sigs| ==> Sendable(sigs[i])
    ensures T_TIM * Corrections(sigs, k) + RemainderAfter(sigs, k) == SumRemainders(sigs, k)
    ensures -T_TIM_DIV2 + NegativeRemainders(sigs, k) <= RemainderAfter(sigs, k) < T_TIM_DIV2
  {
    if k > 0 {
      DriftBounds(sigs, k - 1);
      assert Sendable(sigs[k - 1]);
    }
  }

  lemma {:induction false} NoNegativeRemainders(sigs: seq<Sig>, k: nat)
    requires k <= |sigs| && forall i :: 0 <= i < k ==> sigs[i].remainder >= 0
    ensures NegativeRemainders(sigs, k) == 0
  {
    if k > 0 { NoNegativeRemainders(sigs, k - 1); }
  }

  /** If no signal has a negative remainder, remainder_ticks stays within half a tick. */
  lemma RemainderWithinHalfTick(sigs: seq<Sig>, k: nat)
    requires k <= |sigs| && forall i :: 0 <= i < |sigs| ==> Sendable(sigs[i]) && sigs[i].remainder >= 0
    ensures -T_TIM_DIV2 <= RemainderAfter(sigs, k) < T_TIM_DIV2
  {
    DriftBounds(sigs, k);
    NoNegativeRemainders(sigs, k);
  }

  /** Only positive errors are ever corrected: signals with negative remainders drift without
      bound, one remainder per signal. */
  lemma {:induction false} NegativeDriftAccumulates(sigs: seq<Sig>, k: nat)
    requires k <= |sigs| && forall i :: 0 <= i < |sigs| ==> sigs[i].remainder <= 0
    ensures RemainderAfter(sigs, k) == SumRemainders(sigs, k) <= 0 && Corrections(sigs, k) == 0
  {
    if k > 0 { NegativeDriftAccumulates(sigs, k - 1); }
  }

  lemma {:induction false} RepeatedDrift(s: Sig, n: nat, k: nat)
    requires s.remainder < 0 && k <= n
    ensures RemainderAfter(seq(n, _ => s), k) + k <= 0
  {
    var sigs := seq(n, _ => s);
    if k > 0 {
      RepeatedDrift(s, n, k - 1);
    }
  }

  ghost predicate DrawnFrom(sigs: seq<Sig>, bank: set<Sig>) {
    forall i :: 0 <= i < |sigs| ==> sigs[i] in bank
  }

  ghost predicate RemainderBounded(sigs: seq<Sig>) {
    forall k: nat :: k <= |sigs| ==> RemainderAfter(sigs, k) >= -T_TIM_DIV2
  }

  /** Exactly the banks without negative remainders keep remainder_ticks within half a tick for every
      sequence drawn from them. */
  lemma RemainderBoundedIff(bank: set<Sig>)
    requires forall s :: s in bank ==> Sendable(s)
    ensures (forall sigs :: DrawnFrom(sigs, bank) ==> RemainderBounded(sigs)) <==> (forall s :: s in bank ==> s.remainder >= 0)
  {
    if forall s :: s in bank ==> s.remainder >= 0 {
      forall sigs | DrawnFrom(sigs, bank) ensures RemainderBounded(sigs) {
        forall k: nat | k <= |sigs| ensures RemainderAfter(sigs, k) >= -T_TIM_DIV2 {
          RemainderWithinHalfTick(sigs, k);
        }
      }
    } else {
      var s :| s in bank && s.remainder < 0;
      var sigs := seq(T_TIM_DIV2 + 1, _ => s);
      RepeatedDrift(s, T_TIM_DIV2 + 1, T_TIM_DIV2 + 1);
      assert DrawnFrom(sigs, bank) && !RemainderBounded(sigs);
    }
  }

  // ---------------------------------------------------------------- periods and runs

  /** A waveform: periods with their level and reload value, first to last. */
  datatype Wave = End | Per(level: bool, value: nat, rest: Wave) {
    function Length(): nat {
      if End? then 0 else 1 + rest.Length()
    }

    /** All reload ticks. */
    function Weight(): nat {
      if End? then 0 else value + rest.Weight()
    }

    /** A period of value v lasts v + 1 timer ticks. */
    function Duration(): nat {
      if End? then 0 else value + 1 + rest.Duration()
    }

    /** c more ticks for the first period. */
    function Bump(c: nat): Wave {
      if End? then End else Per(level, value + c, rest)
    }

    /** The values of all periods but the last: the output holds its level after that. */
    function AllButLast(): seq<nat> {
      if End? || rest.End? then [] else [value] + rest.AllButLast()
    }

    predicate HasLevel(k: nat, b: bool) {
      if End? then false else if k == 0 then level == b else rest.HasLevel(k - 1, b)
    }

    /** Period k has level b and value v. */
    predicate HasPeriod(k: nat, b: bool, v: nat) {
      if End? then false else if k == 0 then level == b && value == v else rest.HasPeriod(k - 1, b, v)
    }
  }

  /** The level of period i of a signal. */
  function LevelAt(s: Sig, i: nat): bool {
    if i % 2 == 0 then s.startLevel else !s.startLevel
  }

  /** The periods of signal s from index i on, followed by `more`. */
  function SigWave(s: Sig, i: nat, more: Wave): Wave
    decreases |s.data| - i
  {
    if i >= |s.data| then more else Per(LevelAt(s, i), s.data[i], SigWave(s, i + 1, more))
  }

  /** All periods of the signals from k on, with the corrections charged at the boundaries. */
  function WaveFrom(sigs: seq<Sig>, k: nat): Wave
    decreases |sigs| - k
  {
    if k >= |sigs| then End else SigWave(sigs[k], 0, WaveFrom(sigs, k + 1)).Bump(Correction(sigs, k))
  }

  lemma {:induction false} SignalPeriods(s: Sig, i: nat, more: Wave, j: nat, b: bool, v: nat)
    requires i <= j && i <= |s.data|
    ensures j < |s.data| ==>
              (SigWave(s, i, more).HasPeriod(j - i, b, v) <==> b == (s.startLevel == (j % 2 == 0)) && v == s.data[j])
    ensures j >= |s.data| ==> (SigWave(s, i, more).HasPeriod(j - i, b, v) <==> more.HasPeriod(j - |s.data|, b, v))
    decreases |s.data| - i
  {
    if i < |s.data| && i < j { SignalPeriods(s, i + 1, more, j, b, v); }
  }

  /** They are those of signal k, alternating in level from its start level, the first of them with the
      correction, and then those of the signals behind it. */
  lemma PeriodsFrom(sigs: seq<Sig>, k: nat, j: nat, b: bool, v: nat)
    requires k < |sigs| && sigs[k].data != []
    ensures var data := sigs[k].data;
            WaveFrom(sigs, k).HasPeriod(j, b, v)
            <==> if j < |data| then
                   && b == (sigs[k].startLevel == (j % 2 == 0))
                   && v == data[j] + if j == 0 then Correction(sigs, k) else 0
                 else WaveFrom(sigs, k + 1).HasPeriod(j - |data|, b, v)
  {
    SignalPeriods(sigs[k], 0, WaveFrom(sigs, k + 1), j, b, v);
  }

  /** Adjacent periods of equal level become one run, whose value is their sum. */
  function Merge(w: Wave): (r: Wave)
    ensures r.Length() <= w.Length() && (r.End? <==> w.End?)
    decreases w.Length()
  {
    if w.End? || w.rest.End? then w
    else if w.level == w.rest.level then
      assert w.Length() == 1 + w.rest.Length() && w.rest.Length() == 1 + w.rest.rest.Length();
      Merge(Per(w.level, w.value + w.rest.value, w.rest.rest))
    else Per(w.level, w.value, Merge(w.rest))
  }

  /** The reload values to be sent: one for every run but the last. */
  function SentRuns(w: Wave): seq<nat> {
    Merge(w).AllButLast()
  }

  function Expected(sigs: seq<Sig>): seq<nat> {
    SentRuns(WaveFrom(sigs, 0))
  }

  /** Merging neither adds nor loses reload ticks. */
  lemma {:induction false} MergeKeepsWeight(w: Wave)
    ensures Merge(w).Weight() == w.Weight()
    decreases w.Length()
  {
    if !w.End? && !w.rest.End? {
      assert w.Length() == 1 + w.rest.Length() && w.rest.Length() == 1 + w.rest.rest.Length();
      if w.level == w.rest.level {
        MergeKeepsWeight(Per(w.level, w.value + w.rest.value, w.rest.rest));
      } else {
        MergeKeepsWeight(w.rest);
      }
    }
  }

  /** The levels of the runs alternate, so run k has the level that the two-entry GPIO buffer
      puts out at the k-th update. */
  lemma {:induction false} RunsAlternate(w: Wave, k: nat)
    requires k < Merge(w).Length()
    ensures Merge(w).HasLevel(k, if k % 2 == 0 then w.level else !w.level)
    decreases w.Length()
  {
    if !w.rest.End? {
      assert w.Length() == 1 + w.rest.Length() && w.rest.Length() == 1 + w.rest.rest.Length();
      if w.level == w.rest.level {
        RunsAlternate(Per(w.level, w.value + w.rest.value, w.rest.rest), k);
      } else if k > 0 {
        RunsAlternate(w.rest, k - 1);
      }
    }
  }

  lemma {:induction false} DurationIsWeightAndLength(w: Wave)
    ensures w.Duration() == w.Weight() + w.Length()
  {
    if !w.End? { DurationIsWeightAndLength(w.rest); }
  }

  /** Every merge costs one timer tick: the runs last exactly as many ticks less than the periods
      as there are fewer of them, and as long as them exactly when nothing was merged. */
  lemma MergedDuration(w: Wave)
    ensures Merge(w).Duration() == w.Duration() - (w.Length() - Merge(w).Length())
    ensures Merge(w).Duration() == w.Duration() <==> Merge(w) == w
  {
    MergeKeepsWeight(w);
    DurationIsWeightAndLength(w);
    DurationIsWeightAndLength(Merge(w));
    SameLengthSame(w);
  }

  lemma {:induction false} SameLengthSame(w: Wave)
    ensures Merge(w).Length() == w.Length() ==> Merge(w) == w
    decreases w.Length()
  {
    if !w.End? && !w.rest.End? {
      if w.level != w.rest.level {
        SameLengthSame(w.rest);
      } else {
        assert w.Length() == 1 + w.rest.Length() && w.rest.Length() == 1 + w.rest.rest.Length();
      }
    }
  }

  // ---------------------------------------------------------------- streaming

  /** What is sent of a waveform when runs are added up in 32 bits and a sum of zero is taken for a
      run that has ended: the first value stands for the run so far. */
  function Streamed(w: Wave): (r: seq<Word>)
    decreases w.Length()
  {
    if w.End? || w.rest.End? then []
    else if w.level != w.rest.level then [w.value % WORD] + Streamed(w.rest)
    else if w.value % WORD == 0 then [0] + Streamed(w.rest)
    else
      assert w.Length() == 2 + w.rest.rest.Length();
      Streamed(Per(w.level, w.value % WORD + w.rest.value, w.rest.rest))
  }

  /** Only what the first value is in 32 bits matters. */
  lemma StreamedModulo(level: bool, v: nat, v': nat, rest: Wave)
    requires v % WORD == v' % WORD
    ensures Streamed(Per(level, v, rest)) == Streamed(Per(level, v', rest))
  {
  }

  /** Every run that is sent fits in 32 bits, and no run, the last one included, has a sum that is a
      multiple of 2^32 where it goes on. */
  predicate Clean(w: Wave)
    decreases w.Length()
  {
    if w.End? || w.rest.End? then true
    else if w.level != w.rest.level then w.value < WORD && Clean(w.rest)
    else
      assert w.Length() == 2 + w.rest.rest.Length();
      w.value % WORD != 0 && Clean(Per(w.level, w.value + w.rest.value, w.rest.rest))
  }

  /** The sums at which a run goes on that are multiples of 2^32. */
  function Gaps(w: Wave): nat
    decreases w.Length()
  {
    if w.End? || w.rest.End? then 0
    else if w.level != w.rest.level then Gaps(w.rest)
    else if w.value % WORD == 0 then 1 + Gaps(w.rest)
    else
      assert w.Length() == 2 + w.rest.rest.Length();
      Gaps(Per(w.level, w.value + w.rest.value, w.rest.rest))
  }

  lemma {:induction false} GapsModulo(level: bool, v: nat, v': nat, rest: Wave)
    requires v % WORD == v' % WORD
    ensures Gaps(Per(level, v, rest)) == Gaps(Per(level, v', rest))
    decreases rest.Length()
  {
    if !rest.End? && rest.level == level && v % WORD != 0 {
      assert (v + rest.value) % WORD == (v' + rest.value) % WORD by { AddModulo(v, v', rest.value); }
      assert rest.Length() == 1 + rest.rest.Length();
      GapsModulo(level, v + rest.value, v' + rest.value, rest.rest);
    }
  }

  lemma AddModulo(v: nat, v': nat, x: nat)
    requires v % WORD == v' % WORD
    ensures (v + x) % WORD == (v' + x) % WORD && (v % WORD + x) % WORD == (v + x) % WORD
  {
  }

  /** Merging does not look at the first value. */
  lemma {:induction false} MergeLength(level: bool, v: nat, v': nat, rest: Wave)
    ensures Merge(Per(level, v, rest)).Length() == Merge(Per(level, v', rest)).Length()
    decreases rest.Length()
  {
    if !rest.End? && rest.level == level {
      assert rest.Length() == 1 + rest.rest.Length();
      MergeLength(level, v + rest.value, v' + rest.value, rest.rest);
    }
  }

  lemma {:induction false} LengthOfAllButLast(w: Wave)
    ensures |w.AllButLast()| == if w.End? then 0 else w.Length() - 1
  {
    if !w.End? { LengthOfAllButLast(w.rest); }
  }

  /** A sum of zero in mid-run costs one more value. */
  lemma {:induction false} StreamedLength(w: Wave)
    ensures |Streamed(w)| == |SentRuns(w)| + Gaps(w)
    decreases w.Length()
  {
    if w.End? || w.rest.End? {
      LengthOfAllButLast(Merge(w));
    } else {
      assert w.Length() == 1 + w.rest.Length() && w.rest.Length() == 1 + w.rest.rest.Length();
      if w.level != w.rest.level || w.value % WORD == 0 {
        StreamedLength(w.rest);
        StreamedNext(w.level, w.value, w.rest);
      } else {
        StreamedLength(Per(w.level, w.value % WORD + w.rest.value, w.rest.rest));
        StreamedSum(w.level, w.value, w.rest.value, w.rest.rest);
      }
    }
  }

  lemma StreamedNext(level: bool, v: nat, rest: Wave)
    requires !rest.End? && (level != rest.level || v % WORD == 0) && |Streamed(rest)| == |SentRuns(rest)| + Gaps(rest)
    ensures var w := Per(level, v, rest); |Streamed(w)| == |SentRuns(w)| + Gaps(w)
  {
    if level == rest.level {
      GapHere(level, v, rest);
      SentHere(level, v, rest);
    } else {
      RunEnds(level, v, rest);
    }
  }

  lemma GapHere(level: bool, v: nat, rest: Wave)
    requires !rest.End? && level == rest.level && v % WORD == 0
    ensures var w := Per(level, v, rest); |Streamed(w)| == 1 + |Streamed(rest)| && Gaps(w) == 1 + Gaps(rest)
  {
  }

  lemma SentHere(level: bool, v: nat, rest: Wave)
    requires !rest.End? && level == rest.level
    ensures |SentRuns(Per(level, v, rest))| == |SentRuns(rest)|
  {
    MergeFirst(level, v, rest.value, rest.rest);
    SentCount(level, v + rest.value, rest.value, rest.rest, Merge(Per(level, v, rest)), Merge(rest));
  }

  lemma MergeFirst(level: bool, v: nat, x: nat, rest: Wave)
    ensures Merge(Per(level, v, Per(level, x, rest))) == Merge(Per(level, v + x, rest))
  {
  }

  lemma SentCount(level: bool, v: nat, v': nat, rest: Wave, a: Wave, b: Wave)
    requires a == Merge(Per(level, v, rest)) && b == Merge(Per(level, v', rest))
    ensures |a.AllButLast()| == |b.AllButLast()|
  {
    MergeLength(level, v, v', rest);
    LengthOfAllButLast(a);
    LengthOfAllButLast(b);
  }

  lemma RunEnds(level: bool, v: nat, rest: Wave)
    requires !rest.End? && level != rest.level
    ensures var w := Per(level, v, rest);
            |Streamed(w)| == 1 + |Streamed(rest)| && Gaps(w) == Gaps(rest) && |SentRuns(w)| == 1 + |SentRuns(rest)|
  {
  }

  lemma StreamedSum(level: bool, v: nat, x: nat, rest: Wave)
    requires v % WORD != 0
    requires var sum := Per(level, v % WORD + x, rest); |Streamed(sum)| == |SentRuns(sum)| + Gaps(sum)
    ensures var w := Per(level, v, Per(level, x, rest)); |Streamed(w)| == |SentRuns(w)| + Gaps(w)
  {
    var w := Per(level, v, Per(level, x, rest));
    MergeFirst(level, v, x, rest);
    SentCount(level, v + x, v % WORD + x, rest, Merge(w), Merge(Per(level, v % WORD + x, rest)));
    AddModulo(v, v, x);
    GapsModulo(level, v + x, v % WORD + x, rest);
  }

  /** Without such sums, the values are those of the runs in 32 bits. */
  lemma {:induction false} StreamedRuns(w: Wave)
    requires Gaps(w) == 0
    ensures Streamed(w) == Reduced(SentRuns(w))
    decreases w.Length()
  {
    if !w.End? && !w.rest.End? {
      assert w.Length() == 1 + w.rest.Length() && w.rest.Length() == 1 + w.rest.rest.Length();
      if w.level != w.rest.level {
        StreamedRuns(w.rest);
        ReducedNext(w.value, SentRuns(w.rest));
      } else {
        var sum := Per(w.level, w.value + w.rest.value, w.rest.rest);
        StreamedRuns(sum);
        AddModulo(w.value, w.value, w.rest.value);
        StreamedModulo(w.level, w.value + w.rest.value, w.value % WORD + w.rest.value, w.rest.rest);
      }
    }
  }

  function Reduced(v: seq<nat>): (r: seq<Word>)
    ensures |r| == |v|
  {
    seq(|v|, i requires 0 <= i < |v| => v[i] % WORD)
  }

  lemma ReducedNext(x: nat, v: seq<nat>)
    ensures Reduced([x] + v) == [x % WORD] + Reduced(v)
  {
  }

  ghost predicate AllWords(v: seq<nat>) {
    forall i :: 0 <= i < |v| ==> v[i] < WORD
  }

  lemma AllWordsNext(x: nat, v: seq<nat>)
    ensures AllWords([x] + v) <==> x < WORD && AllWords(v)
  {
    assert ([x] + v)[0] == x;
    if AllWords([x] + v) {
      forall i | 0 <= i < |v| ensures v[i] < WORD { assert ([x] + v)[i + 1] == v[i]; }
    }
  }

  lemma {:induction false} CleanIff(w: Wave)
    ensures Clean(w) <==> Gaps(w) == 0 && AllWords(SentRuns(w))
    decreases w.Length()
  {
    if !w.End? && !w.rest.End? {
      assert w.Length() == 1 + w.rest.Length() && w.rest.Length() == 1 + w.rest.rest.Length();
      if w.level != w.rest.level {
        CleanIff(w.rest);
        AllWordsNext(w.value, SentRuns(w.rest));
      } else {
        CleanIff(Per(w.level, w.value + w.rest.value, w.rest.rest));
      }
    }
  }

  /** The stream is exactly the merged runs without the last if and only if the waveform is clean. */
  lemma StreamedIff(w: Wave)
    ensures Streamed(w) == SentRuns(w) <==> Clean(w)
  {
    CleanIff(w);
    StreamedLength(w);
    var v: seq<Word> := Streamed(w);
    if Gaps(w) == 0 { StreamedRuns(w); }
    if Streamed(w) == SentRuns(w) {
      assert forall i :: 0 <= i < |v| ==> SentRuns(w)[i] == v[i];
    }
  }

  /** A waveform is clean if all its runs fit in 32 bits, the last one included, and no period has
      the value zero. */
  lemma {:induction false} SmallRunsClean(w: Wave)
    requires w.Per? ==> w.value >= 1
    requires Positive(w) && AllWords(Values(Merge(w)))
    ensures Clean(w)
    decreases w.Length()
  {
    if !w.End? && !w.rest.End? {
      assert w.Length() == 1 + w.rest.Length() && w.rest.Length() == 1 + w.rest.rest.Length();
      if w.level != w.rest.level {
        AllWordsNext(w.value, Values(Merge(w.rest)));
        SmallRunsClean(w.rest);
      } else {
        var sum := Per(w.level, w.value + w.rest.value, w.rest.rest);
        FirstRun(sum);
        assert sum.value <= Values(Merge(sum))[0] < WORD;
        SmallRunsClean(sum);
      }
    }
  }

  function Values(w: Wave): (v: seq<nat>)
    ensures |v| == w.Length()
  {
    if w.End? then [] else [w.value] + Values(w.rest)
  }

  predicate Positive(w: Wave) {
    w.End? || (w.value >= 1 && Positive(w.rest))
  }

  /** Merging never lowers the first value. */
  lemma {:induction false} FirstRun(w: Wave)
    requires w.Per?
    ensures Merge(w).Per? && Merge(w).value >= w.value
    decreases w.Length()
  {
    if !w.rest.End? && w.level == w.rest.level {
      assert w.Length() == 1 + w.rest.Length() && w.rest.Length() == 1 + w.rest.rest.Length();
      FirstRun(Per(w.level, w.value + w.rest.value, w.rest.rest));
    }
  }

  // ---------------------------------------------------------------- signal by signal

  /** The periods from index i of signal k on, without the correction charged to signal k. */
  function Tail(sigs: seq<Sig>, k: nat, i: nat): Wave
    requires k < |sigs|
  {
    SigWave(sigs[k], i, WaveFrom(sigs, k + 1))
  }

  lemma BumpZero(w: Wave)
    ensures w.Bump(0) == w
  {
  }

  lemma TailSteps(sigs: seq<Sig>, k: nat, i: nat)
    requires k < |sigs| && i < |sigs[k].data|
    ensures Tail(sigs, k, i) == Per(LevelAt(sigs[k], i), sigs[k].data[i], Tail(sigs, k, i + 1))
    ensures i + 1 == |sigs[k].data| ==> Tail(sigs, k, i + 1) == WaveFrom(sigs, k + 1)
    ensures i + 1 < |sigs[k].data| ==> Tail(sigs, k, i + 1).Per? && Tail(sigs, k, i + 1).level != LevelAt(sigs[k], i)
  {
  }

  lemma EnterSignal(sigs: seq<Sig>, k: nat, carry: nat)
    requires k < |sigs| && sigs[k].data != []
    ensures WaveFrom(sigs, k).Bump(carry) == Tail(sigs, k, 0).Bump(carry + Correction(sigs, k))
    ensures WaveFrom(sigs, k).Per? && WaveFrom(sigs, k).level == sigs[k].startLevel
  {
    TailSteps(sigs, k, 0);
    assert WaveFrom(sigs, k) == Tail(sigs, k, 0).Bump(Correction(sigs, k));
  }

  /** Run k of a sequence has the level that the GPIO buffer puts out at the k-th timer update:
      the start level of the first signal at even updates, the other level at odd ones. */
  lemma OutputLevels(sigs: seq<Sig>, k: nat)
    requires sigs != [] && sigs[0].data != [] && k < Merge(WaveFrom(sigs, 0)).Length()
    ensures Merge(WaveFrom(sigs, 0)).HasLevel(k, if k % 2 == 0 then sigs[0].startLevel else !sigs[0].startLevel)
  {
    EnterSignal(sigs, 0, 0);
    RunsAlternate(WaveFrom(sigs, 0), k);
  }

  // ---------------------------------------------------------------- time on the wire

  /** The level stays the same from one signal to the next, so that two periods are merged. */
  predicate Merges(s: Sig, t: Sig)
    requires s.data != []
  {
    LevelAt(s, |s.data| - 1) == t.startLevel
  }

  ghost predicate AllSent(sigs: seq<Sig>) {
    forall i :: 0 <= i < |sigs| ==> Sendable(sigs[i])
  }

  /** The periods of the signals from j on, up to the first period of signal k, with the corrections
      charged to them. */
  function Until(sigs: seq<Sig>, j: nat, k: nat): Wave
    requires j <= k < |sigs| && sigs[k].data != []
    decreases k - j
  {
    if j == k then Per(sigs[k].startLevel, sigs[k].data[0] + Correction(sigs, k), End)
    else SigWave(sigs[j], 0, Until(sigs, j + 1, k)).Bump(Correction(sigs, j))
  }

  /** The time at which the first period of signal k should end: what the signals before it stand for,
      and that period. */
  function IdealEnd(sigs: seq<Sig>, k: nat): int
    requires k < |sigs| && sigs[k].data != []
  {
    TimeBefore(sigs, k) + T_TIM * (1 + sigs[k].data[0] as int)
  }

  function TimeBefore(sigs: seq<Sig>, k: nat): int
    requires k <= |sigs|
  {
    if k == 0 then 0 else TimeBefore(sigs, k - 1) + TotalTime(sigs[k - 1])
  }

  /** How much later than it should the first period of signal k ends, on the wire. The later periods
      of that signal follow it at their stored distances. */
  function WireError(sigs: seq<Sig>, k: nat): int
    requires k < |sigs| && sigs[k].data != []
  {
    T_TIM * Merge(Until(sigs, 0, k)).Duration() - IdealEnd(sigs, k)
  }

  /** The boundaries before the first k signals and their successors that are merged. */
  ghost function Merged(sigs: seq<Sig>, k: nat): nat
    requires AllSent(sigs) && k < |sigs|
  {
    if k == 0 then 0
    else
      assert Sendable(sigs[k - 1]);
      Merged(sigs, k - 1) + if Merges(sigs[k - 1], sigs[k]) then 1 else 0
  }

  function TicksBefore(sigs: seq<Sig>, k: nat): nat
    requires k <= |sigs|
  {
    if k == 0 then 0 else TicksBefore(sigs, k - 1) + Ticks(sigs[k - 1].data)
  }

  /** The number of neighbours of equal level. */
  function Equals(w: Wave): nat {
    if w.End? || w.rest.End? then 0 else Equals(w.rest) + if w.level == w.rest.level then 1 else 0
  }

  lemma {:induction false} MergedLength(w: Wave)
    ensures Merge(w).Length() + Equals(w) == w.Length()
    decreases w.Length()
  {
    if !w.End? && !w.rest.End? {
      assert w.Length() == 1 + w.rest.Length() && w.rest.Length() == 1 + w.rest.rest.Length();
      if w.level == w.rest.level {
        var sum := Per(w.level, w.value + w.rest.value, w.rest.rest);
        MergedLength(sum);
        assert Equals(sum) == Equals(w.rest);
      } else {
        MergedLength(w.rest);
      }
    }
  }

  lemma {:induction false} TicksFrom(data: seq<Word>, i: nat)
    requires i < |data|
    ensures Ticks(data[i..]) == data[i] + 1 + Ticks(data[i + 1..])
    decreases |data|
  {
    var n := |data|;
    if i + 1 < n {
      TicksFrom(data[..n - 1], i);
      assert data[i..][..n - i - 1] == data[..n - 1][i..];
      assert data[i + 1..][..n - i - 2] == data[..n - 1][i + 1..];
    } else {
      assert data[i..] == [data[i]] && [data[i]][..0] == [];
    }
  }

  /** A signal in a waveform: its ticks, its periods, and one merge if the level stays the same. */
  lemma {:induction false} SignalInWave(s: Sig, i: nat, more: Wave)
    requires i < |s.data| && more.Per?
    ensures SigWave(s, i, more).Duration() == Ticks(s.data[i..]) + more.Duration()
    ensures Equals(SigWave(s, i, more)) == Equals(more) + if LevelAt(s, |s.data| - 1) == more.level then 1 else 0
    ensures SigWave(s, i, more).Per? && SigWave(s, i, more).level == LevelAt(s, i)
    decreases |s.data| - i
  {
    TicksFrom(s.data, i);
    if i + 1 < |s.data| {
      SignalInWave(s, i + 1, more);
    } else {
      assert s.data[i + 1..] == [];
    }
  }

  lemma BumpDuration(w: Wave, c: nat)
    requires w.Per?
    ensures w.Bump(c).Duration() == w.Duration() + c && Equals(w.Bump(c)) == Equals(w) && w.Bump(c).level == w.level
  {
    assert w.Bump(c).Duration() == 1 + w.value + c + w.rest.Duration();
  }

  lemma {:induction false} UntilCounts(sigs: seq<Sig>, j: nat, k: nat)
    requires AllSent(sigs) && j <= k < |sigs|
    ensures sigs[k].data != [] && Until(sigs, j, k).Per? && Until(sigs, j, k).level == sigs[j].startLevel
    ensures Until(sigs, j, k).Duration()
            == TicksBefore(sigs, k) - TicksBefore(sigs, j) + Corrections(sigs, k) - Corrections(sigs, j) + Correction(sigs, j)
               + 1 + sigs[k].data[0]
    ensures Equals(Until(sigs, j, k)) == Merged(sigs, k) - Merged(sigs, j)
    decreases k - j
  {
    assert Sendable(sigs[j]) && Sendable(sigs[k]);
    if j < k {
      UntilCounts(sigs, j + 1, k);
      SignalInWave(sigs[j], 0, Until(sigs, j + 1, k));
      BumpDuration(SigWave(sigs[j], 0, Until(sigs, j + 1, k)), Correction(sigs, j));
      assert sigs[j].data[0..] == sigs[j].data;
    }
  }

  lemma {:induction false} TimeBeforeIs(sigs: seq<Sig>, k: nat)
    requires k <= |sigs|
    ensures TimeBefore(sigs, k) == T_TIM * TicksBefore(sigs, k) + SumRemainders(sigs, k)
  {
    if k > 0 { TimeBeforeIs(sigs, k - 1); }
  }

  /** The error on the wire is what remainder_ticks carries, and a whole timer tick for every boundary
      at which two periods were merged. */
  lemma WireErrorIs(sigs: seq<Sig>, k: nat)
    requires AllSent(sigs) && k < |sigs|
    ensures sigs[k].data != [] && WireError(sigs, k) == -RemainderAfter(sigs, k) - T_TIM * Merged(sigs, k)
  {
    var w := Until(sigs, 0, k);
    UntilCounts(sigs, 0, k);
    MergedLength(w);
    MergedDuration(w);
    TimeBeforeIs(sigs, k);
    DriftBounds(sigs, k);
  }

  /** Every signal of the sequence starts within half a tick of its ideal time. */
  ghost predicate OnTime(sigs: seq<Sig>)
    requires AllSent(sigs)
  {
    forall k: nat :: k < |sigs| ==> ErrorSmall(sigs, k)
  }

  ghost predicate ErrorSmall(sigs: seq<Sig>, k: nat)
    requires AllSent(sigs) && k < |sigs|
  {
    assert Sendable(sigs[k]);
    -T_TIM_DIV2 <= WireError(sigs, k) <= T_TIM_DIV2
  }

  ghost predicate AlwaysOnTime(bank: set<Sig>)
    requires forall s <- bank :: Sendable(s)
  {
    forall sigs: seq<Sig> :: DrawnFrom(sigs, bank) ==> AllSent(sigs) && OnTime(sigs)
  }

  ghost predicate SafeBank(bank: set<Sig>)
    requires forall s <- bank :: Sendable(s)
  {
    && (forall s <- bank :: s.remainder >= 0)
    && (forall s, t :: s in bank && t in bank ==> Sendable(s) && !Merges(s, t))
  }

  lemma {:induction false} NeverMerged(sigs: seq<Sig>, bank: set<Sig>, k: nat)
    requires (forall s <- bank :: Sendable(s)) && DrawnFrom(sigs, bank) && SafeBank(bank) && AllSent(sigs) && k < |sigs|
    ensures Merged(sigs, k) == 0
  {
    if k > 0 { NeverMerged(sigs, bank, k - 1); }
  }

  lemma SafeIsOnTime(bank: set<Sig>, sigs: seq<Sig>)
    requires (forall s <- bank :: Sendable(s)) && SafeBank(bank) && DrawnFrom(sigs, bank)
    ensures AllSent(sigs) && OnTime(sigs)
  {
    forall k: nat | k < |sigs| ensures ErrorSmall(sigs, k) {
      WireErrorIs(sigs, k);
      NeverMerged(sigs, bank, k);
      RemainderWithinHalfTick(sigs, k);
    }
  }

  /** remainder_ticks falls by at most half a tick for every signal, and stays below one. */
  lemma {:induction false} RemainderAtLeast(sigs: seq<Sig>, k: nat)
    requires AllSent(sigs) && k <= |sigs|
    ensures -T_TIM_DIV2 * k <= RemainderAfter(sigs, k) < T_TIM_DIV2
  {
    if k > 0 {
      RemainderAtLeast(sigs, k - 1);
      assert Sendable(sigs[k - 1]);
    }
  }

  /** A signal that is repeated and merges with itself comes early, whatever its remainder. */
  lemma SelfMergeEarly(s: Sig)
    requires Sendable(s) && Merges(s, s)
    ensures AllSent([s, s, s]) && WireError([s, s, s], 2) < -T_TIM_DIV2
  {
    var sigs := [s, s, s];
    WireErrorIs(sigs, 2);
    RemainderAtLeast(sigs, 2);
    assert Merged(sigs, 1) == 1;
    assert Merged(sigs, 2) == 2;
  }

  /** A signal that is repeated and does not merge with itself comes late if its remainder is negative. */
  lemma NegativeLate(s: Sig)
    requires Sendable(s) && !Merges(s, s) && s.remainder < 0
    ensures var sigs := seq(T_TIM_DIV2 + 2, _ => s);
            AllSent(sigs) && WireError(sigs, T_TIM_DIV2 + 1) > T_TIM_DIV2
  {
    var sigs := seq(T_TIM_DIV2 + 2, _ => s);
    WireErrorIs(sigs, T_TIM_DIV2 + 1);
    RepeatedDrift(s, T_TIM_DIV2 + 2, T_TIM_DIV2 + 1);
    RepeatedUnmerged(s, T_TIM_DIV2 + 2, T_TIM_DIV2 + 1);
  }

  lemma {:induction false} RepeatedUnmerged(s: Sig, n: nat, k: nat)
    requires Sendable(s) && !Merges(s, s) && k < n
    ensures AllSent(seq(n, _ => s)) && Merged(seq(n, _ => s), k) == 0
  {
    if k > 0 { RepeatedUnmerged(s, n, k - 1); }
  }

  /** Two signals that merge come early when they alternate, if neither has a negative remainder. */
  lemma MergeEarly(s: Sig, t: Sig)
    requires Sendable(s) && Sendable(t) && Merges(s, t) && s.remainder >= 0 && t.remainder >= 0
    ensures AllSent([s, t, s, t]) && WireError([s, t, s, t], 3) < -T_TIM_DIV2
  {
    var sigs := [s, t, s, t];
    WireErrorIs(sigs, 3);
    RemainderWithinHalfTick(sigs, 3);
    assert Merged(sigs, 1) == 1;
    assert Merged(sigs, 3) >= 2;
  }

  /** Exactly the banks without negative remainders in which no two signals merge keep every sequence
      drawn from them within half a tick of its ideal time on the wire. */
  lemma OnTimeIff(bank: set<Sig>)
    requires forall s <- bank :: Sendable(s)
    ensures AlwaysOnTime(bank) <==> SafeBank(bank)
  {
    if SafeBank(bank) {
      forall sigs: seq<Sig> | DrawnFrom(sigs, bank) ensures AllSent(sigs) && OnTime(sigs) { SafeIsOnTime(bank, sigs); }
    }
    if AlwaysOnTime(bank) {
      forall s <- bank ensures s.remainder >= 0 { NotNegative(bank, s); }
      forall s, t | s in bank && t in bank ensures !Merges(s, t) {
        if Merges(s, t) {
          MergeEarly(s, t);
          BankOnTime(bank, [s, t, s, t], 3);
          assert false;
        }
      }
    }
  }

  lemma NotNegative(bank: set<Sig>, s: Sig)
    requires (forall s <- bank :: Sendable(s)) && AlwaysOnTime(bank) && s in bank
    ensures s.remainder >= 0
  {
    if Merges(s, s) {
      SelfMergeEarly(s);
      BankOnTime(bank, [s, s, s], 2);
      assert false;
    } else if s.remainder < 0 {
      NegativeLate(s);
      BankOnTime(bank, seq(T_TIM_DIV2 + 2, _ => s), T_TIM_DIV2 + 1);
      assert false;
    }
  }

  lemma BankOnTime(bank: set<Sig>, sigs: seq<Sig>, k: nat)
    requires (forall s <- bank :: Sendable(s)) && AlwaysOnTime(bank) && DrawnFrom(sigs, bank) && k < |sigs|
    ensures AllSent(sigs) && sigs[k].data != [] && -T_TIM_DIV2 <= WireError(sigs, k) <= T_TIM_DIV2
  {
    assert AllSent(sigs) && OnTime(sigs);
    assert Sendable(sigs[k]) && ErrorSmall(sigs, k);
  }
}
