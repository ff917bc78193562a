/** DigitalSignal: a start level and a list of timer reload values, built from durations in
    units of 10 ps. One timer tick is T_TIM units; what rounding leaves over is carried. */
module DigitalSignal {

  const T_TIM := 1562
  const T_TIM_DIV2 := 781
  const WORD := 0x1_0000_0000

  type Word = w: nat | w < 0x1_0000_0000

  /** The stored signal as a value. A reload value is the number of timer ticks minus one. */
  datatype Sig = Sig(startLevel: bool, data: seq<Word>, remainder: int)

  datatype Pulse = Pulse(ticks: Word, level: bool)

  datatype Outcome = Stored(sig: Sig) | CheckFailed

  const EMPTY := Sig(false, [], 0)

  // ---------------------------------------------------------------- one addition

  /** The nearest number of timer ticks, halves upward. */
  function Nearest(duration: Word): Word {
    (duration + T_TIM_DIV2) / T_TIM
  }

  /** It is the only number of ticks within half a tick of the duration. */
  lemma NearestUnique(d: Word, q: int, r: int)
    ensures T_TIM * q + r == d && -T_TIM_DIV2 <= r < T_TIM_DIV2 <==> q == Nearest(d) && r == d - T_TIM * q
  {
  }

  /** The level of the last stored period. */
  function EndLevel(s: Sig): bool
    requires s.data != []
  {
    if |s.data| % 2 == 0 then !s.startLevel else s.startLevel
  }

  predicate Extends(s: Sig, p: Pulse) {
    s.data != [] && p.level == EndLevel(s)
  }

  /** The duration that is rounded, before it is reduced to 32 bits. */
  function ExactDuration(s: Sig, p: Pulse): int {
    p.ticks + s.remainder + if Extends(s, p) then T_TIM * (1 + s.data[|s.data| - 1] as int) else 0
  }

  predicate InRange(s: Sig, p: Pulse) {
    0 <= ExactDuration(s, p) < WORD
  }

  /** The periods that an addition leaves as they are. */
  function Kept(s: Sig, p: Pulse): seq<Word> {
    if Extends(s, p) then s.data[..|s.data| - 1] else s.data
  }

  /** A duration rounded to a last period, and the rest carried; it must be more than one tick. */
  function Rounded(startLevel: bool, kept: seq<Word>, d: Word): Outcome {
    var q := Nearest(d);
    if q <= 1 then CheckFailed else Stored(Sig(startLevel, kept + [q - 1], d - T_TIM * q))
  }

  /** What digital_signal_add_period_with_level leaves behind: the signal whose last period,
      new or extended, is the nearest number of ticks, with the rest as the remainder. */
  function Add(s: Sig, p: Pulse): Outcome {
    Rounded(if s.data == [] then p.level else s.startLevel, Kept(s, p), ExactDuration(s, p) % WORD)
  }

  /** In numbers: the duration that is rounded is that of the pulse, of the carried rest, and of the last period if
      that has the level of the pulse, in 32 bits. From one tick and a half on it is stored as the last period, in the
      nearest number of ticks, and what is left over or missing is carried. */
  lemma AddMeaning(s: Sig, p: Pulse)
    ensures var n := |s.data|;
            var longer := n > 0 && p.level == (s.startLevel == (n % 2 == 1));
            var d := (p.ticks + s.remainder + if longer then 1562 * (s.data[n - 1] as int + 1) else 0) % 0x1_0000_0000;
            && (Add(s, p).Stored? <==> d >= 2343)
            && (Add(s, p).Stored? ==>
                  var s' := Add(s, p).sig;
                  && s'.startLevel == (if n == 0 then p.level else s.startLevel)
                  && s'.data != [] && s'.data[..|s'.data| - 1] == (if longer then s.data[..n - 1] else s.data)
                  && 1562 * (s'.data[|s'.data| - 1] as int + 1) + s'.remainder == d && -781 <= s'.remainder < 781)
  {
    assert Extends(s, p) <==> |s.data| > 0 && p.level == (s.startLevel == (|s.data| % 2 == 1));
  }

  /** All stored timer ticks. */
  function Ticks(data: seq<Word>): nat {
    if data == [] then 0 else Ticks(data[..|data| - 1]) + data[|data| - 1] + 1
  }

  /** The total time a signal stands for: its ticks and what is still carried. */
  function TotalTime(s: Sig): int {
    T_TIM * Ticks(s.data) + s.remainder
  }

  /** An addition conserves time exactly when its 32-bit arithmetic does not wrap. */
  lemma TimeConservedIffInRange(s: Sig, p: Pulse)
    requires Add(s, p).Stored?
    ensures TotalTime(Add(s, p).sig) == TotalTime(s) + p.ticks <==> InRange(s, p)
  {
    var s' := Add(s, p).sig;
    var n := |s'.data|;
    assert s'.data[..n - 1] == if Extends(s, p) then s.data[..|s.data| - 1] else s.data;
    assert TotalTime(s') == TotalTime(s) + p.ticks - ExactDuration(s, p) + ExactDuration(s, p) % WORD;
  }

  /** A period so short that the negative remainder outweighs it does not fail the check on the
      reload value: the duration wraps around and is stored as almost 2^32 units. */
  lemma TinyPeriodWraps()
    ensures var s := Sig(true, [99], -100);
            !InRange(s, Pulse(50, false))
            && Add(s, Pulse(50, false)) == Stored(Sig(true, [99, 2749658], -112))
  {
  }

  // ---------------------------------------------------------------- extending is confluent

  /** Adding t1 and then t2 at the same level does exactly what adding t1 + t2 at once does, in the
      32-bit arithmetic of the durations: the second addition passes its check if and only if the
      joint one does, and then the same state is left behind. */
  lemma ExtendingConfluent(s: Sig, t1: Word, t2: Word, level: bool)
    requires Add(s, Pulse(t1, level)).Stored?
    ensures Add(Add(s, Pulse(t1, level)).sig, Pulse(t2, level)) == Add(s, Pulse((t1 + t2) % WORD, level))
  {
    var p1, p2, p := Pulse(t1, level), Pulse(t2, level), Pulse((t1 + t2) % WORD, level);
    AddThenAdd(s, p1, p2);
    JointDuration(ExactDuration(s, p1), t1, t2);
    assert ExactDuration(s, p) == ExactDuration(s, p1) - t1 + (t1 + t2) % WORD;
  }

  lemma AddThenAdd(s: Sig, p1: Pulse, p2: Pulse)
    requires Add(s, p1).Stored? && p1.level == p2.level
    ensures Add(Add(s, p1).sig, p2)
            == Rounded(if s.data == [] then p1.level else s.startLevel, Kept(s, p1),
                       (p2.ticks + ExactDuration(s, p1) % WORD) % WORD)
  {
    var s1, d := Add(s, p1).sig, ExactDuration(s, p1) % WORD;
    EndLevelAfterAdd(s, p1);
    assert s1.data[..|s1.data| - 1] == Kept(s, p1);
    ExtendedDuration(s1, p2, Nearest(d), d);
  }

  lemma JointDuration(e: int, t1: int, t2: int)
    ensures (t2 + e % WORD) % WORD == (e - t1 + (t1 + t2) % WORD) % WORD
  {
    ModuloOnce(e, t2);
    ModuloOnce(t1 + t2, e - t1);
  }

  /** If neither addition wraps around, then the joint one does not wrap and passes its check. */
  lemma ExtendingStaysInRange(s: Sig, t1: Word, t2: Word, level: bool)
    requires Add(s, Pulse(t1, level)).Stored? && InRange(s, Pulse(t1, level))
    requires t1 + t2 < WORD && InRange(Add(s, Pulse(t1, level)).sig, Pulse(t2, level))
    ensures InRange(s, Pulse(t1 + t2, level)) && Add(s, Pulse(t1 + t2, level)).Stored?
  {
    var p1, p2, p := Pulse(t1, level), Pulse(t2, level), Pulse(t1 + t2, level);
    EndLevelAfterAdd(s, p1);
    assert ExactDuration(Add(s, p1).sig, p2) == ExactDuration(s, p);
    assert Nearest(ExactDuration(s, p)) >= Nearest(ExactDuration(s, p1));
  }

  /** The last period always has the level that was asked for. */
  lemma EndLevelAfterAdd(s: Sig, p: Pulse)
    requires Add(s, p).Stored?
    ensures Add(s, p).sig.data != [] && EndLevel(Add(s, p).sig) == p.level
  {
  }

  // ---------------------------------------------------------------- whole signals

  datatype Run = Run(ticks: nat, level: bool)

  /** The ideal waveform: adjacent pulses of equal level become one run. */
  function Runs(ps: seq<Pulse>): seq<Run> {
    if ps == [] then [] else AddRun(Runs(ps[..|ps| - 1]), ps[|ps| - 1])
  }

  function AddRun(runs: seq<Run>, p: Pulse): seq<Run> {
    var n := |runs|;
    if n > 0 && runs[n - 1].level == p.level then runs[..n - 1] + [Run(runs[n - 1].ticks + p.ticks, p.level)]
    else runs + [Run(p.ticks, p.level)]
  }

  function IdealTime(runs: seq<Run>): nat {
    if runs == [] then 0 else IdealTime(runs[..|runs| - 1]) + runs[|runs| - 1].ticks
  }

  /** The additions one after the other, from an empty signal. */
  function AddAll(ps: seq<Pulse>): Outcome {
    if ps == [] then Stored(EMPTY)
    else
      match AddAll(ps[..|ps| - 1])
      case CheckFailed => CheckFailed
      case Stored(s) => Add(s, ps[|ps| - 1])
  }

  /** The stored signal represents the runs: the same levels, and every boundary between
      periods within half a tick of its ideal time. */
  ghost predicate Represents(s: Sig, runs: seq<Run>) {
    && |s.data| == |runs|
    && (forall k :: 0 <= k < |runs| ==> runs[k].level == (s.startLevel == (k % 2 == 0)))
    && (forall k :: 0 <= k <= |runs| ==> Near(s.data, runs, k))
    && IdealTime(runs) == TotalTime(s)
    && -T_TIM_DIV2 <= s.remainder < T_TIM_DIV2
    && (forall k :: 0 <= k < |s.data| ==> s.data[k] >= 1)
  }

  /** The k-th boundary is at most 781 units late and at most 780 early. */
  ghost predicate Near(data: seq<Word>, runs: seq<Run>, k: nat)
    requires k <= |data| == |runs|
  {
    -T_TIM_DIV2 <= IdealTime(runs[..k]) - T_TIM * Ticks(data[..k]) < T_TIM_DIV2
  }

  // ---------------------------------------------------------------- run by run

  /** A run added to the signal of the runs before it, as a new period. */
  function AddNew(s: Sig, r: Run): Outcome {
    Rounded(if s.data == [] then r.level else s.startLevel, s.data, (r.ticks + s.remainder) % WORD)
  }

  /** All runs, each quantised at once. */
  function Quantised(runs: seq<Run>): Outcome {
    if runs == [] then Stored(EMPTY)
    else
      match Quantised(runs[..|runs| - 1])
      case CheckFailed => CheckFailed
      case Stored(s) => AddNew(s, runs[|runs| - 1])
  }

  /** Levels alternate, as they do once equal neighbours are merged. */
  ghost predicate Alternating(runs: seq<Run>) {
    forall k :: 0 <= k < |runs| ==> runs[k].level == (runs[0].level == (k % 2 == 0))
  }

  /** The stored periods have the levels of the runs. */
  ghost predicate Shaped(s: Sig, runs: seq<Run>) {
    && |s.data| == |runs| && Alternating(runs) && (runs != [] ==> s.startLevel == runs[0].level)
    && (forall k :: 0 <= k < |s.data| ==> s.data[k] >= 1)
    && -T_TIM_DIV2 <= s.remainder < T_TIM_DIV2
  }

  lemma AddNewShaped(s: Sig, runs: seq<Run>, r: Run)
    requires Shaped(s, runs) && AddNew(s, r).Stored?
    requires runs != [] ==> r.level != runs[|runs| - 1].level
    ensures Shaped(AddNew(s, r).sig, runs + [r])
  {
    RoundedRemainder(if s.data == [] then r.level else s.startLevel, s.data, (r.ticks + s.remainder) % WORD);
    AlternatingNext(runs, r);
  }

  lemma RoundedRemainder(startLevel: bool, kept: seq<Word>, d: Word)
    requires Rounded(startLevel, kept, d).Stored?
    ensures -T_TIM_DIV2 <= Rounded(startLevel, kept, d).sig.remainder < T_TIM_DIV2
  {
    NearestUnique(d, Nearest(d), d - T_TIM * Nearest(d));
  }

  lemma AlternatingNext(runs: seq<Run>, r: Run)
    requires Alternating(runs) && (runs != [] ==> r.level != runs[|runs| - 1].level)
    ensures Alternating(runs + [r])
  {
    var n := |runs|;
    if n > 0 { assert runs[n - 1].level == (runs[0].level == ((n - 1) % 2 == 0)) && (n % 2 == 0) != ((n - 1) % 2 == 0); }
  }

  lemma QuantisedPrefix(runs: seq<Run>, r: Run)
    ensures Quantised(runs + [r])
            == match Quantised(runs) case CheckFailed => CheckFailed case Stored(s) => AddNew(s, r)
  {
    assert (runs + [r])[..|runs|] == runs;
  }

  /** A pulse that extends the last run changes its last period as if the longer run had been added
      at once. */
  lemma ExtendRun(s: Sig, r: Run, p: Pulse)
    requires AddNew(s, r).Stored? && p.level == r.level && EndLevel(AddNew(s, r).sig) == r.level
    ensures Add(AddNew(s, r).sig, p) == AddNew(s, Run(r.ticks + p.ticks, r.level))
  {
    var s1, d := AddNew(s, r).sig, (r.ticks + s.remainder) % WORD;
    assert s1.data[..|s1.data| - 1] == s.data;
    ExtendedDuration(s1, p, Nearest(d), d);
    ModuloOnce(r.ticks + s.remainder, p.ticks);
    assert Add(s1, p) == Rounded(s1.startLevel, s.data, (r.ticks + s.remainder + p.ticks) % WORD);
  }

  /** The duration that is rounded again is that of the last period and the addition. */
  lemma ExtendedDuration(s: Sig, p: Pulse, q: nat, d: int)
    requires Extends(s, p) && s.data[|s.data| - 1] == q - 1 && s.remainder == d - T_TIM * q
    ensures ExactDuration(s, p) == p.ticks + d
  {
  }

  lemma ModuloOnce(x: int, y: int)
    ensures (y + x % WORD) % WORD == (x + y) % WORD
  {
  }

  lemma FirstRunSame(s: Sig, r: Run, p: Pulse)
    requires !Extends(s, p) && r == Run(p.ticks, p.level)
    ensures Add(s, p) == AddNew(s, r)
  {
  }

  lemma EndLevelOfRuns(s: Sig, runs: seq<Run>)
    requires Shaped(s, runs) && runs != []
    ensures EndLevel(s) == runs[|runs| - 1].level
  {
  }

  /** The order and size of the additions do not matter, only the runs they make up. */
  lemma {:induction false} AddAllIsQuantised(ps: seq<Pulse>)
    requires AddAll(ps).Stored?
    ensures Quantised(Runs(ps)) == AddAll(ps) && Shaped(AddAll(ps).sig, Runs(ps))
  {
    if ps != [] {
      var p, runs := ps[|ps| - 1], Runs(ps[..|ps| - 1]);
      AddAllIsQuantised(ps[..|ps| - 1]);
      AddOneMore(AddAll(ps[..|ps| - 1]).sig, runs, p);
    }
  }

  lemma AddOneMore(s: Sig, runs: seq<Run>, p: Pulse)
    requires Quantised(runs) == Stored(s) && Shaped(s, runs) && Add(s, p).Stored?
    ensures Quantised(AddRun(runs, p)) == Add(s, p) && Shaped(Add(s, p).sig, AddRun(runs, p))
  {
    if runs != [] && runs[|runs| - 1].level == p.level {
      LastLonger(s, runs, p);
    } else {
      NewRun(s, runs, p);
    }
  }

  lemma LastLonger(s: Sig, runs: seq<Run>, p: Pulse)
    requires Quantised(runs) == Stored(s) && Shaped(s, runs) && Add(s, p).Stored?
    requires runs != [] && runs[|runs| - 1].level == p.level
    ensures Quantised(AddRun(runs, p)) == Add(s, p) && Shaped(Add(s, p).sig, AddRun(runs, p))
  {
    var front, last := LastExtended(runs, p);
    LongerRun(s, runs, AddRun(runs, p), front, last, p);
  }

  lemma LastExtended(runs: seq<Run>, p: Pulse) returns (front: seq<Run>, last: Run)
    requires runs != [] && runs[|runs| - 1].level == p.level
    ensures runs == front + [last] && last.level == p.level
    ensures AddRun(runs, p) == front + [Run(last.ticks + p.ticks, last.level)]
  {
    front, last := runs[..|runs| - 1], runs[|runs| - 1];
  }

  lemma NewRun(s: Sig, runs: seq<Run>, p: Pulse)
    requires Quantised(runs) == Stored(s) && Shaped(s, runs) && Add(s, p).Stored?
    requires runs != [] ==> p.level != runs[|runs| - 1].level
    ensures Quantised(AddRun(runs, p)) == Add(s, p) && Shaped(Add(s, p).sig, AddRun(runs, p))
  {
    var r := Run(p.ticks, p.level);
    if runs != [] { EndLevelOfRuns(s, runs); }
    FirstRunSame(s, r, p);
    QuantisedPrefix(runs, r);
    AddNewShaped(s, runs, r);
  }

  lemma LongerRun(s: Sig, runs: seq<Run>, runs': seq<Run>, front: seq<Run>, r: Run, p: Pulse)
    requires Quantised(runs) == Stored(s) && Shaped(s, runs) && Add(s, p).Stored?
    requires runs == front + [r] && runs' == front + [Run(r.ticks + p.ticks, r.level)] && p.level == r.level
    ensures Quantised(runs') == Add(s, p) && Shaped(Add(s, p).sig, runs')
  {
    var longer := Run(r.ticks + p.ticks, r.level);
    EndLevelOfRuns(s, runs);
    QuantisedPrefix(front, r);
    QuantisedPrefix(front, longer);
    ExtendRun(Quantised(front).sig, r, p);
    FrontAlternates(front, r);
    QuantisedShaped(front);
    AddNewShaped(Quantised(front).sig, front, longer);
  }

  lemma FrontAlternates(front: seq<Run>, r: Run)
    requires Alternating(front + [r])
    ensures Alternating(front) && (front != [] ==> r.level != front[|front| - 1].level)
  {
    var runs := front + [r];
    assert forall k :: 0 <= k < |front| ==> runs[k] == front[k];
    assert runs[|front|] == r;
    if front != [] { assert runs[|front| - 1] == front[|front| - 1] && (|front| - 1) % 2 != |front| % 2; }
  }

  lemma {:induction false} QuantisedShaped(runs: seq<Run>)
    requires Quantised(runs).Stored? && Alternating(runs)
    ensures Shaped(Quantised(runs).sig, runs)
  {
    if runs != [] {
      var front, last := runs[..|runs| - 1], runs[|runs| - 1];
      assert runs == front + [last];
      FrontAlternates(front, last);
      QuantisedShaped(front);
      AddNewShaped(Quantised(front).sig, front, last);
    }
  }

  // ---------------------------------------------------------------- exactly when a signal represents its input

  /** What is left of a time when the nearest number of timer ticks is taken off. */
  function Centered(t: nat): (r: int)
    ensures -T_TIM_DIV2 <= r < T_TIM_DIV2
  {
    t - T_TIM * ((t + T_TIM_DIV2) / T_TIM)
  }

  /** A run, with what the rounding of the runs before it has left over, is a duration of 32 bits. */
  predicate RunFits(runs: seq<Run>, k: nat)
    requires k < |runs|
  {
    0 <= runs[k].ticks + Centered(IdealTime(runs[..k])) < WORD
  }

  ghost predicate AllFit(runs: seq<Run>) {
    forall k: nat :: k < |runs| ==> RunFits(runs, k)
  }

  lemma CenteredUnique(t: nat, q: int, r: int)
    requires t == T_TIM * q + r && -T_TIM_DIV2 <= r < T_TIM_DIV2
    ensures r == Centered(t)
  {
  }

  lemma AddNewTime(s: Sig, r: Run)
    requires AddNew(s, r).Stored?
    ensures TotalTime(AddNew(s, r).sig) == TotalTime(s) - s.remainder + (r.ticks + s.remainder) % WORD
  {
    var s' := AddNew(s, r).sig;
    assert s'.data[..|s'.data| - 1] == s.data;
  }

  /** Whatever wraps around, the total time is right up to multiples of 2^32. */
  lemma {:induction false} TimeModulo(runs: seq<Run>) returns (m: int)
    requires Quantised(runs).Stored?
    ensures IdealTime(runs) - TotalTime(Quantised(runs).sig) == WORD * m
  {
    if runs == [] {
      m := 0;
    } else {
      var n := |runs|;
      var s := Quantised(runs[..n - 1]).sig;
      var m' := TimeModulo(runs[..n - 1]);
      AddNewTime(s, runs[n - 1]);
      m := m' + (runs[n - 1].ticks + s.remainder) / WORD;
    }
  }

  /** The signal of the first k runs. */
  function First(runs: seq<Run>, k: nat): Sig
    requires k <= |runs| && Quantised(runs).Stored?
    decreases |runs|
  {
    if k == |runs| then Quantised(runs).sig else First(runs[..|runs| - 1], k)
  }

  lemma {:induction false} FirstIs(runs: seq<Run>, k: nat)
    requires k <= |runs| && Quantised(runs).Stored?
    ensures |Quantised(runs).sig.data| == |runs|
    ensures Quantised(runs[..k]) == Stored(First(runs, k)) && First(runs, k).data == Quantised(runs).sig.data[..k]
    decreases |runs|
  {
    var n := |runs|;
    QuantisedLength(runs);
    if k == n {
      assert runs[..k] == runs;
    } else {
      var front := runs[..n - 1];
      FirstIs(front, k);
      assert front[..k] == runs[..k];
      QuantisedLength(front);
    }
  }

  lemma {:induction false} QuantisedLength(runs: seq<Run>)
    requires Quantised(runs).Stored?
    ensures |Quantised(runs).sig.data| == |runs|
  {
    if runs != [] { QuantisedLength(runs[..|runs| - 1]); }
  }

  /** The k-th boundary is near its ideal time exactly if no time has been lost before it. */
  lemma NearIff(runs: seq<Run>, k: nat)
    requires k <= |runs| && Quantised(runs).Stored? && Alternating(runs)
    ensures |Quantised(runs).sig.data| == |runs|
    ensures Near(Quantised(runs).sig.data, runs, k) <==> IdealTime(runs[..k]) == TotalTime(First(runs, k))
  {
    var m := FirstModulo(runs, k);
    NearByModulo(Quantised(runs).sig.data, runs, k, First(runs, k), m);
  }

  lemma FirstModulo(runs: seq<Run>, k: nat) returns (m: int)
    requires k <= |runs| && Quantised(runs).Stored? && Alternating(runs)
    ensures |Quantised(runs).sig.data| == |runs| && Quantised(runs).sig.data[..k] == First(runs, k).data
    ensures -T_TIM_DIV2 <= First(runs, k).remainder < T_TIM_DIV2
    ensures IdealTime(runs[..k]) - TotalTime(First(runs, k)) == WORD * m
  {
    FirstIs(runs, k);
    m := TimeModulo(runs[..k]);
    QuantisedShaped(runs[..k]);
  }

  lemma NearByModulo(data: seq<Word>, runs: seq<Run>, k: nat, s: Sig, m: int)
    requires k <= |data| == |runs| && data[..k] == s.data && -T_TIM_DIV2 <= s.remainder < T_TIM_DIV2
    requires IdealTime(runs[..k]) - TotalTime(s) == WORD * m
    ensures Near(data, runs, k) <==> IdealTime(runs[..k]) == TotalTime(s)
  {
    NoMultiple(IdealTime(runs[..k]), Ticks(s.data), s.remainder, m);
  }

  lemma NoMultiple(t: nat, ticks: nat, r: int, m: int)
    requires t - (T_TIM * ticks + r) == WORD * m && -T_TIM_DIV2 <= r < T_TIM_DIV2
    ensures -T_TIM_DIV2 <= t - T_TIM * ticks < T_TIM_DIV2 <==> m == 0
  {
  }

  /** One more run: given that no time has been lost before it, none is lost exactly if it fits. */
  lemma OnTimeStep(runs: seq<Run>, k: nat)
    requires k < |runs| && Quantised(runs).Stored? && Alternating(runs)
    requires IdealTime(runs[..k]) == TotalTime(First(runs, k))
    ensures IdealTime(runs[..k + 1]) == TotalTime(First(runs, k + 1)) <==> RunFits(runs, k)
  {
    var s := First(runs, k);
    FirstIs(runs, k);
    FirstIs(runs, k + 1);
    QuantisedShaped(runs[..k]);
    assert runs[..k + 1][..k] == runs[..k];
    AddNewOnTime(s, runs[k], IdealTime(runs[..k]));
  }

  lemma AddNewOnTime(s: Sig, r: Run, t: nat)
    requires AddNew(s, r).Stored? && t == TotalTime(s) && -T_TIM_DIV2 <= s.remainder < T_TIM_DIV2
    ensures t + r.ticks == TotalTime(AddNew(s, r).sig) <==> 0 <= r.ticks + Centered(t) < WORD
  {
    CenteredUnique(t, Ticks(s.data), s.remainder);
    AddNewTime(s, r);
  }

  lemma {:induction false} FittingIsOnTime(runs: seq<Run>, k: nat)
    requires k <= |runs| && Quantised(runs).Stored? && Alternating(runs) && AllFit(runs)
    ensures IdealTime(runs[..k]) == TotalTime(First(runs, k))
  {
    FirstIs(runs, k);
    if k > 0 {
      FittingIsOnTime(runs, k - 1);
      OnTimeStep(runs, k - 1);
      assert RunFits(runs, k - 1);
    }
  }

  lemma QuantisedRepresentsIff(runs: seq<Run>)
    requires Quantised(runs).Stored? && Alternating(runs)
    ensures Represents(Quantised(runs).sig, runs) <==> AllFit(runs)
  {
    var n, s := |runs|, Quantised(runs).sig;
    QuantisedShaped(runs);
    assert runs[..n] == runs;
    if AllFit(runs) {
      forall k: nat | k <= n ensures Near(s.data, runs, k) {
        FittingIsOnTime(runs, k);
        NearIff(runs, k);
      }
      FittingIsOnTime(runs, n);
    }
    if Represents(s, runs) {
      forall k: nat | k < n ensures RunFits(runs, k) {
        NearIff(runs, k);
        NearIff(runs, k + 1);
        OnTimeStep(runs, k);
      }
    }
  }

  /** For any series of additions whose checks pass, the stored signal is the input with equal
      neighbours merged, every boundary within half a tick of its ideal time and nothing lost, if and
      only if every run, with what the rounding before it has left over, fits in 32 bits. */
  lemma SignalRepresentsInput(ps: seq<Pulse>)
    requires AddAll(ps).Stored?
    ensures Represents(AddAll(ps).sig, Runs(ps)) <==> AllFit(Runs(ps))
  {
    AddAllIsQuantised(ps);
    QuantisedRepresentsIff(Runs(ps));
  }

  /** It is enough that no run is shorter than half a tick, or that close to 2^32 units. */
  lemma ModerateRunsFit(ps: seq<Pulse>)
    requires AddAll(ps).Stored?
    requires forall k :: 0 <= k < |Runs(ps)| ==> T_TIM_DIV2 <= Runs(ps)[k].ticks <= WORD - T_TIM_DIV2
    ensures Represents(AddAll(ps).sig, Runs(ps))
  {
    SignalRepresentsInput(ps);
  }

  /** An addition that wraps around does no harm if a later one extends it far enough. */
  lemma ExtendingUndoesWrap()
    ensures var ps := [Pulse(4000, true), Pulse(50, false), Pulse(5000, false)];
            && AddAll(ps[..1]).Stored? && !InRange(AddAll(ps[..1]).sig, ps[1])
            && AddAll(ps).Stored? && Represents(AddAll(ps).sig, Runs(ps))
  {
    var a, b, c := Pulse(4000, true), Pulse(50, false), Pulse(5000, false);
    WrapAndExtend();
    AddThree(a, b, c, Sig(true, [2], -686), Sig(true, [2, 2749658], -698));
    assert [a, b, c][..1] == [a];
    ModerateRunsFit([a, b, c]);
  }

  lemma WrapAndExtend()
    ensures Add(EMPTY, Pulse(4000, true)) == Stored(Sig(true, [2], -686))
    ensures Add(Sig(true, [2], -686), Pulse(50, false)) == Stored(Sig(true, [2, 2749658], -698))
    ensures Add(Sig(true, [2, 2749658], -698), Pulse(5000, false)).Stored?
  {
  }

  lemma AddThree(a: Pulse, b: Pulse, c: Pulse, s: Sig, t: Sig)
    requires Add(EMPTY, a) == Stored(s) && Add(s, b) == Stored(t)
    ensures AddAll([a]) == Stored(s) && AddAll([a, b, c]) == Add(t, c)
    ensures Runs([a, b, c]) == AddRun(AddRun([Run(a.ticks, a.level)], b), c)
  {
    AddOne(a, s);
    AddTwo(a, b, s);
    OneMoreAdded([a, b], c);
    assert [a, b] + [c] == [a, b, c];
  }

  lemma AddTwo(a: Pulse, b: Pulse, s: Sig)
    requires Add(EMPTY, a) == Stored(s)
    ensures AddAll([a, b]) == Add(s, b) && Runs([a, b]) == AddRun([Run(a.ticks, a.level)], b)
  {
    AddOne(a, s);
    OneMoreAdded([a], b);
    assert [a] + [b] == [a, b];
  }

  lemma AddOne(a: Pulse, s: Sig)
    requires Add(EMPTY, a) == Stored(s)
    ensures AddAll([a]) == Stored(s) && Runs([a]) == [Run(a.ticks, a.level)]
  {
    OneMoreAdded([], a);
    assert [] + [a] == [a];
  }

  lemma OneMoreAdded(ps: seq<Pulse>, p: Pulse)
    ensures AddAll(ps + [p]) == match AddAll(ps) case CheckFailed => CheckFailed case Stored(s) => Add(s, p)
    ensures Runs(ps + [p]) == AddRun(Runs(ps), p)
  {
    assert (ps + [p])[..|ps|] == ps;
  }

  // ---------------------------------------------------------------- the object

  class DigitalSignal {
    var startLevel: bool
    var size: nat
    const maxSize: nat
    const data: array<Word>
    var remainder: int

    /** Remainders stay within half a tick, and the check on the reload value keeps every stored
        value at 1 or more. */
    ghost predicate Valid()
      reads this, data
    {
      && data.Length == maxSize && size <= maxSize
      && -T_TIM_DIV2 <= remainder < T_TIM_DIV2
      && forall i :: 0 <= i < size ==> data[i] >= 1
    }

    ghost function Value(): (s: Sig)
      requires size <= data.Length
      reads this, data
      ensures s.startLevel == startLevel && s.data == data[..size] && s.remainder == remainder
    {
      Sig(startLevel, data[..size], remainder)
    }

    constructor (maxSize: nat)
      ensures Valid() && Value() == EMPTY && this.maxSize == maxSize && fresh(data)
    {
      this.maxSize := maxSize;
      startLevel, size, remainder := false, 0, 0;
      data := new Word[maxSize];
    }

    // digital_signal_set_start_level
    method SetStartLevel(level: bool)
      requires Valid()
      modifies `startLevel
      ensures Valid() && Value() == old(Value()).(startLevel := level)
    {
      startLevel := level;
    }

    // The rounding shared by digital_signal_add_period and digital_signal_extend_last_period.
    method Quantise(duration: Word) returns (reload: nat, rest: int)
      ensures reload == Nearest(duration) && rest == duration - T_TIM * reload
    {
      reload := duration / T_TIM;
      rest := duration - reload * T_TIM;
      if rest >= T_TIM_DIV2 {
        reload := reload + 1;
        rest := rest - T_TIM;
      }
    }

    // digital_signal_add_period; false stands for the crash of furi_check(reload_value > 1)
    method AddPeriod(ticks: Word) returns (ok: bool)
      requires Valid() && size < maxSize
      modifies this, data
      ensures Valid()
      ensures var d := (ticks + old(remainder)) % WORD;
              && (ok <==> Nearest(d) > 1)
              && (ok ==> Value() == Sig(startLevel, old(Value()).data + [Nearest(d) - 1], d - T_TIM * Nearest(d)))
      ensures startLevel == old(startLevel)
      ensures !ok ==> Value() == old(Value())
    {
      var duration := (ticks + remainder) % WORD;
      var reload, rest := Quantise(duration);
      ok := reload > 1;
      if ok {
        data[size] := reload - 1;
        size := size + 1;
        remainder := rest;
        NearestUnique(duration, reload, rest);
      }
    }

    // digital_signal_extend_last_period
    method ExtendLastPeriod(ticks: Word) returns (ok: bool)
      requires Valid() && size > 0
      modifies this, data
      ensures Valid()
      ensures var d := (ticks + old(remainder) + T_TIM * (1 + old(data[size - 1]) as int)) % WORD;
              && (ok <==> Nearest(d) > 1)
              && (ok ==> Value() == Sig(startLevel, old(data[..size - 1]) + [Nearest(d) - 1], d - T_TIM * Nearest(d)))
      ensures startLevel == old(startLevel)
      ensures !ok ==> Value() == old(Value())
    {
      var reloadOld := (data[size - 1] + 1) % WORD;
      var duration := (ticks + remainder + reloadOld * T_TIM) % WORD;
      assert duration == (ticks + remainder + T_TIM * (1 + data[size - 1] as int)) % WORD;
      var reload, rest := Quantise(duration);
      ok := reload > 1;
      if ok {
        data[size - 1] := reload - 1;
        remainder := rest;
        NearestUnique(duration, reload, rest);
      }
    }

    // digital_signal_add_period_with_level
    method AddPeriodWithLevel(ticks: Word, level: bool) returns (ok: bool)
      requires Valid() && (size < maxSize || Extends(Value(), Pulse(ticks, level)))
      modifies this, data
      ensures Valid()
      ensures ok <==> Add(old(Value()), Pulse(ticks, level)).Stored?
      ensures ok ==> Value() == Add(old(Value()), Pulse(ticks, level)).sig
    {
      if size == 0 {
        startLevel := level;
        ok := AddPeriod(ticks);
      } else {
        var endLevel := startLevel != (size % 2 == 0);
        if level != endLevel {
          ok := AddPeriod(ticks);
        } else {
          ok := ExtendLastPeriod(ticks);
        }
      }
    }
  }
}
