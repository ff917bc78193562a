/** furi_thread_flags_wait, with other threads setting flags at any time.

    A word of flags is the set of the numbers of its bits that are set, so that |, & and & ~ are +,
    * and -. Bit 31 marks error codes, and no flag has it. */
module ThreadFlags {

  type Flags = set<nat>

  const ERROR_BIT: nat := 31
  const FOREVER: nat := 0xFFFF_FFFF

  datatype Error = Timeout | Resource | Parameter | Isr

  datatype Result = Ok(flags: Flags) | Err(error: Error)

  // ---------------------------------------------------------------- the remaining time

  function Sum(es: seq<nat>): nat {
    if es == [] then 0 else Sum(es[..|es| - 1]) + es[|es| - 1]
  }

  /** tout after notifications that did not suffice, at the times es since the begin. */
  function Remaining(timeout: nat, es: seq<nat>): nat {
    if es == [] then timeout
    else
      var left, td := Remaining(timeout, es[..|es| - 1]), es[|es| - 1];
      if td > left then 0 else left - td
  }

  /** Every notification takes its whole distance from the begin off the remaining time. */
  lemma {:induction false} RemainingIs(timeout: nat, es: seq<nat>)
    ensures Remaining(timeout, es) == if Sum(es) <= timeout then timeout - Sum(es) else 0
    decreases |es|
  {
    if es != [] { RemainingIs(timeout, es[..|es| - 1]); }
  }

  function Last(es: seq<nat>): nat {
    if es == [] then 0 else es[|es| - 1]
  }

  /** The time since the begin at which the wait gives up, if nothing more arrives. */
  function Deadline(timeout: nat, es: seq<nat>): nat {
    Last(es) + Remaining(timeout, es)
  }

  /** It gives up too early exactly if the last notification came in time, and one before it did
      not come in the very tick of the begin. */
  lemma EarlyIff(timeout: nat, es: seq<nat>)
    ensures Deadline(timeout, es) < timeout <==> es != [] && Last(es) < timeout && Sum(es[..|es| - 1]) > 0
  {
    RemainingIs(timeout, es);
  }

  // ---------------------------------------------------------------- other threads

  /** What other threads do during one wait of the kernel: `bits` are set, the first of them
      `delay` ticks after its begin, and the thread runs again `lag` ticks after it could. */
  datatype Wake = Wake(delay: nat, bits: Flags, lag: nat) | Quiet

  /** After the given wakes, nothing more is set. */
  function WakeAt(wakes: seq<Wake>, i: nat): Wake {
    if i < |wakes| then wakes[i] else Quiet
  }

  function Bits(w: Wake): Flags {
    if w.Wake? then w.bits else {}
  }

  function Lag(w: Wake): nat {
    if w.Wake? then w.lag else 0
  }

  /** All flags that are set in the first n wakes. */
  function BitsOf(wakes: seq<Wake>, n: nat): Flags {
    if n == 0 then {} else BitsOf(wakes, n - 1) + Bits(WakeAt(wakes, n - 1))
  }

  function LagOf(wakes: seq<Wake>, n: nat): nat {
    if n == 0 then 0 else LagOf(wakes, n - 1) + Lag(WakeAt(wakes, n - 1))
  }

  /** The notification of a thread, and the tick counter. */
  datatype Kernel = Kernel(value: Flags, pending: bool, tick: nat)

  predicate Arrives(w: Wake, tout: nat) {
    w.Wake? && (tout == FOREVER || w.delay <= tout + w.lag)
  }

  function WaitedFor(k: Kernel, w: Wake, tout: nat): nat {
    if k.pending then Lag(w)
    else if w.Wake? && (tout == FOREVER || w.delay <= tout) then w.delay + w.lag
    else tout + Lag(w)
  }

  // ---------------------------------------------------------------- rounds of the wait

  /** The condition for which a wait with these options waits. */
  predicate Satisfied(flags: Flags, waitAll: bool, present: Flags) {
    if waitAll then flags * present == flags else flags * present != {}
  }

  function Cleared(flags: Flags, noClear: bool): Flags {
    if noClear then {} else flags
  }

  /** The arguments of a wait, and the notification and the tick at its begin. */
  datatype Wait = Wait(flags: Flags, waitAll: bool, noClear: bool, timeout: nat, begin: Kernel, wakes: seq<Wake>)

  /** The variables of the loop. */
  datatype Loop = Loop(k: Kernel, rflags: Flags, tout: nat)

  /** The wait of the kernel returns with a notification. */
  predicate Received(l: Loop, w: Wake) {
    l.k.pending || Arrives(w, l.tout)
  }

  /** One notification. */
  function Notified(c: Wait, l: Loop, w: Wake): Loop {
    var nval := l.k.value + Bits(w);
    var k := Kernel(nval - Cleared(c.flags, c.noClear), false, l.k.tick + WaitedFor(l.k, w, l.tout));
    var td := (k.tick - c.begin.tick) % 0x1_0000_0000;
    Loop(k, l.rflags * c.flags + nval, if td > l.tout then 0 else l.tout - td)
  }

  /** The loop after n notifications. */
  function After(c: Wait, n: nat): Loop {
    if n == 0 then Loop(c.begin, {}, c.timeout) else Notified(c, After(c, n - 1), WakeAt(c.wakes, n - 1))
  }

  /** No notification has come in time. */
  function GivenUp(l: Loop, w: Wake): Kernel {
    Kernel(l.k.value, false, l.k.tick + WaitedFor(l.k, w, l.tout))
  }

  /** The kernel's wait after n notifications returns with one more. */
  ghost predicate Woken(c: Wait, n: nat) {
    Received(After(c, n), WakeAt(c.wakes, n))
  }

  /** The flags collected by n notifications do not suffice. */
  ghost predicate Wanting(c: Wait, n: nat) {
    !Satisfied(c.flags, c.waitAll, After(c, n).rflags)
  }

  /** The first n waits of the kernel return with notifications, none of which ends the wait. */
  ghost predicate GoesOn(c: Wait, n: nat) {
    && (forall m: nat :: m < n ==> Woken(c, m))
    && (forall m: nat :: 0 < m <= n ==> Wanting(c, m))
    && (c.timeout == 0 ==> n == 0)
  }

  /** Why the wait ends: with enough flags, without enough and without time, because nothing comes
      in time, or never. */
  datatype End = Enough | Empty | Late | Never

  /** After n notifications that did not end it the wait ends like this, with result r and leaving
      the notification as k. */
  ghost predicate Ends(c: Wait, n: nat, end: End, r: Result, k: Kernel) {
    var w, next := WakeAt(c.wakes, n), After(c, n + 1);
    && GoesOn(c, n)
    && match end
       case Enough => Woken(c, n) && !Wanting(c, n + 1) && r == Ok(next.rflags) && k == next.k
       case Empty => Woken(c, n) && Wanting(c, n + 1) && c.timeout == 0 && r == Err(Resource) && k == next.k
       case Late =>
         && !Woken(c, n) && !(w.Quiet? && After(c, n).tout == FOREVER)
         && r == Err(if c.timeout == 0 then Resource else Timeout) && k == GivenUp(After(c, n), w)
       case Never =>
         !After(c, n).k.pending && w.Quiet? && After(c, n).tout == FOREVER
  }

  lemma GoesOnStep(c: Wait, n: nat)
    requires GoesOn(c, n) && Woken(c, n) && Wanting(c, n + 1) && c.timeout != 0
    ensures GoesOn(c, n + 1)
  {
  }

  /** A wait ends in one way only. */
  lemma EndsOnce(c: Wait, n: nat, end: End, r: Result, k: Kernel, n': nat, end': End, r': Result, k': Kernel)
    requires Ends(c, n, end, r, k) && Ends(c, n', end', r', k')
    ensures n == n' && end == end' && (end != Never ==> r == r' && k == k')
  {
    if n < n' {
      GoesOnTells(c, n', n);
      assert false;
    } else if n' < n {
      GoesOnTells(c, n, n');
      assert false;
    }
  }

  lemma GoesOnTells(c: Wait, n: nat, m: nat)
    requires GoesOn(c, n) && m < n
    ensures Woken(c, m) && Wanting(c, m + 1) && c.timeout != 0
  {
  }

  // ---------------------------------------------------------------- flags

  /** After a notification, everything that was set so far has been collected, and what was asked
      for is cleared in the notification. */
  lemma {:induction false} FlagsAfter(c: Wait, n: nat)
    ensures var all := c.begin.value + BitsOf(c.wakes, n);
            && After(c, n).rflags == (if n == 0 then {} else all)
            && After(c, n).k.value == all - if n == 0 then {} else Cleared(c.flags, c.noClear)
  {
    if n > 0 {
      FlagsAfter(c, n - 1);
      var l, w := After(c, n - 1), WakeAt(c.wakes, n - 1);
      forall b ensures b in l.rflags * c.flags + (l.k.value + Bits(w)) <==> b in c.begin.value + BitsOf(c.wakes, n) {}
    }
  }

  lemma {:induction false} FlagsOfWakes(wakes: seq<Wake>, n: nat, f: nat)
    ensures f in BitsOf(wakes, n) <==> exists i: nat :: i < n && i < |wakes| && wakes[i].Wake? && f in wakes[i].bits
  {
    if n > 0 { FlagsOfWakes(wakes, n - 1, f); }
  }

  /** A result has every flag that was set until then, by whichever thread: with all requested ones among them,
      or at least one, as was asked for. Of these the requested ones are cleared, unless that was not wanted,
      and no others. */
  lemma ResultFlags(c: Wait, n: nat, r: Result, k: Kernel)
    requires Ends(c, n, Enough, r, k)
    ensures r.Ok? && r.flags == c.begin.value + BitsOf(c.wakes, n + 1)
    ensures if c.waitAll then c.flags <= r.flags else exists f :: f in c.flags && f in r.flags
    ensures k.value == if c.noClear then r.flags else r.flags - c.flags
  {
    FlagsAfter(c, n + 1);
    SatisfiedIs(c.flags, c.waitAll, r.flags);
  }

  lemma SatisfiedIs(flags: Flags, waitAll: bool, present: Flags)
    ensures Satisfied(flags, waitAll, present) <==> if waitAll then flags <= present else exists f :: f in flags && f in present
  {
    if waitAll {
      assert flags * present == flags <==> flags <= present;
    } else if f :| f in flags && f in present {
      assert f in flags * present;
    }
  }

  /** The other way round: a wait does end with a notification that brings what was asked for. */
  lemma EnoughEnds(c: Wait, n: nat)
    requires GoesOn(c, n) && Woken(c, n)
    requires var all := c.begin.value + BitsOf(c.wakes, n + 1);
             if c.waitAll then c.flags <= all else exists f :: f in c.flags && f in all
    ensures Ends(c, n, Enough, Ok(c.begin.value + BitsOf(c.wakes, n + 1)), After(c, n + 1).k)
  {
    FlagsAfter(c, n + 1);
    SatisfiedIs(c.flags, c.waitAll, After(c, n + 1).rflags);
  }

  /** If any of the requested flags is enough, it ends with the first notification in which one is set. */
  lemma AnyEndsAtOnce(c: Wait, n: nat, f: nat)
    requires GoesOn(c, n) && Woken(c, n) && !c.waitAll && f in c.flags && f in Bits(WakeAt(c.wakes, n))
    ensures Ends(c, n, Enough, Ok(c.begin.value + BitsOf(c.wakes, n + 1)), After(c, n + 1).k)
  {
    assert f in c.begin.value + BitsOf(c.wakes, n + 1);
    EnoughEnds(c, n);
  }

  /** Without a result, no flag outside the mask is cleared, the flags that were set are not enough
      if there was a notification, and those that were asked for are lost in that case. */
  lemma ErrorFlags(c: Wait, n: nat, end: End, r: Result, k: Kernel)
    requires Ends(c, n, end, r, k) && (end == Empty || end == Late)
    ensures r == Err(if c.timeout == 0 then Resource else Timeout) && (end == Empty ==> c.timeout == 0)
    ensures var notified := if end == Empty then n + 1 else n;
            var all := c.begin.value + BitsOf(c.wakes, notified);
            && k.value == (if notified == 0 || c.noClear then all else all - c.flags)
            && (notified > 0 ==> if c.waitAll then !(c.flags <= all) else forall f :: f in c.flags ==> f !in all)
  {
    FlagsAfter(c, n);
    FlagsAfter(c, n + 1);
    assert n > 0 ==> Wanting(c, n);
    SatisfiedIs(c.flags, c.waitAll, c.begin.value + BitsOf(c.wakes, if end == Empty then n + 1 else n));
  }

  // ---------------------------------------------------------------- time

  /** The time since the begin after n notifications, as the 32-bit tick counter shows it. */
  function Since(c: Wait, n: nat): nat {
    (After(c, n).k.tick - c.begin.tick) % 0x1_0000_0000
  }

  /** The times at which the first n notifications are seen. */
  function Times(c: Wait, n: nat): seq<nat> {
    if n == 0 then [] else Times(c, n - 1) + [Since(c, n)]
  }

  lemma {:induction false} TimesLength(c: Wait, n: nat)
    ensures |Times(c, n)| == n
  {
    if n > 0 { TimesLength(c, n - 1); }
  }

  lemma RemainingNext(timeout: nat, es: seq<nat>, e: nat)
    ensures Remaining(timeout, es + [e])
            == if e > Remaining(timeout, es) then 0 else Remaining(timeout, es) - e
  {
    assert (es + [e])[..|es|] == es;
  }

  lemma {:induction false} TimeAfter(c: Wait, n: nat)
    ensures After(c, n).tout == Remaining(c.timeout, Times(c, n)) && After(c, n).tout <= c.timeout
    ensures After(c, n).k.tick >= c.begin.tick
  {
    if n > 0 {
      TimeAfter(c, n - 1);
      TimeStep(c, After(c, n - 1), WakeAt(c.wakes, n - 1), Times(c, n - 1), After(c, n), Times(c, n));
    }
  }

  lemma TimeStep(c: Wait, l: Loop, w: Wake, es: seq<nat>, l': Loop, es': seq<nat>)
    requires l' == Notified(c, l, w) && l.tout == Remaining(c.timeout, es) <= c.timeout && l.k.tick >= c.begin.tick
    requires es' == es + [(l'.k.tick - c.begin.tick) % 0x1_0000_0000]
    ensures l'.tout == Remaining(c.timeout, es') <= c.timeout && l'.k.tick >= c.begin.tick
  {
    RemainingNext(c.timeout, es, (l'.k.tick - c.begin.tick) % 0x1_0000_0000);
  }

  lemma LastTime(c: Wait, n: nat)
    ensures Last(Times(c, n)) == Since(c, n)
  {
    TimesLength(c, n);
  }

  /** The notifications are on schedule: what has passed and what remains stay within the timeout
      and the lags of the thread. */
  lemma {:induction false} OnSchedule(c: Wait, n: nat)
    requires GoesOn(c, n) && c.timeout < FOREVER && c.timeout + LagOf(c.wakes, n) < 0x1_0000_0000
    ensures After(c, n).k.tick - c.begin.tick + After(c, n).tout <= c.timeout + LagOf(c.wakes, n)
  {
    if n > 0 {
      OnSchedule(c, n - 1);
      TimeAfter(c, n - 1);
      var l, w := After(c, n - 1), WakeAt(c.wakes, n - 1);
      assert Woken(c, n - 1);
      ScheduleStep(c, l, w, LagOf(c.wakes, n - 1));
    }
  }

  lemma ScheduleStep(c: Wait, l: Loop, w: Wake, lags: nat)
    requires Received(l, w) && l.tout <= c.timeout < FOREVER && l.k.tick >= c.begin.tick
    requires l.k.tick - c.begin.tick + l.tout <= c.timeout + lags && c.timeout + lags + Lag(w) < 0x1_0000_0000
    ensures Notified(c, l, w).k.tick - c.begin.tick + Notified(c, l, w).tout <= c.timeout + lags + Lag(w)
  {
    assert WaitedFor(l.k, w, l.tout) <= l.tout + Lag(w);
  }

  lemma {:induction false} LagWithin(wakes: seq<Wake>, n: nat)
    ensures LagOf(wakes, n) <= LagOf(wakes, |wakes|)
    decreases if n <= |wakes| then |wakes| - n else n - |wakes|
  {
    if n < |wakes| {
      LagWithin(wakes, n + 1);
    } else if n > |wakes| {
      LagWithin(wakes, n - 1);
    }
  }

  /** However often it is woken, and by whomever, the wait takes no longer than the timeout and the
      lags of its thread. */
  lemma NeverTooLong(c: Wait, n: nat, end: End, r: Result, k: Kernel)
    requires Ends(c, n, end, r, k) && end != Never
    requires c.timeout < FOREVER && c.timeout + LagOf(c.wakes, |c.wakes|) < 0x1_0000_0000
    ensures k.tick - c.begin.tick <= c.timeout + LagOf(c.wakes, |c.wakes|)
  {
    LagWithin(c.wakes, n);
    LagWithin(c.wakes, n + 1);
    OnSchedule(c, n);
    TimeAfter(c, n);
  }

  /** A wait that times out does so at its deadline, which EarlyIff shows may be too early. */
  lemma TimesOutWhen(c: Wait, n: nat, r: Result, k: Kernel)
    requires Ends(c, n, Late, r, k) && k.tick - c.begin.tick < 0x1_0000_0000
    ensures k.tick - c.begin.tick == Deadline(c.timeout, Times(c, n)) + Lag(WakeAt(c.wakes, n))
  {
    var l, w, deadline := LateLoop(c, n, r, k);
    GivenUpAt(l, w, c.begin.tick, k, deadline);
  }

  /** The variables of the loop when the wait gives up. */
  lemma LateLoop(c: Wait, n: nat, r: Result, k: Kernel) returns (l: Loop, w: Wake, deadline: nat)
    requires Ends(c, n, Late, r, k)
    ensures w == WakeAt(c.wakes, n) && deadline == Deadline(c.timeout, Times(c, n))
    ensures !Received(l, w) && !(w.Quiet? && l.tout == FOREVER) && k == GivenUp(l, w)
    ensures l.k.tick >= c.begin.tick && deadline == (l.k.tick - c.begin.tick) % 0x1_0000_0000 + l.tout
  {
    l, w, deadline := After(c, n), WakeAt(c.wakes, n), Deadline(c.timeout, Times(c, n));
    DeadlineAfter(c, n);
  }

  lemma DeadlineAfter(c: Wait, n: nat)
    ensures After(c, n).k.tick >= c.begin.tick
    ensures Deadline(c.timeout, Times(c, n)) == (After(c, n).k.tick - c.begin.tick) % 0x1_0000_0000 + After(c, n).tout
  {
    TimeAfter(c, n);
    LastTime(c, n);
  }

  /** Together: the wait gives up early, apart from the lag of its thread, exactly if its last notification
      came in time and one before it did not come in the very tick of its begin. */
  lemma TimesOutEarlyIff(c: Wait, n: nat, r: Result, k: Kernel)
    requires Ends(c, n, Late, r, k) && k.tick - c.begin.tick < 0x1_0000_0000
    ensures k.tick - c.begin.tick < c.timeout + Lag(WakeAt(c.wakes, n))
            <==> n > 0 && Since(c, n) < c.timeout && Sum(Times(c, n - 1)) > 0
  {
    TimesOutWhen(c, n, r, k);
    EarlyIff(c.timeout, Times(c, n));
    LastTime(c, n);
    TimesLength(c, n);
    if n > 0 { assert Times(c, n)[..n - 1] == Times(c, n - 1) by { TimesLength(c, n - 1); } }
  }

  /** With a timeout, it always returns. */
  lemma AlwaysReturns(c: Wait, n: nat, end: End, r: Result, k: Kernel)
    requires Ends(c, n, end, r, k) && c.timeout < FOREVER
    ensures end != Never
  {
    TimeAfter(c, n);
  }

  lemma GivenUpAt(l: Loop, w: Wake, begin: nat, k: Kernel, deadline: nat)
    requires !Received(l, w) && !(w.Quiet? && l.tout == FOREVER) && l.k.tick >= begin
    requires k == GivenUp(l, w) && k.tick - begin < 0x1_0000_0000
    requires deadline == (l.k.tick - begin) % 0x1_0000_0000 + l.tout
    ensures k.tick - begin == deadline + Lag(w)
  {
  }

  /** An endless wait is endless exactly as long as all notifications come in the tick of its begin. */
  lemma EndlessIff(c: Wait, n: nat)
    requires c.timeout == FOREVER
    ensures After(c, n).tout == FOREVER <==> Sum(Times(c, n)) == 0
  {
    TimeAfter(c, n);
    RemainingIs(c.timeout, Times(c, n));
  }

  /** For example: a wait for both of two flags, for ten ticks, in which one of them is set three and six
      ticks after the begin. It times out after seven. */
  function EarlyExample(t: nat): Wait {
    Wait({0, 1}, true, false, 10, Kernel({}, false, t), [Wake(3, {0}, 0), Wake(3, {0}, 0)])
  }

  lemma EarlyWitness(t: nat)
    ensures Ends(EarlyExample(t), 2, Late, Err(Timeout), Kernel({}, false, t + 7))
  {
    var c := EarlyExample(t);
    assert After(c, 1) == Loop(Kernel({}, false, t + 3), {0}, 7);
    assert After(c, 2) == Loop(Kernel({}, false, t + 6), {0}, 1);
    assert 1 !in After(c, 1).rflags && 1 !in After(c, 2).rflags && 1 in c.flags;
    assert Woken(c, 0) && Woken(c, 1) && Wanting(c, 1) && Wanting(c, 2);
  }

  /** And a wait without a timeout, in which another flag is set one tick after the begin: it times out
      2^32 - 1 ticks after it. */
  function EndlessExample(t: nat): Wait {
    Wait({1}, false, false, FOREVER, Kernel({}, false, t), [Wake(1, {0}, 0)])
  }

  lemma EndlessWitness(t: nat)
    ensures Ends(EndlessExample(t), 1, Late, Err(Timeout), Kernel({0}, false, t + FOREVER))
  {
    var c := EndlessExample(t);
    assert After(c, 1) == Loop(Kernel({0}, false, t + 1), {0}, FOREVER - 1);
    assert 1 !in After(c, 1).rflags;
    assert Woken(c, 0) && Wanting(c, 1);
  }

  // ---------------------------------------------------------------- the wait

  class Task {
    var k: Kernel

    /** xTaskNotifyWaitIndexed of the kernel, unless it never returns. */
    method NotifyWait(clear: Flags, tout: nat, w: Wake) returns (pass: bool, nval: Flags)
      modifies this
      ensures pass == (old(k).pending || Arrives(w, tout))
      ensures nval == if pass then old(k).value + Bits(w) else old(k).value
      ensures k == Kernel(if pass then nval - clear else nval, false, old(k).tick + WaitedFor(old(k), w, tout))
    {
      pass := k.pending || Arrives(w, tout);
      nval := if pass then k.value + Bits(w) else k.value;
      k := Kernel(if pass then nval - clear else nval, false, k.tick + WaitedFor(k, w, tout));
    }

    /** furi_thread_flags_wait: a refused call changes nothing, and any other ends as specified. */
    method FlagsWait(flags: Flags, waitAll: bool, noClear: bool, timeout: nat, isr: bool, wakes: seq<Wake>)
      returns (r: Result, ghost n: nat, ghost end: End)
      modifies this
      ensures isr ==> r == Err(Isr) && k == old(k)
      ensures !isr && ERROR_BIT in flags ==> r == Err(Parameter) && k == old(k)
      ensures !isr && ERROR_BIT !in flags ==>
                Ends(Wait(flags, waitAll, noClear, timeout, old(k), wakes), n, end, r, k)
      // a result has all of the requested flags, or at least one of them, and these are cleared if that was wanted
      ensures r.Ok? ==>
                && (if waitAll then flags <= r.flags else exists f :: f in flags && f in r.flags)
                && k.value == if noClear then r.flags else r.flags - flags
      ensures !isr && ERROR_BIT !in flags && r.Err? ==> r == Err(if timeout == 0 then Resource else Timeout)
    {
      n, end := 0, Never;
      if isr {
        r := Err(Isr);
      } else if ERROR_BIT in flags {
        r := Err(Parameter);
      } else {
        ghost var c := Wait(flags, waitAll, noClear, timeout, k, wakes);
        r, n, end := WaitLoop(flags, waitAll, noClear, timeout, wakes);
        if r.Ok? { ResultFlags(c, n, r, k); } else if end != Never { ErrorFlags(c, n, end, r, k); }
      }
    }

    // one round of the loop of furi_thread_flags_wait; a wait that never returns stands for itself
    method Round(flags: Flags, waitAll: bool, noClear: bool, timeout: nat, t0: nat, w: Wake, l: Loop, ghost c: Wait, ghost n: nat)
      returns (r: Result, goesOn: bool, rflags: Flags, tout: nat, ghost end: End)
      requires GoesOn(c, n) && After(c, n) == l == Loop(k, l.rflags, l.tout) && w == WakeAt(c.wakes, n)
      requires c == Wait(flags, waitAll, noClear, timeout, c.begin, c.wakes) && t0 == c.begin.tick
      modifies this
      ensures !goesOn ==> Ends(c, n, end, r, k) && if end == Enough then r.Ok? else r.Err?
      ensures !goesOn && end == Never ==> l.tout == FOREVER && r == Err(Timeout)
      ensures goesOn ==> GoesOn(c, n + 1) && After(c, n + 1) == Loop(k, rflags, tout) && Received(l, w) && !k.pending
    {
      r, goesOn, rflags, tout, end := Err(Timeout), false, l.rflags, l.tout, Never;
      if k.pending || w.Wake? || tout != FOREVER {
        var pass, nval := NotifyWait(Cleared(flags, noClear), tout, w);
        if !pass {
          r, end := Err(if timeout == 0 then Resource else Timeout), Late;
          return;
        }
        rflags := rflags * flags + nval;
        assert After(c, n + 1).k == k && After(c, n + 1).rflags == rflags;
        if Satisfied(flags, waitAll, rflags) {
          r, end := Ok(rflags), Enough;
        } else if timeout == 0 {
          r, end := Err(Resource), Empty;
        } else {
          GoesOnStep(c, n);
          var td: nat := (k.tick - t0) % 0x1_0000_0000;
          tout := if td > tout then 0 else tout - td;
          goesOn := true;
        }
      }
    }

    // the loop of furi_thread_flags_wait
    method WaitLoop(flags: Flags, waitAll: bool, noClear: bool, timeout: nat, wakes: seq<Wake>)
      returns (r: Result, ghost n: nat, ghost end: End)
      modifies this
      ensures Ends(Wait(flags, waitAll, noClear, timeout, old(k), wakes), n, end, r, k)
      ensures if end == Enough then r.Ok? else r.Err? && (end == Never ==> timeout != 0 && r == Err(Timeout))
    {
      ghost var c := Wait(flags, waitAll, noClear, timeout, k, wakes);
      var tout: nat, t0, i := timeout, k.tick, 0;
      var rflags: Flags := {};
      n := 0;
      while true
        invariant n == i && GoesOn(c, n) && After(c, n) == Loop(k, rflags, tout)
        decreases (if i < |wakes| then |wakes| - i else 0) + if k.pending then 1 else 0
      {
        var goesOn;
        r, goesOn, rflags, tout, end :=
          Round(flags, waitAll, noClear, timeout, t0, WakeAt(wakes, i), Loop(k, rflags, tout), c, n);
        if !goesOn { return; }
        i, n := i + 1, n + 1;
      }
    }
  }
}
