/** The time of day between ticks: the time the last tick stands for, plus what the nanosecond clock has advanced
    since. HZ is 100.
*/
module TimeOfDay {
  import opened Options
  import opened Words

  const TICK_USEC := 10_000
  const USEC := 1_000_000

  /** struct timeval. */
  datatype Time = Time(sec: int, usec: int) {
    predicate Normal() {
      0 <= usec < USEC
    }

    function Total(): int {
      sec * USEC + usec
    }
  }

  const GIGA := 1_000_000_000

  /** elan_getclock: the registers' 32-bit seconds and nanoseconds, read together, as one 64-bit count. The seconds pass
      through a signed 32-bit field, so from 2^31 on they count as negative. */
  function GetClock(sec: nat, nsec: nat): nat {
    (Int32(sec) * GIGA + nsec) % WORD64
  }

  /** The count orders what the registers show as time does. */
  lemma ClockMonotone(sec: nat, nsec: nat, sec': nat, nsec': nat)
    requires sec < WORD32 && nsec < GIGA && sec' < WORD32 && nsec' < GIGA
    ensures GetClock(sec, nsec) <= GetClock(sec', nsec') <==> sec < sec' || (sec == sec' && nsec <= nsec')
    ensures GetClock(sec, nsec) == GetClock(sec', nsec') <==> sec == sec' && nsec == nsec'
  {
    ClockValue(sec, nsec);
    ClockValue(sec', nsec');
  }

  lemma ClockValue(sec: nat, nsec: nat)
    requires sec < WORD32 && nsec < GIGA
    ensures GetClock(sec, nsec) == sec * GIGA + nsec + if sec < 0x8000_0000 then 0 else WORD64 - WORD32 * GIGA
  {
  }

  /** The count after `now` nanoseconds, when the register of seconds has wrapped around as often as it takes. */
  function Count(now: nat): nat {
    GetClock(now / GIGA % WORD32, now % GIGA)
  }

  /** How often the seconds have changed sign from plus to minus by then. */
  function SignChanges(now: nat): nat {
    (now / GIGA + 0x8000_0000) / WORD32
  }

  lemma CountValue(now: nat)
    ensures Count(now) == (now - SignChanges(now) * (WORD32 * GIGA)) % WORD64
  {
    var s := now / GIGA;
    assert Int32(s % WORD32) == s - SignChanges(now) * WORD32;
    assert (s - SignChanges(now) * WORD32) * GIGA + now % GIGA == now - SignChanges(now) * (WORD32 * GIGA);
  }

  /** The difference of two counts less than 2^31 seconds apart is the time between them exactly when the seconds have
      not passed 2^31, or 2^31 plus a multiple of 2^32, in between; where they wrap around to 0 it is right. */
  lemma DifferenceExact(last: nat, now: nat)
    requires last <= now < last + 0x8000_0000 * GIGA
    ensures (Count(now) - Count(last)) % WORD64 == now - last <==> SignChanges(now) == SignChanges(last)
  {
    CountValue(last);
    CountValue(now);
    var k := SignChanges(now) - SignChanges(last);
    assert 0 <= k <= 1 by {
      assert last / GIGA <= now / GIGA <= last / GIGA + 0x8000_0000;
    }
    var a, b := now - SignChanges(now) * (WORD32 * GIGA), last - SignChanges(last) * (WORD32 * GIGA);
    ModDifference(a, b);
    if k == 0 {
      assert a - b == now - last;
    } else {
      assert a - b == now - last - WORD32 * GIGA;
      assert (a - b) % WORD64 == a - b + WORD64;
    }
  }

  lemma ModDifference(a: int, b: int)
    ensures (a % WORD64 - b % WORD64) % WORD64 == (a - b) % WORD64
  {
    var q := a / WORD64 - b / WORD64;
    assert a - b == q * WORD64 + (a % WORD64 - b % WORD64);
  }

  /** Whole microseconds from one clock value to another, as unsigned 64-bit arithmetic gives them. */
  function ElapsedUsec(last: nat, now: nat): nat {
    (now - last) % WORD64 / 1000
  }

  // ---------------------------------------------------------------------------------------------------------------
  // Runs. Times are total microseconds here.

  /** Time passes; a timer interrupt; the bottom half, or whatever else moves the kernel's time forward; a reading. */
  datatype Event = Pass(ns: nat) | Interrupt | Gain(usec: nat) | Read

  /** `now` is the nanosecond clock, `xtime` the kernel's time, `last` what the last interrupt recorded, and `readings`
      what has been read. */
  datatype State = State(now: nat, xtime: int, last: Option<(int, nat)>, readings: seq<int>)

  function Reading(s: State): int {
    match s.last
    case None => s.xtime
    case Some((t, clock)) => t + (s.now - clock) / 1000
  }

  function Step(s: State, e: Event): State {
    match e
    case Pass(ns) => s.(now := s.now + ns)
    case Interrupt => s.(last := Some((s.xtime + TICK_USEC, s.now)))
    case Gain(usec) => s.(xtime := s.xtime + usec)
    case Read => s.(readings := s.readings + [Reading(s)])
  }

  function Exec(s: State, run: seq<Event>): State
    decreases |run|
  {
    if run == [] then s else Exec(Step(s, run[0]), run[1..])
  }

  /** The nanoseconds that pass in a run, the microseconds the kernel's time gains, and how often the time is read. */
  function Passing(run: seq<Event>): nat {
    if run == [] then 0 else (if run[0].Pass? then run[0].ns else 0) + Passing(run[1..])
  }

  function Gaining(run: seq<Event>): nat {
    if run == [] then 0 else (if run[0].Gain? then run[0].usec else 0) + Gaining(run[1..])
  }

  function Reads(run: seq<Event>): nat {
    if run == [] then 0 else (if run[0].Read? then 1 else 0) + Reads(run[1..])
  }

  /** The clock, the kernel's time and the number of readings go up by just that. */
  lemma {:induction false} RunAccounts(s: State, run: seq<Event>)
    ensures var t := Exec(s, run);
            && t.now == s.now + Passing(run) && t.xtime == s.xtime + Gaining(run)
            && |t.readings| == |s.readings| + Reads(run)
    decreases |run|
  {
    if run != [] {
      RunAccounts(Step(s, run[0]), run[1..]);
    }
  }

  lemma {:induction false} ExecSplit(s: State, a: seq<Event>, b: seq<Event>)
    ensures Exec(s, a + b) == Exec(Exec(s, a), b)
    decreases |a|
  {
    if a == [] {
      assert a + b == b;
    } else {
      ExecSplit(Step(s, a[0]), a[1..], b);
      assert (a + b)[1..] == a[1..] + b;
    }
  }

  lemma {:induction false} LastStays(s: State, run: seq<Event>)
    requires forall i :: 0 <= i < |run| ==> !run[i].Interrupt?
    ensures Exec(s, run).last == s.last
    decreases |run|
  {
    if run != [] {
      LastStays(Step(s, run[0]), run[1..]);
    }
  }

  /** What a reading is: the time one tick after the kernel's time at the last interrupt, and the whole microseconds
      that have passed since; and before any interrupt the kernel's time. */
  lemma ReadingSince(s: State, run: seq<Event>, i: int)
    requires -1 <= i < |run| && (i >= 0 ==> run[i].Interrupt?)
    requires forall j :: i < j < |run| ==> !run[j].Interrupt?
    requires i == -1 ==> s.last.None?
    ensures Reading(Exec(s, run)) ==
            if i == -1 then s.xtime + Gaining(run)
            else s.xtime + Gaining(run[..i]) + 10_000 + Passing(run[i + 1..]) / 1000
  {
    RunAccounts(s, run);
    if i == -1 {
      LastStays(s, run);
    } else {
      var rest := run[i + 1..];
      assert run == run[..i] + ([run[i]] + rest) && ([run[i]] + rest)[1..] == rest;
      ExecSplit(s, run[..i], [run[i]] + rest);
      var t := Step(Exec(s, run[..i]), Interrupt);
      RunAccounts(s, run[..i]);
      RunAccounts(t, rest);
      LastStays(t, rest);
    }
  }

  /** The reading made at position i of a run. */
  lemma ReadingMade(s: State, run: seq<Event>, i: nat)
    requires i < |run| && run[i].Read?
    ensures var t := Exec(s, run);
            var k := |s.readings| + Reads(run[..i]);
            k < |t.readings| && t.readings[k] == Reading(Exec(s, run[..i]))
  {
    var rest := run[i + 1..];
    assert run == run[..i] + ([run[i]] + rest) && ([run[i]] + rest)[1..] == rest;
    ExecSplit(s, run[..i], [run[i]] + rest);
    RunAccounts(s, run[..i]);
    ReadingsKept(Step(Exec(s, run[..i]), Read), rest);
  }

  /** What the kernel's time has gained since the last interrupt: one tick if its bottom half has run, and nothing as
      long as it has not. */
  function Gained(s: State): int
    requires s.last.Some?
  {
    s.xtime + TICK_USEC - s.last.value.0
  }

  /** An interrupt now comes in time: no more whole microseconds have passed since the last one than the kernel's time
      has gained. */
  predicate InTime(s: State) {
    s.last.Some? ==> s.now - s.last.value.1 < 1000 * (Gained(s) + 1)
  }

  predicate AllInTime(s: State, run: seq<Event>)
    decreases |run|
  {
    run == [] || ((run[0].Interrupt? ==> InTime(s)) && AllInTime(Step(s, run[0]), run[1..]))
  }

  /** The code reads this state right: a tick recorded at count 0 reads as no tick yet, the difference of counts must be
      the time between them, and the microseconds are kept in 32 bits. */
  predicate ReadsRight(s: State) {
    s.last.Some? ==>
      var (t, clock) := s.last.value;
      && clock <= s.now < clock + 0x8000_0000 * GIGA
      && Count(clock) != 0 && SignChanges(s.now) == SignChanges(clock)
      && t % USEC + (s.now - clock) / 1000 < 0x8000_0000
  }

  predicate RunReadsRight(s: State, run: seq<Event>)
    decreases |run|
  {
    run == [] || ((run[0].Read? ==> ReadsRight(s)) && RunReadsRight(Step(s, run[0]), run[1..]))
  }

  predicate Ascending(xs: seq<int>) {
    forall i, j :: 0 <= i < j < |xs| ==> xs[i] <= xs[j]
  }

  predicate Inv(s: State) {
    && (s.last.Some? ==> s.last.value.1 <= s.now && Gained(s) >= 0)
    && Ascending(s.readings)
    && (s.readings != [] ==> s.readings[|s.readings| - 1] <= Reading(s))
  }

  /** The bound is exact: readings just before and just after an interrupt are in order if and only if it comes in time.
      With one tick gained that is less than 10,001,000 ns after the one before, and with the bottom half still to run
      less than 1000. */
  lemma BoundExact(s: State)
    requires Inv(s) && s.last.Some?
    ensures Reading(s) <= Reading(Step(s, Interrupt)) <==> InTime(s)
    ensures Gained(s) == TICK_USEC ==> (InTime(s) <==> s.now - s.last.value.1 < 10_001_000)
    ensures Gained(s) == 0 ==> (InTime(s) <==> s.now - s.last.value.1 < 1000)
  {
  }

  lemma StepAscends(s: State, e: Event)
    requires Inv(s) && (e.Interrupt? ==> InTime(s))
    ensures Inv(Step(s, e))
  {
    if e.Interrupt? && s.last.Some? {
      BoundExact(s);
    }
  }

  lemma {:induction false} ReadingsAscend(s: State, run: seq<Event>)
    requires Inv(s) && AllInTime(s, run)
    ensures Inv(Exec(s, run))
    decreases |run|
  {
    if run != [] {
      StepAscends(s, run[0]);
      ReadingsAscend(Step(s, run[0]), run[1..]);
    }
  }

  function Start(now: nat, xtime: int): State {
    State(now, xtime, None, [])
  }

  /** A run with a reading before and after every event. */
  function Watched(run: seq<Event>): seq<Event> {
    if run == [] then [] else [Read, run[0], Read] + Watched(run[1..])
  }

  function Around(s: State, e: Event): State {
    Step(Step(Step(s, Read), e), Read)
  }

  lemma ExecWatched(s: State, run: seq<Event>)
    requires run != []
    ensures Exec(s, Watched(run)) == Exec(Around(s, run[0]), Watched(run[1..]))
  {
    var rest := Watched(run[1..]);
    var s1 := Step(s, Read);
    var s2 := Step(s1, run[0]);
    assert Watched(run)[1..] == [run[0], Read] + rest;
    assert ([run[0], Read] + rest)[1..] == [Read] + rest;
    assert ([Read] + rest)[1..] == rest;
    assert Exec(s2, [Read] + rest) == Exec(Step(s2, Read), rest);
    assert Exec(s1, [run[0], Read] + rest) == Exec(s2, [Read] + rest);
  }

  /** Readings do not matter to what comes in time. */
  lemma {:induction false} SameInTime(s: State, t: State, run: seq<Event>)
    requires s == t.(readings := s.readings)
    ensures AllInTime(s, run) == AllInTime(t, run)
    decreases |run|
  {
    if run != [] {
      SameInTime(Step(s, run[0]), Step(t, run[0]), run[1..]);
    }
  }

  lemma {:induction false} ReadingsKept(s: State, run: seq<Event>)
    ensures s.readings <= Exec(s, run).readings
    decreases |run|
  {
    if run != [] {
      ReadingsKept(Step(s, run[0]), run[1..]);
    }
  }

  lemma LateShows(s: State)
    requires Inv(s) && !InTime(s)
    ensures !Ascending(Around(s, Interrupt).readings)
  {
    BoundExact(s);
    var xs := Around(s, Interrupt).readings;
    assert xs == s.readings + [Reading(s)] + [Reading(Step(s, Interrupt))];
    assert xs[|xs| - 2] > xs[|xs| - 1];
  }

  lemma NotAscending(xs: seq<int>, ys: seq<int>)
    requires xs <= ys && !Ascending(xs)
    ensures !Ascending(ys)
  {
    var i, j :| 0 <= i < j < |xs| && xs[i] > xs[j];
    assert ys[i] > ys[j];
  }

  lemma AroundInTime(s: State, e: Event, rest: seq<Event>)
    requires Inv(s) && (e.Interrupt? ==> InTime(s))
    ensures Inv(Around(s, e)) && AllInTime(Around(s, e), rest) == AllInTime(Step(s, e), rest)
  {
    var s1 := Step(s, Read);
    StepAscends(s, Read);
    StepAscends(s1, e);
    StepAscends(Step(s1, e), Read);
    SameInTime(Step(s, e), Around(s, e), rest);
  }

  lemma {:induction false} WatchedAscends(s: State, run: seq<Event>)
    requires Inv(s)
    ensures Ascending(Exec(s, Watched(run)).readings) <==> AllInTime(s, run)
    decreases |run|
  {
    if run != [] {
      ExecWatched(s, run);
      var t := Around(s, run[0]);
      if run[0].Interrupt? && !InTime(s) {
        LateShows(s);
        ReadingsKept(t, Watched(run[1..]));
        NotAscending(t.readings, Exec(t, Watched(run[1..])).readings);
      } else {
        AroundInTime(s, run[0], run[1..]);
        WatchedAscends(t, run[1..]);
      }
    }
  }

  /** Over every run, with the time read before and after every event, time never goes backwards if and only if each
      interrupt comes in time. */
  lemma NeverBackwardsExactly(now: nat, xtime: int, run: seq<Event>)
    ensures Ascending(Exec(Start(now, xtime), Watched(run)).readings) <==> AllInTime(Start(now, xtime), run)
  {
    WatchedAscends(Start(now, xtime), run);
  }

  /** So over any run with interrupts in time each reading, whenever it is made, is at least the one before. */
  lemma NeverBackwards(now: nat, xtime: int, run: seq<Event>)
    requires AllInTime(Start(now, xtime), run)
    ensures Ascending(Exec(Start(now, xtime), run).readings)
  {
    ReadingsAscend(Start(now, xtime), run);
  }

  /** The bottom half of an interrupt runs once before the next, and interrupts come less than 10,001,000 ns apart. */
  predicate Regular(s: State, run: seq<Event>)
    decreases |run|
  {
    run == [] ||
    ((run[0].Interrupt? && s.last.Some? ==> Gained(s) == TICK_USEC && s.now - s.last.value.1 < 10_001_000) &&
     Regular(Step(s, run[0]), run[1..]))
  }

  lemma {:induction false} RegularInTime(s: State, run: seq<Event>)
    requires Regular(s, run)
    ensures AllInTime(s, run)
    decreases |run|
  {
    if run != [] {
      RegularInTime(Step(s, run[0]), run[1..]);
    }
  }

  // ---------------------------------------------------------------------------------------------------------------
  // The kernel's variables.

  class Clock {
    /** The kernel's time, and what the last timer interrupt recorded. */
    var xtime: Time
    var lastTime: Time
    var lastClock: nat
    /** The run these variables have gone through. */
    ghost var state: State

    ghost predicate Valid()
      reads this
    {
      && xtime.Normal() && xtime.Total() == state.xtime
      && match state.last
         case None => lastClock == 0
         case Some((t, clock)) => lastTime.Normal() && lastTime.Total() == t && lastClock == Count(clock)
    }

    constructor (xtime: Time, ghost now: nat)
      requires xtime.Normal()
      ensures Valid() && state == Start(now, xtime.Total())
    {
      this.xtime := xtime;
      lastTime, lastClock := Time(0, 0), 0;
      state := Start(now, xtime.Total());
    }

    /** Time passes. */
    ghost method Wait(ns: nat)
      requires Valid()
      modifies this`state
      ensures Valid() && state == Step(old(state), Pass(ns))
    {
      state := Step(state, Pass(ns));
    }

    /** The kernel's bottom half adds to its time. */
    method AddTime(usec: nat)
      requires Valid()
      modifies this`xtime, this`state
      ensures Valid() && state == Step(old(state), Gain(usec))
      ensures xtime.Normal() && xtime.Total() == old(xtime).Total() + usec
    {
      xtime := Carry(Time(xtime.sec, xtime.usec + usec));
      state := Step(state, Gain(usec));
    }

    /** Carrying microseconds into seconds, as both functions do. */
    static method Carry(t: Time) returns (r: Time)
      requires t.usec >= 0
      ensures r.Normal() && r.Total() == t.Total()
    {
      r := t;
      while r.usec >= USEC
        invariant r.usec >= 0 && r.Total() == t.Total()
        decreases r.usec
      {
        r := Time(r.sec + 1, r.usec - USEC);
      }
    }

    /** dino1_gettimeofday, with the clock read as `now`; None if its assertion fails. The sum of microseconds is kept
        in 32 bits. */
    method GetTimeOfDay(now: nat) returns (r: Option<Time>)
      requires Valid() && now == Count(state.now)
      ensures lastClock == 0 ==> r == Some(xtime)
      ensures lastClock > 0 ==>
                var delta := ElapsedUsec(lastClock, now);
                && (r.None? <==> Int32(delta) < 0)
                && ((r.Some? && r.value.Normal() && r.value.Total() == lastTime.Total() + delta) <==>
                    lastTime.usec + delta < 0x8000_0000)
      ensures ReadsRight(state) ==> r.Some? && r.value.Normal() && r.value.Total() == Reading(state)
    {
      if ReadsRight(state) {
        ReadingElapsed(lastTime, state);
      }
      if lastClock == 0 {
        return Some(xtime);
      }
      var delta := Int32(ElapsedUsec(lastClock, now));
      if delta < 0 {
        return None;
      }
      var usec := Int32(lastTime.usec + delta);
      if usec < 0 {
        return Some(Time(lastTime.sec, usec));
      }
      var t := Carry(Time(lastTime.sec, usec));
      r := Some(t);
    }

    /** dino1_timer_intr: the time after this tick is recorded with the clock. */
    method TimerInterrupt(now: nat)
      requires Valid() && now == Count(state.now)
      modifies this`lastTime, this`lastClock, this`state
      ensures Valid() && state == Step(old(state), Interrupt)
      ensures lastTime.Normal() && lastTime.Total() == xtime.Total() + TICK_USEC && lastClock == now
    {
      lastTime := Carry(Time(xtime.sec, xtime.usec + TICK_USEC));
      lastClock := now;
      state := Step(state, Interrupt);
    }

    /** A whole run with interrupts in time: what the program reads are normal times, each at least the one before.
        `start` is the time on the nanosecond clock. */
    method Run(start: nat, run: seq<Event>) returns (times: seq<Time>)
      requires Valid() && state.now == start && state.readings == [] && state.last.None?
      requires AllInTime(state, run) && RunReadsRight(state, run)
      modifies this
      ensures Valid() && state == Exec(old(state), run)
      ensures |times| == |state.readings| == Reads(run)
      ensures forall i :: 0 <= i < |times| ==> times[i].Normal() && times[i].Total() == state.readings[i]
      ensures forall i, j :: 0 <= i < j < |times| ==> times[i].Total() <= times[j].Total()
    {
      var k, now := 0, start;
      times := [];
      ReadingsAscend(state, run);
      RunAccounts(state, run);
      while k < |run|
        invariant k <= |run| && Valid() && state.now == now
        invariant Exec(state, run[k..]) == Exec(old(state), run) && RunReadsRight(state, run[k..])
        invariant |times| == |state.readings|
        invariant forall i :: 0 <= i < |times| ==> times[i].Normal() && times[i].Total() == state.readings[i]
      {
        assert run[k..][1..] == run[k + 1..];
        match run[k] {
          case Pass(ns) =>
            Wait(ns);
            now := now + ns;
          case Interrupt => TimerInterrupt(Count(now));
          case Gain(usec) => AddTime(usec);
          case Read =>
            var r := GetTimeOfDay(Count(now));
            times := times + [r.value];
            state := Step(state, Read);
        }
        k := k + 1;
      }
      assert Ascending(state.readings);
    }
  }

  lemma ReadingElapsed(lastTime: Time, s: State)
    requires s.last.Some? ==> lastTime.Normal() && lastTime.Total() == s.last.value.0
    requires ReadsRight(s)
    ensures s.last.Some? ==>
              var clock := s.last.value.1;
              && ElapsedUsec(Count(clock), Count(s.now)) == (s.now - clock) / 1000
              && lastTime.usec == s.last.value.0 % USEC
  {
    if s.last.Some? {
      var clock := s.last.value.1;
      DifferenceExact(clock, s.now);
      assert ElapsedUsec(Count(clock), Count(s.now)) == (s.now - clock) / 1000;
      UsecOf(lastTime);
    }
  }

  lemma UsecOf(t: Time)
    requires t.Normal()
    ensures t.usec == t.Total() % USEC
  {
  }
}
