// One alarm's clock arithmetic: 32-bit deadlines with a one-bit rollover flag,
// against ticks counted without wrapping.

module AlarmTiming {
  import opened Words

  datatype Timer = Timer(time: U32, rollover: bool)

  function Clock(now: nat): U32 { now % WRAP }

  /** alt_alarm_start at tick `now`. */
  function Start(nticks: U32, now: U32): Timer
  {
    var time := (nticks + now + 1) % WRAP;
    Timer(time, time < now)
  }

  /** alt_tick's first test: the counter has just overflowed. */
  function Observe(t: Timer, now: U32): Timer
  {
    if t.rollover && now == 0 then t.(rollover := false) else t
  }

  /** alt_tick's second test: the callback is made. */
  predicate Expired(t: Timer, now: U32) { t.time <= now && !t.rollover }

  /** The next deadline, when the callback has returned a non-zero period. */
  function Rearm(t: Timer, period: U32, now: U32): Timer
  {
    var time := (t.time + period) % WRAP;
    Timer(time, t.rollover || time < now)
  }

  /** The timer stands for `deadline`, a tick after `now` and less than a whole
      wrap away; the flag says that the counter overflows before it. */
  ghost predicate Due(t: Timer, deadline: int, now: nat)
  {
    && now < deadline < now + WRAP
    && t.time == deadline % WRAP
    && (t.rollover <==> deadline / WRAP > now / WRAP)
  }

  /** Where a number less than a wrap ahead lies. */
  lemma Ahead(now: nat, k: nat)
    requires k <= WRAP
    ensures (now + k) % WRAP == if now % WRAP + k < WRAP then now % WRAP + k else now % WRAP + k - WRAP
    ensures (now + k) / WRAP == now / WRAP + if now % WRAP + k < WRAP then 0 else 1
  {
    var q, r := now / WRAP, now % WRAP;
    assert now == q * WRAP + r;
    if r + k < WRAP {
      assert now + k == q * WRAP + (r + k);
    } else {
      assert now + k == (q + 1) * WRAP + (r + k - WRAP);
    }
  }

  /** A started alarm stands for the tick after `nticks` more exactly when
      nticks is below 2^32 - 1. */
  lemma StartIsDue(nticks: U32, now: nat)
    ensures Due(Start(nticks, Clock(now)), now + nticks + 1, now) <==> nticks < WRAP - 1
  {
    Ahead(now, nticks + 1);
    assert (nticks + Clock(now) + 1) % WRAP == (now + nticks + 1) % WRAP;
  }

  /** For nticks = 2^32 - 1 the sum wraps back to the current tick and the
      overflow goes unnoticed: the callback is made at the very next tick, unless
      that tick is the overflow itself. */
  lemma LongestStart(now: nat)
    ensures var t := Observe(Start(WRAP - 1, Clock(now)), Clock(now + 1));
            if Clock(now) < WRAP - 1 then Expired(t, Clock(now + 1))
            else !Expired(t, Clock(now + 1)) && Due(t, now + WRAP, now + 1)
  {
    Ahead(now, 1);
    assert (WRAP - 1 + Clock(now) + 1) % WRAP == Clock(now);
    Ahead(now, WRAP);
    Ahead(now + 1, WRAP - 1);
  }

  /** A tick before the deadline leaves the alarm standing for it. */
  lemma EarlyTick(t: Timer, deadline: int, now: nat)
    requires Due(t, deadline, now) && deadline != now + 1
    ensures !Expired(Observe(t, Clock(now + 1)), Clock(now + 1))
    ensures Due(Observe(t, Clock(now + 1)), deadline, now + 1)
  {
    Ahead(now, 1);
    Ahead(now, deadline - now);
    Ahead(now + 1, deadline - now - 1);
  }

  /** The tick of the deadline makes the callback. */
  lemma DueTick(t: Timer, now: nat)
    requires Due(t, now + 1, now)
    ensures Expired(Observe(t, Clock(now + 1)), Clock(now + 1))
    ensures Observe(t, Clock(now + 1)).time == Clock(now + 1)
  {
    Ahead(now, 1);
  }

  /** Rearming a timer at its own tick, for any period at all, makes it stand for
      exactly that many ticks later. */
  lemma RearmIsDue(t: Timer, now: nat, period: U32)
    requires t.time == Clock(now) && !t.rollover && period > 0
    ensures Due(Rearm(t, period, Clock(now)), now + period, now)
  {
    Ahead(now, period);
    assert (Clock(now) + period) % WRAP == (now + period) % WRAP;
  }

  // Any timer at all, standing for an intended tick or not, fires at a tick that
  // can be told in advance.

  /** The next tick after `now` at which the callback is made. */
  function FireTick(t: Timer, now: nat): nat
  {
    var c := Clock(now + 1);
    if t.rollover && c != 0 then now + 1 + (WRAP - c) + t.time
    else if t.time <= c then now + 1
    else now + 1 + (t.time - c)
  }

  /** It is what the two tests do, tick after tick. */
  lemma FireTickIsNext(t: Timer, now: nat)
    ensures var c := Clock(now + 1);
      && now < FireTick(t, now)
      && (Expired(Observe(t, c), c) <==> FireTick(t, now) == now + 1)
      && (!Expired(Observe(t, c), c) ==> FireTick(Observe(t, c), now + 1) == FireTick(t, now))
  {
    Ahead(now + 1, 1);
  }

  lemma DueFires(t: Timer, deadline: int, now: nat)
    requires Due(t, deadline, now)
    ensures FireTick(t, now) == deadline
  {
    Ahead(now, deadline - now);
    Ahead(now, 1);
  }

  /** When a started alarm fires, for every nticks. */
  function FirstFire(nticks: U32, now: nat): nat
  {
    if StartKept(nticks, now) then now + nticks + 1 else now + 1
  }

  lemma StartFires(nticks: U32, now: nat)
    ensures FireTick(Start(nticks, Clock(now)), now) == FirstFire(nticks, now)
  {
    if nticks < WRAP - 1 {
      StartIsDue(nticks, now);
      DueFires(Start(nticks, Clock(now)), now + nticks + 1, now);
    } else {
      LongestStart(now);
      Ahead(now, 1);
      assert (WRAP - 1 + Clock(now) + 1) % WRAP == Clock(now);
    }
  }

  /** The timer stands for the tick `deadline`: it fires then, and shows it. */
  ghost predicate OnTime(t: Timer, deadline: nat, now: nat)
  {
    FireTick(t, now) == deadline && t.time == Clock(deadline)
  }

  predicate StartKept(nticks: U32, now: nat) { nticks < WRAP - 1 || Clock(now) == WRAP - 1 }

  lemma StartOnTime(nticks: U32, now: nat)
    ensures OnTime(Start(nticks, Clock(now)), now + nticks + 1, now) <==> StartKept(nticks, now)
  {
    StartFires(nticks, now);
    ClockOfSum(now, nticks + 1);
    assert nticks + Clock(now) + 1 == Clock(now) + (nticks + 1);
  }

  /** A callback that restarts its own alarm and also returns a period adds the two:
      that is so exactly if the sum is less than a wrap, or the start alone passes
      the next overflow and the sum does not pass the one after. */
  predicate RestartKept(nticks: U32, period: U32, now: nat)
  {
    || nticks + 1 + period < WRAP
    || (nticks < WRAP - 1 && Clock(now) + nticks + 1 >= WRAP && Clock(now) + nticks + 1 + period < 2 * WRAP)
  }

  lemma RestartOnTime(nticks: U32, period: U32, now: nat)
    requires period > 0
    ensures OnTime(Rearm(Start(nticks, Clock(now)), period, Clock(now)), now + nticks + 1 + period, now)
       <==> RestartKept(nticks, period, now)
  {
    var c := Clock(now);
    Ahead(now, 1);
    var t := Start(nticks, c);
    assert t.time == if c + nticks + 1 < WRAP then c + nticks + 1 else c + nticks + 1 - WRAP;
    assert Rearm(t, period, c).time == if t.time + period < WRAP then t.time + period else t.time + period - WRAP;
    ClockOfSum(now, nticks + 1 + period);
  }

  lemma ClockOfSum(now: nat, k: nat)
    ensures Clock(now + k) == (Clock(now) + k) % WRAP
  {
  }

  /** An alarm that stands for its deadline stands for it after an earlier tick, and
      after its own tick for exactly the returned period later. */
  lemma OnTimeNext(t: Timer, deadline: nat, now: nat, t': Timer, period: U32)
    requires OnTime(t, deadline, now)
    ensures deadline > now
    ensures deadline > now + 1 && t'.time == t.time && FireTick(t', now + 1) == FireTick(t, now) ==>
              OnTime(t', deadline, now + 1)
    ensures deadline == now + 1 && t'.time == (t.time + period) % WRAP && FireTick(t', now + 1) == now + 1 + period ==>
              OnTime(t', now + 1 + period, now + 1)
  {
    FireTickIsNext(t, now);
    ClockOfSum(now + 1, period);
  }

  /** When a fired alarm fires again: after exactly the returned period, if it has
      fired at its own tick. */
  lemma RearmFires(t: Timer, now: nat, period: U32)
    requires t.time == Clock(now) && !t.rollover && period > 0
    ensures FireTick(Rearm(t, period, Clock(now)), now) == now + period
  {
    RearmIsDue(t, now, period);
    DueFires(Rearm(t, period, Clock(now)), now + period, now);
  }

  /** The ticks at which callbacks are made in the next `ticks` ticks, when the
      i-th callback returns answers[i]; an answer of zero ends the alarm. */
  ghost function Fires(t: Timer, now: nat, ticks: nat, answers: seq<U32>): seq<nat>
    requires |answers| >= ticks
    decreases ticks
  {
    if ticks == 0 then []
    else
      var c := Clock(now + 1);
      var t' := Observe(t, c);
      if !Expired(t', c) then Fires(t', now + 1, ticks - 1, answers)
      else if answers[0] == 0 then [now + 1]
      else [now + 1] + Fires(Rearm(t', answers[0], c), now + 1, ticks - 1, answers[1..])
  }

  /** What the user asked for: the first callback at `deadline`, and each next
      one exactly the returned period later, up to `horizon`. */
  ghost function Schedule(deadline: nat, horizon: nat, answers: seq<U32>): seq<nat>
    decreases |answers|
  {
    if deadline > horizon || answers == [] then []
    else if answers[0] == 0 then [deadline]
    else [deadline] + Schedule(deadline + answers[0], horizon, answers[1..])
  }

  lemma {:induction false} FiresOnSchedule(t: Timer, deadline: nat, now: nat, ticks: nat, answers: seq<U32>)
    requires Due(t, deadline, now) && |answers| >= ticks
    ensures Fires(t, now, ticks, answers) == Schedule(deadline, now + ticks, answers)
    decreases ticks
  {
    if ticks == 0 {
    } else if deadline != now + 1 {
      EarlyTick(t, deadline, now);
      FiresOnSchedule(Observe(t, Clock(now + 1)), deadline, now + 1, ticks - 1, answers);
    } else {
      DueTick(t, now);
      if answers[0] != 0 {
        RearmIsDue(Observe(t, Clock(now + 1)), now + 1, answers[0]);
        FiresOnSchedule(Rearm(Observe(t, Clock(now + 1)), answers[0], Clock(now + 1)),
                        now + 1 + answers[0], now + 1, ticks - 1, answers[1..]);
      }
    }
  }

  /** Alarms are exact across every counter overflow, never early, never late,
      never twice, for every period but one: 2^32 - 1 is exact only when the
      counter is about to overflow. */
  lemma StartedAlarmIsExact(nticks: U32, now: nat, ticks: nat, answers: seq<U32>)
    requires 1 <= ticks <= |answers|
    ensures Fires(Start(nticks, Clock(now)), now, ticks, answers)
            == Schedule(now + nticks + 1, now + ticks, answers)
            <==> nticks < WRAP - 1 || Clock(now) == WRAP - 1
  {
    if nticks < WRAP - 1 {
      StartIsDue(nticks, now);
      FiresOnSchedule(Start(nticks, Clock(now)), now + nticks + 1, now, ticks, answers);
    } else {
      LongestStart(now);
      if Clock(now) == WRAP - 1 {
        var t := Observe(Start(nticks, Clock(now)), Clock(now + 1));
        FiresOnSchedule(t, now + WRAP, now + 1, ticks - 1, answers);
      } else {
        assert Fires(Start(nticks, Clock(now)), now, ticks, answers)[0] == now + 1;
      }
    }
  }
}
