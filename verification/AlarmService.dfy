// The alarm service: alt_alarm_start, alt_alarm_stop, and the tick routine that
// walks the list while the callbacks it makes are changing it.

module AlarmService {
  import opened AlarmList
  import opened AlarmLog
  import opened AlarmTiming
  import opened Words

  datatype StartResult = Started | InvalidAlarm | NoClock

  class Service {
    const head: Alarm
    const pool: set<Alarm>     // every alarm of the program
    var tickRate: nat
    var nticks: U32
    ghost var now: nat         // ticks since reset, counted without wrapping
    // The list, in three parts: while a tick walks it, `done` has been walked or
    // was inserted since, `current` holds the alarm whose turn it is (unless its
    // callback stopped it), and `rest` is still to come. Between ticks only
    // `done` is in use.
    ghost var items: seq<Alarm>
    ghost var done: seq<Alarm>
    ghost var current: seq<Alarm>
    ghost var rest: seq<Alarm>
    ghost var log: seq<Action>      // what the callbacks of this tick have done
    ghost var answers: map<Alarm, U32>   // what the callbacks made this tick have returned

    ghost predicate Links()
      reads this`items, head`next, head`previous, pool`next, pool`previous
    {
      && head !in pool
      && (forall a | a in items :: a in pool)
      && Linked(head, items)
      && (forall a | a in pool && a !in items :: a.next == a && a.previous == a)
    }

    ghost predicate Parts()
      reads this`items, this`done, this`current, this`rest, this`nticks, this`now
    {
      items == done + current + rest && nticks == Clock(now)
    }

    /** An alarm's timer fields. */
    static function TimerOf(a: Alarm): Timer
      reads a`time, a`rollover
    {
      Timer(a.time, a.rollover)
    }

    /** What holds between calls. */
    ghost predicate Valid()
      reads this, head, pool
    {
      Links() && Parts() && current == [] && rest == []
    }

    constructor (pool: set<Alarm>, tickRate: nat)
      requires forall a | a in pool :: a.next == a && a.previous == a
      ensures Valid() && done == [] && now == 0 && this.pool == pool && fresh(head)
    {
      head := new Alarm();
      this.pool := pool;
      this.tickRate := tickRate;
      nticks, now := 0, 0;
      items, done, current, rest, log, answers := [], [], [], [], [], map[];
    }

    /** The list insertion of alt_alarm_start. */
    method LinkIn(alarm: Alarm)
      requires Links() && alarm in pool && alarm !in items
      modifies this`items, head`next, head`previous, pool`next, pool`previous
      ensures Links() && items == [alarm] + old(items)
    {
      Enclosed(head, items);
      Insert(head, alarm, items);
      items := [alarm] + items;
    }

    /** The list removal of alt_alarm_stop. */
    method LinkOut(alarm: Alarm)
      requires Links() && alarm in pool
      modifies this`items, head`next, head`previous, pool`next, pool`previous
      ensures Links() && items == Minus(old(items), alarm) && alarm !in items
    {
      Enclosed(head, items);
      Unlink(head, alarm, items);
      MinusMembers(items, alarm);
      items := Minus(items, alarm);
    }

    /** The deadline computation of alt_alarm_start. */
    method SetTimer(alarm: Alarm, n: U32)
      modifies alarm`time, alarm`rollover
      ensures TimerOf(alarm) == Start(n, nticks)
    {
      var t := Start(n, nticks);
      alarm.time := t.time;
      alarm.rollover := t.rollover;
    }

    /** The list insertion, which puts the alarm in the part already walked. */
    method Hook(alarm: Alarm)
      requires Links() && Parts() && alarm in pool && alarm !in items
      modifies this`items, this`done, head`next, head`previous, pool`next, pool`previous
      ensures Links() && Parts() && done == [alarm] + old(done) && items == [alarm] + old(items)
    {
      LinkIn(alarm);
      done := [alarm] + done;
    }

    /** alt_alarm_start of an alarm that is not running, with interrupts off. */
    method StartAlarm(alarm: Alarm, n: U32)
      requires Links() && Parts() && alarm in pool && alarm !in items
      modifies this`items, this`done, head`next, head`previous, pool`next, pool`previous
      modifies alarm`time, alarm`rollover
      ensures Links() && Parts()
      ensures done == [alarm] + old(done) && items == [alarm] + old(items)
      ensures TimerOf(alarm) == Start(n, nticks)
    {
      SetTimer(alarm, n);
      Hook(alarm);
    }

    /** alt_alarm_stop, with interrupts off: harmless if the alarm is not running. */
    method StopAlarm(alarm: Alarm)
      requires Links() && Parts() && alarm in pool
      modifies this`items, this`done, this`current, this`rest
      modifies head`next, head`previous, pool`next, pool`previous
      ensures Links() && Parts()
      ensures done == Minus(old(done), alarm) && current == Minus(old(current), alarm)
      ensures rest == Minus(old(rest), alarm)
      ensures items == Minus(old(items), alarm) && alarm !in items
    {
      MinusOfThree(done, current, rest, alarm);
      LinkOut(alarm);
      done, current, rest := Minus(done, alarm), Minus(current, alarm), Minus(rest, alarm);
    }

    /** alt_alarm_start from outside a tick. The caller must not pass an alarm
        that is already running. */
    method AlarmStart(alarm: Alarm?, n: U32) returns (r: StartResult)
      requires Valid()
      requires alarm != null ==> alarm in pool && alarm !in done
      modifies this`items, this`done, head, pool
      ensures Valid()
      ensures r == if tickRate == 0 then NoClock else if alarm == null then InvalidAlarm else Started
      ensures r != Started ==> done == old(done)
      ensures r == Started ==> done == [alarm] + old(done) && TimerOf(alarm) == Start(n, nticks)
      ensures r == Started ==> (OnTime(TimerOf(alarm), now + n + 1, now) <==> StartKept(n, now))
      ensures forall a | a in pool && a != alarm :: TimerOf(a) == old(TimerOf(a))
    {
      if tickRate != 0 {
        if alarm != null {
          assert items == done;
          StartAlarm(alarm, n);
          StartOnTime(n, now);
          return Started;
        } else {
          return InvalidAlarm;
        }
      } else {
        return NoClock;
      }
    }

    /** alt_alarm_stop from outside a tick, however often. */
    method AlarmStop(alarm: Alarm)
      requires Valid() && alarm in pool
      modifies this`items, this`done, this`current, this`rest
      modifies head`next, head`previous, pool`next, pool`previous
      ensures Valid() && done == Minus(old(done), alarm) && alarm !in done
    {
      PartsDistinct(done, current, rest);
      StopAlarm(alarm);
      MinusMembers(old(done), alarm);
    }

    /** What holds while the alarm in `current` has its turn. */
    ghost predicate Walking(next: Alarm)
      reads this`items, this`done, this`current, this`rest, this`log, this`answers, this`nticks, this`now
      reads head`next, head`previous, pool`next, pool`previous, pool`time, pool`rollover
    {
      && StartsSet(log, answers, Timers(), now)
      && Links() && Parts() && now > 0
      && next == (if rest == [] then head else rest[0])
      && (forall a | a in rest :: a !in Touched(log) && a !in answers)
      && Told(items, log, answers)
    }

    /** What callbacks may do to the part of the list still to come: stop some of
        it, but not the saved successor. */
    static ghost predicate Thinned(before: seq<Alarm>, after: seq<Alarm>, touched: set<Alarm>)
    {
      && |after| <= |before|
      && (before != [] ==> after != [] && after[0] == before[0])
      && (forall a | a in after :: a in before)
      && (forall a | a in before && a !in touched :: a in after)
    }

    /** What callbacks may do to the part already walked: stop some of it, and
        put newly started alarms in. */
    static ghost predicate Mixed(before: seq<Alarm>, after: seq<Alarm>, touched: set<Alarm>)
    {
      && (forall a | a in after :: a in before || a in touched)
      && (forall a | a in before && a !in touched :: a in after)
    }

    lemma StopKeepsRoles(before: seq<Alarm>, after: seq<Alarm>, a: Alarm, touched: set<Alarm>)
      requires Distinct(before) && after == Minus(before, a) && a in touched
      ensures Mixed(before, after, touched)
      ensures before == [] || before[0] != a ==> Thinned(before, after, touched)
    {
      MinusMembers(before, a);
    }

    static lemma PartsDistinct(s: seq<Alarm>, t: seq<Alarm>, u: seq<Alarm>)
      requires Distinct(s + t + u)
      ensures Distinct(s) && Distinct(u)
    {
      assert forall i | 0 <= i < |s| :: s[i] == (s + t + u)[i];
      assert forall i | 0 <= i < |u| :: u[i] == (s + t + u)[|s + t| + i];
    }

    /** The alarm whose turn it is is still in place, or its callback has stopped it
        and perhaps started it again. */
    ghost predicate Turn(running: Alarm)
      reads this`items, this`current, this`done, this`rest, this`log, this`answers
    {
      && running !in rest && running !in answers
      && (running in Touched(log) ==> LastOn(log, running).actor == running)
      && (current == [running]
          || (current == [] && running in Touched(log) && (running in items ==> running in done)))
    }

    static lemma StartKeepsRoles(rest: seq<Alarm>, done: seq<Alarm>, a: Alarm, touched: set<Alarm>)
      requires a in touched
      ensures Thinned(rest, rest, touched) && Mixed(done, [a] + done, touched)
    {
    }

    /** The entry in the log for an alarm that has been started. */
    ghost method NoteStart(running: Alarm, next: Alarm, a: Alarm, n: U32, was: seq<Alarm>, timers: map<Alarm, Timer>)
      requires Links() && Parts() && now > 0 && next == (if rest == [] then head else rest[0])
      requires a in pool && a !in rest && forall x | x in rest :: x !in Touched(log) && x !in answers
      requires Recorded(was, log, answers, timers, now, running) && items == [a] + was
      requires (forall x | x in timers && x != a :: x in Timers() && Timers()[x] == timers[x])
      requires TimerOf(a) == Start(n, nticks) && running !in rest
      requires current == [running]
            || (current == [] && (running in Touched(log) || a == running) && (running in items ==> running in done))
      modifies this`log
      ensures Walking(next) && Turn(running) && log == old(log) + [Action(running, a, true, n)]
      ensures Touched(log) == old(Touched(log)) + {a}
    {
      RecordStart(was, log, answers, timers, now, Action(running, a, true, n), Timers());
      log := log + [Action(running, a, true, n)];
    }

    /** A callback starts an idle alarm, which may be its own if it has stopped it. */
    method ActStart(running: Alarm, next: Alarm, a: Alarm, n: U32)
      requires Walking(next) && a in pool && a !in items && Turn(running)
      modifies this`items, this`done, this`log
      modifies head`next, head`previous, pool`next, pool`previous
      modifies a`time, a`rollover
      ensures Walking(next) && log == old(log) + [Action(running, a, true, n)] && Turn(running)
      ensures Thinned(old(rest), rest, Touched(log)) && Mixed(old(done), done, Touched(log))
    {
      StartAlarm(a, n);
      NoteStart(running, next, a, n, old(items), old(Timers()));
      StartKeepsRoles(old(rest), old(done), a, Touched(log));
    }

    /** Taking an alarm other than the saved successor out of the list. */
    method Unhook(next: Alarm, a: Alarm)
      requires Links() && Parts() && a in pool && a != next && next == (if rest == [] then head else rest[0])
      modifies this`items, this`done, this`current, this`rest
      modifies head`next, head`previous, pool`next, pool`previous
      ensures Links() && Parts() && next == (if rest == [] then head else rest[0])
      ensures items == Minus(old(items), a) && current == Minus(old(current), a) && Distinct(old(items))
      ensures (forall x | x in rest :: x in old(rest)) && (forall x | x in done :: x in old(done))
      ensures forall x | x in items :: x in old(items)
      ensures Thinned(old(rest), rest, {a}) && Mixed(old(done), done, {a})
    {
      PartsDistinct(done, current, rest);
      StopAlarm(a);
      MinusMembers(old(items), a);
      MinusMembers(old(rest), a);
      MinusMembers(old(done), a);
      StopKeepsRoles(old(done), done, a, {a});
      StopKeepsRoles(old(rest), rest, a, {a});
    }

    static lemma RolesOfMore(s0: seq<Alarm>, s1: seq<Alarm>, t1: set<Alarm>, t2: set<Alarm>)
      requires t1 <= t2
      ensures Thinned(s0, s1, t1) ==> Thinned(s0, s1, t2)
      ensures Mixed(s0, s1, t1) ==> Mixed(s0, s1, t2)
    {
    }

    /** The entry in the log for an alarm that has been stopped. */
    ghost method NoteStop(running: Alarm, next: Alarm, a: Alarm, was: seq<Alarm>)
      requires Links() && Parts() && now > 0 && next == (if rest == [] then head else rest[0])
      requires a !in rest && forall x | x in rest :: x !in Touched(log) && x !in answers
      requires Recorded(was, log, answers, Timers(), now, running) && Distinct(was) && items == Minus(was, a)
      requires running !in rest
      requires current == [running]
            || (current == [] && (running in Touched(log) || a == running) && (running in items ==> running in done))
      modifies this`log
      ensures Walking(next) && Turn(running) && log == old(log) + [Action(running, a, false, 0)]
      ensures Touched(log) == old(Touched(log)) + {a}
    {
      RecordStop(was, log, answers, Timers(), now, Action(running, a, false, 0));
      log := log + [Action(running, a, false, 0)];
    }

    /** A callback stops any alarm but the saved successor. */
    method ActStop(running: Alarm, next: Alarm, a: Alarm)
      requires Walking(next) && a in pool && a != next && Turn(running)
      modifies this`items, this`done, this`current, this`rest, this`log
      modifies head`next, head`previous, pool`next, pool`previous
      ensures Walking(next) && log == old(log) + [Action(running, a, false, 0)] && Turn(running)
      ensures Thinned(old(rest), rest, Touched(log)) && Mixed(old(done), done, Touched(log))
    {
      PartsDistinct(done, current, rest);
      Unhook(next, a);
      MinusMembers(old(items), a);
      NoteStop(running, next, a, old(items));
      RolesOfMore(old(rest), rest, {a}, Touched(log));
      RolesOfMore(old(done), done, {a}, Touched(log));
    }

    /** One thing a callback may do, to an alarm of its choice. */
    method Act(running: Alarm, next: Alarm, a: Alarm)
      requires Walking(next) && a in pool && Turn(running)
      modifies this`items, this`done, this`current, this`rest, this`log
      modifies head`next, head`previous, pool`next, pool`previous
      modifies a`time, a`rollover
      ensures Walking(next) && Turn(running) && Acted(old(log), log, running)
      ensures a !in Touched(log) ==> TimerOf(a) == old(TimerOf(a))
      ensures Thinned(old(rest), rest, Touched(log)) && Mixed(old(done), done, Touched(log))
    {
      Enclosed(head, items);
      if * {
        var n: U32 :| true;
        if a.next == a {
          ActStart(running, next, a, n);
          assert log[|log| - 1].target == a;
        }
      } else if a != next {
        ActStop(running, next, a);
      }
    }

    static lemma ThinnedTwice(s0: seq<Alarm>, s1: seq<Alarm>, s2: seq<Alarm>, t1: set<Alarm>, t2: set<Alarm>)
      requires Thinned(s0, s1, t1) && Thinned(s1, s2, t2) && t1 <= t2
      ensures Thinned(s0, s2, t2)
    {
    }

    static lemma MixedTwice(s0: seq<Alarm>, s1: seq<Alarm>, s2: seq<Alarm>, t1: set<Alarm>, t2: set<Alarm>)
      requires Mixed(s0, s1, t1) && Mixed(s1, s2, t2) && t1 <= t2
      ensures Mixed(s0, s2, t2)
    {
    }

    twostate predicate SameTimer(a: Alarm)
      reads a
    {
      TimerOf(a) == old(TimerOf(a))
    }

    /** Any callback: any number of starts and stops, in any order, and any
        period in return. */
    method Callback(running: Alarm, next: Alarm) returns (r: U32)
      requires Walking(next) && running in pool && current == [running] && Turn(running)
      modifies this`items, this`done, this`current, this`rest, this`log, head, pool
      ensures Walking(next) && Turn(running) && Acted(old(log), log, running)
      ensures Thinned(old(rest), rest, Touched(log)) && Mixed(old(done), done, Touched(log))
      ensures forall a | a in pool && a !in Touched(log) :: SameTimer(a)
    {
      var events: nat := *;
      while events > 0
        invariant Walking(next) && Turn(running) && Acted(old(log), log, running)
        invariant Thinned(old(rest), rest, Touched(log)) && Mixed(old(done), done, Touched(log))
        invariant forall a | a in pool && a !in Touched(log) :: SameTimer(a)
      {
        var a :| a in pool;
        ghost var rest1, done1, log1 := rest, done, log;
        Act(running, next, a);
        TouchedGrows(log1, log);
        ThinnedTwice(old(rest), rest1, rest, Touched(log1), Touched(log));
        MixedTwice(old(done), done1, done, Touched(log1), Touched(log));
        events := events - 1;
      }
      r :| true;
    }

    /** The next deadline of a fired alarm whose callback asked for one. */
    method RearmTimer(alarm: Alarm, r: U32)
      modifies alarm`time, alarm`rollover
      ensures TimerOf(alarm) == Rearm(old(TimerOf(alarm)), r, nticks)
    {
      alarm.time := (alarm.time + r) % WRAP;
      if alarm.time < nticks {
        alarm.rollover := true;
      }
    }

    /** The end of a turn: what is left of it joins the walked part. */
    ghost method JoinCurrent()
      requires Parts()
      modifies this`done, this`current
      ensures Parts() && current == [] && done == old(done) + old(current)
    {
      assert (done + current) + [] + rest == done + current + rest;
      done, current := done + current, [];
    }

    /** The turn of an alarm that was not due. */
    ghost method PassTurn(alarm: Alarm, next: Alarm)
      requires Walking(next) && Turn(alarm)
      modifies this`done, this`current
      ensures Walking(next) && current == [] && done == old(done) + old(current)
    {
      JoinCurrent();
    }

    /** The turn of an alarm that has answered. */
    ghost method EndTurn(alarm: Alarm, next: Alarm, r: U32)
      requires Links() && Parts() && now > 0 && next == (if rest == [] then head else rest[0])
      requires alarm !in rest && forall a | a in rest :: a !in Touched(log) && a !in answers
      requires Told(items, log, answers[alarm := r]) && StartsSet(log, answers[alarm := r], Timers(), now)
      modifies this`done, this`current, this`answers
      ensures Walking(next) && current == [] && done == old(done) + old(current)
      ensures answers == old(answers)[alarm := r]
    {
      JoinCurrent();
      answers := answers[alarm := r];
    }

    /** The alarm's own callback returned zero: unlink it, unless it already did. */
    method Retire(alarm: Alarm, next: Alarm)
      requires Walking(next) && alarm in pool && Turn(alarm)
      modifies this`items, this`done, this`current, this`rest, this`answers
      modifies head`next, head`previous, pool`next, pool`previous
      ensures Walking(next) && current == [] && alarm !in items
      ensures rest == old(rest) && done == Minus(old(done), alarm)
      ensures answers == old(answers)[alarm := 0]
    {
      MinusAbsent(rest, alarm);
      ToldAnswer(items, log, answers, alarm, 0);
      StartsSetAnswer(log, answers, Timers(), alarm, 0, Timers(), now);
      StopAlarm(alarm);
      EndTurn(alarm, next, 0);
    }

    /** The second half of a fired alarm's turn: a zero answer unlinks it, any
        other sets its next deadline. */
    method Settle(alarm: Alarm, next: Alarm, r: U32)
      requires Walking(next) && alarm in pool && Turn(alarm)
      modifies this`items, this`done, this`current, this`rest, this`answers
      modifies head`next, head`previous, pool`next, pool`previous
      modifies alarm`time, alarm`rollover
      ensures Walking(next) && current == [] && rest == old(rest)
      ensures answers == old(answers)[alarm := r]
      ensures done == if r == 0 then Minus(old(done), alarm) else old(done) + old(current)
      ensures r == 0 ==> alarm !in items
      ensures r != 0 ==> TimerOf(alarm) == Rearm(old(TimerOf(alarm)), r, nticks)
    {
      if r == 0 {
        Retire(alarm, next);
      } else {
        RearmTimer(alarm, r);
        ToldAnswer(items, log, answers, alarm, r);
        StartsSetAnswer(log, answers, old(Timers()), alarm, r, Timers(), now);
        EndTurn(alarm, next, r);
      }
    }

    /** The test alt_tick makes: clear the flag at the overflow, then compare. */
    method CheckTimer(alarm: Alarm) returns (due: bool)
      requires now > 0 && nticks == Clock(now)
      modifies alarm`rollover
      ensures due <==> FireTick(old(TimerOf(alarm)), now - 1) == now
      ensures TimerOf(alarm) == Observe(old(TimerOf(alarm)), nticks)
      ensures !due ==> FireTick(TimerOf(alarm), now) == FireTick(old(TimerOf(alarm)), now - 1)
    {
      FireTickIsNext(TimerOf(alarm), now - 1);
      if alarm.rollover && nticks == 0 {
        alarm.rollover := false;
      }
      due := alarm.time <= nticks && !alarm.rollover;
    }

    lemma MixedSettled(before: seq<Alarm>, mid: seq<Alarm>, after: seq<Alarm>, alarm: Alarm,
                       current: seq<Alarm>, touched: set<Alarm>)
      requires Mixed(before, mid, touched) && Distinct(mid)
      requires current == [] || current == [alarm]
      requires after == Minus(mid, alarm) || after == mid + current
      ensures Mixed(before, after, touched + {alarm})
    {
      MinusMembers(mid, alarm);
    }

    /** A fired alarm's turn: the callback, then what its answer asks for. */
    method Fire(alarm: Alarm, next: Alarm) returns (r: U32)
      requires Walking(next) && alarm in pool && current == [alarm] && Turn(alarm)
      modifies this`items, this`done, this`current, this`rest, this`log, this`answers, head, pool
      ensures Walking(next) && current == [] && Acted(old(log), log, alarm)
      ensures answers == old(answers)[alarm := r]
      ensures Thinned(old(rest), rest, Touched(log))
      ensures Mixed(old(done), done, Touched(log) + {alarm})
      ensures forall a | a in pool && a !in Touched(log) && a != alarm :: SameTimer(a)
      ensures r == 0 ==> alarm !in done
      ensures r != 0 && alarm !in Touched(log) ==>
                alarm in done && TimerOf(alarm) == Rearm(old(TimerOf(alarm)), r, nticks)
    {
      r := Callback(alarm, next);
      ghost var mid, cur := done, current;
      PartsDistinct(done, current, rest);
      Settle(alarm, next, r);
      MixedSettled(old(done), mid, done, alarm, cur, Touched(log));
    }

    /** What that means for an alarm that was due. */
    lemma FiredOutcome(alarm: Alarm, was: Timer, r: U32)
      requires now > 0 && nticks == Clock(now) && alarm in pool && FireTick(was, now - 1) == now
      requires r == 0 ==> alarm !in done
      requires r != 0 ==> alarm in done && TimerOf(alarm) == Rearm(Observe(was, nticks), r, nticks)
      ensures Outcome(Progress(), alarm, was, true, r)
    {
      OutcomeOfAnswer(was, now, r);
    }

    lemma KeptOutcome(alarm: Alarm, was: Timer)
      requires now > 0 && alarm in pool && alarm in done && FireTick(was, now - 1) != now
      requires TimerOf(alarm) == Observe(was, nticks) && FireTick(TimerOf(alarm), now) == FireTick(was, now - 1)
      ensures Outcome(Progress(), alarm, was, false, 0)
    {
    }

    /** One alarm's turn. It fires exactly when its timer says; then its answer is
        either the end of it or its next deadline. */
    method Visit(alarm: Alarm, next: Alarm) returns (ghost fired: bool, ghost answer: U32)
      requires Walking(next) && alarm in pool && current == [alarm] && Turn(alarm) && alarm !in Touched(log)
      modifies this`items, this`done, this`current, this`rest, this`log, this`answers, head, pool
      ensures Walking(next) && current == [] && Acted(old(log), log, alarm)
      ensures answers == Answered(old(answers), alarm, fired, answer)
      ensures fired <==> FireTick(old(TimerOf(alarm)), now - 1) == now
      ensures Thinned(old(rest), rest, Touched(log))
      ensures Mixed(old(done), done, Touched(log) + {alarm})
      ensures forall a | a in pool && a !in Touched(log) && a != alarm :: SameTimer(a)
      ensures !fired ==> log == old(log)
      ensures alarm !in Touched(log) ==>
                Outcome(Progress(), alarm, old(TimerOf(alarm)), fired, answer)
    {
      answer := 0;
      ghost var was := TimerOf(alarm);
      var due := CheckTimer(alarm);
      StartsSetStays(log, answers, old(Timers()), Timers(), alarm, now);
      fired := due;
      if due {
        var r := Fire(alarm, next);
        answer := r;
        if alarm !in Touched(log) {
          FiredOutcome(alarm, was, answer);
        }
      } else {
        PassTurn(alarm, next);
        KeptOutcome(alarm, was);
      }
    }

    ghost function Timers(): map<Alarm, Timer>
      reads pool`time, pool`rollover
    {
      map a | a in pool :: TimerOf(a)
    }

    /** How far a walk has come, as a value. */
    ghost function Progress(): Walk
      reads this`done, this`rest, this`log, this`answers, this`now, pool`time, pool`rollover
    {
      Walk(now, done, rest, log, answers, Timers())
    }

    lemma NextInLine()
      requires Links() && Parts() && current == [] && rest != []
      ensures rest[0].next == (if |rest| == 1 then head else rest[1])
      ensures rest[0] !in rest[1..] && rest[0] in items
    {
      assert items[|done|] == rest[0] == Nth(head, items, |done| + 1);
      assert rest[0].next == Nth(head, items, |done| + 2);
      PartsDistinct(done, current, rest);
    }

    /** The start of a turn: the first alarm still to come is taken. */
    method Take(alarm: Alarm) returns (next: Alarm)
      requires Walking(alarm) && current == [] && alarm != head
      modifies this`current, this`rest
      ensures Walking(next) && current == [alarm] && Turn(alarm)
      ensures alarm in pool && old(rest) == [alarm] + rest && alarm !in rest && alarm !in Touched(log)
    {
      NextInLine();
      next := alarm.next;
      assert rest == [alarm] + rest[1..];
      assert done + [alarm] + rest[1..] == done + [] + rest;
      current, rest := [alarm], rest[1..];
    }

    lemma ToldOfParts()
      requires Links() && Parts() && current == [] && Told(items, log, answers)
      requires forall a | a in rest :: a !in Touched(log)
      ensures Told(done, log, answers)
    {
      assert forall a :: a in items <==> a in done || a in rest;
    }

    /** Taking an alarm and giving it its turn. */
    method TakeTurn(alarm: Alarm) returns (next: Alarm, ghost fired: bool, ghost answer: U32)
      requires Walking(alarm) && current == [] && alarm != head
      modifies this`items, this`done, this`current, this`rest, this`log, this`answers, head, pool
      ensures Walking(next) && current == [] && |rest| < old(|rest|)
      ensures alarm in pool && Acted(old(log), log, alarm) && (!fired ==> log == old(log))
      ensures Turned(old(Progress()), Progress(), alarm, Touched(old(log)), Touched(log))
      ensures Told(done, log, answers)
      ensures answers == Answered(old(answers), alarm, fired, answer)
      ensures fired <==> FireTick(old(TimerOf(alarm)), now - 1) == now
      ensures alarm !in Touched(log) ==>
                Outcome(Progress(), alarm, old(TimerOf(alarm)), fired, answer)
    {
      next := Take(alarm);
      fired, answer := Visit(alarm, next);
      TouchedGrows(old(log), log);
      ToldOfParts();
    }

    /** One round of the walk. */
    method Step(alarm: Alarm, ghost visits: seq<Alarm>, ghost was: map<Alarm, Timer>) returns (next: Alarm)
      requires Walking(alarm) && current == [] && alarm != head && was.Keys <= pool
      requires Walked(visits, was, Progress())
      modifies this`items, this`done, this`current, this`rest, this`log, this`answers, head, pool
      ensures Walking(next) && current == [] && |rest| < old(|rest|)
      ensures Walked(visits + [alarm], was, Progress())
    {
      ghost var w := Progress();
      ghost var fired, answer;
      next, fired, answer := TakeTurn(alarm);
      WalkStep(visits, was, w, alarm, fired, answer, Progress());
    }

    /** The alarms that are running, with their timers. */
    ghost function Running(): map<Alarm, Timer>
      reads this`done, done`time, done`rollover
    {
      map a | a in done :: TimerOf(a)
    }

    method FirstAlarm() returns (alarm: Alarm)
      requires Valid()
      ensures alarm == if done == [] then head else done[0]
    {
      Enclosed(head, items);
      assert items == done;
      alarm := head.next;
    }

    /** alt_tick up to its loop: count the tick, and the whole list is to come. */
    method BeginTick() returns (alarm: Alarm)
      requires Valid()
      modifies this`done, this`rest, this`log, this`answers, this`nticks, this`now
      ensures Walking(alarm) && current == [] && now == old(now) + 1
      ensures log == [] && answers == map[] && done == [] && rest == old(done)
    {
      alarm := FirstAlarm();
      Ahead(now, 1);
      nticks := (nticks + 1) % WRAP;
      now := now + 1;
      rest, done, log, answers := done, [], [], map[];
      assert rest + [] + [] == [] + [] + rest;
      EmptyLog(items, Timers(), now);
    }

    method EnterTick() returns (alarm: Alarm)
      requires Valid()
      modifies this`done, this`rest, this`log, this`answers, this`nticks, this`now
      ensures Walking(alarm) && current == [] && now == old(now) + 1
      ensures old(Running()).Keys <= pool && Walked([], old(Running()), Progress())
    {
      alarm := BeginTick();
      WalkBegins(old(Running()), Progress());
    }

    /** alt_tick. Whatever the callbacks start and stop (other than the saved
        successor), the walk ends, visits each alarm that was running and that
        no callback stopped first exactly once, makes exactly the callbacks whose
        tick has come, and unlinks exactly those that answer zero: this is what
        Walked says of the finished walk. `log` has what the callbacks did, `answers`
        what they returned. */
    method Tick() returns (ghost visits: seq<Alarm>)
      requires Valid()
      modifies this`items, this`done, this`current, this`rest, this`log, this`answers, this`nticks, this`now, head, pool
      ensures Valid() && now == old(now) + 1
      ensures Walked(visits, old(Running()), Progress())
    {
      visits := [];
      ghost var was := Running();
      var alarm := EnterTick();
      while alarm != head
        invariant Walking(alarm) && current == [] && now == old(now) + 1
        invariant Walked(visits, was, Progress())
        decreases |rest|
      {
        var next := Step(alarm, visits, was);
        visits := visits + [alarm];
        alarm := next;
      }
    }
  }

  /** A walk in progress: the tick, the part walked and the part to come, what the
      callbacks have done and answered, and the timer of every alarm. */
  datatype Walk = Walk(now: nat, done: seq<Alarm>, rest: seq<Alarm>, log: seq<Action>, answers: map<Alarm, U32>,
                       timers: map<Alarm, Timer>)

  /** What a tick did to an alarm it visited and no callback touched: `was` is its
      timer before, `fired` and `answer` say whether its callback was made and what
      it returned. An alarm that fires at its own tick fires next exactly the
      returned period later. */
  ghost predicate Outcome(w: Walk, a: Alarm, was: Timer, fired: bool, answer: U32)
  {
    && a in w.timers && w.now > 0
    && (fired <==> FireTick(was, w.now - 1) == w.now)
    && (!fired ==> a in w.done && w.timers[a].time == was.time
                   && FireTick(w.timers[a], w.now) == FireTick(was, w.now - 1))
    && (fired && answer == 0 ==> a !in w.done)
    && (fired && answer != 0 ==> a in w.done && w.timers[a].time == (was.time + answer) % WRAP
                                 && FireTick(w.timers[a], w.now) == NextFire(was, w.now, answer))
  }

  /** When a visited alarm that answered fires again. */
  ghost function NextFire(was: Timer, now: nat, answer: U32): nat
  {
    var c := Clock(now);
    if was.time == c then now + answer else FireTick(Rearm(Observe(was, c), answer, c), now)
  }

  lemma OutcomeOfAnswer(was: Timer, now: nat, answer: U32)
    requires now > 0 && FireTick(was, now - 1) == now
    ensures var c := Clock(now);
      answer != 0 ==> FireTick(Rearm(Observe(was, c), answer, c), now) == NextFire(was, now, answer)
  {
    FireTickIsNext(was, now - 1);
    if answer != 0 && was.time == Clock(now) {
      RearmFires(Observe(was, Clock(now)), now, answer);
    }
  }

  ghost function Answer(answers: map<Alarm, U32>, a: Alarm): U32
  {
    if a in answers then answers[a] else 0
  }

  /** The whole walk so far; `was` has every alarm that was running when the tick
      began. Only callbacks that were made have acted, no alarm was visited after an
      earlier callback had acted on it, and an alarm that was acted on is running or
      not as the last action says. */
  ghost predicate Walked(visits: seq<Alarm>, was: map<Alarm, Timer>, w: Walk)
  {
    && w.now > 0 && Visited(visits, w.answers, was, w, Touched(w.log))
    && Outcomes(visits, w.answers, was, w, Touched(w.log)) && Ordered(visits, w.answers, w.log)
    && StartsSet(w.log, w.answers, w.timers, w.now) && Told(w.done, w.log, w.answers)
  }

  /** Which alarms have been visited, and which callbacks have been made. */
  ghost predicate Visited(visits: seq<Alarm>, answers: map<Alarm, U32>, was: map<Alarm, Timer>, w: Walk,
                          touched: set<Alarm>)
    requires w.now > 0
  {
    && Distinct(visits) && (forall a | a in visits :: a in was)
    && (forall a | a in answers :: a in visits)
    && (forall a | a in visits :: a in answers <==> FireTick(was[a], w.now - 1) == w.now)
    && (forall a | a in w.rest :: a in was && a !in visits && a in w.timers && w.timers[a] == was[a])
    && (forall a | a in was && a !in touched && a !in w.rest :: a in visits)
    && (forall a | a in w.done :: a in visits || a in touched)
  }

  /** What has become of the visited alarms that no callback touched. */
  ghost predicate Outcomes(visits: seq<Alarm>, answers: map<Alarm, U32>, was: map<Alarm, Timer>, w: Walk,
                           touched: set<Alarm>)
    requires forall a | a in visits :: a in was
  {
    forall a | a in visits && a !in touched :: Outcome(w, a, was[a], a in answers, Answer(answers, a))
  }

  ghost predicate Ordered(visits: seq<Alarm>, answers: map<Alarm, U32>, log: seq<Action>)
  {
    && (forall c | c in log :: c.actor in answers)
    && (forall c, i, j | c in log && 0 <= i < j < |visits| && c.actor == visits[i] :: c.target != visits[j])
  }

  lemma WalkBegins(was: map<Alarm, Timer>, w: Walk)
    requires w.now > 0 && w.done == [] && w.log == [] && w.answers == map[] && (forall a | a in was :: a in w.rest)
    requires forall a | a in w.rest :: a in was && a in w.timers && w.timers[a] == was[a]
    ensures Walked([], was, w)
  {
  }

  lemma OrderedStep(visits: seq<Alarm>, answers: map<Alarm, U32>, log: seq<Action>, log': seq<Action>,
                    alarm: Alarm, answers': map<Alarm, U32>)
    requires Ordered(visits, answers, log) && Acted(log, log', alarm)
    requires (forall a | a in answers :: a in visits && a in answers') && alarm !in visits && Distinct(visits)
    requires alarm !in Touched(log) && (alarm in answers' || log' == log)
    ensures Ordered(visits + [alarm], answers', log')
  {
    forall c | c in log'
      ensures c in log || (c.actor == alarm && alarm in answers')
    {
      var k :| 0 <= k < |log'| && log'[k] == c;
      if k < |log| {
        assert log[k] == c;
      }
    }
    forall c, i, j | c in log' && 0 <= i < j < |visits + [alarm]| && c.actor == (visits + [alarm])[i]
      ensures c.target != (visits + [alarm])[j]
    {
      assert c.actor == visits[i];
      if c in log && j == |visits| {
        assert c.target in Touched(log);
      }
    }
  }

  /** The parts of the list and the timers after one more turn, when the actions so
      far have touched `touched'`. */
  ghost predicate Turned(w: Walk, w': Walk, alarm: Alarm, touched: set<Alarm>, touched': set<Alarm>)
  {
    && w.now > 0 && w'.now == w.now && w'.timers.Keys == w.timers.Keys && touched <= touched'
    && w.rest != [] && w.rest[0] == alarm && alarm !in w.rest[1..] && alarm !in touched
    && Service.Thinned(w.rest[1..], w'.rest, touched')
    && (forall a | a in w'.rest :: a !in touched')
    && Service.Mixed(w.done, w'.done, touched' + {alarm})
    && (forall a | a in w.timers && a !in touched' && a != alarm :: w'.timers[a] == w.timers[a])
  }

  ghost function Answered(answers: map<Alarm, U32>, alarm: Alarm, fired: bool, answer: U32): map<Alarm, U32>
  {
    if fired then answers[alarm := answer] else answers
  }

  lemma VisitedStep(visits: seq<Alarm>, answers: map<Alarm, U32>, was: map<Alarm, Timer>, w: Walk,
                    alarm: Alarm, fired: bool, answer: U32, w': Walk, touched: set<Alarm>, touched': set<Alarm>)
    requires Turned(w, w', alarm, touched, touched') && Visited(visits, answers, was, w, touched)
    requires fired <==> FireTick(was[alarm], w.now - 1) == w.now
    requires alarm !in touched' ==> fired || alarm in w'.done
    ensures Visited(visits + [alarm], Answered(answers, alarm, fired, answer), was, w', touched')
  {
  }

  lemma OutcomesStep(visits: seq<Alarm>, answers: map<Alarm, U32>, was: map<Alarm, Timer>, w: Walk,
                     alarm: Alarm, fired: bool, answer: U32, w': Walk, touched: set<Alarm>, touched': set<Alarm>)
    requires Turned(w, w', alarm, touched, touched') && (forall a | a in visits :: a in was) && alarm in was
    requires Outcomes(visits, answers, was, w, touched)
    requires alarm !in visits && alarm !in answers
    requires alarm !in touched' ==> Outcome(w', alarm, was[alarm], fired, answer)
    ensures Outcomes(visits + [alarm], Answered(answers, alarm, fired, answer), was, w', touched')
  {
    var answers' := Answered(answers, alarm, fired, answer);
    forall a | a in visits + [alarm] && a !in touched'
      ensures Outcome(w', a, was[a], a in answers', Answer(answers', a))
    {
      if a != alarm {
        assert Outcome(w, a, was[a], a in answers, Answer(answers, a));
      }
    }
  }

  lemma WalkStep(visits: seq<Alarm>, was: map<Alarm, Timer>, w: Walk, alarm: Alarm, fired: bool, answer: U32, w': Walk)
    requires Walked(visits, was, w) && Acted(w.log, w'.log, alarm) && (!fired ==> w'.log == w.log)
    requires Turned(w, w', alarm, Touched(w.log), Touched(w'.log))
    requires alarm !in Touched(w'.log) ==> Outcome(w', alarm, was[alarm], fired, answer)
    requires fired <==> FireTick(was[alarm], w.now - 1) == w.now
    requires Told(w'.done, w'.log, w'.answers) && StartsSet(w'.log, w'.answers, w'.timers, w'.now)
    requires w'.answers == Answered(w.answers, alarm, fired, answer)
    ensures Walked(visits + [alarm], was, w')
  {
    OrderedStep(visits, w.answers, w.log, w'.log, alarm, w'.answers);
    VisitedStep(visits, w.answers, was, w, alarm, fired, answer, w', Touched(w.log), Touched(w'.log));
    OutcomesStep(visits, w.answers, was, w, alarm, fired, answer, w', Touched(w.log), Touched(w'.log));
  }

  /** A tick whose callbacks start and stop nothing: every alarm that was running is
      visited, and the list afterwards has exactly those that did not answer zero. */
  lemma QuietTick(visits: seq<Alarm>, was: map<Alarm, Timer>, w: Walk)
    requires Walked(visits, was, w) && w.rest == [] && w.log == []
    ensures forall a :: a in was <==> a in visits
    ensures forall a :: a in w.done <==> a in was && (a in w.answers ==> w.answers[a] != 0)
  {
    forall a | a in was
      ensures a in visits && (a in w.done <==> (a in w.answers ==> w.answers[a] != 0))
    {
      assert a !in Touched(w.log);
    }
  }
}
