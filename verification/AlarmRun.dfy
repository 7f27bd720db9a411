// The alarm service over whole runs: what a program may expect of its alarms,
// told by the history of its calls alone, is what happens.

module AlarmRun {
  import opened AlarmList
  import opened AlarmLog
  import opened AlarmService
  import opened AlarmTiming
  import opened Words

  /** What has happened: calls from outside, and ticks with the callbacks they made. */
  datatype Event =
    | Begun(alarm: Alarm, nticks: U32, at: nat)
    | Stopped(target: Alarm)
    | Ticked(now: nat, visits: seq<Alarm>, answers: map<Alarm, U32>, log: seq<Action>)

  ghost function Promise(deadline: nat, kept: bool): Option<nat> { if kept then Some(deadline) else None }

  /** The deadline of an alarm that a callback has started last; a period that its own
      callback returns after that comes on top. */
  ghost function StartDeadline(c: Action, answers: map<Alarm, U32>, now: nat): Option<nat>
  {
    if c.actor == c.target && c.target in answers
    then Promise(now + c.nticks + 1 + answers[c.target], RestartKept(c.nticks, answers[c.target], now))
    else Promise(now + c.nticks + 1, StartKept(c.nticks, now))
  }

  ghost predicate RunsOn(a: Alarm, answers: map<Alarm, U32>, log: seq<Action>)
  {
    if a in Touched(log) then Alive(LastOn(log, a), answers) else !(a in answers && answers[a] == 0)
  }

  /** A tick moves the deadline of an alarm that has fired by its answer, and sets
      that of one that was started. */
  ghost function NextDeadline(due: Option<nat>, a: Alarm, answers: map<Alarm, U32>, log: seq<Action>, now: nat): Option<nat>
  {
    if a in Touched(log) then StartDeadline(LastOn(log, a), answers, now)
    else if a in answers && due.Some? then Some(now + answers[a])
    else due
  }

  ghost function AfterTick(due: map<Alarm, Option<nat>>, answers: map<Alarm, U32>, log: seq<Action>, now: nat)
    : map<Alarm, Option<nat>>
  {
    map a | a in due.Keys + Touched(log) && RunsOn(a, answers, log) ::
      NextDeadline(if a in due then due[a] else None, a, answers, log, now)
  }

  /** The running alarms and their deadlines, from the history alone: nothing here
      knows of clocks that wrap or of flags. An alarm whose start could not be kept
      has none until it is started again. */
  ghost function Deadlines(history: seq<Event>): map<Alarm, Option<nat>>
  {
    if history == [] then map[] else
      AfterEvent(Deadlines(history[..|history| - 1]), history[|history| - 1])
  }

  ghost function AfterEvent(due: map<Alarm, Option<nat>>, e: Event): map<Alarm, Option<nat>>
  {
    match e
    case Begun(a, n, at) => due[a := Promise(at + n + 1, StartKept(n, at))]
    case Stopped(a) => map x | x in due && x != a :: due[x]
    case Ticked(now, _, answers, log) => AfterTick(due, answers, log, now)
  }

  /** What a tick does to running alarms with these deadlines: none has been missed;
      one that is visited fires exactly if its deadline has come; one that is not
      visited was acted on by a callback made before. */
  ghost predicate Exact(due: map<Alarm, Option<nat>>, now: nat, visits: seq<Alarm>, answers: map<Alarm, U32>,
                        log: seq<Action>)
  {
    && (forall a | a in due && due[a].Some? :: due[a].value >= now)
    && (forall a | a in due && due[a].Some? && a in visits :: a in answers <==> due[a].value == now)
    && (forall a | a in due && a !in visits :: a in Touched(log))
    && (forall a | a in visits :: a in due) && (forall a | a in answers :: a in visits)
    && Distinct(visits) && Ordered(visits, answers, log)
  }

  ghost predicate ExactRun(history: seq<Event>)
  {
    forall i | 0 <= i < |history| && history[i].Ticked? ::
      var e := history[i]; Exact(Deadlines(history[..i]), e.now, e.visits, e.answers, e.log)
  }

  /** The deadlines are those of the service: the same alarms run, and each that has
      a deadline stands for it. */
  ghost predicate Kept(due: map<Alarm, Option<nat>>, linked: seq<Alarm>, timers: map<Alarm, Timer>, now: nat)
  {
    && (forall a | a in due :: a in linked) && (forall a | a in linked :: a in due && a in timers)
    && (forall a | a in due && due[a].Some? :: OnTime(timers[a], due[a].value, now))
  }

  /** An alarm that nobody acted on, after its turn. */
  lemma TurnKeeps(w: Walk, a: Alarm, was: Timer, deadline: nat)
    requires w.now > 0 && OnTime(was, deadline, w.now - 1)
    requires Outcome(w, a, was, a in w.answers, Answer(w.answers, a))
    ensures deadline >= w.now && (a in w.answers <==> deadline == w.now)
    ensures a !in w.answers ==> OnTime(w.timers[a], deadline, w.now)
    ensures a in w.answers && w.answers[a] != 0 ==> OnTime(w.timers[a], w.now + w.answers[a], w.now)
  {
    OnTimeNext(was, deadline, w.now - 1, w.timers[a], Answer(w.answers, a));
  }

  /** An alarm that a callback started. */
  lemma StartKeeps(w: Walk, c: Action)
    requires Alive(c, w.answers)
    ensures StartDeadline(c, w.answers, w.now).Some? ==>
              OnTime(StartedTimer(c, w.answers, w.now), StartDeadline(c, w.answers, w.now).value, w.now)
  {
    if c.actor == c.target && c.target in w.answers {
      RestartOnTime(c.nticks, w.answers[c.target], w.now);
    } else {
      StartOnTime(c.nticks, w.now);
    }
  }

  lemma DueIsFireTick(t: Timer, deadline: nat, now: nat)
    requires OnTime(t, deadline, now)
    ensures FireTick(t, now) == deadline > now
  {
    FireTickIsNext(t, now);
  }

  lemma VisitsAreExact(visits: seq<Alarm>, was: map<Alarm, Timer>, w: Walk, due: map<Alarm, Option<nat>>,
                       touched: set<Alarm>)
    requires w.now > 0 && Visited(visits, w.answers, was, w, touched) && touched == Touched(w.log)
    requires Ordered(visits, w.answers, w.log) && w.rest == [] && due.Keys == was.Keys
    requires forall a | a in due && due[a].Some? :: FireTick(was[a], w.now - 1) == due[a].value >= w.now
    ensures Exact(due, w.now, visits, w.answers, w.log)
  {
    assert forall a :: a in due <==> a in was;
  }

  lemma TickIsExact(visits: seq<Alarm>, was: map<Alarm, Timer>, w: Walk, due: map<Alarm, Option<nat>>)
    requires w.now > 0 && Visited(visits, w.answers, was, w, Touched(w.log)) && Ordered(visits, w.answers, w.log)
    requires w.rest == [] && due.Keys == was.Keys
    requires forall a | a in due && due[a].Some? :: OnTime(was[a], due[a].value, w.now - 1)
    ensures Exact(due, w.now, visits, w.answers, w.log)
  {
    forall a | a in due && due[a].Some?
      ensures FireTick(was[a], w.now - 1) == due[a].value >= w.now
    {
      DueIsFireTick(was[a], due[a].value, w.now - 1);
    }
    VisitsAreExact(visits, was, w, due, Touched(w.log));
  }

  lemma TickRuns(visits: seq<Alarm>, was: map<Alarm, Timer>, w: Walk, due: map<Alarm, Option<nat>>, a: Alarm)
    requires Walked(visits, was, w) && w.rest == [] && due.Keys == was.Keys
    ensures a in w.done <==> a in AfterTick(due, w.answers, w.log, w.now)
  {
    if a !in Touched(w.log) && a in was {
      assert Outcome(w, a, was[a], a in w.answers, Answer(w.answers, a));
    }
  }

  lemma TouchedKeeps(w: Walk, a: Alarm)
    requires a in Touched(w.log) && Alive(LastOn(w.log, a), w.answers)
    requires a in w.timers && w.timers[a] == StartedTimer(LastOn(w.log, a), w.answers, w.now)
    ensures var d := StartDeadline(LastOn(w.log, a), w.answers, w.now); d.Some? ==> OnTime(w.timers[a], d.value, w.now)
  {
    StartKeeps(w, LastOn(w.log, a));
  }

  lemma UntouchedKeeps(w: Walk, a: Alarm, was: Timer, due: Option<nat>)
    requires w.now > 0 && (due.Some? ==> OnTime(was, due.value, w.now - 1))
    requires Outcome(w, a, was, a in w.answers, Answer(w.answers, a))
    requires !(a in w.answers && w.answers[a] == 0)
    ensures var d := if a in w.answers && due.Some? then Some(w.now + w.answers[a]) else due;
      d.Some? ==> OnTime(w.timers[a], d.value, w.now)
  {
    if due.Some? {
      TurnKeeps(w, a, was, due.value);
    }
  }

  lemma AlarmKeeps(visits: seq<Alarm>, was: map<Alarm, Timer>, w: Walk, due: map<Alarm, Option<nat>>, a: Alarm)
    requires Walked(visits, was, w) && w.rest == [] && due.Keys == was.Keys && a in w.timers
    requires a in due && due[a].Some? ==> OnTime(was[a], due[a].value, w.now - 1)
    requires a in AfterTick(due, w.answers, w.log, w.now)
    ensures var d := AfterTick(due, w.answers, w.log, w.now)[a]; d.Some? ==> OnTime(w.timers[a], d.value, w.now)
  {
    if a in Touched(w.log) {
      TouchedKeeps(w, a);
    } else {
      assert a in was && a in visits;
      UntouchedKeeps(w, a, was[a], due[a]);
    }
  }

  lemma TickKeeps(visits: seq<Alarm>, was: map<Alarm, Timer>, w: Walk, due: map<Alarm, Option<nat>>)
    requires Walked(visits, was, w) && w.rest == [] && due.Keys == was.Keys
    requires forall a | a in w.done :: a in w.timers
    requires forall a | a in due && due[a].Some? :: OnTime(was[a], due[a].value, w.now - 1)
    ensures Kept(AfterTick(due, w.answers, w.log, w.now), w.done, w.timers, w.now)
  {
    var due' := AfterTick(due, w.answers, w.log, w.now);
    forall a | a in due'
      ensures a in w.done && (due'[a].Some? ==> OnTime(w.timers[a], due'[a].value, w.now))
    {
      TickRuns(visits, was, w, due, a);
      AlarmKeeps(visits, was, w, due, a);
    }
    forall a | a in w.done
      ensures a in due'
    {
      TickRuns(visits, was, w, due, a);
    }
  }

  lemma BeginKeeps(due: map<Alarm, Option<nat>>, linked: seq<Alarm>, timers: map<Alarm, Timer>, now: nat,
                   a: Alarm, n: U32, timers': map<Alarm, Timer>)
    requires Kept(due, linked, timers, now)
    requires forall x | x in timers && x != a :: x in timers' && timers'[x] == timers[x]
    requires a in timers' && timers'[a] == Start(n, Clock(now))
    ensures Kept(AfterEvent(due, Begun(a, n, now)), [a] + linked, timers', now)
  {
    StartOnTime(n, now);
  }

  lemma EndKeeps(due: map<Alarm, Option<nat>>, linked: seq<Alarm>, timers: map<Alarm, Timer>, now: nat, a: Alarm)
    requires Kept(due, linked, timers, now) && Distinct(linked)
    ensures Kept(AfterEvent(due, Stopped(a)), Minus(linked, a), timers, now)
  {
    MinusMembers(linked, a);
    forall x | x in Minus(linked, a)
      ensures x in AfterEvent(due, Stopped(a)) && x in timers
    {
      MinusMember(linked, a, x);
    }
  }

  lemma HistoryGrows(history: seq<Event>, e: Event)
    requires ExactRun(history)
    requires e.Ticked? ==> Exact(Deadlines(history), e.now, e.visits, e.answers, e.log)
    ensures ExactRun(history + [e])
    ensures Deadlines(history + [e]) == AfterEvent(Deadlines(history), e)
  {
    var h := history + [e];
    assert h[..|history|] == history;
    forall i | 0 <= i < |h| && h[i].Ticked?
      ensures Exact(Deadlines(h[..i]), h[i].now, h[i].visits, h[i].answers, h[i].log)
    {
      if i < |history| {
        assert h[..i] == history[..i] && h[i] == history[i];
      }
    }
  }

  /** A start from outside, which the service may refuse. */
  method Begin(s: Service, a: Alarm, n: U32, ghost history: seq<Event>) returns (ghost history': seq<Event>)
    requires s.Valid() && a in s.pool && a !in s.done
    requires ExactRun(history) && Kept(Deadlines(history), s.done, s.Timers(), s.now)
    modifies s, s.head, s.pool
    ensures s.Valid() && ExactRun(history') && Kept(Deadlines(history'), s.done, s.Timers(), s.now)
  {
    ghost var now, done, timers := s.now, s.done, s.Timers();
    var r := s.AlarmStart(a, n);
    if r == Started {
      history' := history + [Begun(a, n, now)];
      HistoryGrows(history, Begun(a, n, now));
      BeginKeeps(Deadlines(history), done, timers, now, a, n, s.Timers());
    } else {
      history' := history;
    }
  }

  method End(s: Service, a: Alarm, ghost history: seq<Event>) returns (ghost history': seq<Event>)
    requires s.Valid() && a in s.pool
    requires ExactRun(history) && Kept(Deadlines(history), s.done, s.Timers(), s.now)
    modifies s, s.head, s.pool
    ensures s.Valid() && ExactRun(history') && Kept(Deadlines(history'), s.done, s.Timers(), s.now)
  {
    ghost var done := s.done;
    assert Distinct(done) by { assert s.items == done; }
    s.AlarmStop(a);
    history' := history + [Stopped(a)];
    EndKeeps(Deadlines(history), done, s.Timers(), s.now, a);
    HistoryGrows(history, Stopped(a));
  }

  method OneTick(s: Service, ghost history: seq<Event>) returns (ghost history': seq<Event>)
    requires s.Valid()
    requires ExactRun(history) && Kept(Deadlines(history), s.done, s.Timers(), s.now)
    modifies s, s.head, s.pool
    ensures s.Valid() && ExactRun(history') && Kept(Deadlines(history'), s.done, s.Timers(), s.now)
  {
    ghost var was := s.Running();
    ghost var visits := s.Tick();
    ghost var w := s.Progress();
    ghost var e := Ticked(s.now, visits, s.answers, s.log);
    TickIsExact(visits, was, w, Deadlines(history));
    TickKeeps(visits, was, w, Deadlines(history));
    history' := history + [e];
    HistoryGrows(history, e);
  }

  /** Any program at all, whatever it and its callbacks start and stop: at every tick
      of the run exactly those alarms fire whose deadline, counted without wrapping
      from the history of starts and answers, has come. */
  method AnyProgram(s: Service, steps: nat) returns (ghost history: seq<Event>)
    requires s.Valid() && s.done == []
    modifies s, s.head, s.pool
    ensures s.Valid() && ExactRun(history) && Kept(Deadlines(history), s.done, s.Timers(), s.now)
  {
    history := [];
    for k := 0 to steps
      invariant s.Valid() && ExactRun(history) && Kept(Deadlines(history), s.done, s.Timers(), s.now)
    {
      if * {
        history := OneTick(s, history);
      } else if s.pool != {} {
        var a :| a in s.pool;
        if * {
          history := End(s, a, history);
        } else if a.next == a {
          var n: U32 :| true;
          Idle(s, a);
          history := Begin(s, a, n, history);
        }
      }
    }
  }

  /** An alarm that points to itself is not running. */
  lemma Idle(s: Service, a: Alarm)
    requires s.Valid() && a in s.pool && a.next == a
    ensures a !in s.done
  {
    Enclosed(s.head, s.items);
  }
}
