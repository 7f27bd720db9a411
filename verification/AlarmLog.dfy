// What the callbacks of one tick have done: a log of starts and stops, the answers
// of the callbacks, and what both say of every alarm that was acted on.

module AlarmLog {
  import opened AlarmList
  import opened AlarmTiming
  import opened Words

  /** `actor` is the alarm whose callback acts, and a start has the ticks it asks for. */
  datatype Action = Action(actor: Alarm, target: Alarm, start: bool, nticks: U32)

  /** The alarms that callbacks have started or stopped. */
  ghost function Touched(log: seq<Action>): set<Alarm>
  {
    set c | c in log :: c.target
  }

  lemma TouchedBy(log: seq<Action>, act: Action)
    ensures Touched(log + [act]) == Touched(log) + {act.target}
  {
    assert forall c :: c in log + [act] <==> c in log || c == act;
    forall a | a in Touched(log) + {act.target}
      ensures a in Touched(log + [act])
    {
      if a == act.target {
        assert act in log + [act];
      } else {
        var c :| c in log && c.target == a;
        assert c in log + [act];
      }
    }
  }

  lemma TouchedGrows(log: seq<Action>, log': seq<Action>)
    requires log <= log'
    ensures Touched(log) <= Touched(log')
  {
    assert forall c :: c in log ==> c in log';
  }

  /** The log grows by actions of one alarm's callback. */
  ghost predicate Acted(before: seq<Action>, after: seq<Action>, actor: Alarm)
  {
    before <= after && forall k | |before| <= k < |after| :: after[k].actor == actor
  }

  /** The last thing that was done to an alarm. */
  ghost function LastOn(log: seq<Action>, a: Alarm): (c: Action)
    requires a in Touched(log)
    ensures c.target == a && c in log
  {
    var c := log[|log| - 1];
    if c.target == a then c
    else TouchedBy(log[..|log| - 1], c); assert log[..|log| - 1] + [c] == log; LastOn(log[..|log| - 1], a)
  }

  lemma LastOnNext(log: seq<Action>, act: Action, a: Alarm)
    requires a in Touched(log + [act])
    ensures a == act.target ==> LastOn(log + [act], a) == act
    ensures a != act.target ==> a in Touched(log) && LastOn(log + [act], a) == LastOn(log, a)
  {
    TouchedBy(log, act);
    assert (log + [act])[..|log|] == log;
  }

  /** Whether an alarm that was last acted on so is running: it was started, and not
      in its own callback if that then answered zero. */
  ghost predicate Alive(c: Action, answers: map<Alarm, U32>)
  {
    c.start && !(c.actor == c.target && c.target in answers && answers[c.target] == 0)
  }

  ghost predicate Told(linked: seq<Alarm>, log: seq<Action>, answers: map<Alarm, U32>)
  {
    forall a | a in Touched(log) :: a in linked <==> Alive(LastOn(log, a), answers)
  }

  lemma ToldStart(linked: seq<Alarm>, log: seq<Action>, answers: map<Alarm, U32>, act: Action)
    requires Told(linked, log, answers) && act.start && act.actor !in answers
    ensures Told([act.target] + linked, log + [act], answers)
  {
    forall a | a in Touched(log + [act])
      ensures a in [act.target] + linked <==> Alive(LastOn(log + [act], a), answers)
    {
      LastOnNext(log, act, a);
    }
  }

  lemma ToldStop(linked: seq<Alarm>, log: seq<Action>, answers: map<Alarm, U32>, act: Action)
    requires Told(linked, log, answers) && !act.start && Distinct(linked)
    ensures Told(Minus(linked, act.target), log + [act], answers)
  {
    MinusMembers(linked, act.target);
    forall a | a in Touched(log + [act])
      ensures a in Minus(linked, act.target) <==> Alive(LastOn(log + [act], a), answers)
    {
      LastOnNext(log, act, a);
    }
  }

  /** An alarm answers: it leaves the list if the answer is zero. */
  lemma ToldAnswer(linked: seq<Alarm>, log: seq<Action>, answers: map<Alarm, U32>, alarm: Alarm, r: U32)
    requires Told(linked, log, answers) && Distinct(linked) && alarm !in answers
    requires alarm in Touched(log) ==> LastOn(log, alarm).actor == alarm
    ensures Told(if r == 0 then Minus(linked, alarm) else linked, log, answers[alarm := r])
  {
    MinusMembers(linked, alarm);
  }

  /** The timer of an alarm that was last started so: a period that its own callback
      returns after it comes on top. */
  ghost function StartedTimer(c: Action, answers: map<Alarm, U32>, now: nat): Timer
  {
    var t := Start(c.nticks, Clock(now));
    if c.actor == c.target && c.target in answers && answers[c.target] != 0
    then Rearm(t, answers[c.target], Clock(now)) else t
  }

  ghost predicate StartsSet(log: seq<Action>, answers: map<Alarm, U32>, timers: map<Alarm, Timer>, now: nat)
  {
    forall a | a in Touched(log) && LastOn(log, a).start ::
      a in timers && timers[a] == StartedTimer(LastOn(log, a), answers, now)
  }

  /** One more action, which changes at most the timer of an alarm that it starts. */
  lemma StartsSetNext(log: seq<Action>, answers: map<Alarm, U32>, timers: map<Alarm, Timer>,
                      act: Action, timers': map<Alarm, Timer>, now: nat)
    requires StartsSet(log, answers, timers, now) && act.actor !in answers
    requires forall a | a in timers && a != act.target :: a in timers' && timers'[a] == timers[a]
    requires act.start ==> act.target in timers' && timers'[act.target] == Start(act.nticks, Clock(now))
    ensures StartsSet(log + [act], answers, timers', now)
  {
    forall a | a in Touched(log + [act]) && LastOn(log + [act], a).start
      ensures a in timers' && timers'[a] == StartedTimer(LastOn(log + [act], a), answers, now)
    {
      LastOnNext(log, act, a);
    }
  }

  lemma StartsSetAnswer(log: seq<Action>, answers: map<Alarm, U32>, timers: map<Alarm, Timer>,
                        alarm: Alarm, r: U32, timers': map<Alarm, Timer>, now: nat)
    requires StartsSet(log, answers, timers, now) && alarm !in answers && alarm in timers
    requires alarm in Touched(log) ==> LastOn(log, alarm).actor == alarm
    requires forall a | a in timers && a != alarm :: a in timers' && timers'[a] == timers[a]
    requires alarm in timers' && timers'[alarm] == if r == 0 then timers[alarm] else Rearm(timers[alarm], r, Clock(now))
    ensures StartsSet(log, answers[alarm := r], timers', now)
  {
  }

  /** An alarm that nobody has acted on does not matter here. */
  lemma StartsSetStays(log: seq<Action>, answers: map<Alarm, U32>, timers: map<Alarm, Timer>,
                       timers': map<Alarm, Timer>, alarm: Alarm, now: nat)
    requires StartsSet(log, answers, timers, now) && alarm !in Touched(log)
    requires forall a | a in timers && a != alarm :: a in timers' && timers'[a] == timers[a]
    ensures StartsSet(log, answers, timers', now)
  {
  }

  lemma EmptyLog(linked: seq<Alarm>, timers: map<Alarm, Timer>, now: nat)
    ensures Touched([]) == {} && Told(linked, [], map[]) && StartsSet([], map[], timers, now)
  {
  }

  /** All that the log says while `actor` has its turn. */
  ghost predicate Recorded(linked: seq<Alarm>, log: seq<Action>, answers: map<Alarm, U32>,
                           timers: map<Alarm, Timer>, now: nat, actor: Alarm)
  {
    && Told(linked, log, answers) && StartsSet(log, answers, timers, now) && actor !in answers
    && (actor in Touched(log) ==> LastOn(log, actor).actor == actor)
  }

  lemma RecordStart(linked: seq<Alarm>, log: seq<Action>, answers: map<Alarm, U32>, timers: map<Alarm, Timer>,
                    now: nat, act: Action, timers': map<Alarm, Timer>)
    requires Recorded(linked, log, answers, timers, now, act.actor) && act.start
    requires forall a | a in timers && a != act.target :: a in timers' && timers'[a] == timers[a]
    requires act.target in timers' && timers'[act.target] == Start(act.nticks, Clock(now))
    ensures Recorded([act.target] + linked, log + [act], answers, timers', now, act.actor)
    ensures Touched(log + [act]) == Touched(log) + {act.target}
  {
    TouchedBy(log, act);
    ToldStart(linked, log, answers, act);
    StartsSetNext(log, answers, timers, act, timers', now);
    if act.actor in Touched(log + [act]) {
      LastOnNext(log, act, act.actor);
    }
  }

  lemma RecordStop(linked: seq<Alarm>, log: seq<Action>, answers: map<Alarm, U32>, timers: map<Alarm, Timer>,
                   now: nat, act: Action)
    requires Recorded(linked, log, answers, timers, now, act.actor) && !act.start && Distinct(linked)
    ensures Recorded(Minus(linked, act.target), log + [act], answers, timers, now, act.actor)
    ensures Touched(log + [act]) == Touched(log) + {act.target}
  {
    TouchedBy(log, act);
    ToldStop(linked, log, answers, act);
    StartsSetNext(log, answers, timers, act, timers, now);
    if act.actor in Touched(log + [act]) {
      LastOnNext(log, act, act.actor);
    }
  }
}
