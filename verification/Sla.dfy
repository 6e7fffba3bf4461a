/**
  SLA clocks (app/sla.py): a per-record clock that starts, pauses, resumes and stops with
  the record's status, the sweep that marks overdue clocks breached, and the escalation
  chain that follows a breach.  Times are whole microseconds.
*/
module Sla {
  import opened Wrappers

  const SECOND := 1_000_000
  const MINUTE := 60_000_000

  datatype Phase = Running | Paused | Met | Breached | Stopped

  datatype Clock = Clock(phase: Phase, started: int, due: Option<int>, remaining: Option<int>,
                         breachedAt: Option<int>, notified: bool, level: nat)

  /** `levels` are the after_minutes of the escalation chain. */
  datatype Policy = Policy(target: int, startOnCreate: bool, startStates: set<string>,
                           pauseStates: set<string>, stopStates: set<string>, levels: seq<int>)

  datatype Goal = Stop | Pause | Run

  datatype Event = Create | Update | Delete

  predicate Terminal(p: Phase) {
    p == Met || p == Breached || p == Stopped
  }

  /** `_classify`: what the clock should be doing for a status. */
  function Classify(p: Policy, status: Option<string>): Option<Goal> {
    var v := if status.Some? then status.value else "";
    if v in p.stopStates then Some(Stop)
    else if v in p.pauseStates then Some(Pause)
    else if p.startStates == {} || v in p.startStates then Some(Run)
    else None
  }

  function Max(a: int, b: int): int {
    if a < b then b else a
  }

  /** `int(timedelta.total_seconds())`: whole seconds, towards zero. */
  function WholeSeconds(us: int): int {
    if us >= 0 then us / SECOND else -((-us) / SECOND)
  }

  // ---------------------------------------------------------------- clock transitions

  function Started(c: Clock, p: Policy, now: int): Clock {
    c.(phase := Running, due := Some(now + p.target * MINUTE), remaining := None, breachedAt := None)
  }

  function PausedAt(c: Clock, now: int): Clock {
    c.(phase := Paused, due := None,
       remaining := if c.due.Some? then Some(Max(0, WholeSeconds(c.due.value - now))) else c.remaining)
  }

  function ResumedAt(c: Clock, now: int): Clock {
    c.(phase := Running, due := Some(now + (if c.remaining.Some? then c.remaining.value else 0) * SECOND), remaining := None)
  }

  function StoppedAt(c: Clock, now: int): Clock {
    var breached := c.phase == Breached || (c.due.Some? && now > c.due.value);
    c.(phase := if breached then Breached else Met, remaining := None,
       breachedAt := if breached && c.breachedAt.None? then Some(if c.due.Some? then c.due.value else now) else c.breachedAt)
  }

  /** `_apply`: the clock (None while there is none) after one record event. */
  function Apply(p: Policy, c: Option<Clock>, event: Event, applies: bool, status: Option<string>, now: int): Option<Clock> {
    if event == Delete then
      if c.Some? && (c.value.phase == Running || c.value.phase == Paused) then Some(c.value.(phase := Stopped)) else c
    else
      var goal := if applies then Classify(p, status) else None;
      if c.None? then
        if applies && (goal == Some(Run) || goal == Some(Pause)) && (event != Create || p.startOnCreate) then
          var begun := Started(Clock(Running, now, None, None, None, false, 0), p, now);
          Some(if goal == Some(Pause) then PausedAt(begun, now) else begun)
        else None
      else
        var k := c.value;
        if Terminal(k.phase) then c
        else if goal == Some(Stop) then Some(StoppedAt(k, now))
        else if goal == Some(Pause) then Some(if k.phase == Running then PausedAt(k, now) else k)
        else if goal == Some(Run) then Some(if k.phase == Paused then ResumedAt(k, now) else k)
        else Some(k.(phase := Stopped))
  }

  /** The clock row, whose fields the handlers overwrite. */
  class ClockRow {
    var phase: Phase
    var started: int
    var due: Option<int>
    var remaining: Option<int>
    var breachedAt: Option<int>
    var notified: bool
    var level: nat

    ghost function View(): Clock
      reads this
    {
      Clock(phase, started, due, remaining, breachedAt, notified, level)
    }

    constructor (now: int)
      ensures View() == Clock(Running, now, None, None, None, false, 0)
    {
      phase, started, due, remaining, breachedAt, notified, level := Running, now, None, None, None, false, 0;
    }

    method Start(p: Policy, now: int)
      modifies this
      ensures View() == Started(old(View()), p, now)
    {
      due := Some(now + p.target * MINUTE);
      remaining := None;
      breachedAt := None;
      phase := Running;
    }

    method Pause(now: int)
      modifies this
      ensures View() == PausedAt(old(View()), now)
    {
      if due.Some? {
        remaining := Some(Max(0, WholeSeconds(due.value - now)));
      }
      due := None;
      phase := Paused;
    }

    method Resume(now: int)
      modifies this
      ensures View() == ResumedAt(old(View()), now)
    {
      var rem := if remaining.Some? then remaining.value else 0;
      due := Some(now + rem * SECOND);
      remaining := None;
      phase := Running;
    }

    method Stop(now: int)
      modifies this
      ensures View() == StoppedAt(old(View()), now)
    {
      var breached := phase == Breached || (due.Some? && now > due.value);
      phase := if breached then Breached else Met;
      if breached && breachedAt.None? {
        breachedAt := Some(if due.Some? then due.value else now);
      }
      remaining := None;
    }

    /** `_apply` on an existing clock. */
    method Handle(p: Policy, event: Event, applies: bool, status: Option<string>, now: int)
      modifies this
      ensures Some(View()) == Apply(p, Some(old(View())), event, applies, status, now)
    {
      if event == Delete {
        if phase == Running || phase == Paused {
          phase := Stopped;
        }
        return;
      }
      var goal := if applies then Classify(p, status) else None;
      if Terminal(phase) {
        return;
      }
      match goal {
        case Some(Stop) => Stop(now);
        case Some(Pause) =>
          if phase == Running {
            Pause(now);
          }
        case Some(Run) =>
          if phase == Paused {
            Resume(now);
          }
        case None => phase := Stopped;
      }
    }
  }

  /** `_apply` on a record that has no clock yet. */
  method Begin(p: Policy, event: Event, applies: bool, status: Option<string>, now: int) returns (row: ClockRow?)
    ensures row == null <==> Apply(p, None, event, applies, status, now).None?
    ensures row != null ==> fresh(row) && Some(row.View()) == Apply(p, None, event, applies, status, now)
  {
    if event == Delete {
      return null;
    }
    var goal := if applies then Classify(p, status) else None;
    if !(applies && (goal == Some(Goal.Run) || goal == Some(Goal.Pause)) && (event != Create || p.startOnCreate)) {
      return null;
    }
    var clock := new ClockRow(now);
    clock.Start(p, now);
    if goal == Some(Goal.Pause) {
      clock.Pause(now);
    }
    return clock;
  }

  // ---------------------------------------------------------------- shape of a clock

  /** Running means a deadline and no remainder, paused the reverse, breached a breach time equal to the deadline. */
  ghost predicate Consistent(c: Clock) {
    && (c.phase == Running ==> c.due.Some? && c.remaining.None? && c.breachedAt.None?)
    && (c.phase == Paused ==> c.due.None? && c.remaining.Some? && c.remaining.value >= 0 && c.breachedAt.None?)
    && (c.phase == Breached ==> c.due.Some? && c.breachedAt == c.due)
    && (c.notified ==> c.phase == Breached)
    && (c.level > 0 ==> c.phase == Breached)
  }

  lemma ApplyKeepsConsistent(p: Policy, c: Option<Clock>, event: Event, applies: bool, status: Option<string>, now: int)
    requires c.Some? ==> Consistent(c.value)
    ensures var r := Apply(p, c, event, applies, status, now); r.Some? ==> Consistent(r.value)
    ensures c.Some? && Terminal(c.value.phase) ==> Apply(p, c, event, applies, status, now) == c
  {}

  // ---------------------------------------------------------------- events

  /** A status event at a time; the record's `applies` condition is part of it. */
  datatype Tick = Tick(event: Event, applies: bool, status: Option<string>, now: int)

  lemma WholeSecondsRound(us: int)
    requires us >= 0
    ensures us - SECOND < WholeSeconds(us) * SECOND <= us
    ensures WholeSeconds(us) >= 0
  {}

  /**
    A clock paused past its deadline before any sweep saw it forgets the overrun, and
    stopping it while paused reports the target met.
  */
  lemma OverduePauseForgives(p: Policy, c: Clock, pauseAt: int, stopAt: int)
    requires Consistent(c) && c.phase == Running && pauseAt <= stopAt
    ensures StoppedAt(PausedAt(c, pauseAt), stopAt).phase == Met
    ensures StoppedAt(c, pauseAt).phase == Breached <==> c.due.value < pauseAt
    ensures c.due.value <= pauseAt ==> ResumedAt(PausedAt(c, pauseAt), stopAt).due == Some(stopAt)
  {}
}
