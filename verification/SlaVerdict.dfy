/**
  What an SLA clock (app/sla.py) says of a record over its whole life of status events and
  breach sweeps: how far the deadline can be from start + target + time paused, and whether
  the verdict agrees with the time the record was really running.
*/
module SlaVerdict {
  import opened Wrappers
  import opened Sla
  import opened SlaSweep

  /** What the record's status asks for, whatever the clock shows: `Done` once it asked for a stop, `Dropped` once the policy let go of it. */
  datatype Mode = Active | Idle | Done | Dropped

  /**
    A clock with its record's own book-keeping up to time `at`: for how long the status asked
    for running, how often it changed from running to paused, and whether the clock was ever
    paused past its deadline.
  */
  datatype Account = Account(clock: Clock, mode: Mode, ran: int, at: int, rounds: nat, overduePause: bool)

  function Now(s: Step): int {
    match s
    case Status(t) => t.now
    case Swept(w) => w.now
  }

  function Wanted(p: Policy, t: Tick): Option<Goal> {
    if t.event != Delete && t.applies then Classify(p, t.status) else None
  }

  function NextMode(p: Policy, mode: Mode, t: Tick): Mode {
    if mode == Done || mode == Dropped then mode
    else match Wanted(p, t)
      case None => Dropped
      case Some(Stop) => Done
      case Some(Pause) => Idle
      case Some(Run) => Active
  }

  function Charge(p: Policy, a: Account, s: Step): Account {
    var ran := a.ran + if a.mode == Active then Now(s) - a.at else 0;
    match s
    case Status(t) =>
      var after := Apply(p, Some(a.clock), t.event, t.applies, t.status, t.now).value;
      var mode := NextMode(p, a.mode, t);
      var overdue := a.clock.phase == Running && after.phase == Paused && a.clock.due.Some? && a.clock.due.value < t.now;
      Account(after, mode, ran, t.now, a.rounds + (if a.mode == Active && mode == Idle then 1 else 0), a.overduePause || overdue)
    case Swept(w) => a.(clock := Sweep(Some(p), a.clock, w).clock, ran := ran, at := w.now)
  }

  function Ledger(p: Policy, a: Account, steps: seq<Step>): Account {
    if steps == [] then a
    else Charge(p, Ledger(p, a, steps[..|steps| - 1]), steps[|steps| - 1])
  }

  /** A clock started at `t0`; one that starts paused is started and paused at once. */
  function Opening(p: Policy, t0: int): Account {
    Account(Started(Clock(Running, t0, None, None, None, false, 0), p, t0), Active, 0, t0, 0, false)
  }

  /** The status is one of the states; no status counts as the empty one. */
  ghost predicate Among(status: Option<string>, states: set<string>) {
    exists v :: v in states && (status == Some(v) || (status == None && v == ""))
  }

  /** What a status asks for: a stop before a pause, a pause before running; no start states means every other status runs. */
  lemma WantedMeans(p: Policy, t: Tick)
    ensures Wanted(p, t) == Some(Stop) <==> t.event != Delete && t.applies && Among(t.status, p.stopStates)
    ensures Wanted(p, t) == Some(Pause) <==>
      t.event != Delete && t.applies && !Among(t.status, p.stopStates) && Among(t.status, p.pauseStates)
    ensures Wanted(p, t) == Some(Run) <==>
      t.event != Delete && t.applies && !Among(t.status, p.stopStates) && !Among(t.status, p.pauseStates)
      && (p.startStates == {} || Among(t.status, p.startStates))
  {
    AmongIff(t.status, p.stopStates);
    AmongIff(t.status, p.pauseStates);
    AmongIff(t.status, p.startStates);
  }

  lemma AmongIff(status: Option<string>, states: set<string>)
    ensures Among(status, states) <==> (if status.Some? then status.value else "") in states
  {
    if status.Some? && status.value in states { assert status == Some(status.value); }
  }

  /**
    When a record without a clock gets one: when its status asks for running or pausing, on
    a create only if the policy says so.  It is due one target later, or paused with the
    whole target left.
  */
  lemma BeginsIff(p: Policy, t: Tick)
    ensures var c := Apply(p, None, t.event, t.applies, t.status, t.now);
      && (c.Some? <==> (Wanted(p, t) == Some(Run) || Wanted(p, t) == Some(Pause)) && (t.event == Create ==> p.startOnCreate))
      && (c.Some? && Wanted(p, t) == Some(Run) ==> c.value.phase == Running && c.value.due == Some(t.now + p.target * MINUTE))
      && (c.Some? && Wanted(p, t) == Some(Pause) ==>
            c.value.phase == Paused && c.value.due == None && c.value.remaining == Some(Max(0, p.target * 60)))
      && (c.Some? ==> c.value.started == t.now && Consistent(c.value))
  {
    WantedMeans(p, t);
    ApplyKeepsConsistent(p, None, t.event, t.applies, t.status, t.now);
    if p.target >= 0 { WholeSecondsRound(p.target * MINUTE); }
  }

  /** Time does not run backwards. */
  ghost predicate InOrder(t0: int, steps: seq<Step>) {
    && (forall s | s in steps :: t0 <= Now(s))
    && forall i, j | 0 <= i < j < |steps| :: Now(steps[i]) <= Now(steps[j])
  }

  /** `left` before the deadline: what the target leaves of the running time, or less by less than a second per pause. */
  ghost predicate Near(p: Policy, a: Account, left: int) {
    && left <= p.target * MINUTE - a.ran
    && (if a.rounds == 0 then left == p.target * MINUTE - a.ran else left > p.target * MINUTE - a.ran - a.rounds * SECOND)
  }

  ghost predicate Punctual(p: Policy, a: Account) {
    && Consistent(a.clock)
    && (a.clock.phase == Running ==> a.mode == Active && Near(p, a, a.clock.due.value - a.at))
    && (a.clock.phase == Paused ==> a.mode == Idle && a.rounds > 0 && Near(p, a, a.clock.remaining.value * SECOND))
    && (a.clock.phase == Met ==> a.mode == Done && a.ran <= p.target * MINUTE)
    && (a.clock.phase == Breached ==> a.ran >= p.target * MINUTE - a.rounds * SECOND)
    && (a.clock.phase == Stopped ==> a.mode == Dropped)
  }

  lemma StatusKeepsPunctual(p: Policy, a: Account, t: Tick)
    requires Punctual(p, a) && a.at <= t.now && !Charge(p, a, Status(t)).overduePause
    ensures Punctual(p, Charge(p, a, Status(t)))
  {
    ApplyKeepsConsistent(p, Some(a.clock), t.event, t.applies, t.status, t.now);
    if a.clock.phase == Running && a.clock.due.value >= t.now {
      WholeSecondsRound(a.clock.due.value - t.now);
    }
  }

  lemma SweepKeepsPunctual(p: Policy, a: Account, w: Pass)
    requires Punctual(p, a) && a.at <= w.now
    ensures Punctual(p, Charge(p, a, Swept(w)))
  {}

  lemma {:induction false} LedgerIsPunctual(p: Policy, t0: int, steps: seq<Step>)
    requires InOrder(t0, steps) && !Ledger(p, Opening(p, t0), steps).overduePause
    ensures var a := Ledger(p, Opening(p, t0), steps);
      Punctual(p, a) && a.at == if steps == [] then t0 else Now(steps[|steps| - 1])
  {
    if steps != [] {
      var n := |steps| - 1;
      LedgerIsPunctual(p, t0, steps[..n]);
      assert steps[n] in steps && (n > 0 ==> Now(steps[n - 1]) <= Now(steps[n]));
      match steps[n]
      case Status(t) => StatusKeepsPunctual(p, Ledger(p, Opening(p, t0), steps[..n]), t);
      case Swept(w) => SweepKeepsPunctual(p, Ledger(p, Opening(p, t0), steps[..n]), w);
    }
  }

  /** For how long the record was not running, up to the last step. */
  function PausedFor(a: Account, t0: int): int {
    a.at - t0 - a.ran
  }

  /**
    The deadline bound.  After any events and sweeps, as long as the clock was never paused
    past its deadline: a running clock is due at start + target + time paused, exactly while
    it has never been paused, and otherwise not later and less than one second per pause earlier.
  */
  lemma DeadlineBound(p: Policy, t0: int, steps: seq<Step>)
    requires InOrder(t0, steps)
    requires var a := Ledger(p, Opening(p, t0), steps); !a.overduePause && a.clock.phase == Running
    ensures var a := Ledger(p, Opening(p, t0), steps); var nominal := t0 + p.target * MINUTE + PausedFor(a, t0);
      && a.clock.due.Some? && a.clock.due.value <= nominal
      && (a.rounds == 0 ==> a.clock.due.value == nominal)
      && (a.rounds > 0 ==> a.clock.due.value > nominal - a.rounds * SECOND)
  {
    LedgerIsPunctual(p, t0, steps);
  }

  /**
    The verdict, over every life of status events and sweeps that reached a stop, from a
    running or a paused clock: a record that ran for longer than the target ends breached, at
    its deadline, and one that ran for less than the target minus a second per pause ends met.
  */
  lemma VerdictFollowsRunningTime(p: Policy, t0: int, steps: seq<Step>)
    requires InOrder(t0, steps)
    requires var a := Ledger(p, Opening(p, t0), steps); !a.overduePause && a.mode == Done
    ensures var a := Ledger(p, Opening(p, t0), steps);
      && (a.clock.phase == Met || a.clock.phase == Breached)
      && (a.ran > p.target * MINUTE ==> a.clock.phase == Breached && a.clock.breachedAt == a.clock.due)
      && (a.ran < p.target * MINUTE - a.rounds * SECOND ==> a.clock.phase == Met)
  {
    LedgerIsPunctual(p, t0, steps);
  }
}
