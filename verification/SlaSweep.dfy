/**
  The breach sweep and its escalation chain (app/sla.py, `run_breach_sweep`).  A fired
  action is an entry in a log; `committed` tells whether the pass that fired it was
  committed or rolled back by a later failure.
*/
module SlaSweep {
  import opened Wrappers
  import opened Sla

  datatype Act = BreachAction | LevelAction(index: nat)

  datatype Entry = Entry(act: Act, at: int, committed: bool)

  /** How the first loop's work on an overdue clock ends. */
  datatype Ending = Fine | EscalateFails | WritebackFails

  /** One sweep as one clock sees it: the time, an active maintenance window, and what fails. */
  datatype Pass = Pass(now: int, quiet: bool, ending: Ending, fires: bool)

  datatype Outcome = Outcome(clock: Clock, log: seq<Entry>, count: nat)

  /** First loop: mark an overdue running clock; `p` is None when its policy or table is gone. */
  function Mark(p: Option<Policy>, c: Clock, w: Pass): Outcome {
    if c.phase != Running || p.None? || w.quiet || c.due.None? || w.now < c.due.value then Outcome(c, [], 0)
    else
      var marked := c.(phase := Breached, breachedAt := c.due, notified := true);
      if c.notified then Outcome(if w.ending == WritebackFails then c else marked, [], 1)
      else match w.ending
        case Fine => Outcome(marked, [Entry(BreachAction, w.now, true)], 1)
        case EscalateFails => Outcome(c, [Entry(BreachAction, w.now, false)], 0)
        case WritebackFails => Outcome(c, [Entry(BreachAction, w.now, false)], 1)
  }

  predicate LevelDue(p: Policy, c: Clock, now: int) {
    && c.phase == Breached && c.breachedAt.Some? && c.level < |p.levels|
    && now >= c.breachedAt.value + p.levels[c.level] * MINUTE
  }

  /** Second loop: fire the next overdue level of a breached clock. */
  function Escalate(p: Option<Policy>, c: Clock, w: Pass): Outcome {
    if p.None? || w.quiet || !LevelDue(p.value, c, w.now) then Outcome(c, [], 0)
    else if w.fires then Outcome(c.(level := c.level + 1), [Entry(LevelAction(c.level), w.now, true)], 1)
    else Outcome(c, [Entry(LevelAction(c.level), w.now, false)], 0)
  }

  /** Both loops, for one clock. */
  function Sweep(p: Option<Policy>, c: Clock, w: Pass): Outcome {
    var first := Mark(p, c, w);
    var second := Escalate(p, first.clock, w);
    Outcome(second.clock, first.log + second.log, first.count + second.count)
  }

  function Total(ps: seq<Option<Policy>>, cs: seq<Clock>, ws: seq<Pass>, n: nat): nat
    requires n <= |ps| && n <= |cs| && n <= |ws|
  {
    if n == 0 then 0 else Total(ps, cs, ws, n - 1) + Sweep(ps[n - 1], cs[n - 1], ws[n - 1]).count
  }

  function MarkTotal(ps: seq<Option<Policy>>, cs: seq<Clock>, ws: seq<Pass>, n: nat): nat
    requires n <= |ps| && n <= |cs| && n <= |ws|
  {
    if n == 0 then 0 else MarkTotal(ps, cs, ws, n - 1) + Mark(ps[n - 1], cs[n - 1], ws[n - 1]).count
  }

  function EscalateTotal(ps: seq<Option<Policy>>, cs: seq<Clock>, ws: seq<Pass>, n: nat): nat
    requires n <= |ps| && n <= |cs| && n <= |ws|
  {
    if n == 0 then 0 else EscalateTotal(ps, cs, ws, n - 1) + Escalate(ps[n - 1], cs[n - 1], ws[n - 1]).count
  }

  /** The clocks after the first loop. */
  function MarkedClocks(ps: seq<Option<Policy>>, cs: seq<Clock>, ws: seq<Pass>): seq<Clock>
    requires |ps| == |cs| == |ws|
  {
    seq(|cs|, i requires 0 <= i < |cs| => Mark(ps[i], cs[i], ws[i]).clock)
  }

  lemma {:induction false} TotalsAdd(ps: seq<Option<Policy>>, cs: seq<Clock>, ws: seq<Pass>, n: nat)
    requires n <= |ps| == |cs| == |ws|
    ensures MarkTotal(ps, cs, ws, n) + EscalateTotal(ps, MarkedClocks(ps, cs, ws), ws, n) == Total(ps, cs, ws, n)
  {
    if n > 0 {
      TotalsAdd(ps, cs, ws, n - 1);
      assert MarkedClocks(ps, cs, ws)[n - 1] == Mark(ps[n - 1], cs[n - 1], ws[n - 1]).clock;
    }
  }

  ghost predicate Show(rows: seq<ClockRow>, cs: seq<Clock>)
    reads rows
  {
    |rows| == |cs| && forall i | 0 <= i < |rows| :: rows[i].View() == cs[i]
  }

  /** `run_breach_sweep` over the stored clocks: every clock goes through both loops on its own. */
  method RunBreachSweep(rows: seq<ClockRow>, ps: seq<Option<Policy>>, ws: seq<Pass>, ghost cs: seq<Clock>) returns (count: nat)
    requires |ps| == |rows| == |ws| && Show(rows, cs) && forall i, j | 0 <= i < j < |rows| :: rows[i] != rows[j]
    modifies rows
    ensures forall i | 0 <= i < |rows| :: rows[i].View() == Sweep(ps[i], cs[i], ws[i]).clock
    ensures count == Total(ps, cs, ws, |rows|)
  {
    var first := MarkAll(rows, ps, ws, cs);
    var second := EscalateAll(rows, ps, ws, MarkedClocks(ps, cs, ws));
    count := first + second;
    TotalsAdd(ps, cs, ws, |rows|);
  }

  method MarkAll(rows: seq<ClockRow>, ps: seq<Option<Policy>>, ws: seq<Pass>, ghost cs: seq<Clock>) returns (count: nat)
    requires |ps| == |rows| == |ws| && Show(rows, cs) && forall i, j | 0 <= i < j < |rows| :: rows[i] != rows[j]
    modifies rows
    ensures Show(rows, MarkedClocks(ps, cs, ws)) && count == MarkTotal(ps, cs, ws, |rows|)
  {
    count := 0;
    for i := 0 to |rows|
      invariant forall j | 0 <= j < i :: rows[j].View() == Mark(ps[j], cs[j], ws[j]).clock
      invariant forall j | i <= j < |rows| :: rows[j].View() == cs[j]
      invariant count == MarkTotal(ps, cs, ws, i)
    {
      var more := MarkRow(rows[i], ps[i], ws[i]);
      count := count + more;
    }
  }

  method EscalateAll(rows: seq<ClockRow>, ps: seq<Option<Policy>>, ws: seq<Pass>, ghost cs: seq<Clock>) returns (count: nat)
    requires |ps| == |rows| == |ws| && Show(rows, cs) && forall i, j | 0 <= i < j < |rows| :: rows[i] != rows[j]
    modifies rows
    ensures forall i | 0 <= i < |rows| :: rows[i].View() == Escalate(ps[i], cs[i], ws[i]).clock
    ensures count == EscalateTotal(ps, cs, ws, |rows|)
  {
    count := 0;
    for i := 0 to |rows|
      invariant forall j | 0 <= j < i :: rows[j].View() == Escalate(ps[j], cs[j], ws[j]).clock
      invariant forall j | i <= j < |rows| :: rows[j].View() == cs[j]
      invariant count == EscalateTotal(ps, cs, ws, i)
    {
      var more := EscalateRow(rows[i], ps[i], ws[i]);
      count := count + more;
    }
  }

  method MarkRow(row: ClockRow, p: Option<Policy>, w: Pass) returns (count: nat)
    modifies row
    ensures row.View() == Mark(p, old(row.View()), w).clock && count == Mark(p, old(row.View()), w).count
  {
    count := 0;
    if row.phase != Running || p.None? || w.quiet {
      return;
    }
    if row.due.Some? && w.now >= row.due.value {
      var phase, breachedAt, notified := row.phase, row.breachedAt, row.notified;
      row.phase := Breached;
      row.breachedAt := row.due;
      var raised := false;
      if !row.notified {
        raised := w.ending == EscalateFails;
        if !raised {
          row.notified := true;
        }
      }
      if !raised {
        count := 1;
        raised := w.ending == WritebackFails;
      }
      if raised {
        // the session is rolled back
        row.phase, row.breachedAt, row.notified := phase, breachedAt, notified;
      }
    }
  }

  method EscalateRow(row: ClockRow, p: Option<Policy>, w: Pass) returns (count: nat)
    modifies row
    ensures row.View() == Escalate(p, old(row.View()), w).clock && count == Escalate(p, old(row.View()), w).count
  {
    count := 0;
    if row.phase != Breached || p.None? || row.breachedAt.None? || w.quiet {
      return;
    }
    var levels := p.value.levels;
    if row.level >= |levels| || w.now < row.breachedAt.value + levels[row.level] * MINUTE {
      return;
    }
    if w.fires {
      row.level := row.level + 1;
      count := 1;
    }
  }

  // ---------------------------------------------------------------- the life of one clock

  /** A status event or a sweep. */
  datatype Step = Status(tick: Tick) | Swept(pass: Pass)

  datatype Life = Life(clock: Clock, log: seq<Entry>)

  function Advance(p: Policy, l: Life, s: Step): Life {
    match s
    case Status(t) => l.(clock := Apply(p, Some(l.clock), t.event, t.applies, t.status, t.now).value)
    case Swept(w) => var o := Sweep(Some(p), l.clock, w); Life(o.clock, l.log + o.log)
  }

  function Live(p: Policy, c: Clock, steps: seq<Step>): Life {
    if steps == [] then Life(c, [])
    else Advance(p, Live(p, c, steps[..|steps| - 1]), steps[|steps| - 1])
  }

  /** The committed breach actions of a log. */
  function Breaches(log: seq<Entry>): nat {
    if log == [] then 0
    else Breaches(log[..|log| - 1]) + if log[|log| - 1].act == BreachAction && log[|log| - 1].committed then 1 else 0
  }

  /** The breach actions of a log, committed or not: how often mail went out. */
  function Firings(log: seq<Entry>): nat {
    if log == [] then 0
    else Firings(log[..|log| - 1]) + if log[|log| - 1].act == BreachAction then 1 else 0
  }

  /** The committed escalation levels of a log, in order. */
  function Levels(log: seq<Entry>): seq<nat> {
    if log == [] then []
    else
      var e := log[|log| - 1];
      Levels(log[..|log| - 1]) + if e.act.LevelAction? && e.committed then [e.act.index] else []
  }

  /** No entry before its time: a breach action after the deadline, a level after the breach plus its delay. */
  ghost predicate OnTime(p: Policy, c: Clock, e: Entry) {
    match e.act
    case BreachAction => e.committed ==> c.notified && c.breachedAt.Some? && e.at >= c.breachedAt.value
    case LevelAction(i) =>
      && c.phase == Breached && c.breachedAt.Some? && i < |p.levels|
      && e.at >= c.breachedAt.value + p.levels[i] * MINUTE
  }

  ghost predicate Orderly(p: Policy, l: Life) {
    && Consistent(l.clock)
    && Breaches(l.log) == (if l.clock.notified then 1 else 0)
    && Levels(l.log) == seq(l.clock.level, i => i)
    && forall e | e in l.log :: OnTime(p, l.clock, e)
  }

  lemma {:induction false} CountsAppend(a: seq<Entry>, b: seq<Entry>)
    ensures Breaches(a + b) == Breaches(a) + Breaches(b) && Levels(a + b) == Levels(a) + Levels(b)
    ensures Firings(a + b) == Firings(a) + Firings(b)
  {
    if b == [] {
      assert a + b == a;
    } else {
      CountsAppend(a, b[..|b| - 1]);
      assert (a + b)[..|a + b| - 1] == a + b[..|b| - 1];
    }
  }

  lemma CountsOne(e: Entry)
    ensures Breaches([e]) == (if e.act == BreachAction && e.committed then 1 else 0)
    ensures Levels([e]) == (if e.act.LevelAction? && e.committed then [e.act.index] else [])
    ensures Firings([e]) == (if e.act == BreachAction then 1 else 0)
  {
    assert [e][..0] == [];
  }

  /** Appending one entry to an orderly life. */
  lemma AppendKeepsOrderly(p: Policy, l: Life, c: Clock, e: Entry)
    requires Orderly(p, l) && Consistent(c) && OnTime(p, c, e)
    requires forall f | f in l.log :: OnTime(p, c, f)
    requires (if c.notified then 1 else 0) == (if l.clock.notified then 1 else 0) + (if e.act == BreachAction && e.committed then 1 else 0)
    requires e.act.LevelAction? && e.committed ==> e.act.index == l.clock.level && c.level == l.clock.level + 1
    requires !(e.act.LevelAction? && e.committed) ==> c.level == l.clock.level
    ensures Orderly(p, Life(c, l.log + [e]))
  {
    CountsAppend(l.log, [e]);
    CountsOne(e);
    var more := if e.act.LevelAction? && e.committed then [e.act.index] else [];
    assert seq(l.clock.level, i => i) + more == seq(c.level, i => i);
    assert forall f | f in l.log + [e] :: OnTime(p, c, f);
  }

  lemma NothingKeepsOrderly(p: Policy, l: Life)
    requires Orderly(p, l)
    ensures Orderly(p, Life(l.clock, l.log + []))
  {
    assert l.log + [] == l.log;
  }

  /** Nothing fired yet that a running clock could be out of time for. */
  lemma RunningLog(p: Policy, l: Life, c: Clock)
    requires Orderly(p, l) && l.clock.phase == Running
    ensures forall e | e in l.log :: OnTime(p, c, e)
  {
    forall e | e in l.log ensures OnTime(p, c, e) {
      assert OnTime(p, l.clock, e);
    }
  }

  /** The pass succeeds: the clock is marked and its breach action committed. */
  lemma MarkedKeepsOrderly(p: Policy, l: Life, at: int)
    requires Orderly(p, l) && l.clock.phase == Running && at >= l.clock.due.value
    ensures Orderly(p, Life(l.clock.(phase := Breached, breachedAt := l.clock.due, notified := true), l.log + [Entry(BreachAction, at, true)]))
  {
    var c := l.clock.(phase := Breached, breachedAt := l.clock.due, notified := true);
    var e := Entry(BreachAction, at, true);
    assert !l.clock.notified && Consistent(c);
    assert OnTime(p, c, e);
    RunningLog(p, l, c);
    AppendKeepsOrderly(p, l, c, e);
  }

  /** The pass fails and is rolled back: only the log knows. */
  lemma FailedKeepsOrderly(p: Policy, l: Life, at: int)
    requires Orderly(p, l)
    ensures Orderly(p, Life(l.clock, l.log + [Entry(BreachAction, at, false)]))
  {
    var e := Entry(BreachAction, at, false);
    assert OnTime(p, l.clock, e);
    AppendKeepsOrderly(p, l, l.clock, e);
  }

  lemma MarkKeepsOrderly(p: Policy, l: Life, w: Pass)
    requires Orderly(p, l)
    ensures var o := Mark(Some(p), l.clock, w); Orderly(p, Life(o.clock, l.log + o.log))
  {
    if Mark(Some(p), l.clock, w).log == [] {
      NothingKeepsOrderly(p, l);
    } else if w.ending == Fine {
      MarkedKeepsOrderly(p, l, w.now);
    } else {
      FailedKeepsOrderly(p, l, w.now);
    }
  }

  lemma EscalateKeepsOrderly(p: Policy, l: Life, w: Pass)
    requires Orderly(p, l)
    ensures var o := Escalate(Some(p), l.clock, w); Orderly(p, Life(o.clock, l.log + o.log))
  {
    var o := Escalate(Some(p), l.clock, w);
    if o.log == [] {
      NothingKeepsOrderly(p, l);
    } else {
      forall e | e in l.log ensures OnTime(p, o.clock, e) {
        assert OnTime(p, l.clock, e);
      }
      AppendKeepsOrderly(p, l, o.clock, o.log[0]);
    }
  }

  lemma StatusKeepsOrderly(p: Policy, l: Life, t: Tick)
    requires Orderly(p, l)
    ensures Orderly(p, Advance(p, l, Status(t)))
  {
    ApplyKeepsConsistent(p, Some(l.clock), t.event, t.applies, t.status, t.now);
    var c := Advance(p, l, Status(t)).clock;
    forall e | e in l.log ensures OnTime(p, c, e) {
      assert OnTime(p, l.clock, e);
    }
  }

  lemma SweepKeepsOrderly(p: Policy, l: Life, w: Pass)
    requires Orderly(p, l)
    ensures Orderly(p, Advance(p, l, Swept(w)))
  {
    var first := Mark(Some(p), l.clock, w);
    MarkKeepsOrderly(p, l, w);
    EscalateKeepsOrderly(p, Life(first.clock, l.log + first.log), w);
    var second := Escalate(Some(p), first.clock, w);
    assert l.log + first.log + second.log == l.log + (first.log + second.log);
  }

  /**
    Over any life of a clock under a fixed policy: the breach action is committed at most
    once, the escalation levels committed are 0, 1, 2, … in order and each once, and no
    level fires before the breach plus its delay.
  */
  lemma {:induction false} LifeIsOrderly(p: Policy, c: Clock, steps: seq<Step>)
    requires Consistent(c) && !c.notified && c.level == 0
    ensures Orderly(p, Live(p, c, steps))
  {
    if steps == [] {
      assert Levels([]) == seq(0, i => i);
    } else {
      var before := Live(p, c, steps[..|steps| - 1]);
      LifeIsOrderly(p, c, steps[..|steps| - 1]);
      match steps[|steps| - 1]
      case Status(t) => StatusKeepsOrderly(p, before, t);
      case Swept(w) => SweepKeepsOrderly(p, before, w);
    }
  }

  /** The pass finds the clock overdue and is rolled back. */
  predicate FailsOverdue(c: Clock, w: Pass) {
    c.phase == Running && !w.quiet && c.due.Some? && w.now >= c.due.value && w.ending != Fine
  }

  /** How many passes of a life found the clock overdue and were rolled back. */
  function FailedPasses(p: Policy, c: Clock, steps: seq<Step>): nat {
    if steps == [] then 0
    else
      var n := |steps| - 1;
      FailedPasses(p, c, steps[..n])
        + if steps[n].Swept? && FailsOverdue(Live(p, c, steps[..n]).clock, steps[n].pass) then 1 else 0
  }

  lemma MarkFirings(p: Policy, c: Clock, w: Pass)
    requires Consistent(c)
    ensures var o := Mark(Some(p), c, w);
      Firings(o.log) + (if c.notified then 1 else 0) == (if o.clock.notified then 1 else 0) + (if FailsOverdue(c, w) then 1 else 0)
  {
    var o := Mark(Some(p), c, w);
    if o.log != [] { CountsOne(o.log[0]); }
  }

  lemma EscalateFirings(p: Policy, c: Clock, w: Pass)
    ensures var o := Escalate(Some(p), c, w); Firings(o.log) == 0 && o.clock.notified == c.notified
  {
    var o := Escalate(Some(p), c, w);
    if o.log != [] { CountsOne(o.log[0]); }
  }

  lemma SweepFirings(p: Policy, c: Clock, w: Pass)
    requires Consistent(c)
    ensures var o := Sweep(Some(p), c, w);
      Firings(o.log) + (if c.notified then 1 else 0) == (if o.clock.notified then 1 else 0) + (if FailsOverdue(c, w) then 1 else 0)
  {
    var first := Mark(Some(p), c, w);
    var second := Escalate(Some(p), first.clock, w);
    CountsAppend(first.log, second.log);
    MarkFirings(p, c, w);
    EscalateFirings(p, first.clock, w);
  }

  /**
    How often the breach action fires, committed or not: once if it was committed, and once
    more for every overdue pass that failed.  So it fires at most once exactly when those
    two add up to no more than one.
  */
  lemma {:induction false} FiringsAre(p: Policy, c: Clock, steps: seq<Step>)
    requires Consistent(c) && !c.notified && c.level == 0
    ensures var l := Live(p, c, steps);
      && Firings(l.log) == Breaches(l.log) + FailedPasses(p, c, steps)
      && (Firings(l.log) <= 1 <==> FailedPasses(p, c, steps) == 0 || (FailedPasses(p, c, steps) == 1 && !l.clock.notified))
  {
    LifeIsOrderly(p, c, steps);
    if steps != [] {
      var n := |steps| - 1;
      var before := Live(p, c, steps[..n]);
      FiringsAre(p, c, steps[..n]);
      LifeIsOrderly(p, c, steps[..n]);
      match steps[n]
      case Status(t) => ApplyKeepsNotified(p, before.clock, t);
      case Swept(w) =>
        SweepFirings(p, before.clock, w);
        CountsAppend(before.log, Sweep(Some(p), before.clock, w).log);
    }
  }

  lemma ApplyKeepsNotified(p: Policy, c: Clock, t: Tick)
    ensures Apply(p, Some(c), t.event, t.applies, t.status, t.now).value.notified == c.notified
  {}

  /** Two passes over an overdue clock of which the first fails: the breach action fires twice. */
  lemma FailedPassFiresAgain(p: Policy, c: Clock, failed: Pass, fine: Pass)
    requires Consistent(c) && c.phase == Running && FailsOverdue(c, failed)
    requires !fine.quiet && fine.ending == Fine && fine.now >= c.due.value
    ensures Firings(Live(p, c, [Swept(failed), Swept(fine)]).log) == 2 && Breaches(Live(p, c, [Swept(failed), Swept(fine)]).log) == 1
  {
    var steps := [Swept(failed), Swept(fine)];
    assert steps[..1] == [Swept(failed)] && steps[..1][..0] == [];
    assert Live(p, c, []).clock == c && Live(p, c, steps[..1]).clock == c;
    assert FailedPasses(p, c, []) == 0 && FailedPasses(p, c, steps[..1]) == 1;
    OverdueIsMarked(p, c, fine);
    LifeIsOrderly(p, c, steps);
    FiringsAre(p, c, steps);
  }

  /**
    One pass: nothing at all inside a maintenance window, at most one escalation level,
    a failed level is not consumed, and a failed breach action leaves the clock running,
    so that the next pass fires it again.
  */
  lemma OnePass(p: Policy, c: Clock, w: Pass)
    requires Consistent(c)
    ensures w.quiet ==> Sweep(Some(p), c, w) == Outcome(c, [], 0)
    ensures var o := Sweep(Some(p), c, w);
      && |o.log| <= 2 && c.level <= o.clock.level <= c.level + 1
      && (forall i, j | 0 <= i < j < |o.log| :: o.log[i].act == BreachAction && o.log[j].act.LevelAction?)
      && (forall e | e in o.log && e.act.LevelAction? :: o.clock.level == c.level + if e.committed then 1 else 0)
      && (forall e | e in o.log && e.act == BreachAction && !e.committed :: o.clock == c)
  {}

  /** A swept overdue clock outside maintenance is marked unless its pass fails; a breached one never changes phase. */
  lemma OverdueIsMarked(p: Policy, c: Clock, w: Pass)
    requires Consistent(c)
    ensures c.phase == Running && !w.quiet && w.ending == Fine && w.now >= c.due.value ==>
      var o := Sweep(Some(p), c, w); o.clock.phase == Breached && o.clock.breachedAt == c.due && o.clock.notified
    ensures c.phase == Running && w.now < c.due.value ==> Sweep(Some(p), c, w) == Outcome(c, [], 0)
    ensures Terminal(c.phase) ==> var o := Sweep(Some(p), c, w); o.clock == c.(level := o.clock.level)
  {}
}
