/**
  A record whose status fields are governed by workflows, under any mix of ordinary
  writes, held moves and sign-offs: the API write path (app/api/routes.py:304-315) over
  app/workflow.py and app/approvals.py.
*/
module SignOff {
  import opened Wrappers
  import opened Workflow
  import opened Approvals

  datatype Setup = Setup(flows: Flows, steps: seq<Step>)

  datatype Held = Held(flow: Flow, field: string, from: string, to: string)

  /** The record's cells and the approval requests filed for it. */
  datatype Desk = Desk(row: Row, requests: seq<Request>)

  /** Approval steps come out of the store ordered by position, with distinct ids. */
  ghost predicate ValidSetup(u: Setup) {
    && ValidFlows(u.flows) && ValidSteps(u.steps) && ByPosition(u.steps)
  }

  /** `steps_for`, in store order. */
  function StepsFor(steps: seq<Step>, flow: int, from: string, to: string): (r: seq<Step>)
    ensures forall s :: s in r <==> s in steps && s.flow == flow && s.from == from && s.to == to
  {
    if steps == [] then []
    else
      var s := steps[0];
      (if s.flow == flow && s.from == from && s.to == to then [s] else []) + StepsFor(steps[1..], flow, from, to)
  }

  lemma Prepended(s: Step, rest: seq<Step>)
    requires ValidSteps(rest) && ByPosition(rest) && forall x | x in rest :: x.id != s.id && s.position <= x.position
    ensures ValidSteps([s] + rest) && ByPosition([s] + rest)
  {
    var all := [s] + rest;
    forall i, j | 0 <= i < j < |all| ensures all[i].id != all[j].id && all[i].position <= all[j].position {
      assert all[j] == rest[j - 1] && rest[j - 1] in rest;
      if i > 0 {
        assert all[i] == rest[i - 1];
      }
    }
  }

  lemma TailOrder(steps: seq<Step>)
    requires ValidSteps(steps) && ByPosition(steps) && steps != []
    ensures ValidSteps(steps[1..]) && ByPosition(steps[1..])
    ensures forall x | x in steps[1..] :: x.id != steps[0].id && steps[0].position <= x.position
  {
    forall x | x in steps[1..] ensures x.id != steps[0].id && steps[0].position <= x.position {
      var j :| 0 <= j < |steps[1..]| && steps[1..][j] == x;
      assert steps[j + 1] == x;
    }
  }

  lemma {:induction false} StepsForKeepsOrder(steps: seq<Step>, flow: int, from: string, to: string)
    requires ValidSteps(steps) && ByPosition(steps)
    ensures ValidSteps(StepsFor(steps, flow, from, to)) && ByPosition(StepsFor(steps, flow, from, to))
  {
    if steps != [] {
      TailOrder(steps);
      StepsForKeepsOrder(steps[1..], flow, from, to);
      var rest := StepsFor(steps[1..], flow, from, to);
      Prepended(steps[0], rest);
      assert [] + rest == rest;
    }
  }

  /** `requires_approval`. */
  predicate Required(u: Setup, flow: int, from: Cell, to: Cell) {
    from.Some? && to.Some? && StepsFor(u.steps, flow, from.value, to.value) != []
  }

  // ---------------------------------------------------------------- held moves

  predicate IsHeld(u: Setup, prior: Row, values: Row, field: string, flow: Flow) {
    && Moves(prior, values, field)
    && Edge(flow, CellOf(prior, field), values[field])
    && Required(u, flow.id, CellOf(prior, field), values[field])
  }

  /** The moves of a write that have to be signed off first, in workflow order. */
  function HeldOf(u: Setup, flows: Flows, prior: Row, values: Row): seq<Held> {
    if flows == [] then []
    else
      var (field, flow) := flows[0];
      (if IsHeld(u, prior, values, field, flow)
       then [Held(flow, field, CellOf(prior, field).value, values[field].value)] else [])
      + HeldOf(u, flows[1..], prior, values)
  }

  function HeldFields(held: seq<Held>): set<string> {
    set h | h in held :: h.field
  }

  /** What workflow `i` adds to the held moves. */
  lemma HeldNext(u: Setup, i: nat, prior: Row, values: Row)
    requires i < |u.flows|
    ensures var (field, flow) := u.flows[i];
      HeldOf(u, u.flows[i..], prior, values) ==
        (if IsHeld(u, prior, values, field, flow) then [Held(flow, field, CellOf(prior, field).value, values[field].value)] else [])
        + HeldOf(u, u.flows[i + 1..], prior, values)
  {
    assert u.flows[i..][1..] == u.flows[i + 1..];
  }

  lemma HeldOneMore(held: seq<Held>, h: Held)
    ensures HeldFields(held + [h]) == HeldFields(held) + {h.field}
  {}

  /** `plan_diversions`: the held moves, and the write without them. */
  method PlanDiversions(u: Setup, prior: Row, values: Row) returns (held: seq<Held>, rest: Row)
    requires ValidFlows(u.flows)
    ensures held == HeldOf(u, u.flows, prior, values)
    ensures rest == values - HeldFields(held)
  {
    held, rest := [], values;
    for i := 0 to |u.flows|
      invariant held + HeldOf(u, u.flows[i..], prior, values) == HeldOf(u, u.flows, prior, values)
      invariant forall h | h in held :: exists j | 0 <= j < i :: u.flows[j].0 == h.field
      invariant rest == values - HeldFields(held)
    {
      var (field, flow) := u.flows[i];
      HeldNext(u, i, prior, values);
      assert field in rest <==> field in values;
      if field in rest {
        var from, to := CellOf(prior, field), rest[field];
        if !(to == from || Blank(to)) {
          var t := Match(flow, from, to);
          if t.Some? && Required(u, flow.id, from, to) {
            var h := Held(flow, field, from.value, to.value);
            HeldOneMore(held, h);
            held := held + [h];
            rest := rest - {field};
          }
        }
      }
    }
  }

  lemma {:induction false} HeldAre(u: Setup, flows: Flows, prior: Row, values: Row)
    ensures forall h | h in HeldOf(u, flows, prior, values) :: exists j | 0 <= j < |flows| :: HeldAt(u, flows, prior, values, h, j)
    ensures forall j | 0 <= j < |flows| && IsHeld(u, prior, values, flows[j].0, flows[j].1) ::
      flows[j].0 in HeldFields(HeldOf(u, flows, prior, values))
  {
    if flows != [] {
      HeldAre(u, flows[1..], prior, values);
      var rest := HeldOf(u, flows[1..], prior, values);
      var all := HeldOf(u, flows, prior, values);
      forall h | h in all ensures exists j | 0 <= j < |flows| :: HeldAt(u, flows, prior, values, h, j) {
        if h in rest {
          var j :| 0 <= j < |flows[1..]| && HeldAt(u, flows[1..], prior, values, h, j);
          assert HeldAt(u, flows, prior, values, h, j + 1);
        } else {
          assert HeldAt(u, flows, prior, values, h, 0);
        }
      }
      forall j | 0 <= j < |flows| && IsHeld(u, prior, values, flows[j].0, flows[j].1) ensures flows[j].0 in HeldFields(all) {
        if j > 0 {
          assert flows[1..][j - 1] == flows[j];
          var h :| h in rest && h.field == flows[j].0;
          assert h in all;
        } else {
          assert all[0] in all;
        }
      }
    }
  }

  ghost predicate HeldAt(u: Setup, flows: Flows, prior: Row, values: Row, h: Held, j: nat)
    requires j < |flows|
  {
    && h.field == flows[j].0 && h.flow == flows[j].1
    && IsHeld(u, prior, values, h.field, h.flow)
    && CellOf(prior, h.field) == Some(h.from) && values[h.field] == Some(h.to)
  }

  /**
    Diversion loses nothing and lets nothing through: every cell of the write is either
    in the rest unchanged or the target of exactly the held move of its field, and no
    move left in the rest needs approval.
  */
  lemma DiversionSplits(u: Setup, prior: Row, values: Row)
    requires ValidFlows(u.flows)
    ensures var held := HeldOf(u, u.flows, prior, values); var rest := values - HeldFields(held);
      && rest.Keys + HeldFields(held) == values.Keys && rest.Keys !! HeldFields(held)
      && (forall f | f in rest :: rest[f] == values[f])
      && (forall h | h in held :: values[h.field] == Some(h.to) && CellOf(prior, h.field) == Some(h.from))
      && (forall h, k | h in held && k in held && h.field == k.field :: h == k)
      && (forall j | 0 <= j < |u.flows| :: !IsHeld(u, prior, rest, u.flows[j].0, u.flows[j].1))
  {
    HeldAre(u, u.flows, prior, values);
    var held := HeldOf(u, u.flows, prior, values);
    var rest := values - HeldFields(held);
    forall h, k | h in held && k in held && h.field == k.field ensures h == k {
      var i :| 0 <= i < |u.flows| && HeldAt(u, u.flows, prior, values, h, i);
      var j :| 0 <= j < |u.flows| && HeldAt(u, u.flows, prior, values, k, j);
      assert i == j;
    }
    forall j | 0 <= j < |u.flows| ensures !IsHeld(u, prior, rest, u.flows[j].0, u.flows[j].1) {
      if IsHeld(u, prior, rest, u.flows[j].0, u.flows[j].1) {
        assert IsHeld(u, prior, values, u.flows[j].0, u.flows[j].1);
        assert false;
      }
    }
  }

  // ---------------------------------------------------------------- writes and signatures

  predicate SamePending(r: Request, h: Held) {
    r.phase == Pending && r.flow == h.flow.id && r.from == h.from && r.to == h.to
  }

  function Filed(u: Setup, h: Held): Request {
    Opened(StepsFor(u.steps, h.flow.id, h.from, h.to), h.flow.id, h.field, h.from, h.to)
  }

  /** `request_transition`: a pending request for the same move is reused. */
  function File(u: Setup, requests: seq<Request>, h: Held): seq<Request> {
    if exists r | r in requests :: SamePending(r, h) then requests
    else requests + [Filed(u, h)]
  }

  function FileAll(u: Setup, requests: seq<Request>, held: seq<Held>): seq<Request> {
    if held == [] then requests
    else File(u, FileAll(u, requests, held[..|held| - 1]), held[|held| - 1])
  }

  /** The write path: hold what needs approval, check the rest, write it, file the requests. */
  function Patch(u: Setup, d: Desk, values: Row, user: User): Option<Desk> {
    var held := HeldOf(u, u.flows, d.row, values);
    var rest := values - HeldFields(held);
    if !Allowed(u.flows, d.row, rest, user) then None
    else Some(Desk(d.row + rest, FileAll(u, d.requests, held)))
  }

  function RequestSteps(u: Setup, r: Request): seq<Step> {
    StepsFor(u.steps, r.flow, r.from, r.to)
  }

  /** `act` on request `k`; the last approval writes the target state without another check. */
  function SignOne(u: Setup, d: Desk, k: int, user: User, approve: bool): Option<Desk> {
    if !(0 <= k < |d.requests|) then None
    else
      var r := d.requests[k];
      var signed := Act(RequestSteps(u, r), r, user, approve);
      if signed.None? then None
      else
        Some(Desk(if signed.value.phase == Approved then d.row[r.field := Some(r.to)] else d.row,
                  d.requests[k := signed.value]))
  }

  datatype Event = Write(user: User, values: Row) | Signing(user: User, request: int, approve: bool)

  function Handle(u: Setup, d: Desk, e: Event): Option<Desk> {
    match e
    case Write(user, values) => Patch(u, d, values, user)
    case Signing(user, k, approve) => SignOne(u, d, k, user, approve)
  }

  // ---------------------------------------------------------------- what a write leaves waiting

  /** A request for this move is waiting for its approvers. */
  ghost predicate Awaits(rs: seq<Request>, flow: int, from: string, to: string) {
    exists r | r in rs :: r.phase == Pending && r.flow == flow && r.from == from && r.to == to
  }

  /** No two waiting requests are for the same move. */
  ghost predicate OnePending(rs: seq<Request>) {
    forall i, j | 0 <= i < j < |rs| && rs[i].phase == Pending && rs[j].phase == Pending ::
      rs[i].flow != rs[j].flow || rs[i].from != rs[j].from || rs[i].to != rs[j].to
  }

  /** The step has to approve the move of the request. */
  ghost predicate Guards(s: Step, r: Request) {
    s.flow == r.flow && s.from == r.from && s.to == r.to
  }

  /** Signing starts at the first position among the steps of the move, at 1 when there is none. */
  ghost predicate StartsFirst(u: Setup, r: Request) {
    && (forall s | s in u.steps && Guards(s, r) :: r.position <= s.position)
    && (if exists s :: s in u.steps && Guards(s, r) then exists s :: s in u.steps && Guards(s, r) && s.position == r.position else r.position == 1)
  }

  /** A fresh request for a held move: unsigned, at the first position of its steps. */
  ghost predicate FreshFor(u: Setup, r: Request, h: Held) {
    && r.phase == Pending && r.actions == [] && r.flow == h.flow.id && r.field == h.field && r.from == h.from && r.to == h.to
    && StartsFirst(u, r)
  }

  ghost predicate NewAreFresh(u: Setup, before: seq<Request>, after: seq<Request>, held: seq<Held>) {
    forall k | |before| <= k < |after| :: FreshForSome(u, after[k], held)
  }

  ghost predicate FreshForSome(u: Setup, r: Request, held: seq<Held>) {
    exists h :: h in held && FreshFor(u, r, h)
  }

  lemma FirstOf(steps: seq<Step>)
    requires ByPosition(steps) && steps != []
    ensures forall s | s in steps :: steps[0].position <= s.position
  {
    forall s | s in steps ensures steps[0].position <= s.position {
      var i :| 0 <= i < |steps| && steps[i] == s;
    }
  }

  lemma FiledStartsFirst(u: Setup, r: Request)
    requires ValidSetup(u) && r.position == FirstPosition(RequestSteps(u, r))
    ensures StartsFirst(u, r)
  {
    var steps := RequestSteps(u, r);
    forall s ensures s in steps <==> s in u.steps && Guards(s, r) {}
    StepsForKeepsOrder(u.steps, r.flow, r.from, r.to);
    if steps != [] {
      FirstOf(steps);
      assert steps[0] in steps;
    }
  }

  lemma FiledIsFresh(u: Setup, h: Held)
    requires ValidSetup(u)
    ensures FreshFor(u, Filed(u, h), h)
  {
    FiledStartsFirst(u, Filed(u, h));
  }

  lemma FileWaits(u: Setup, rs: seq<Request>, h: Held)
    ensures rs <= File(u, rs, h) && |File(u, rs, h)| <= |rs| + 1
    ensures Awaits(File(u, rs, h), h.flow.id, h.from, h.to)
    ensures |File(u, rs, h)| > |rs| ==> File(u, rs, h)[|rs|] == Filed(u, h)
    ensures OnePending(rs) ==> OnePending(File(u, rs, h))
  {
    if Awaits(rs, h.flow.id, h.from, h.to) {
      var r :| r in rs && r.phase == Pending && r.flow == h.flow.id && r.from == h.from && r.to == h.to;
      assert SamePending(r, h);
    } else {
      assert File(u, rs, h) == rs + [Filed(u, h)];
      assert Filed(u, h) in File(u, rs, h);
      forall i | 0 <= i < |rs| && rs[i].phase == Pending
        ensures rs[i].flow != h.flow.id || rs[i].from != h.from || rs[i].to != h.to {
        assert rs[i] in rs;
      }
    }
  }

  lemma AwaitsMore(a: seq<Request>, b: seq<Request>, flow: int, from: string, to: string)
    requires a <= b && Awaits(a, flow, from, to)
    ensures Awaits(b, flow, from, to)
  {
    var r :| r in a && r.phase == Pending && r.flow == flow && r.from == from && r.to == to;
    assert r in b;
  }

  lemma FreshNext(u: Setup, rs: seq<Request>, before: seq<Request>, after: seq<Request>, most: seq<Held>, last: Held)
    requires NewAreFresh(u, rs, before, most) && before <= after && |after| <= |before| + 1
    requires |after| > |before| ==> FreshFor(u, after[|before|], last)
    ensures NewAreFresh(u, rs, after, most + [last])
  {
    var held := most + [last];
    forall k | |rs| <= k < |after| ensures FreshForSome(u, after[k], held) {
      if k < |before| {
        assert FreshForSome(u, before[k], most);
        var h :| h in most && FreshFor(u, before[k], h);
        assert h in held;
      } else {
        assert held[|most|] == last;
      }
    }
  }

  /** Filing keeps every earlier request, leaves each held move waiting, and adds no second request for a move. */
  lemma {:induction false} FilingWaits(u: Setup, rs: seq<Request>, held: seq<Held>)
    requires ValidSetup(u)
    ensures rs <= FileAll(u, rs, held)
    ensures forall h | h in held :: Awaits(FileAll(u, rs, held), h.flow.id, h.from, h.to)
    ensures NewAreFresh(u, rs, FileAll(u, rs, held), held)
    ensures OnePending(rs) ==> OnePending(FileAll(u, rs, held))
    decreases |held|
  {
    if held != [] {
      var most, last := held[..|held| - 1], held[|held| - 1];
      var before, after := FileAll(u, rs, most), FileAll(u, rs, held);
      FilingWaits(u, rs, most);
      FileWaits(u, before, last);
      FiledIsFresh(u, last);
      forall h | h in held ensures Awaits(after, h.flow.id, h.from, h.to) {
        if h in most { AwaitsMore(before, after, h.flow.id, h.from, h.to); }
      }
      assert held == most + [last];
      FreshNext(u, rs, before, after, most, last);
    }
  }

  /** Field `f` keeps its state while its workflow's request for the move to `to` waits. */
  ghost predicate OnHold(u: Setup, before: Desk, after: Desk, f: string, to: Cell) {
    && CellOf(after.row, f) == CellOf(before.row, f) && to.Some? && CellOf(before.row, f).Some?
    && exists j | 0 <= j < |u.flows| :: u.flows[j].0 == f && Awaits(after.requests, u.flows[j].1.id, CellOf(before.row, f).value, to.value)
  }

  lemma HeldWaits(u: Setup, d: Desk, values: Row, after: Desk, f: string)
    requires f in HeldFields(HeldOf(u, u.flows, d.row, values)) && CellOf(after.row, f) == CellOf(d.row, f)
    requires forall h | h in HeldOf(u, u.flows, d.row, values) :: Awaits(after.requests, h.flow.id, h.from, h.to)
    ensures f in values && OnHold(u, d, after, f, values[f])
  {
    HeldAre(u, u.flows, d.row, values);
    var h :| h in HeldOf(u, u.flows, d.row, values) && h.field == f;
    var j :| 0 <= j < |u.flows| && HeldAt(u, u.flows, d.row, values, h, j);
    assert Awaits(after.requests, u.flows[j].1.id, h.from, h.to);
  }

  lemma WrittenCells(row: Row, values: Row, held: set<string>)
    ensures forall f :: CellOf(row + (values - held), f) == if f in values && f !in held then values[f] else CellOf(row, f)
  {}

  /**
    An accepted write loses nothing: each cell is stored, or its move needs approval, the
    state stays, and a request for just this move waits.  Other cells and all earlier
    requests stay as they are, new requests are fresh ones for held moves, and a move with
    a waiting request gets no second one.
  */
  lemma NothingIsLost(u: Setup, d: Desk, values: Row, user: User)
    requires ValidSetup(u) && Patch(u, d, values, user).Some?
    ensures var after := Patch(u, d, values, user).value; var held := HeldOf(u, u.flows, d.row, values);
      && (forall f | f in values :: if f in HeldFields(held) then OnHold(u, d, after, f, values[f]) else CellOf(after.row, f) == values[f])
      && (forall f | f !in values :: CellOf(after.row, f) == CellOf(d.row, f))
      && d.requests <= after.requests
      && NewAreFresh(u, d.requests, after.requests, held)
      && (OnePending(d.requests) ==> OnePending(after.requests))
  {
    var held := HeldOf(u, u.flows, d.row, values);
    FilingWaits(u, d.requests, held);
    var after := Patch(u, d, values, user).value;
    WrittenCells(d.row, values, HeldFields(held));
    assert after.requests == FileAll(u, d.requests, held);
    forall f | f in values && f in HeldFields(held) ensures OnHold(u, d, after, f, values[f]) {
      HeldWaits(u, d, values, after, f);
    }
  }

  /** Which cells of a write are held: moves along an edge of the field's workflow that some step has to approve. */
  lemma HeldFieldsIff(u: Setup, prior: Row, values: Row, f: string)
    ensures f in HeldFields(HeldOf(u, u.flows, prior, values)) <==>
      exists j | 0 <= j < |u.flows| :: u.flows[j].0 == f && NeedsApproval(u, u.flows[j].1, prior, values, f)
  {
    HeldAre(u, u.flows, prior, values);
    forall j | 0 <= j < |u.flows| ensures IsHeld(u, prior, values, u.flows[j].0, u.flows[j].1) <==> NeedsApproval(u, u.flows[j].1, prior, values, u.flows[j].0) {
      ApprovalNeeded(u, u.flows[j].1, prior, values, u.flows[j].0);
    }
  }

  /** The cell names a new, non-blank state that an edge leads to from the old one, and a step guards that edge. */
  ghost predicate NeedsApproval(u: Setup, flow: Flow, prior: Row, values: Row, f: string) {
    && f in values && f in prior && prior[f].Some? && values[f].Some? && values[f] != prior[f] && values[f].value != ""
    && (exists t | t in flow.raw :: t.from == prior[f].value && t.to == values[f].value && t.from != "")
    && (exists s | s in u.steps :: s.flow == flow.id && s.from == prior[f].value && s.to == values[f].value)
  }

  lemma ApprovalNeeded(u: Setup, flow: Flow, prior: Row, values: Row, f: string)
    ensures IsHeld(u, prior, values, f, flow) <==> NeedsApproval(u, flow, prior, values, f)
  {
    if IsHeld(u, prior, values, f, flow) {
      var t :| t in Transitions(flow) && Joins(t, CellOf(prior, f), values[f]);
      assert t in flow.raw;
      var steps := StepsFor(u.steps, flow.id, t.from, t.to);
      assert steps[0] in steps;
    }
    if NeedsApproval(u, flow, prior, values, f) {
      var t :| t in flow.raw && t.from == prior[f].value && t.to == values[f].value && t.from != "";
      assert t in Transitions(flow) && Joins(t, prior[f], values[f]);
      var s :| s in u.steps && s.flow == flow.id && s.from == prior[f].value && s.to == values[f].value;
      assert s in StepsFor(u.steps, flow.id, t.from, t.to);
    }
  }

  /** The stored record and its requests, updated in place. */
  class RecordDesk {
    var row: Row
    var requests: seq<Request>

    ghost function View(): Desk
      reads this
    {
      Desk(row, requests)
    }

    /** PATCH of a record. */
    method Update(u: Setup, values: Row, user: User) returns (ok: bool)
      requires ValidSetup(u)
      modifies this
      ensures ok <==> Patch(u, old(View()), values, user).Some?
      ensures View() == if ok then Patch(u, old(View()), values, user).value else old(View())
    {
      var held, rest := PlanDiversions(u, row, values);
      var allowed := Check(u.flows, row, rest, user);
      if !allowed {
        return false;
      }
      row := row + rest;
      ghost var before := requests;
      assert held[..0] == [];
      for i := 0 to |held|
        invariant requests == FileAll(u, before, held[..i])
        invariant row == old(row) + rest
      {
        requests := File(u, requests, held[i]);
        assert held[..i + 1][..i] == held[..i];
      }
      assert held[..|held|] == held;
      return true;
    }

    /** One approve or reject. */
    method Sign(u: Setup, k: int, user: User, approve: bool) returns (ok: bool)
      modifies this
      ensures ok <==> SignOne(u, old(View()), k, user, approve).Some?
      ensures View() == if ok then SignOne(u, old(View()), k, user, approve).value else old(View())
    {
      if !(0 <= k < |requests|) {
        return false;
      }
      var r := requests[k];
      var signed := Act(RequestSteps(u, r), r, user, approve);
      if signed.None? {
        return false;
      }
      requests := requests[k := signed.value];
      if signed.value.phase == Approved {
        row := row[r.field := Some(r.to)];
      }
      return true;
    }
  }

  // ---------------------------------------------------------------- status histories

  /** A request asks for an approval-required edge of the workflow on its field, and is sound. */
  ghost predicate GoodRequest(u: Setup, r: Request) {
    && (exists j | 0 <= j < |u.flows| :: Governs(u, j, r))
    && RequestSteps(u, r) != []
    && Sound(RequestSteps(u, r), r)
  }

  ghost predicate Governs(u: Setup, j: nat, r: Request)
    requires j < |u.flows|
  {
    u.flows[j].0 == r.field && u.flows[j].1.id == r.flow && Edge(u.flows[j].1, Some(r.from), Some(r.to)) && r.to != ""
  }

  ghost predicate GoodDesk(u: Setup, d: Desk) {
    forall r | r in d.requests :: GoodRequest(u, r)
  }

  /** A request for exactly this move that has been approved by every one of its steps. */
  ghost predicate SignedOff(u: Setup, d: Desk, field: string, from: Cell, to: Cell) {
    exists r | r in d.requests ::
      && r.phase == Approved && r.field == field && Some(r.from) == from && Some(r.to) == to
      && GoodRequest(u, r)
  }

  /**
    One lawful step of a governed field: it stays, is blanked, or moves along an edge of
    its graph, an approval-required edge only once fully signed off.
  */
  ghost predicate LawfulStep(u: Setup, before: Desk, after: Desk, j: nat)
    requires j < |u.flows|
  {
    var (field, flow) := u.flows[j];
    var a, b := CellOf(before.row, field), CellOf(after.row, field);
    || a == b || Blank(b)
    || (Edge(flow, a, b) && (Required(u, flow.id, a, b) ==> SignedOff(u, after, field, a, b)))
  }

  /** This event is the last approval of request `k`, which it applies. */
  predicate Applies(u: Setup, d: Desk, e: Event) {
    e.Signing? && Handle(u, d, e).Some? && Handle(u, d, e).value.requests[e.request].phase == Approved
  }

  /** The record is still in the state the request was filed for. */
  predicate StillThere(d: Desk, e: Event)
    requires e.Signing? && 0 <= e.request < |d.requests|
  {
    CellOf(d.row, d.requests[e.request].field) == Some(d.requests[e.request].from)
  }

  lemma HeldIsGood(u: Setup, h: Held, prior: Row, values: Row, j: nat)
    requires ValidSetup(u) && j < |u.flows| && HeldAt(u, u.flows, prior, values, h, j)
    ensures GoodRequest(u, Filed(u, h))
  {
    var steps := StepsFor(u.steps, h.flow.id, h.from, h.to);
    StepsForKeepsOrder(u.steps, h.flow.id, h.from, h.to);
    OpenedIsSound(steps, h.flow.id, h.field, h.from, h.to);
    assert Governs(u, j, Filed(u, h));
  }

  lemma HeldRequestIsGood(u: Setup, h: Held, prior: Row, values: Row)
    requires ValidSetup(u) && h in HeldOf(u, u.flows, prior, values)
    ensures GoodRequest(u, Filed(u, h))
  {
    HeldAre(u, u.flows, prior, values);
    var j :| 0 <= j < |u.flows| && HeldAt(u, u.flows, prior, values, h, j);
    HeldIsGood(u, h, prior, values, j);
  }

  lemma FileKeepsGood(u: Setup, requests: seq<Request>, h: Held, prior: Row, values: Row)
    requires ValidSetup(u) && h in HeldOf(u, u.flows, prior, values)
    requires forall r | r in requests :: GoodRequest(u, r)
    ensures forall r | r in File(u, requests, h) :: GoodRequest(u, r)
  {
    HeldRequestIsGood(u, h, prior, values);
    forall r | r in File(u, requests, h) ensures GoodRequest(u, r) {
      assert r in requests || r == Filed(u, h);
    }
  }

  lemma {:induction false} FileAllKeepsGood(u: Setup, requests: seq<Request>, held: seq<Held>, prior: Row, values: Row)
    requires ValidSetup(u) && forall h | h in held :: h in HeldOf(u, u.flows, prior, values)
    requires forall r | r in requests :: GoodRequest(u, r)
    ensures forall r | r in FileAll(u, requests, held) :: GoodRequest(u, r)
  {
    if held != [] {
      var most := held[..|held| - 1];
      FileAllKeepsGood(u, requests, most, prior, values);
      FileKeepsGood(u, FileAll(u, requests, most), held[|held| - 1], prior, values);
    }
  }

  lemma WriteIsLawful(u: Setup, d: Desk, values: Row, user: User, j: nat)
    requires ValidSetup(u) && j < |u.flows| && Patch(u, d, values, user).Some?
    ensures LawfulStep(u, d, Patch(u, d, values, user).value, j)
  {
    DiversionSplits(u, d.row, values);
    var rest := values - HeldFields(HeldOf(u, u.flows, d.row, values));
    var (field, flow) := u.flows[j];
    if Moves(d.row, rest, field) {
      FirstIsEdge(Transitions(flow), CellOf(d.row, field), rest[field]);
      assert !IsHeld(u, d.row, rest, field, flow);
    }
  }

  lemma ActKeepsMove(steps: seq<Step>, r: Request, user: User, approve: bool)
    requires ValidSteps(steps) && Sound(steps, r) && Act(steps, r, user, approve).Some?
    ensures var r' := Act(steps, r, user, approve).value;
      Sound(steps, r') && r'.field == r.field && r'.flow == r.flow && r'.from == r.from && r'.to == r.to
  {
    ActKeepsSound(steps, r, user, approve);
  }

  lemma SameMoveIsGood(u: Setup, r: Request, r': Request)
    requires GoodRequest(u, r) && Sound(RequestSteps(u, r), r')
    requires r'.field == r.field && r'.flow == r.flow && r'.from == r.from && r'.to == r.to
    ensures GoodRequest(u, r')
  {
    var j :| 0 <= j < |u.flows| && Governs(u, j, r);
    assert Governs(u, j, r');
  }

  lemma ActKeepsGood(u: Setup, r: Request, user: User, approve: bool)
    requires ValidSetup(u) && GoodRequest(u, r) && Act(RequestSteps(u, r), r, user, approve).Some?
    ensures GoodRequest(u, Act(RequestSteps(u, r), r, user, approve).value)
  {
    StepsForKeepsOrder(u.steps, r.flow, r.from, r.to);
    ActKeepsMove(RequestSteps(u, r), r, user, approve);
    SameMoveIsGood(u, r, Act(RequestSteps(u, r), r, user, approve).value);
  }

  lemma SigningKeepsGood(u: Setup, d: Desk, k: int, user: User, approve: bool)
    requires ValidSetup(u) && GoodDesk(u, d) && SignOne(u, d, k, user, approve).Some?
    ensures GoodDesk(u, SignOne(u, d, k, user, approve).value)
  {
    var r := d.requests[k];
    assert r in d.requests && GoodRequest(u, r);
    ActKeepsGood(u, r, user, approve);
    var r' := Act(RequestSteps(u, r), r, user, approve).value;
    forall x | x in d.requests[k := r'] ensures GoodRequest(u, x) {
      assert x == r' || x in d.requests;
    }
  }

  lemma HandleKeepsGood(u: Setup, d: Desk, e: Event)
    requires ValidSetup(u) && GoodDesk(u, d) && Handle(u, d, e).Some?
    ensures GoodDesk(u, Handle(u, d, e).value)
  {
    match e
    case Write(user, values) => FileAllKeepsGood(u, d.requests, HeldOf(u, u.flows, d.row, values), d.row, values);
    case Signing(user, k, approve) => SigningKeepsGood(u, d, k, user, approve);
  }

  /**
    What a signature does: it decides a waiting request that the user can sign, rejects it
    or, once no step of its move lacks an approval, approves it; then and only then the
    record changes, and only by the request's own move.
  */
  lemma SigningMeans(u: Setup, d: Desk, k: int, user: User, approve: bool)
    requires ValidSetup(u) && GoodDesk(u, d) && SignOne(u, d, k, user, approve).Some?
    ensures 0 <= k < |d.requests| && d.requests[k].phase == Pending
    ensures exists s :: s in u.steps && Guards(s, d.requests[k]) && OpenFor(d.requests[k], s, user)
    ensures var r, after := d.requests[k], SignOne(u, d, k, user, approve).value;
      && |after.requests| == |d.requests|
      && (after.requests[k].phase == Rejected <==> !approve)
      && (after.requests[k].phase == Approved <==> approve && forall s | s in u.steps && Guards(s, r) :: !Unsigned(after.requests[k], s))
      && forall f :: CellOf(after.row, f) == if after.requests[k].phase == Approved && f == r.field then Some(r.to) else CellOf(d.row, f)
  {
    var r := d.requests[k];
    assert r in d.requests && GoodRequest(u, r);
    StepsForKeepsOrder(u.steps, r.flow, r.from, r.to);
    ActIff(RequestSteps(u, r), r, user, approve);
    ActMeans(RequestSteps(u, r), r, user, approve);
    forall s ensures s in RequestSteps(u, r) <==> s in u.steps && Guards(s, r) {}
  }

  /** A request that is applied while the record is where it was filed makes a lawful step. */
  lemma TimelyIsLawful(u: Setup, d: Desk, e: Event, j: nat)
    requires ValidSetup(u) && GoodDesk(u, d) && Applies(u, d, e) && StillThere(d, e)
    requires j < |u.flows| && Governs(u, j, d.requests[e.request])
    ensures LawfulStep(u, d, Handle(u, d, e).value, j)
  {
    HandleKeepsGood(u, d, e);
    var r, after := d.requests[e.request], Handle(u, d, e).value;
    assert after.requests[e.request] in after.requests;
    assert SignedOff(u, after, r.field, Some(r.from), Some(r.to));
  }

  /** From `from`, the target of the request is reached by an edge that needs no approval. */
  ghost predicate FreeEdge(u: Setup, r: Request, from: string) {
    && StepsFor(u.steps, r.flow, from, r.to) == []
    && exists j | 0 <= j < |u.flows| :: u.flows[j].0 == r.field && Edge(u.flows[j].1, Some(from), Some(r.to))
  }

  /** A request for the move from `cur` to the same target has been approved already. */
  ghost predicate ApprovedBefore(d: Desk, r: Request, cur: Cell) {
    exists x | x in d.requests :: x.phase == Approved && x.field == r.field && Some(x.from) == cur && x.to == r.to
  }

  /** What would have to be checked before an approved request is applied. */
  ghost predicate Sanctioned(u: Setup, d: Desk, e: Event)
    requires e.Signing? && 0 <= e.request < |d.requests|
  {
    var r := d.requests[e.request];
    var cur := CellOf(d.row, r.field);
    StillThere(d, e) || cur == Some(r.to) || (cur.Some? && FreeEdge(u, r, cur.value)) || ApprovedBefore(d, r, cur)
  }

  /** Signing decides one pending request and leaves the move it is for. */
  lemma SignedIs(u: Setup, d: Desk, e: Event) returns (signed: Request)
    requires Applies(u, d, e)
    ensures Handle(u, d, e).value.requests == d.requests[e.request := signed]
    ensures var r := d.requests[e.request]; r.phase == Pending && signed.from == r.from
  {
    var r := d.requests[e.request];
    signed := Act(RequestSteps(u, r), r, e.user, e.approve).value;
  }

  /** Approved requests of another move are those that were approved before. */
  lemma OtherApproved(rs: seq<Request>, k: nat, signed: Request, x: Request)
    requires k < |rs| && rs[k].phase == Pending && x.phase == Approved && x.from != signed.from
    ensures x in rs[k := signed] <==> x in rs
  {
    if x in rs {
      var i :| 0 <= i < |rs| && rs[i] == x;
      assert rs[k := signed][i] == x;
    }
  }

  /** Once the record has moved, only requests decided before can have signed off the move that is made. */
  lemma SignedOffBefore(u: Setup, d: Desk, e: Event)
    requires GoodDesk(u, d) && Applies(u, d, e) && !StillThere(d, e)
    ensures var r := d.requests[e.request]; var cur := CellOf(d.row, r.field);
      SignedOff(u, Handle(u, d, e).value, r.field, cur, Some(r.to)) <==> ApprovedBefore(d, r, cur)
  {
    var r, after := d.requests[e.request], Handle(u, d, e).value;
    var cur := CellOf(d.row, r.field);
    var signed := SignedIs(u, d, e);
    forall x: Request | x.phase == Approved && Some(x.from) == cur ensures x in after.requests <==> x in d.requests {
      OtherApproved(d.requests, e.request, signed, x);
    }
  }

  lemma ApprovedIsEdge(u: Setup, d: Desk, r: Request, cur: Cell, j: nat)
    requires ValidSetup(u) && GoodDesk(u, d) && j < |u.flows| && Governs(u, j, r) && ApprovedBefore(d, r, cur)
    ensures Edge(u.flows[j].1, cur, Some(r.to))
  {
    var x :| x in d.requests && x.phase == Approved && x.field == r.field && Some(x.from) == cur && x.to == r.to;
    assert GoodRequest(u, x);
    var i :| 0 <= i < |u.flows| && Governs(u, i, x);
    assert i == j;
  }

  lemma FreeEdgeIff(u: Setup, r: Request, cur: Cell, j: nat)
    requires ValidSetup(u) && j < |u.flows| && Governs(u, j, r)
    ensures cur.Some? && FreeEdge(u, r, cur.value) <==> Edge(u.flows[j].1, cur, Some(r.to)) && !Required(u, r.flow, cur, Some(r.to))
  {
    if cur.Some? && FreeEdge(u, r, cur.value) {
      var i :| 0 <= i < |u.flows| && u.flows[i].0 == r.field && Edge(u.flows[i].1, cur, Some(r.to));
      assert i == j;
    }
  }

  /**
    When is applying an approved request lawful?  Exactly when, before the call, the record
    is still where the request was filed, already at its target, at the start of an edge
    there that needs no approval, or at the start of one that another request has had
    signed off.  The code rechecks none of this.
  */
  lemma ApplicationLawfulIff(u: Setup, d: Desk, e: Event, j: nat)
    requires ValidSetup(u) && GoodDesk(u, d) && Applies(u, d, e)
    requires j < |u.flows| && Governs(u, j, d.requests[e.request])
    ensures LawfulStep(u, d, Handle(u, d, e).value, j) <==> Sanctioned(u, d, e)
  {
    var r := d.requests[e.request];
    var cur := CellOf(d.row, r.field);
    if StillThere(d, e) {
      TimelyIsLawful(u, d, e, j);
    } else {
      SignedOffBefore(u, d, e);
      FreeEdgeIff(u, r, cur, j);
      if ApprovedBefore(d, r, cur) { ApprovedIsEdge(u, d, r, cur, j); }
    }
  }

  lemma ElsewhereIsLawful(u: Setup, d: Desk, e: Event, j: nat)
    requires j < |u.flows| && e.Signing? && Handle(u, d, e).Some?
    requires Applies(u, d, e) ==> u.flows[j].0 != d.requests[e.request].field
    ensures LawfulStep(u, d, Handle(u, d, e).value, j)
  {}

  lemma SigningIsLawful(u: Setup, d: Desk, e: Event, j: nat)
    requires ValidSetup(u) && GoodDesk(u, d) && e.Signing? && Handle(u, d, e).Some? && j < |u.flows|
    requires Applies(u, d, e) ==> Sanctioned(u, d, e)
    ensures LawfulStep(u, d, Handle(u, d, e).value, j)
  {
    if Applies(u, d, e) && u.flows[j].0 == d.requests[e.request].field {
      var i := Governing(u, d, e);
      assert i == j;
      ApplicationLawfulIff(u, d, e, j);
    } else {
      ElsewhereIsLawful(u, d, e, j);
    }
  }

  lemma Governing(u: Setup, d: Desk, e: Event) returns (j: nat)
    requires GoodDesk(u, d) && Applies(u, d, e)
    ensures j < |u.flows| && Governs(u, j, d.requests[e.request])
  {
    var r := d.requests[e.request];
    assert r in d.requests && GoodRequest(u, r);
    j :| 0 <= j < |u.flows| && Governs(u, j, r);
  }

  /** Any interleaving of writes and signatures by any users; refused ones change nothing. */
  ghost predicate Run(u: Setup, events: seq<Event>, s: seq<Desk>) {
    && |s| == |events| + 1 && s[0].requests == []
    && forall i | 0 <= i < |events| :: Next(u, s[i], events[i], s[i + 1])
  }

  ghost predicate Next(u: Setup, before: Desk, e: Event, after: Desk) {
    after == if Handle(u, before, e).Some? then Handle(u, before, e).value else before
  }

  lemma {:induction false} RunStaysGood(u: Setup, events: seq<Event>, s: seq<Desk>, i: nat)
    requires ValidSetup(u) && Run(u, events, s) && i <= |events|
    ensures GoodDesk(u, s[i])
  {
    if i > 0 {
      RunStaysGood(u, events, s, i - 1);
      assert Next(u, s[i - 1], events[i - 1], s[i]);
      if Handle(u, s[i - 1], events[i - 1]).Some? {
        HandleKeepsGood(u, s[i - 1], events[i - 1]);
      }
    }
  }

  /** Requests keep their place and their move; only waiting ones are decided. */
  ghost predicate KeepsRequests(a: seq<Request>, b: seq<Request>) {
    |a| <= |b| && forall k | 0 <= k < |a| ::
      && b[k].flow == a[k].flow && b[k].from == a[k].from && b[k].to == a[k].to && b[k].field == a[k].field
      && (a[k].phase != Pending ==> b[k] == a[k])
  }

  lemma HandleKeepsRequests(u: Setup, d: Desk, e: Event)
    requires ValidSetup(u) && Handle(u, d, e).Some?
    ensures KeepsRequests(d.requests, Handle(u, d, e).value.requests)
    ensures OnePending(d.requests) ==> OnePending(Handle(u, d, e).value.requests)
  {
    match e
    case Write(user, values) => FilingWaits(u, d.requests, HeldOf(u, u.flows, d.row, values));
    case Signing(user, k, approve) =>
      var r' := Act(RequestSteps(u, d.requests[k]), d.requests[k], user, approve).value;
      assert Handle(u, d, e).value.requests == d.requests[k := r'];
  }

  /** In every run no request is lost or changed once decided, and no two waiting requests are for the same move. */
  lemma {:induction false} RequestsStay(u: Setup, events: seq<Event>, s: seq<Desk>, i: nat, j: nat)
    requires ValidSetup(u) && Run(u, events, s) && i <= j <= |events|
    ensures KeepsRequests(s[i].requests, s[j].requests)
    ensures OnePending(s[j].requests)
  {
    if j > 0 {
      var m := j - 1;
      assert Next(u, s[m], events[m], s[m + 1]);
      RequestsStay(u, events, s, if i < j then i else m, m);
      if Handle(u, s[m], events[m]).Some? { HandleKeepsRequests(u, s[m], events[m]); }
    }
  }

  ghost predicate LawfulHistory(u: Setup, s: seq<Desk>, j: nat)
    requires j < |u.flows|
  {
    forall i: nat | i + 1 < |s| :: LawfulAt(u, s, j, i)
  }

  ghost predicate LawfulAt(u: Setup, s: seq<Desk>, j: nat, i: nat)
    requires j < |u.flows| && i + 1 < |s|
  {
    LawfulStep(u, s[i], s[i + 1], j)
  }

  lemma StepIsLawful(u: Setup, events: seq<Event>, s: seq<Desk>, j: nat, i: nat)
    requires ValidSetup(u) && Run(u, events, s) && j < |u.flows| && i < |events|
    requires Applies(u, s[i], events[i]) ==> Sanctioned(u, s[i], events[i])
    ensures LawfulAt(u, s, j, i)
  {
    RunStaysGood(u, events, s, i);
    assert Next(u, s[i], events[i], s[i + 1]);
    if Handle(u, s[i], events[i]).Some? {
      match events[i]
      case Write(user, values) => WriteIsLawful(u, s[i], values, user, j);
      case Signing(user, k, approve) => SigningIsLawful(u, s[i], events[i], j);
    }
  }

  lemma LawfulIsSanctioned(u: Setup, events: seq<Event>, s: seq<Desk>, i: nat)
    requires ValidSetup(u) && Run(u, events, s) && i < |events| && Applies(u, s[i], events[i])
    requires forall j | 0 <= j < |u.flows| :: LawfulAt(u, s, j, i)
    ensures Sanctioned(u, s[i], events[i])
  {
    RunStaysGood(u, events, s, i);
    assert Next(u, s[i], events[i], s[i + 1]);
    var j := Governing(u, s[i], events[i]);
    assert LawfulAt(u, s, j, i);
    ApplicationLawfulIff(u, s[i], events[i], j);
  }

  /**
    The status history of every governed field is a path through its workflow graph, every
    step over an approval-required edge coming from a fully signed-off request, exactly when
    every approved request was sanctioned at the moment it was applied.
  */
  lemma HistoryLawfulIff(u: Setup, events: seq<Event>, s: seq<Desk>)
    requires ValidSetup(u) && Run(u, events, s)
    ensures (forall j | 0 <= j < |u.flows| :: LawfulHistory(u, s, j))
       <==> (forall i | 0 <= i < |events| && Applies(u, s[i], events[i]) :: Sanctioned(u, s[i], events[i]))
  {
    if forall j | 0 <= j < |u.flows| :: LawfulHistory(u, s, j) {
      forall i | 0 <= i < |events| && Applies(u, s[i], events[i]) ensures Sanctioned(u, s[i], events[i]) {
        forall j | 0 <= j < |u.flows| ensures LawfulAt(u, s, j, i) {
          assert LawfulHistory(u, s, j);
        }
        LawfulIsSanctioned(u, events, s, i);
      }
    }
    if forall i | 0 <= i < |events| && Applies(u, s[i], events[i]) :: Sanctioned(u, s[i], events[i]) {
      forall j, i: nat | 0 <= j < |u.flows| && i < |events| ensures LawfulAt(u, s, j, i) {
        StepIsLawful(u, events, s, j, i);
      }
    }
  }

  /** So it is whenever each approved request is applied while the record is still where it was filed. */
  lemma HistoryIsLawful(u: Setup, events: seq<Event>, s: seq<Desk>)
    requires ValidSetup(u) && Run(u, events, s)
    requires forall i | 0 <= i < |events| && Applies(u, s[i], events[i]) :: StillThere(s[i], events[i])
    ensures forall j | 0 <= j < |u.flows| :: LawfulHistory(u, s, j)
  {
    HistoryLawfulIff(u, events, s);
  }

  // The failing run: a held move, an ordinary move elsewhere, and then the approval.

  const BOSS := User(Some(1), Some("boss"), true)
  const HOLD := Transition("new", "done", {})
  const FREE := Transition("new", "closed", {})
  const FLOW := Flow(7, [HOLD, FREE])
  const SIGN_STEP := Step(1, 7, "new", "done", 1, None, Some("boss"))
  const STALE_SETUP := Setup([("status", FLOW)], [SIGN_STEP])

  function StatusOf(state: string): Row {
    map["status" := Some(state)]
  }

  function StaleRequest(): Request {
    Opened([SIGN_STEP], 7, "status", "new", "done")
  }

  lemma FlowEdges()
    ensures Transitions(FLOW) == [HOLD, FREE]
  {
    assert [HOLD, FREE][1..] == [FREE] && [FREE][1..] == [];
    assert Complete([FREE]) == [FREE];
  }

  lemma StaleHeld()
    ensures Handle(STALE_SETUP, Desk(StatusOf("new"), []), Write(BOSS, StatusOf("done")))
      == Some(Desk(StatusOf("new"), [StaleRequest()]))
  {
    FlowEdges();
    assert StepsFor([SIGN_STEP], 7, "new", "done") == [SIGN_STEP];
    assert Joins(HOLD, Some("new"), Some("done"));
    var held := Held(FLOW, "status", "new", "done");
    assert HeldOf(STALE_SETUP, STALE_SETUP.flows, StatusOf("new"), StatusOf("done")) == [held];
    assert [held][..0] == [];
    assert FileAll(STALE_SETUP, [], []) == [];
    assert FileAll(STALE_SETUP, [], [held]) == [StaleRequest()];
    assert StatusOf("done") - HeldFields([held]) == map[] && StatusOf("new") + map[] == StatusOf("new");
  }

  lemma StaleMoved()
    ensures Handle(STALE_SETUP, Desk(StatusOf("new"), [StaleRequest()]), Write(BOSS, StatusOf("closed")))
      == Some(Desk(StatusOf("closed"), [StaleRequest()]))
  {
    assert [HOLD, FREE][1..] == [FREE];
    FlowEdges();
    assert StepsFor([SIGN_STEP], 7, "new", "closed") == [];
    assert First([FREE], Some("new"), Some("closed")) == Some(FREE);
    assert First([HOLD, FREE], Some("new"), Some("closed")) == Some(FREE);
    assert HeldOf(STALE_SETUP, STALE_SETUP.flows, StatusOf("new"), StatusOf("closed")) == [];
    assert StatusOf("closed") - HeldFields([]) == StatusOf("closed");
    assert StatusOf("new") + StatusOf("closed") == StatusOf("closed");
  }

  lemma OnlyEligible(s: Step, user: User)
    requires Eligible(s, user)
    ensures EligibleOf([s], user) == [s]
  {
    assert [s][1..] == [];
    assert EligibleOf([], user) == [];
  }

  lemma StaleApplied() returns (after: Desk)
    ensures var before := Desk(StatusOf("closed"), [StaleRequest()]); var e := Signing(BOSS, 0, true);
      && Handle(STALE_SETUP, before, e) == Some(after)
      && Applies(STALE_SETUP, before, e) && !StillThere(before, e)
      && !LawfulStep(STALE_SETUP, before, after, 0)
  {
    var r := StaleRequest();
    assert StepsFor([SIGN_STEP], 7, "new", "done") == [SIGN_STEP];
    assert OpenSteps([SIGN_STEP], r) == [SIGN_STEP];
    OnlyEligible(SIGN_STEP, BOSS);
    var signed := r.(actions := r.actions + [Signature(1, 1, BOSS, true)]);
    assert signed.actions[0] in signed.actions;
    assert OpenSteps([SIGN_STEP], signed) == [];
    assert NextPosition([SIGN_STEP], 1).None?;
    assert Act([SIGN_STEP], r, BOSS, true) == Some(signed.(phase := Approved));
    after := Desk(StatusOf("closed")["status" := Some("done")], [r][0 := signed.(phase := Approved)]);
    FlowEdges();
    assert !Edge(FLOW, Some("closed"), Some("done"));
  }

  /** Without that condition the claim fails: the record can leave its graph. */
  lemma StaleApplicationLeavesTheGraph() returns (u: Setup, events: seq<Event>, s: seq<Desk>)
    ensures ValidSetup(u) && Run(u, events, s) && |events| == 3 && |u.flows| == 1
    ensures Applies(u, s[2], events[2]) && !StillThere(s[2], events[2])
    ensures !LawfulStep(u, s[2], s[3], 0)
  {
    u := STALE_SETUP;
    events := [Write(BOSS, StatusOf("done")), Write(BOSS, StatusOf("closed")), Signing(BOSS, 0, true)];
    StaleHeld();
    StaleMoved();
    var last := StaleApplied();
    s := [Desk(StatusOf("new"), []), Desk(StatusOf("new"), [StaleRequest()]), Desk(StatusOf("closed"), [StaleRequest()]), last];
    assert Next(u, s[0], events[0], s[1]) && Next(u, s[1], events[1], s[2]) && Next(u, s[2], events[2], s[3]);
  }
}
