/**
  Status workflows (app/workflow.py): the graph of allowed moves on an enum field and the
  role gate on each move.  A cell holds None or a text; None and "" are blank.
*/
module Workflow {
  import opened Wrappers

  type Cell = Option<string>

  type Row = map<string, Cell>

  datatype User = User(id: Option<int>, role: Option<string>, designer: bool)

  datatype Transition = Transition(from: string, to: string, roles: set<string>)

  /** A workflow row; `raw` is its parsed transition list, incomplete entries included. */
  datatype Flow = Flow(id: int, raw: seq<Transition>)

  /** `for_table`: the workflows of a table by the field they govern, in dict order. */
  type Flows = seq<(string, Flow)>

  ghost predicate ValidFlows(flows: Flows) {
    forall i, j | 0 <= i < j < |flows| :: flows[i].0 != flows[j].0
  }

  predicate Blank(c: Cell) {
    c == None || c == Some("")
  }

  function CellOf(row: Row, field: string): Cell {
    if field in row then row[field] else None
  }

  function Transitions(f: Flow): seq<Transition> {
    Complete(f.raw)
  }

  function Complete(ts: seq<Transition>): (r: seq<Transition>)
    ensures forall t :: t in r <==> t in ts && t.from != "" && t.to != ""
  {
    if ts == [] then []
    else (if ts[0].from != "" && ts[0].to != "" then [ts[0]] else []) + Complete(ts[1..])
  }

  predicate Joins(t: Transition, from: Cell, to: Cell) {
    Some(t.from) == from && Some(t.to) == to
  }

  /** The move `from → to` is in the graph. */
  predicate Edge(f: Flow, from: Cell, to: Cell) {
    exists t | t in Transitions(f) :: Joins(t, from, to)
  }

  function First(ts: seq<Transition>, from: Cell, to: Cell): Option<Transition> {
    if ts == [] then None
    else if Joins(ts[0], from, to) then Some(ts[0])
    else First(ts[1..], from, to)
  }

  /** `_match`: the first transition for the move. */
  method Match(f: Flow, from: Cell, to: Cell) returns (r: Option<Transition>)
    ensures r == First(Transitions(f), from, to)
    ensures r.Some? <==> Edge(f, from, to)
    ensures r.Some? ==> r.value in Transitions(f) && Joins(r.value, from, to)
  {
    var ts := Transitions(f);
    for i := 0 to |ts|
      invariant First(ts, from, to) == First(ts[i..], from, to)
      invariant forall j | 0 <= j < i :: !Joins(ts[j], from, to)
    {
      if Joins(ts[i], from, to) {
        return Some(ts[i]);
      }
    }
    return None;
  }

  predicate RoleOk(t: Transition, user: User) {
    t.roles == {} || user.designer || (user.role.Some? && user.role.value in t.roles)
  }

  /** `allowed_choices`: the current state and what this user may move to, each once. */
  method AllowedChoices(f: Flow, current: Cell, user: User) returns (out: seq<string>)
    ensures forall i, j | 0 <= i < j < |out| :: out[i] != out[j]
    ensures forall x :: x in out <==>
      Some(x) == current || exists t | t in Transitions(f) :: Joins(t, current, Some(x)) && RoleOk(t, user)
  {
    out := if current.Some? then [current.value] else [];
    var ts := Transitions(f);
    for i := 0 to |ts|
      invariant forall a, b | 0 <= a < b < |out| :: out[a] != out[b]
      invariant forall x :: x in out <==>
        Some(x) == current || exists j | 0 <= j < i :: Joins(ts[j], current, Some(x)) && RoleOk(ts[j], user)
    {
      if Some(ts[i].from) == current && RoleOk(ts[i], user) && ts[i].to !in out {
        out := out + [ts[i].to];
      }
    }
  }

  /** The move of one governed field that a write asks for, if any. */
  predicate Moves(prior: Row, values: Row, field: string) {
    field in values && values[field] != CellOf(prior, field) && !Blank(values[field])
  }

  predicate Permitted(f: Flow, from: Cell, to: Cell, user: User) {
    var t := First(Transitions(f), from, to);
    t.Some? && RoleOk(t.value, user)
  }

  /** `check`: accepted exactly when every move the write makes is in its graph and open to the user. */
  method Check(flows: Flows, prior: Row, values: Row, user: User) returns (ok: bool)
    ensures ok <==> Allowed(flows, prior, values, user)
  {
    for i := 0 to |flows|
      invariant forall j | 0 <= j < i && Moves(prior, values, flows[j].0) ::
        Permitted(flows[j].1, CellOf(prior, flows[j].0), values[flows[j].0], user)
    {
      var (field, flow) := flows[i];
      if Moves(prior, values, field) {
        var t := Match(flow, CellOf(prior, field), values[field]);
        if t.None? || !RoleOk(t.value, user) {
          return false;
        }
      }
    }
    return true;
  }

  predicate Allowed(flows: Flows, prior: Row, values: Row, user: User) {
    forall j | 0 <= j < |flows| && Moves(prior, values, flows[j].0) ::
      Permitted(flows[j].1, CellOf(prior, flows[j].0), values[flows[j].0], user)
  }

  lemma {:induction false} FirstIsEdge(ts: seq<Transition>, from: Cell, to: Cell)
    ensures First(ts, from, to).Some? <==> exists t | t in ts :: Joins(t, from, to)
    ensures First(ts, from, to).Some? ==> First(ts, from, to).value in ts && Joins(First(ts, from, to).value, from, to)
  {
    if ts != [] && !Joins(ts[0], from, to) {
      FirstIsEdge(ts[1..], from, to);
    }
  }

  // ---------------------------------------------------------------- what is accepted and what is offered

  /** Entry `k` of the list is the first complete one for the move. */
  ghost predicate FirstFor(ts: seq<Transition>, k: nat, from: string, to: string) {
    && k < |ts| && ts[k].from == from && ts[k].to == to && from != "" && to != ""
    && forall i | 0 <= i < k :: ts[i].from != from || ts[i].to != to
  }

  lemma {:induction false} FirstIs(ts: seq<Transition>, from: string, to: string)
    ensures forall k: nat | FirstFor(ts, k, from, to) :: First(Complete(ts), Some(from), Some(to)) == Some(ts[k])
    ensures First(Complete(ts), Some(from), Some(to)).Some? ==> exists k: nat :: FirstFor(ts, k, from, to)
  {
    if ts != [] {
      FirstIs(ts[1..], from, to);
      assert First(Complete(ts), Some(from), Some(to)) ==
        if ts[0].from != "" && ts[0].to != "" && ts[0].from == from && ts[0].to == to then Some(ts[0]) else First(Complete(ts[1..]), Some(from), Some(to)) by {
        if ts[0].from != "" && ts[0].to != "" { assert Complete(ts)[1..] == Complete(ts[1..]); } else { assert Complete(ts) == Complete(ts[1..]); }
      }
      forall k: nat | FirstFor(ts, k, from, to) ensures First(Complete(ts), Some(from), Some(to)) == Some(ts[k]) {
        if k > 0 {
          var j := k - 1;
          forall i | 0 <= i < j ensures ts[1..][i].from != from || ts[1..][i].to != to { assert ts[1..][i] == ts[i + 1]; }
          assert FirstFor(ts[1..], j, from, to);
        }
      }
      if k: nat :| FirstFor(ts[1..], k, from, to) {
        if ts[0].from != from || ts[0].to != to {
          var m := k + 1;
          forall i | 0 <= i < m ensures ts[i].from != from || ts[i].to != to { if i > 0 { assert ts[1..][i - 1] == ts[i]; } }
          assert FirstFor(ts, m, from, to);
        } else {
          assert FirstFor(ts, 0, from, to);
        }
      } else if First(Complete(ts), Some(from), Some(to)).Some? {
        assert FirstFor(ts, 0, from, to);
      }
    }
  }

  /** No roles are named, the user is a designer, or has one of the roles. */
  ghost predicate OpenTo(t: Transition, user: User) {
    t.roles == {} || user.designer || exists role :: role in t.roles && user.role == Some(role)
  }

  /** The state stays, is blanked, or moves by a transition whose first entry is open to the user. */
  ghost predicate Acceptable(f: Flow, before: Cell, after: Cell, user: User) {
    || after == before || after == None || after == Some("")
    || (before.Some? && exists k: nat :: FirstFor(f.raw, k, before.value, after.value) && OpenTo(f.raw[k], user))
  }

  lemma PermittedIff(f: Flow, from: Cell, to: Cell, user: User)
    ensures Permitted(f, from, to, user) <==>
      from.Some? && to.Some? && exists k: nat :: FirstFor(f.raw, k, from.value, to.value) && OpenTo(f.raw[k], user)
  {
    FirstIsEdge(Transitions(f), from, to);
    if from.Some? && to.Some? { FirstIs(f.raw, from.value, to.value); }
  }

  /** A write is accepted exactly when each governed field in it stays, is blanked, or makes an open move. */
  lemma AllowedIff(flows: Flows, prior: Row, values: Row, user: User)
    ensures Allowed(flows, prior, values, user) <==>
      forall j | 0 <= j < |flows| && flows[j].0 in values ::
        Acceptable(flows[j].1, if flows[j].0 in prior then prior[flows[j].0] else None, values[flows[j].0], user)
  {
    forall j | 0 <= j < |flows| && flows[j].0 in values
      ensures Acceptable(flows[j].1, CellOf(prior, flows[j].0), values[flows[j].0], user)
         <==> (Moves(prior, values, flows[j].0) ==> Permitted(flows[j].1, CellOf(prior, flows[j].0), values[flows[j].0], user)) {
      PermittedIff(flows[j].1, CellOf(prior, flows[j].0), values[flows[j].0], user);
    }
  }

  /** What `allowed_choices` offers besides the current state. */
  ghost predicate Offered(f: Flow, current: Cell, x: string, user: User) {
    exists t | t in Transitions(f) :: Joins(t, current, Some(x)) && RoleOk(t, user)
  }

  ghost predicate OneEntryEach(ts: seq<Transition>) {
    forall i, j | 0 <= i < j < |ts| :: ts[i].from != ts[j].from || ts[i].to != ts[j].to
  }

  /**
    Every other state that would be accepted is offered.  Conversely an offer is accepted
    exactly when the first entry of its move is open to the user, so always when no move is
    listed twice.
  */
  lemma OfferedIsAcceptedIff(f: Flow, current: Cell, x: string, user: User)
    requires current != Some(x) && x != ""
    ensures Acceptable(f, current, Some(x), user) ==> Offered(f, current, x, user)
    ensures OneEntryEach(f.raw) ==> (Offered(f, current, x, user) <==> Acceptable(f, current, Some(x), user))
  {
    if Acceptable(f, current, Some(x), user) {
      var k: nat :| FirstFor(f.raw, k, current.value, x) && OpenTo(f.raw[k], user);
      assert f.raw[k] in Transitions(f) && Joins(f.raw[k], current, Some(x)) && RoleOk(f.raw[k], user);
    }
    if OneEntryEach(f.raw) && Offered(f, current, x, user) {
      var t :| t in Transitions(f) && Joins(t, current, Some(x)) && RoleOk(t, user);
      var k :| 0 <= k < |f.raw| && f.raw[k] == t;
      assert FirstFor(f.raw, k, current.value, x) && OpenTo(f.raw[k], user);
    }
  }

  /** With a move listed twice, an offer can be refused: the check looks at the first entry only. */
  lemma OfferedCanBeRefused() returns (f: Flow, user: User)
    ensures Offered(f, Some("open"), "done", user) && !Acceptable(f, Some("open"), Some("done"), user)
  {
    var first, second := Transition("open", "done", {"boss"}), Transition("open", "done", {});
    f, user := Flow(1, [first, second]), User(Some(1), Some("clerk"), false);
    assert second in f.raw && second in Transitions(f) && Joins(second, Some("open"), Some("done"));
    assert f.raw[0].from == "open" && f.raw[0].to == "done" && "clerk" !in first.roles;
    forall k: nat | FirstFor(f.raw, k, "open", "done") ensures !OpenTo(f.raw[k], user) {
      assert k == 0;
    }
  }
}
