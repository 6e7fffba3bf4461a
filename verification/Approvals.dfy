/**
  Multi-step sign-off on workflow moves (app/approvals.py): one request over a fixed list
  of steps.
*/
module Approvals {
  import opened Wrappers
  import opened Workflow

  datatype Step = Step(id: int, flow: int, from: string, to: string, position: int,
                       approverUser: Option<int>, approverRole: Option<string>)

  datatype Signature = Signature(stepId: int, position: int, user: User, approve: bool)

  datatype Phase = Pending | Approved | Rejected

  datatype Request = Request(flow: int, field: string, from: string, to: string, phase: Phase,
                             position: int, actions: seq<Signature>)

  // ---------------------------------------------------------------- steps

  /** Step ids are a primary key. */
  ghost predicate ValidSteps(steps: seq<Step>) {
    forall i, j | 0 <= i < j < |steps| :: steps[i].id != steps[j].id
  }

  /** `_eligible`. */
  predicate Eligible(s: Step, user: User) {
    || user.designer
    || (s.approverUser.Some? && s.approverUser != Some(0) && s.approverUser == user.id)
    || (s.approverRole.Some? && s.approverRole != Some("") && s.approverRole == user.role)
  }

  predicate ApprovedStep(actions: seq<Signature>, id: int) {
    exists a | a in actions :: a.approve && a.stepId == id
  }

  /** `_open_steps`: the steps at the request's position without an approve action. */
  function OpenSteps(steps: seq<Step>, r: Request): (o: seq<Step>)
    ensures forall s :: s in o <==> s in steps && s.position == r.position && !ApprovedStep(r.actions, s.id)
  {
    if steps == [] then []
    else
      (if steps[0].position == r.position && !ApprovedStep(r.actions, steps[0].id) then [steps[0]] else [])
      + OpenSteps(steps[1..], r)
  }

  function EligibleOf(steps: seq<Step>, user: User): (o: seq<Step>)
    ensures forall s :: s in o <==> s in steps && Eligible(s, user)
  {
    if steps == [] then []
    else (if Eligible(steps[0], user) then [steps[0]] else []) + EligibleOf(steps[1..], user)
  }

  /** The least position of a step beyond `p`, if there is one. */
  function NextPosition(steps: seq<Step>, p: int): (r: Option<int>)
    ensures r.None? ==> forall s | s in steps :: s.position <= p
    ensures r.Some? ==> r.value > p && (exists s | s in steps :: s.position == r.value)
    ensures r.Some? ==> forall s | s in steps && s.position > p :: r.value <= s.position
  {
    if steps == [] then None
    else
      var rest := NextPosition(steps[1..], p);
      var q := steps[0].position;
      if q > p && (rest.None? || q < rest.value) then Some(q) else rest
  }

  /** The request after `act`, or None when it raises. */
  function Act(steps: seq<Step>, r: Request, user: User, approve: bool): Option<Request> {
    if r.phase != Pending then None
    else
      var mine := EligibleOf(OpenSteps(steps, r), user);
      if mine == [] then None
      else
        var signed := r.(actions := r.actions + [Signature(mine[0].id, r.position, user, approve)]);
        if !approve then Some(signed.(phase := Rejected))
        else if OpenSteps(steps, signed) != [] then Some(signed)
        else
          var next := NextPosition(steps, r.position);
          if next.None? then Some(signed.(phase := Approved)) else Some(signed.(position := next.value))
  }

  /** An approval request row, updated in place by `act`. */
  class RequestRow {
    const flow: int
    const field: string
    const from: string
    const to: string
    var phase: Phase
    var position: int
    var actions: seq<Signature>

    ghost function View(): Request
      reads this
    {
      Request(flow, field, from, to, phase, position, actions)
    }

    /** `request_transition` for a move that has no pending request. */
    constructor (steps: seq<Step>, flow: int, field: string, from: string, to: string)
      ensures View() == Opened(steps, flow, field, from, to)
    {
      this.flow, this.field, this.from, this.to := flow, field, from, to;
      phase := Pending;
      position := FirstPosition(steps);
      actions := [];
    }

    /** `act`; `ok` is false when it raises, `apply` says that the move is to be applied. */
    method Sign(steps: seq<Step>, user: User, approve: bool) returns (ok: bool, apply: bool)
      modifies this
      ensures ok <==> Act(steps, old(View()), user, approve).Some?
      ensures View() == if ok then Act(steps, old(View()), user, approve).value else old(View())
      ensures apply <==> old(phase) == Pending && phase == Approved
    {
      if phase != Pending {
        return false, false;
      }
      var mine := EligibleOf(OpenSteps(steps, Request(flow, field, from, to, phase, position, actions)), user);
      if mine == [] {
        return false, false;
      }
      actions := actions + [Signature(mine[0].id, position, user, approve)];
      if !approve {
        phase := Rejected;
        return true, false;
      }
      if OpenSteps(steps, Request(flow, field, from, to, phase, position, actions)) != [] {
        return true, false;
      }
      var next := NextPosition(steps, position);
      if next.None? {
        phase := Approved;
        return true, true;
      }
      position := next.value;
      return true, false;
    }
  }

  /** Steps come ordered by position: the first one opens the request. */
  function FirstPosition(steps: seq<Step>): int {
    if steps == [] then 1 else steps[0].position
  }

  function Opened(steps: seq<Step>, flow: int, field: string, from: string, to: string): Request {
    Request(flow, field, from, to, Pending, FirstPosition(steps), [])
  }

  ghost predicate ByPosition(steps: seq<Step>) {
    forall i, j | 0 <= i < j < |steps| :: steps[i].position <= steps[j].position
  }

  // ---------------------------------------------------------------- one request

  /** An action by an eligible user on a step of the list, at that step's position. */
  ghost predicate Proper(steps: seq<Step>, a: Signature) {
    exists s | s in steps :: s.id == a.stepId && s.position == a.position && Eligible(s, a.user)
  }

  /** The actions: proper, in position order, on different steps, none but the last a rejection. */
  ghost predicate SoundActions(steps: seq<Step>, actions: seq<Signature>, position: int, rejected: bool) {
    && (forall a | a in actions :: Proper(steps, a) && a.position <= position)
    && (forall i, j | 0 <= i < j < |actions| :: actions[i].position <= actions[j].position)
    && (forall i, j | 0 <= i < j < |actions| :: actions[i].stepId != actions[j].stepId)
    && (forall i | 0 <= i < |actions| :: actions[i].approve <==> !(rejected && i == |actions| - 1))
    && (rejected ==> actions != [])
  }

  /** Which steps are approved: those before the current position, and all once approved. */
  ghost predicate SoundPhase(steps: seq<Step>, r: Request) {
    match r.phase
    case Pending =>
      && (forall s | s in steps && s.position < r.position :: ApprovedStep(r.actions, s.id))
      && exists s | s in steps :: s.position == r.position && !ApprovedStep(r.actions, s.id)
    case Approved => forall s | s in steps :: ApprovedStep(r.actions, s.id)
    case Rejected => true
  }

  /** What every reachable request satisfies. */
  ghost predicate Sound(steps: seq<Step>, r: Request) {
    SoundActions(steps, r.actions, r.position, r.phase == Rejected) && SoundPhase(steps, r)
  }

  lemma OpenedIsSound(steps: seq<Step>, flow: int, field: string, from: string, to: string)
    requires steps != [] && ByPosition(steps)
    ensures Sound(steps, Opened(steps, flow, field, from, to))
  {
    var r := Opened(steps, flow, field, from, to);
    assert steps[0] in steps && steps[0].position == r.position && !ApprovedStep(r.actions, steps[0].id);
  }

  lemma SigningKeepsActions(steps: seq<Step>, r: Request, s: Step, user: User, approve: bool, position: int)
    requires SoundActions(steps, r.actions, r.position, false) && position >= r.position
    requires s in steps && s.position == r.position && Eligible(s, user) && !ApprovedStep(r.actions, s.id)
    ensures SoundActions(steps, r.actions + [Signature(s.id, r.position, user, approve)], position, !approve)
  {
    var a := Signature(s.id, r.position, user, approve);
    assert Proper(steps, a);
    forall b | b in r.actions ensures b.approve && b.position <= r.position && b.stepId != s.id {
      var i :| 0 <= i < |r.actions| && r.actions[i] == b;
    }
  }

  lemma SigningMarks(actions: seq<Signature>, a: Signature)
    ensures forall id :: ApprovedStep(actions + [a], id) <==> ApprovedStep(actions, id) || (a.approve && id == a.stepId)
  {
    forall id ensures ApprovedStep(actions + [a], id) <==> ApprovedStep(actions, id) || (a.approve && id == a.stepId) {
      if ApprovedStep(actions, id) {
        var b :| b in actions && b.approve && b.stepId == id;
        assert b in actions + [a];
      }
      assert a in actions + [a];
    }
  }

  lemma ActKeepsSound(steps: seq<Step>, r: Request, user: User, approve: bool)
    requires ValidSteps(steps) && Sound(steps, r) && Act(steps, r, user, approve).Some?
    ensures Sound(steps, Act(steps, r, user, approve).value)
  {
    var mine := EligibleOf(OpenSteps(steps, r), user);
    var s := mine[0];
    assert s in mine && s in OpenSteps(steps, r);
    var a := Signature(s.id, r.position, user, approve);
    var r' := Act(steps, r, user, approve).value;
    SigningMarks(r.actions, a);
    SigningKeepsActions(steps, r, s, user, approve, r'.position);
    ActKeepsPhase(steps, r, user, approve);
  }

  lemma ActKeepsPhase(steps: seq<Step>, r: Request, user: User, approve: bool)
    requires ValidSteps(steps) && Sound(steps, r) && Act(steps, r, user, approve).Some?
    ensures SoundPhase(steps, Act(steps, r, user, approve).value)
  {
    var mine := EligibleOf(OpenSteps(steps, r), user);
    assert mine[0] in mine && mine[0] in OpenSteps(steps, r);
    var a := Signature(mine[0].id, r.position, user, approve);
    SigningMarks(r.actions, a);
    var signed := r.(actions := r.actions + [a]);
    var open := OpenSteps(steps, signed);
    var next := NextPosition(steps, r.position);
    if approve && open != [] {
      assert open[0] in open;
    } else if approve {
      forall t | t in steps && t.position <= r.position ensures ApprovedStep(signed.actions, t.id) {
        assert t !in open;
      }
      if next.Some? {
        assert forall b | b in signed.actions :: Proper(steps, b) && b.position < next.value by {
          SigningKeepsActions(steps, r, mine[0], user, approve, r.position);
        }
        NothingSignedAhead(steps, signed, next.value);
      }
    }
  }

  /** A position nobody has reached yet has an unapproved step. */
  lemma NothingSignedAhead(steps: seq<Step>, r: Request, p: int)
    requires forall a | a in r.actions :: Proper(steps, a) && a.position < p
    requires ValidSteps(steps) && exists s | s in steps :: s.position == p
    ensures exists s | s in steps :: s.position == p && !ApprovedStep(r.actions, s.id)
  {
    var t :| t in steps && t.position == p;
    if ApprovedStep(r.actions, t.id) {
      var b :| b in r.actions && b.approve && b.stepId == t.id;
      var u :| u in steps && u.id == b.stepId && u.position == b.position;
      SameStep(steps, t, u);
    }
  }

  lemma SameStep(steps: seq<Step>, s: Step, t: Step)
    requires ValidSteps(steps) && s in steps && t in steps && s.id == t.id
    ensures s == t
  {
    var i :| 0 <= i < |steps| && steps[i] == s;
    var j :| 0 <= j < |steps| && steps[j] == t;
  }

  // ---------------------------------------------------------------- what one attempt does

  /** The user is a designer, the named approver, or has the named role; no user has the id 0. */
  ghost predicate MayApprove(s: Step, user: User) {
    || user.designer
    || (exists id :: id != 0 && s.approverUser == Some(id) && user.id == Some(id))
    || (exists role :: role != "" && s.approverRole == Some(role) && user.role == Some(role))
  }

  /** No action so far approves the step. */
  ghost predicate Unsigned(r: Request, s: Step) {
    forall a | a in r.actions && a.stepId == s.id :: !a.approve
  }

  ghost predicate OpenFor(r: Request, s: Step, user: User) {
    s.position == r.position && Unsigned(r, s) && MayApprove(s, user)
  }

  lemma MayApproveIff(s: Step, user: User)
    ensures Eligible(s, user) <==> MayApprove(s, user)
  {
    if Eligible(s, user) && !user.designer {
      if s.approverUser.Some? && s.approverUser != Some(0) && s.approverUser == user.id {
        var id := s.approverUser.value;
        assert id != 0 && s.approverUser == Some(id) && user.id == Some(id);
      } else {
        var role := s.approverRole.value;
        assert role != "" && s.approverRole == Some(role) && user.role == Some(role);
      }
    }
  }

  lemma OpenForIff(r: Request, user: User, s: Step)
    ensures OpenFor(r, s, user) <==> s.position == r.position && !ApprovedStep(r.actions, s.id) && Eligible(s, user)
  {
    MayApproveIff(s, user);
  }

  /** Step `i` is the first one, in store order, that the user can sign. */
  ghost predicate FirstOpenFor(steps: seq<Step>, r: Request, user: User, i: nat) {
    i < |steps| && OpenFor(r, steps[i], user) && forall j | 0 <= j < i :: !OpenFor(r, steps[j], user)
  }

  lemma {:induction false} MineIs(steps: seq<Step>, r: Request, user: User) returns (i: nat)
    requires EligibleOf(OpenSteps(steps, r), user) != []
    ensures FirstOpenFor(steps, r, user, i) && EligibleOf(OpenSteps(steps, r), user)[0] == steps[i]
  {
    OpenForIff(r, user, steps[0]);
    if OpenFor(r, steps[0], user) {
      i := 0;
      assert OpenSteps(steps, r)[0] == steps[0];
    } else {
      EligibleRest(steps, r, user);
      var j := MineIs(steps[1..], r, user);
      i := j + 1;
      forall k | 0 <= k < i ensures !OpenFor(r, steps[k], user) {
        if k > 0 { assert steps[k] == steps[1..][k - 1]; }
      }
    }
  }

  lemma EligibleRest(steps: seq<Step>, r: Request, user: User)
    requires steps != [] && !OpenFor(r, steps[0], user)
    ensures EligibleOf(OpenSteps(steps, r), user) == EligibleOf(OpenSteps(steps[1..], r), user)
  {
    OpenForIff(r, user, steps[0]);
    var rest := OpenSteps(steps[1..], r);
    if steps[0].position == r.position && !ApprovedStep(r.actions, steps[0].id) {
      assert OpenSteps(steps, r) == [steps[0]] + rest;
      assert ([steps[0]] + rest)[1..] == rest && [] + EligibleOf(rest, user) == EligibleOf(rest, user);
    } else {
      assert OpenSteps(steps, r) == rest;
    }
  }

  /** An attempt is accepted exactly when the request waits and the user can sign a step it waits for; it signs the first such step. */
  lemma ActIff(steps: seq<Step>, r: Request, user: User, approve: bool)
    ensures Act(steps, r, user, approve).Some? <==> r.phase == Pending && exists s :: s in steps && OpenFor(r, s, user)
    ensures Act(steps, r, user, approve).Some? ==>
      exists i: nat :: FirstOpenFor(steps, r, user, i)
        && Act(steps, r, user, approve).value.actions == r.actions + [Signature(steps[i].id, r.position, user, approve)]
  {
    var mine := EligibleOf(OpenSteps(steps, r), user);
    if mine != [] {
      var i := MineIs(steps, r, user);
    }
    if s :| s in steps && OpenFor(r, s, user) {
      OpenForIff(r, user, s);
      assert s in OpenSteps(steps, r) && s in mine;
    }
  }

  /** The request waits for the first position at which some step has no approval yet. */
  ghost predicate WaitsAtFirst(steps: seq<Step>, r: Request) {
    && (exists s :: s in steps && Unsigned(r, s) && s.position == r.position)
    && (forall s | s in steps && Unsigned(r, s) :: r.position <= s.position)
  }

  /**
    What an accepted attempt makes of a request: one rejection rejects it; an approval
    leaves it approved exactly when no step lacks an approval any more, and otherwise
    waiting for the first position at which one does.
  */
  lemma ActMeans(steps: seq<Step>, r: Request, user: User, approve: bool)
    requires ValidSteps(steps) && Sound(steps, r) && Act(steps, r, user, approve).Some?
    ensures var r' := Act(steps, r, user, approve).value;
      && (r'.phase == Rejected <==> !approve)
      && (r'.phase == Approved <==> approve && forall s | s in steps :: !Unsigned(r', s))
      && (r'.phase == Pending ==> WaitsAtFirst(steps, r'))
  {
    ActKeepsSound(steps, r, user, approve);
    SoundMeans(steps, Act(steps, r, user, approve).value);
  }

  lemma SoundMeans(steps: seq<Step>, r: Request)
    requires Sound(steps, r)
    ensures r.phase == Pending ==> WaitsAtFirst(steps, r)
    ensures r.phase == Approved ==> forall s | s in steps :: !Unsigned(r, s)
  {
    forall s: Step ensures Unsigned(r, s) <==> !ApprovedStep(r.actions, s.id) {}
  }

  /** A request through any sequence of attempts to act on it; refused attempts change nothing. */
  function Play(steps: seq<Step>, r: Request, tries: seq<(User, bool)>): Request {
    if tries == [] then r
    else
      var before := Play(steps, r, tries[..|tries| - 1]);
      var (user, approve) := tries[|tries| - 1];
      var after := Act(steps, before, user, approve);
      if after.Some? then after.value else before
  }

  lemma {:induction false} PlayKeepsSound(steps: seq<Step>, r: Request, tries: seq<(User, bool)>)
    requires ValidSteps(steps) && Sound(steps, r)
    ensures Sound(steps, Play(steps, r, tries))
  {
    if tries != [] {
      PlayKeepsSound(steps, r, tries[..|tries| - 1]);
      var before := Play(steps, r, tries[..|tries| - 1]);
      var (user, approve) := tries[|tries| - 1];
      if Act(steps, before, user, approve).Some? {
        ActKeepsSound(steps, before, user, approve);
      }
    }
  }

  /** The ids of the steps that still lack an approval. */
  ghost function Outstanding(steps: seq<Step>, r: Request): set<int> {
    set s | s in steps && !ApprovedStep(r.actions, s.id) :: s.id
  }

  /** An accepted approval signs exactly one outstanding step; a rejection signs none. */
  lemma OutstandingDropsByOne(steps: seq<Step>, r: Request, user: User, approve: bool)
    requires Act(steps, r, user, approve).Some?
    ensures var r' := Act(steps, r, user, approve).value;
      |Outstanding(steps, r')| == |Outstanding(steps, r)| - (if approve then 1 else 0)
  {
    var mine := EligibleOf(OpenSteps(steps, r), user);
    var s := mine[0];
    assert s in mine && s in OpenSteps(steps, r);
    var a := Signature(s.id, r.position, user, approve);
    var r' := Act(steps, r, user, approve).value;
    assert r'.actions == r.actions + [a];
    forall id ensures ApprovedStep(r'.actions, id) <==> ApprovedStep(r.actions, id) || (approve && id == s.id) {
      if ApprovedStep(r.actions, id) {
        var b :| b in r.actions && b.approve && b.stepId == id;
        assert b in r'.actions;
      }
      assert a in r'.actions;
    }
    if approve {
      assert Outstanding(steps, r') == Outstanding(steps, r) - {s.id};
    } else {
      assert Outstanding(steps, r') == Outstanding(steps, r);
    }
  }

  /**
    Approval means what it should.  A request that ends up approved carries exactly one
    action per step, all of them approvals by eligible users, the lower positions first.
  */
  lemma ApprovedMeansAllSigned(steps: seq<Step>, flow: int, field: string, from: string, to: string, tries: seq<(User, bool)>)
    requires steps != [] && ValidSteps(steps) && ByPosition(steps)
    requires Play(steps, Opened(steps, flow, field, from, to), tries).phase == Approved
    ensures var r := Play(steps, Opened(steps, flow, field, from, to), tries);
      && |r.actions| == |steps|
      && (forall a | a in r.actions :: a.approve && Proper(steps, a))
      && (forall i, j | 0 <= i < j < |r.actions| :: r.actions[i].position <= r.actions[j].position)
      && (forall s | s in steps :: exists i | 0 <= i < |r.actions| :: SignsOnly(r.actions, i, s.id))
  {
    OpenedIsSound(steps, flow, field, from, to);
    PlayKeepsSound(steps, Opened(steps, flow, field, from, to), tries);
    SoundAndApproved(steps, Play(steps, Opened(steps, flow, field, from, to), tries));
  }

  lemma SoundAndApproved(steps: seq<Step>, r: Request)
    requires ValidSteps(steps) && Sound(steps, r) && r.phase == Approved
    ensures |r.actions| == |steps|
    ensures forall a | a in r.actions :: a.approve && Proper(steps, a)
    ensures forall s | s in steps :: exists i | 0 <= i < |r.actions| :: SignsOnly(r.actions, i, s.id)
  {
    forall s | s in steps ensures exists i | 0 <= i < |r.actions| :: SignsOnly(r.actions, i, s.id) {
      var a :| a in r.actions && a.approve && a.stepId == s.id;
      var i :| 0 <= i < |r.actions| && r.actions[i] == a;
      assert SignsOnly(r.actions, i, s.id);
    }
    var ids, signed := set s | s in steps :: s.id, set a | a in r.actions :: a.stepId;
    assert ids == signed by {
      forall a | a in r.actions ensures a.stepId in ids { assert Proper(steps, a); }
      forall s | s in steps ensures s.id in signed { assert ApprovedStep(r.actions, s.id); }
    }
    StepCount(steps);
    SignatureCount(r.actions);
  }

  ghost predicate SignsOnly(actions: seq<Signature>, i: nat, id: int)
    requires i < |actions|
  {
    actions[i].stepId == id && actions[i].approve
    && forall j | 0 <= j < |actions| && j != i :: actions[j].stepId != id
  }

  lemma {:induction false} StepCount(steps: seq<Step>)
    requires ValidSteps(steps)
    ensures |set s | s in steps :: s.id| == |steps|
  {
    var ids := set s | s in steps :: s.id;
    if steps == [] {
      assert ids == {};
    } else {
      var front, last := steps[..|steps| - 1], steps[|steps| - 1];
      StepCount(front);
      var others := set s | s in front :: s.id;
      assert steps == front + [last];
      assert ids == others + {last.id};
      assert last.id !in others;
    }
  }

  lemma {:induction false} SignatureCount(actions: seq<Signature>)
    requires forall i, j | 0 <= i < j < |actions| :: actions[i].stepId != actions[j].stepId
    ensures |set a | a in actions :: a.stepId| == |actions|
  {
    var ids := set a | a in actions :: a.stepId;
    if actions == [] {
      assert ids == {};
    } else {
      var rest := actions[1..];
      SignatureCount(rest);
      assert actions == [actions[0]] + rest;
      assert ids == (set a | a in rest :: a.stepId) + {actions[0].stepId};
    }
  }

  /** A decided request stays as it was decided, whatever is tried afterwards. */
  lemma {:induction false} DecidedIsFinal(steps: seq<Step>, r: Request, tries: seq<(User, bool)>)
    requires r.phase != Pending
    ensures Play(steps, r, tries) == r
  {
    if tries != [] { DecidedIsFinal(steps, r, tries[..|tries| - 1]); }
  }

  /** How often a run of attempts calls `_apply`: whenever a pending request becomes approved. */
  function Applications(steps: seq<Step>, r: Request, tries: seq<(User, bool)>): nat {
    if tries == [] then 0
    else
      var n := |tries| - 1;
      Applications(steps, r, tries[..n])
      + if Play(steps, r, tries[..n]).phase == Pending && Play(steps, r, tries).phase == Approved then 1 else 0
  }

  /** The move is applied exactly once if the request ends approved, and never otherwise. */
  lemma {:induction false} AppliedOnceOrNever(steps: seq<Step>, r: Request, tries: seq<(User, bool)>)
    requires r.phase == Pending
    ensures Applications(steps, r, tries) == if Play(steps, r, tries).phase == Approved then 1 else 0
  {
    if tries != [] {
      AppliedOnceOrNever(steps, r, tries[..|tries| - 1]);
    }
  }
}
