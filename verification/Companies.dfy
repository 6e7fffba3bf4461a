/**
  The company tree (app/companies.py) and the routes that edit it (app/designer/routes.py).
  Companies chain by parent id; being allowed on one implies access to all below it.
*/
module Companies {
  import opened Wrappers

  datatype Company = Company(name: string, parent: Option<int>)

  type Tree = map<int, Company>

  // ---------------------------------------------------------------- reachability by child links

  /** `p` goes down by child links. */
  ghost predicate Chain(t: Tree, p: seq<int>) {
    p != [] && forall i | 0 < i < |p| :: p[i] in t && t[p[i]].parent == Some(p[i - 1])
  }

  ghost predicate Joins(t: Tree, a: int, b: int, p: seq<int>) {
    Chain(t, p) && p[0] == a && p[|p| - 1] == b
  }

  /** `b` is `a` or somewhere below it. */
  ghost predicate Below(t: Tree, a: int, b: int) {
    exists p :: Joins(t, a, b, p)
  }

  lemma BelowSelf(t: Tree, a: int)
    ensures Below(t, a, a)
  {
    assert Joins(t, a, a, [a]);
  }

  lemma BelowChild(t: Tree, a: int, b: int, c: int)
    requires Below(t, a, b) && c in t && t[c].parent == Some(b)
    ensures Below(t, a, c)
  {
    var p :| Joins(t, a, b, p);
    assert Joins(t, a, c, p + [c]);
  }

  /** Below splits at the last link. */
  lemma BelowLast(t: Tree, a: int, c: int)
    requires Below(t, a, c) && a != c
    ensures c in t && t[c].parent.Some? && Below(t, a, t[c].parent.value)
  {
    var p :| Joins(t, a, c, p);
    assert Joins(t, a, p[|p| - 2], p[..|p| - 1]);
  }

  lemma {:induction false} Follow(t: Tree, a: int, b: int, p: seq<int>)
    requires Below(t, a, b) && Chain(t, p) && p[0] == b
    ensures Below(t, a, p[|p| - 1])
    decreases |p|
  {
    if |p| > 1 {
      Follow(t, a, b, p[..|p| - 1]);
      BelowChild(t, a, p[|p| - 2], p[|p| - 1]);
    }
  }

  lemma BelowTransitive(t: Tree, a: int, b: int, c: int)
    requires Below(t, a, b) && Below(t, b, c)
    ensures Below(t, a, c)
  {
    var p :| Joins(t, b, c, p);
    Follow(t, a, b, p);
  }

  // ---------------------------------------------------------------- subtree_ids

  function ChildrenOf(t: Tree, ids: set<int>): set<int> {
    set c | c in t && t[c].parent.Some? && t[c].parent.value in ids
  }

  /** The company and every company below it; terminates on cyclic data too. */
  method SubtreeIds(t: Tree, root: int) returns (ids: set<int>)
    ensures forall c :: c in ids <==> Below(t, root, c)
  {
    ids := {root};
    var frontier := {root};
    BelowSelf(t, root);
    while frontier != {}
      invariant root in ids && frontier <= ids <= {root} + t.Keys
      invariant forall c | c in ids :: Below(t, root, c)
      invariant ChildrenOf(t, ids - frontier) <= ids
      decreases ({root} + t.Keys) - ids, frontier
    {
      var next := ChildrenOf(t, frontier) - ids;
      forall c | c in next ensures Below(t, root, c) {
        BelowChild(t, root, t[c].parent.value, c);
      }
      assert ChildrenOf(t, ids) <= ids + next;
      assert (ids + next) - next == ids;
      if next != {} {
        assert ({root} + t.Keys) - (ids + next) < ({root} + t.Keys) - ids;
      } else {
        assert ids + next == ids;
      }
      ids := ids + next;
      frontier := next;
    }
    assert ids - {} == ids;
    forall c | Below(t, root, c) ensures c in ids {
      var p :| Joins(t, root, c, p);
      ClosedHolds(t, ids, p);
    }
  }

  lemma {:induction false} ClosedHolds(t: Tree, ids: set<int>, p: seq<int>)
    requires ChildrenOf(t, ids) <= ids && Chain(t, p) && p[0] in ids
    ensures p[|p| - 1] in ids
    decreases |p|
  {
    if |p| > 1 {
      ClosedHolds(t, ids, p[..|p| - 1]);
      assert p[|p| - 1] in ChildrenOf(t, ids);
    }
  }

  /** None is unscoped: no user, or a user without a company. */
  method AllowedForUser(t: Tree, company: Option<int>) returns (r: Option<set<int>>)
    ensures r.None? <==> company.None? || company.value == 0
    ensures r.Some? ==> forall c :: c in r.value <==> Below(t, company.value, c)
  {
    if company.None? || company.value == 0 {
      return None;
    }
    var ids := SubtreeIds(t, company.value);
    r := Some(ids);
  }

  /** A company sees all that a company below it sees. */
  lemma SeesDownwards(t: Tree, a: int, b: int, c: int)
    requires Below(t, a, b) && Below(t, b, c)
    ensures Below(t, a, c)
  {
    BelowTransitive(t, a, b, c);
  }

  /** Two companies of which neither is below the other see nothing in common. */
  lemma SeparateBranches(t: Tree, a: int, b: int, c: int)
    requires Below(t, a, c) && Below(t, b, c)
    ensures Below(t, a, b) || Below(t, b, a)
  {
    var p :| Joins(t, a, c, p);
    Meet(t, a, b, p);
  }

  lemma {:induction false} Meet(t: Tree, a: int, b: int, p: seq<int>)
    requires Chain(t, p) && p[0] == a && Below(t, b, p[|p| - 1])
    ensures Below(t, a, b) || Below(t, b, a)
    decreases |p|
  {
    var c := p[|p| - 1];
    if c == b {
      assert Joins(t, a, b, p);
    } else if |p| > 1 {
      BelowLast(t, b, c);
      Meet(t, a, b, p[..|p| - 1]);
    }
  }

  // ---------------------------------------------------------------- no cycles

  ghost predicate Acyclic(t: Tree) {
    forall c | c in t && t[c].parent.Some? :: !Below(t, c, t[c].parent.value)
  }

  ghost predicate ParentsExist(t: Tree) {
    forall c | c in t && t[c].parent.Some? :: t[c].parent.value in t
  }

  ghost predicate IsTree(t: Tree) {
    Acyclic(t) && ParentsExist(t)
  }

  /** Under a new parent, whatever is reached is reached as before or through the new link. */
  lemma {:induction false} ReachAfterEdit(t: Tree, cid: int, row: Company, parent: int, p: seq<int>)
    requires row.parent == Some(parent) && Chain(t[cid := row], p)
    ensures Below(t, p[0], p[|p| - 1]) || (Below(t, p[0], parent) && Below(t, cid, p[|p| - 1]))
    decreases |p|
  {
    var b := p[|p| - 1];
    if |p| == 1 {
      BelowSelf(t, b);
    } else {
      var x := p[|p| - 2];
      ReachAfterEdit(t, cid, row, parent, p[..|p| - 1]);
      if b == cid {
        BelowSelf(t, cid);
        assert x == parent;
      } else if Below(t, p[0], x) {
        BelowChild(t, p[0], x, b);
      } else {
        BelowChild(t, cid, x, b);
      }
    }
  }

  /** In an acyclic tree nothing below a company leads back into it. */
  lemma {:induction false} NeverBack(t: Tree, cid: int, row: Company, p: seq<int>)
    requires Acyclic(t) && Chain(t, p) && p[0] == cid
    ensures Chain(t[cid := row], p)
    decreases |p|
  {
    if |p| > 1 {
      NeverBack(t, cid, row, p[..|p| - 1]);
      if p[|p| - 1] == cid {
        assert Joins(t, cid, p[|p| - 2], p[..|p| - 1]);
        assert false;
      }
    }
  }

  /**
    Writing a row keeps the tree acyclic exactly when its parent is not below the company
    itself; a company that is added may have others below it already, if they named its id.
  */
  lemma EditAcyclicIff(t: Tree, cid: int, row: Company)
    requires Acyclic(t)
    ensures Acyclic(t[cid := row]) <==> row.parent.None? || !Below(t, cid, row.parent.value)
  {
    var u := t[cid := row];
    if row.parent.Some? && Below(t, cid, row.parent.value) {
      var p :| Joins(t, cid, row.parent.value, p);
      NeverBack(t, cid, row, p);
      assert Joins(u, cid, row.parent.value, p);
      assert cid in u && Below(u, cid, u[cid].parent.value);
    } else {
      forall c | c in u && u[c].parent.Some? ensures !Below(u, c, u[c].parent.value) {
        if Below(u, c, u[c].parent.value) {
          EditedCycle(t, cid, row, c);
        }
      }
    }
  }

  lemma EditedCycle(t: Tree, cid: int, row: Company, c: int)
    requires Acyclic(t) && c in t[cid := row]
    requires var u := t[cid := row]; u[c].parent.Some? && Below(u, c, u[c].parent.value)
    ensures row.parent.Some? && Below(t, cid, row.parent.value)
  {
    var u := t[cid := row];
    var x := u[c].parent.value;
    var p :| Joins(u, c, x, p);
    if row.parent.None? {
      RootedChain(t, cid, row, p);
      assert Joins(t, c, x, p);
    } else {
      ReachAfterEdit(t, cid, row, row.parent.value, p);
      if c != cid && Below(t, cid, x) {
        BelowChild(t, cid, x, c);
        BelowTransitive(t, cid, c, row.parent.value);
      }
    }
  }

  /** A chain in the edited tree that never enters the company is a chain in the old one. */
  lemma RootedChain(t: Tree, cid: int, row: Company, p: seq<int>)
    requires row.parent.None? && Chain(t[cid := row], p)
    ensures Chain(t, p)
  {
    forall i | 0 < i < |p| ensures p[i] in t && t[p[i]].parent == Some(p[i - 1]) {
      assert t[cid := row][p[i]].parent == Some(p[i - 1]);
    }
  }

  lemma HeadExists(t: Tree, p: seq<int>)
    requires ParentsExist(t) && Chain(t, p) && |p| > 1
    ensures p[0] in t
  {
    var c := p[1];
    assert c in t && t[c].parent == Some(p[0]);
    assert t[c].parent.value in t;
  }

  /** A company added under an existing parent, with an id no one uses. */
  lemma AddKeepsTree(t: Tree, id: int, row: Company)
    requires IsTree(t) && id !in t && (row.parent.Some? ==> row.parent.value in t)
    ensures IsTree(t[id := row])
  {
    EditAcyclicIff(t, id, row);
    if row.parent.Some? && Below(t, id, row.parent.value) {
      var p :| Joins(t, id, row.parent.value, p);
      if |p| > 1 { HeadExists(t, p); }
    }
  }

  lemma DeleteKeepsAcyclic(t: Tree, cid: int)
    requires Acyclic(t)
    ensures Acyclic(t - {cid})
  {
    var u := t - {cid};
    forall c | c in u && u[c].parent.Some? ensures !Below(u, c, u[c].parent.value) {
      if Below(u, c, u[c].parent.value) {
        var p :| Joins(u, c, u[c].parent.value, p);
        assert Joins(t, c, t[c].parent.value, p);
      }
    }
  }

  /** Deleting a company without children. */
  lemma DeleteKeepsTree(t: Tree, cid: int)
    requires IsTree(t) && forall c | c in t :: t[c].parent != Some(cid)
    ensures IsTree(t - {cid})
  {
    DeleteKeepsAcyclic(t, cid);
  }

  // ---------------------------------------------------------------- the routes

  datatype Op =
    | Add(id: int, name: string, parent: Option<int>)
    | Edit(cid: int, name: string, parent: Option<int>)
    | Delete(cid: int)

  /** `int(raw) if raw.isdigit() and int(raw) else None`. */
  function Named(parent: Option<int>): Option<int> {
    if parent == Some(0) then None else parent
  }

  predicate NameTaken(t: Tree, name: string, except: Option<int>) {
    exists c | c in t :: t[c].name == name && Some(c) != except
  }

  predicate HasChildren(t: Tree, cid: int) {
    exists c | c in t :: t[c].parent == Some(cid)
  }

  /** One request; `staffed` are the companies users belong to. */
  ghost function Step(t: Tree, staffed: set<int>, op: Op): Tree {
    match op
    case Add(id, name, parent) =>
      if name == "" || NameTaken(t, name, None) then t else t[id := Company(name, Named(parent))]
    case Edit(cid, name, parent) =>
      if cid !in t || name == "" || NameTaken(t, name, Some(cid)) || (Named(parent).Some? && Below(t, cid, Named(parent).value)) then t
      else t[cid := Company(name, Named(parent))]
    case Delete(cid) =>
      if cid !in t || HasChildren(t, cid) || cid in staffed then t else t - {cid}
  }

  class Registry {
    var companies: Tree
    var staffed: set<int>

    /** `companies_home`; `id` is what the database hands out. */
    method Add(id: int, name: string, parent: Option<int>)
      modifies this`companies
      ensures companies == Step(old(companies), staffed, Op.Add(id, name, parent))
    {
      if name == "" || NameTaken(companies, name, None) {
        return;
      }
      companies := companies[id := Company(name, Named(parent))];
    }

    /** `company_edit`. */
    method Edit(cid: int, name: string, parent: Option<int>)
      modifies this`companies
      ensures companies == Step(old(companies), staffed, Op.Edit(cid, name, parent))
    {
      if cid !in companies || name == "" || NameTaken(companies, name, Some(cid)) {
        return;
      }
      if Named(parent).Some? {
        var below := SubtreeIds(companies, cid);
        if Named(parent).value in below {
          return;
        }
      }
      companies := companies[cid := Company(name, Named(parent))];
    }

    /** `company_delete`. */
    method Delete(cid: int)
      modifies this`companies
      ensures companies == Step(old(companies), staffed, Op.Delete(cid))
    {
      if cid in companies && !HasChildren(companies, cid) && cid !in staffed {
        companies := companies - {cid};
      }
    }
  }

  /** Two companies never have the same name, and none has the empty one. */
  ghost predicate DistinctNames(t: Tree) {
    && (forall c | c in t :: t[c].name != "")
    && (forall c, d | c in t && d in t && t[c].name == t[d].name :: c == d)
  }

  /**
    What the routes let through.  A company is added or edited exactly when its name is not
    empty and no other company's, and an edit does not put it at or below itself; it is
    deleted exactly when it exists and has neither children nor users.  No parent is named
    by 0.  Everything else changes nothing.
  */
  lemma StepMeans(t: Tree, staffed: set<int>, op: Op)
    requires op.Add? ==> op.id !in t
    ensures op.Add? ==> (
      Step(t, staffed, op) ==
        if op.name != "" && (forall c | c in t :: t[c].name != op.name)
        then t[op.id := Company(op.name, if op.parent == Some(0) then None else op.parent)] else t)
    ensures op.Edit? ==> (
      Step(t, staffed, op) ==
        if op.cid in t && op.name != "" && (forall c | c in t && c != op.cid :: t[c].name != op.name)
           && (forall p | op.parent == Some(p) && p != 0 :: !Below(t, op.cid, p))
        then t[op.cid := Company(op.name, if op.parent == Some(0) then None else op.parent)] else t)
    ensures op.Delete? ==> (op.cid !in Step(t, staffed, op) <==>
      op.cid !in t || (op.cid !in staffed && forall c | c in t :: t[c].parent != Some(op.cid)))
    ensures op.Delete? ==> forall c | c in t && c != op.cid :: c in Step(t, staffed, op) && Step(t, staffed, op)[c] == t[c]
  {}

  /** Names stay distinct and non-empty, and no company that users belong to goes. */
  lemma StepKeepsNames(t: Tree, staffed: set<int>, op: Op)
    requires DistinctNames(t) && staffed <= t.Keys && (op.Add? ==> op.id !in t)
    ensures DistinctNames(Step(t, staffed, op)) && staffed <= Step(t, staffed, op).Keys
  {
    StepMeans(t, staffed, op);
  }

  lemma {:induction false} RunKeepsNames(t: Tree, staffed: set<int>, ops: seq<Op>, n: nat)
    requires DistinctNames(t) && staffed <= t.Keys && FreshIds(t, staffed, ops) && n <= |ops|
    ensures DistinctNames(Run(t, staffed, ops[..n])) && staffed <= Run(t, staffed, ops[..n]).Keys
  {
    if n > 0 {
      RunKeepsNames(t, staffed, ops, n - 1);
      RunStep(t, staffed, ops, n - 1);
      StepKeepsNames(Run(t, staffed, ops[..n - 1]), staffed, ops[n - 1]);
    }
  }

  /** The parent the request names exists, and a new id is new. */
  predicate WellNamed(t: Tree, op: Op) {
    match op
    case Add(id, name, parent) => id !in t && (Named(parent).Some? ==> Named(parent).value in t)
    case Edit(cid, name, parent) => Named(parent).Some? ==> Named(parent).value in t
    case Delete(cid) => true
  }

  /**
    One request leaves a forest exactly when it is refused, changes nothing, or names an
    existing parent; an id the database hands out is new.
  */
  lemma StepTreeIff(t: Tree, staffed: set<int>, op: Op)
    requires IsTree(t) && (op.Add? ==> op.id !in t)
    ensures IsTree(Step(t, staffed, op)) <==> Step(t, staffed, op) == t || WellNamed(t, op)
  {
    var u := Step(t, staffed, op);
    match op
    case Add(id, name, parent) =>
      if WellNamed(t, op) { AddKeepsTree(t, id, Company(name, Named(parent))); }
      else if u != t {
        DanglesOrCycles(t, id, Company(name, Named(parent)));
      }
    case Edit(cid, name, parent) =>
      if cid in t { EditAcyclicIff(t, cid, Company(name, Named(parent))); }
      if u != t && !WellNamed(t, op) {
        DanglesOrCycles(t, cid, Company(name, Named(parent)));
      }
    case Delete(cid) => if !HasChildren(t, cid) { DeleteKeepsTree(t, cid); }
  }

  /** A row under a parent no one knows: the parent is missing still, or the row is its own parent. */
  lemma DanglesOrCycles(t: Tree, cid: int, row: Company)
    requires row.parent.Some? && row.parent.value !in t
    ensures !IsTree(t[cid := row])
  {
    var u := t[cid := row];
    assert cid in u && u[cid].parent == row.parent;
    if row.parent.value == cid { BelowSelf(u, cid); }
  }

  /**
    The one request that can close a cycle: adding a company whose new id another one named
    as its parent before, somewhere below.  The guard of the edit route keeps edits out of it.
  */
  lemma StepAcyclicIff(t: Tree, staffed: set<int>, op: Op)
    requires Acyclic(t) && (op.Add? ==> op.id !in t)
    ensures Acyclic(Step(t, staffed, op)) <==>
      Step(t, staffed, op) == t || (op.Add? && Named(op.parent).Some? ==> !Below(t, op.id, Named(op.parent).value))
  {
    match op
    case Add(id, name, parent) => EditAcyclicIff(t, id, Company(name, Named(parent)));
    case Edit(cid, name, parent) => EditAcyclicIff(t, cid, Company(name, Named(parent)));
    case Delete(cid) => DeleteKeepsAcyclic(t, cid);
  }

  ghost function Run(t: Tree, staffed: set<int>, ops: seq<Op>): Tree {
    if ops == [] then t else Step(Run(t, staffed, ops[..|ops| - 1]), staffed, ops[|ops| - 1])
  }

  /** Request `i` of a run is refused, changes nothing, or names an existing parent. */
  ghost predicate Harmless(t: Tree, staffed: set<int>, ops: seq<Op>, i: nat)
    requires i < |ops|
  {
    var now := Run(t, staffed, ops[..i]);
    Step(now, staffed, ops[i]) == now || WellNamed(now, ops[i])
  }

  /** Every id the database hands out in a run is new. */
  ghost predicate FreshIds(t: Tree, staffed: set<int>, ops: seq<Op>) {
    forall i | 0 <= i < |ops| && ops[i].Add? :: ops[i].id !in Run(t, staffed, ops[..i])
  }

  lemma RunStep(t: Tree, staffed: set<int>, ops: seq<Op>, i: nat)
    requires i < |ops|
    ensures Run(t, staffed, ops[..i + 1]) == Step(Run(t, staffed, ops[..i]), staffed, ops[i])
  {
    assert ops[..i + 1][..i] == ops[..i];
  }

  lemma {:induction false} HarmlessKeepsTree(t: Tree, staffed: set<int>, ops: seq<Op>, n: nat)
    requires IsTree(t) && FreshIds(t, staffed, ops) && n <= |ops|
    requires forall i | 0 <= i < n :: Harmless(t, staffed, ops, i)
    ensures IsTree(Run(t, staffed, ops[..n]))
  {
    if n > 0 {
      HarmlessKeepsTree(t, staffed, ops, n - 1);
      RunStep(t, staffed, ops, n - 1);
      assert Harmless(t, staffed, ops, n - 1);
      StepTreeIff(Run(t, staffed, ops[..n - 1]), staffed, ops[n - 1]);
    }
  }

  /** The companies are a forest all along a run exactly when no accepted request names a missing parent. */
  lemma RunTreeIff(t: Tree, staffed: set<int>, ops: seq<Op>)
    requires IsTree(t) && FreshIds(t, staffed, ops)
    ensures (forall n | 0 <= n <= |ops| :: IsTree(Run(t, staffed, ops[..n])))
       <==> (forall i | 0 <= i < |ops| :: Harmless(t, staffed, ops, i))
  {
    if forall n | 0 <= n <= |ops| :: IsTree(Run(t, staffed, ops[..n])) {
      forall i | 0 <= i < |ops| ensures Harmless(t, staffed, ops, i) {
        RunStep(t, staffed, ops, i);
        assert IsTree(Run(t, staffed, ops[..i])) && IsTree(Run(t, staffed, ops[..i + 1]));
        StepTreeIff(Run(t, staffed, ops[..i]), staffed, ops[i]);
      }
    } else {
      var n :| 0 <= n <= |ops| && !IsTree(Run(t, staffed, ops[..n]));
      if forall i | 0 <= i < |ops| :: Harmless(t, staffed, ops, i) {
        HarmlessKeepsTree(t, staffed, ops, n);
      }
    }
  }

  /** The routes do not check that the parent exists: naming a missing id, then adding that id below, closes a cycle. */
  lemma MissingParentCanCycle()
    ensures var t: Tree := map[1 := Company("a", None)];
      IsTree(t) && !Acyclic(Step(Step(t, {}, Op.Edit(1, "a", Some(2))), {}, Op.Add(2, "b", Some(1))))
  {
    var t: Tree := map[1 := Company("a", None)];
    if Below(t, 1, 2) {
      BelowLast(t, 1, 2);
    }
    var u := Step(t, {}, Op.Edit(1, "a", Some(2)));
    assert u == map[1 := Company("a", Some(2))];
    var v := Step(u, {}, Op.Add(2, "b", Some(1)));
    assert v == u[2 := Company("b", Some(1))];
    assert Joins(v, 1, 2, [1, 2]);
    assert Below(v, 1, v[1].parent.value);
  }

  // ---------------------------------------------------------------- the listing

  datatype Entry = Entry(company: int, depth: nat)

  /** `ranked` lists every company once, in the order siblings are shown. */
  ghost predicate Lists(t: Tree, ids: seq<int>) {
    (forall c :: c in ids <==> c in t) && forall i, j | 0 <= i < j < |ids| :: ids[i] != ids[j]
  }

  ghost predicate Shown(out: seq<Entry>, c: int) {
    exists i :: 0 <= i < |out| && out[i].company == c
  }

  /** Entry `i` stands under its parent: one deeper, with only deeper entries between. */
  ghost predicate UnderParent(t: Tree, out: seq<Entry>, i: nat, j: nat)
    requires j < i < |out| && out[i].company in t
  {
    && t[out[i].company].parent == Some(out[j].company) && out[i].depth == out[j].depth + 1
    && forall k | j < k < i :: out[k].depth > out[j].depth
  }

  /** Entry `i` is at the root: its company has no parent, or none that was shown before. */
  ghost predicate AtRoot(t: Tree, out: seq<Entry>, i: nat)
    requires i < |out| && out[i].company in t
  {
    out[i].depth == 0 && (t[out[i].company].parent.None? || !Shown(out[..i], t[out[i].company].parent.value))
  }

  ghost predicate Placed(t: Tree, out: seq<Entry>, i: nat)
    requires i < |out|
  {
    out[i].company in t && (AtRoot(t, out, i) || exists j :: 0 <= j < i && UnderParent(t, out, i, j))
  }

  /** A well-formed listing: nothing twice, everything in its place. */
  ghost predicate Listing(t: Tree, out: seq<Entry>) {
    && (forall i, j | 0 <= i < j < |out| :: out[i].company != out[j].company)
    && forall i: nat | i < |out| :: Placed(t, out, i)
  }

  /** The entries at depth `depth` or deeper that a walk below `pid` adds hang off `pid`'s own entry. */
  ghost predicate OpenAt(t: Tree, out: seq<Entry>, pid: Option<int>, depth: nat) {
    match pid
    case None => depth == 0
    case Some(x) => exists j :: 0 <= j < |out| && OpenEntry(out, x, depth, j)
  }

  ghost predicate OpenEntry(out: seq<Entry>, x: int, depth: nat, j: nat)
    requires j < |out|
  {
    out[j].company == x && out[j].depth + 1 == depth && forall k | j < k < |out| :: out[k].depth >= depth
  }

  /** Every child of `pid` has been shown. */
  ghost predicate ChildrenShown(t: Tree, out: seq<Entry>, pid: Option<int>) {
    forall c | c in t && t[c].parent == pid :: Shown(out, c)
  }

  /** What a walk leaves: a longer listing, the new entries at least `depth` deep and each with all its children shown. */
  ghost predicate Walked(t: Tree, before: seq<Entry>, out: seq<Entry>, depth: nat) {
    && before <= out && Listing(t, out)
    && forall i: nat | |before| <= i < |out| :: Settled(t, out, depth, i)
  }

  ghost predicate Settled(t: Tree, out: seq<Entry>, depth: nat, i: nat)
    requires i < |out|
  {
    out[i].depth >= depth && ChildrenShown(t, out, Some(out[i].company)) && Nested(t, out, i)
  }

  /** Entry `i` is a root company at depth 0, or stands under its parent. */
  ghost predicate Nested(t: Tree, out: seq<Entry>, i: nat)
    requires i < |out|
  {
    out[i].company in t && ((t[out[i].company].parent.None? && out[i].depth == 0) || exists j :: 0 <= j < i && UnderParent(t, out, i, j))
  }

  lemma NestedStays(t: Tree, a: seq<Entry>, b: seq<Entry>, i: nat)
    requires a <= b && i < |a| && Nested(t, a, i)
    ensures Nested(t, b, i)
  {
    if !(t[a[i].company].parent.None? && a[i].depth == 0) {
      var j :| 0 <= j < i && UnderParent(t, a, i, j);
      assert UnderParent(t, b, i, j);
    }
  }

  lemma SettledStays(t: Tree, a: seq<Entry>, b: seq<Entry>, depth: nat, i: nat)
    requires a <= b && i < |a| && Settled(t, a, depth, i)
    ensures Settled(t, b, depth, i)
  {
    NestedStays(t, a, b, i);
    ChildrenShownMore(t, a, b, Some(a[i].company));
  }

  lemma ShownMore(a: seq<Entry>, b: seq<Entry>, c: int)
    requires a <= b && Shown(a, c)
    ensures Shown(b, c)
  {
    var i :| 0 <= i < |a| && a[i].company == c;
    assert b[i].company == c;
  }

  lemma ChildrenShownMore(t: Tree, a: seq<Entry>, b: seq<Entry>, pid: Option<int>)
    requires a <= b && ChildrenShown(t, a, pid)
    ensures ChildrenShown(t, b, pid)
  {
    forall c | c in t && t[c].parent == pid ensures Shown(b, c) {
      ShownMore(a, b, c);
    }
  }

  lemma WalkedOn(t: Tree, a: seq<Entry>, b: seq<Entry>, c: seq<Entry>, depth: nat, deeper: nat)
    requires Walked(t, a, b, depth) && Walked(t, b, c, deeper) && depth <= deeper
    ensures Walked(t, a, c, depth)
  {
    forall i: nat | |a| <= i < |c| ensures Settled(t, c, depth, i) {
      if i < |b| {
        SettledStays(t, b, c, depth, i);
      } else {
        assert Settled(t, c, deeper, i);
      }
    }
  }

  lemma OpenStays(t: Tree, a: seq<Entry>, b: seq<Entry>, pid: Option<int>, depth: nat)
    requires OpenAt(t, a, pid, depth) && a <= b && forall i | |a| <= i < |b| :: b[i].depth >= depth
    ensures OpenAt(t, b, pid, depth)
  {
    if pid.Some? {
      var j :| 0 <= j < |a| && OpenEntry(a, pid.value, depth, j);
      assert OpenEntry(b, pid.value, depth, j);
    }
  }

  /** Showing the company `c` next, under `pid`. */
  lemma PlaceNext(t: Tree, out: seq<Entry>, pid: Option<int>, depth: nat, c: int)
    requires Listing(t, out) && OpenAt(t, out, pid, depth) && c in t && t[c].parent == pid && !Shown(out, c)
    ensures Listing(t, out + [Entry(c, depth)]) && Nested(t, out + [Entry(c, depth)], |out|)
  {
    var more := out + [Entry(c, depth)];
    if pid.None? {
      assert AtRoot(t, more, |out|);
    } else {
      var j :| 0 <= j < |out| && OpenEntry(out, pid.value, depth, j);
      assert UnderParent(t, more, |out|, j);
    }
    Appended(t, out, Entry(c, depth));
  }

  lemma Appended(t: Tree, out: seq<Entry>, e: Entry)
    requires Listing(t, out) && !Shown(out, e.company) && Placed(t, out + [e], |out|)
    ensures Listing(t, out + [e])
  {
    var more := out + [e];
    forall i: nat | i < |more| ensures Placed(t, more, i) {
      if i < |out| {
        StillPlaced(t, out, e, i);
      }
    }
  }

  lemma StillPlaced(t: Tree, out: seq<Entry>, e: Entry, i: nat)
    requires i < |out| && Placed(t, out, i)
    ensures Placed(t, out + [e], i)
  {
    var more := out + [e];
    assert more[..i] == out[..i];
    if AtRoot(t, out, i) {
      assert AtRoot(t, more, i);
    } else {
      var j :| 0 <= j < i && UnderParent(t, out, i, j);
      assert UnderParent(t, more, i, j);
    }
  }

  lemma DeepEnough(t: Tree, a: seq<Entry>, b: seq<Entry>, depth: nat)
    requires Walked(t, a, b, depth)
    ensures forall i | |a| <= i < |b| :: b[i].depth >= depth
  {
    forall i: nat | |a| <= i < |b| ensures b[i].depth >= depth {
      assert Settled(t, b, depth, i);
    }
  }

  lemma OneEntry(t: Tree, a: seq<Entry>, b: seq<Entry>, c: seq<Entry>, depth: nat, x: int)
    requires b == a + [Entry(x, depth)] && Walked(t, b, c, depth + 1) && ChildrenShown(t, c, Some(x)) && Nested(t, b, |a|)
    ensures Walked(t, a, c, depth)
  {
    forall i: nat | |a| <= i < |c| ensures Settled(t, c, depth, i) {
      if i == |a| {
        NestedStays(t, b, c, i);
      } else {
        assert Settled(t, c, depth + 1, i);
      }
    }
  }

  ghost predicate Earlier(ranked: seq<int>, a: int, b: int) {
    exists x, y :: 0 <= x < y < |ranked| && ranked[x] == a && ranked[y] == b
  }

  /** Two entries of one depth with nothing shallower between: siblings, where everything is nested. */
  ghost predicate Level(out: seq<Entry>, i: nat, k: nat)
    requires i < k < |out|
  {
    out[i].depth == out[k].depth && forall m | i < m < k :: out[m].depth >= out[i].depth
  }

  /** From entry `from` on, siblings come in rank order. */
  ghost predicate InRank(ranked: seq<int>, out: seq<Entry>, from: nat) {
    forall i: nat, k: nat | from <= i < k < |out| && Level(out, i, k) :: Earlier(ranked, out[i].company, out[k].company)
  }

  /** The entries from `from` on at depth `depth` are among the first `n` of the ranking. */
  ghost predicate UpToRank(ranked: seq<int>, out: seq<Entry>, from: nat, depth: nat, n: nat)
    requires n <= |ranked|
  {
    forall i | from <= i < |out| && out[i].depth == depth :: out[i].company in ranked[..n]
  }

  /** `out` is `mid` with the subtree of `ranked[n]` added at depth `depth`. */
  ghost predicate Branch(ranked: seq<int>, mid: seq<Entry>, out: seq<Entry>, depth: nat, n: nat)
    requires n < |ranked|
  {
    && |mid| < |out| && mid == out[..|mid|] && out[|mid|] == Entry(ranked[n], depth)
    && (forall i | |mid| < i < |out| :: out[i].depth > depth) && InRank(ranked, out, |mid| + 1)
  }

  lemma BranchKeepsRank(ranked: seq<int>, mid: seq<Entry>, out: seq<Entry>, from: nat, depth: nat, n: nat)
    requires n < |ranked| && from <= |mid| && Branch(ranked, mid, out, depth, n)
    requires InRank(ranked, mid, from) && UpToRank(ranked, mid, from, depth, n)
    requires forall i | from <= i < |mid| :: mid[i].depth >= depth
    ensures InRank(ranked, out, from) && UpToRank(ranked, out, from, depth, n + 1)
  {
    forall i: nat, k: nat | from <= i < k < |out| && Level(out, i, k) ensures Earlier(ranked, out[i].company, out[k].company) {
      if k < |mid| {
        assert Level(mid, i, k);
      } else if i < |mid| {
        assert k == |mid|;
        assert mid[i].company in ranked[..n];
      }
    }
    assert ranked[n] in ranked[..n + 1] && forall x | x in ranked[..n] :: x in ranked[..n + 1];
  }

  class Lister {
    const t: Tree
    const ranked: seq<int>
    var out: seq<Entry>
    var seen: set<int>

    ghost predicate Valid()
      reads this
    {
      Lists(t, ranked) && Listing(t, out) && (forall c :: c in seen <==> Shown(out, c))
    }

    constructor (t: Tree, ranked: seq<int>)
      requires Lists(t, ranked)
      ensures Valid() && this.t == t && this.ranked == ranked && out == []
    {
      this.t, this.ranked, out, seen := t, ranked, [], {};
    }

    lemma SeenExist()
      requires Valid()
      ensures seen <= t.Keys
    {
      forall c | c in seen ensures c in t {
        var i :| 0 <= i < |out| && out[i].company == c;
        assert Placed(t, out, i);
      }
    }

    method Show(c: int, depth: nat)
      requires Valid() && c !in seen && Listing(t, out + [Entry(c, depth)])
      modifies this
      ensures Valid() && out == old(out) + [Entry(c, depth)] && seen == old(seen) + {c}
    {
      seen := seen + {c};
      out := out + [Entry(c, depth)];
      forall x ensures x in seen <==> Shown(out, x) {
        if x in old(seen) {
          ShownMore(old(out), out, x);
        }
        if Shown(out, x) && x != c {
          var i :| 0 <= i < |out| && out[i].company == x;
          assert old(out)[i].company == x;
        }
        if x == c {
          assert out[|out| - 1].company == c;
        }
      }
    }

    /** `walk`: the children of `pid` not yet shown, each followed by its own subtree. */
    method Walk(pid: Option<int>, depth: nat)
      requires Valid() && OpenAt(t, out, pid, depth)
      modifies this
      ensures Valid() && old(seen) <= seen && Walked(t, old(out), out, depth) && ChildrenShown(t, out, pid)
      ensures InRank(ranked, out, |old(out)|)
      decreases t.Keys - seen, 1
    {
      for n := 0 to |ranked|
        invariant Valid() && old(seen) <= seen && Walked(t, old(out), out, depth) && OpenAt(t, out, pid, depth)
        invariant forall c | c in ranked[..n] && c in t && t[c].parent == pid :: Shown(out, c)
        invariant InRank(ranked, out, |old(out)|) && UpToRank(ranked, out, |old(out)|, depth, n)
      {
        var c := ranked[n];
        assert c in ranked;
        ghost var before := out;
        if t[c].parent == pid && c !in seen {
          Visit(pid, depth, n);
          DeepEnough(t, old(out), before, depth);
          BranchKeepsRank(ranked, before, out, |old(out)|, depth, n);
          WalkedOn(t, old(out), before, out, depth, depth);
        }
        forall x | x in ranked[..n] && x in t && t[x].parent == pid ensures Shown(out, x) {
          ShownMore(before, out, x);
        }
      }
    }

    method Visit(pid: Option<int>, depth: nat, n: nat)
      requires Valid() && OpenAt(t, out, pid, depth) && n < |ranked| && ranked[n] in t && t[ranked[n]].parent == pid && ranked[n] !in seen
      modifies this
      ensures Valid() && old(seen) <= seen && Walked(t, old(out), out, depth) && Shown(out, ranked[n]) && OpenAt(t, out, pid, depth)
      ensures Branch(ranked, old(out), out, depth, n)
      decreases t.Keys - seen, 0
    {
      var c := ranked[n];
      PlaceNext(t, out, pid, depth, c);
      Show(c, depth);
      assert OpenEntry(out, c, depth + 1, |out| - 1);
      ghost var shown := out;
      Walk(Some(c), depth + 1);
      ShownMore(shown, out, c);
      OneEntry(t, old(out), shown, out, depth, c);
      DeepEnough(t, old(out), out, depth);
      DeepEnough(t, shown, out, depth + 1);
      OpenStays(t, old(out), out, pid, depth);
    }

    /** `_company_tree`: the trees under the root companies, then what no root leads to. */
    method Tree(rows: seq<int>)
      requires Valid() && Lists(t, rows) && out == []
      modifies this
      ensures Listing(t, out) && forall c :: Shown(out, c) <==> c in t
      ensures IsTree(t) ==> InRank(ranked, out, 0) && forall i: nat | i < |out| :: Nested(t, out, i)
    {
      Walk(None, 0);
      ghost var first := out;
      forall i: nat | i < |out| ensures ChildrenShown(t, out, Some(out[i].company)) {
        assert Settled(t, out, 0, i);
      }
      SeenExist();
      if IsTree(t) {
        ClosedSeen(t, [], out, 0, seen);
        forall c | c in t ensures c in seen {
          RootsReachAll(t, seen, [c]);
        }
      }
      for n := 0 to |rows|
        invariant Valid() && Finished(t, out) && first <= out && (IsTree(t) ==> out == first && seen == t.Keys)
        invariant forall c | c in rows[..n] :: Shown(out, c)
      {
        var c := rows[n];
        assert c in rows;
        ghost var before := out;
        if c !in seen {
          Stray(c);
        }
        forall x | x in rows[..n + 1] ensures Shown(out, x) {
          if x in rows[..n] {
            ShownMore(before, out, x);
          }
        }
      }
      SeenExist();
      assert rows[..|rows|] == rows;
      if IsTree(t) {
        forall i: nat | i < |out| ensures Nested(t, out, i) {
          assert Settled(t, first, 0, i);
        }
      }
    }

    /** A company whose parent is missing, or in a cycle, heads a tree of its own. */
    method Stray(c: int)
      requires Valid() && Finished(t, out) && c in t && c !in seen
      modifies this
      ensures Valid() && Finished(t, out) && old(out) <= out && Shown(out, c)
    {
      StrayPlace(t, out, c);
      Show(c, 0);
      ghost var shown := out;
      assert OpenEntry(out, c, 1, |out| - 1);
      Walk(Some(c), 1);
      ShownMore(shown, out, c);
      FinishedStray(t, old(out), shown, out, c);
    }
  }

  /** Everything shown has all its children shown. */
  ghost predicate Finished(t: Tree, out: seq<Entry>) {
    Listing(t, out) && forall i | 0 <= i < |out| :: ChildrenShown(t, out, Some(out[i].company))
  }

  lemma ChildShown(t: Tree, out: seq<Entry>, c: int)
    requires Finished(t, out) && c in t
    ensures t[c].parent.Some? && Shown(out, t[c].parent.value) ==> Shown(out, c)
  {
    if t[c].parent.Some? && Shown(out, t[c].parent.value) {
      var i :| 0 <= i < |out| && out[i].company == t[c].parent.value;
      assert ChildrenShown(t, out, Some(out[i].company));
    }
  }

  lemma StrayPlace(t: Tree, out: seq<Entry>, c: int)
    requires Finished(t, out) && c in t && !Shown(out, c)
    ensures Listing(t, out + [Entry(c, 0)])
  {
    var more := out + [Entry(c, 0)];
    assert more[..|out|] == out;
    ChildShown(t, out, c);
    assert AtRoot(t, more, |out|);
    Appended(t, out, Entry(c, 0));
  }

  lemma FinishedStray(t: Tree, a: seq<Entry>, b: seq<Entry>, c: seq<Entry>, x: int)
    requires Finished(t, a) && b == a + [Entry(x, 0)] && Walked(t, b, c, 1) && ChildrenShown(t, c, Some(x))
    ensures Finished(t, c) && a <= c
  {
    forall i | 0 <= i < |c| ensures ChildrenShown(t, c, Some(c[i].company)) {
      if i < |a| {
        ChildrenShownMore(t, a, c, Some(a[i].company));
      } else if i > |a| {
        assert Settled(t, c, 1, i);
      }
    }
  }

  /** `seen` holds the root companies and, with a company, its children. */
  ghost predicate ClosedDown(t: Tree, seen: set<int>) {
    forall c | c in t && (t[c].parent.None? || t[c].parent.value in seen) :: c in seen
  }

  lemma ClosedSeen(t: Tree, before: seq<Entry>, out: seq<Entry>, depth: nat, seen: set<int>)
    requires before == [] && Walked(t, before, out, depth) && ChildrenShown(t, out, None) && forall c :: c in seen <==> Shown(out, c)
    ensures ClosedDown(t, seen)
  {
    forall c | c in t && (t[c].parent.None? || t[c].parent.value in seen) ensures c in seen {
      if t[c].parent.Some? {
        var i :| 0 <= i < |out| && out[i].company == t[c].parent.value;
        assert Settled(t, out, depth, i);
      }
    }
  }

  function Members(p: seq<int>): set<int> {
    set c | c in p
  }

  /** In a forest every company is reached from a root. */
  lemma {:induction false} RootsReachAll(t: Tree, seen: set<int>, p: seq<int>)
    requires IsTree(t) && ClosedDown(t, seen) && Chain(t, p) && forall c | c in p :: c in t
    ensures p[0] in seen
    decreases t.Keys - Members(p)
  {
    var c := p[0];
    if t[c].parent.Some? {
      var x := t[c].parent.value;
      if x in p {
        var j :| 0 <= j < |p| && p[j] == x;
        assert Joins(t, c, x, p[..j + 1]);
        assert false;
      } else {
        var q := [x] + p;
        assert forall i | 1 < i < |q| :: q[i] == p[i - 1];
        assert q[1] == c;
        assert t[c].parent.value in t;
        assert Members(q) == Members(p) + {x};
        assert x in t.Keys - Members(p);
        RootsReachAll(t, seen, q);
      }
    }
  }
}
