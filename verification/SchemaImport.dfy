/**
  The import itself (app/schema_io.py): one loop per pass over the file, each growing its
  id map, and one transaction around them.  Every pass is proved to compute the rows and
  the map that SchemaIo specifies.
*/
module SchemaImport {
  import opened Wrappers
  import opened SchemaIo

  datatype Problem = Unsupported | NotEmpty | Taken | Dangling

  // ---------------------------------------------------------------- the passes

  lemma AssignedSnoc(ids: seq<int>, x: int, next: int)
    ensures Assigned(ids + [x], next) == Assigned(ids, next)[x := next + |ids|]
  {
    assert (ids + [x])[..|ids|] == ids;
  }

  method AddTables(ts: seq<Table>, next: int) returns (rows: seq<Table>, tmap: Ids)
    ensures tmap == Assigned(TableIds(ts), next)
    ensures |rows| == |ts| && forall i | 0 <= i < |ts| :: rows[i] == ts[i].(id := next + i, display := None)
  {
    rows, tmap := [], map[];
    for n := 0 to |ts|
      invariant tmap == Assigned(TableIds(ts[..n]), next) && |rows| == n
      invariant forall i | 0 <= i < n :: rows[i] == ts[i].(id := next + i, display := None)
    {
      assert TableIds(ts[..n + 1]) == TableIds(ts[..n]) + [ts[n].id];
      AssignedSnoc(TableIds(ts[..n]), ts[n].id, next);
      rows, tmap := rows + [ts[n].(id := next + n, display := None)], tmap[ts[n].id := next + n];
    }
    assert ts[..|ts|] == ts;
  }

  lemma ScalarStep(fs: seq<Field>, n: nat)
    requires n < |fs|
    ensures Scalars(fs[..n + 1]) == if IsRelationField(fs[n]) then Scalars(fs[..n]) else Scalars(fs[..n]) + [fs[n]]
  {
    assert fs[..n + 1][..n] == fs[..n];
  }

  lemma FieldAdded(made: seq<Field>, fields: seq<Field>, t: Ids, next: int, f: Field)
    requires MadeInOrder(made, fields, t, next)
    ensures MadeInOrder(made + [f], fields + [MakeField(f, t, next + |fields|)], t, next)
    ensures Assigned(FieldIds(made), next)[f.id := next + |fields|] == Assigned(FieldIds(made + [f]), next)
  {
    assert FieldIds(made + [f]) == FieldIds(made) + [f.id];
    AssignedSnoc(FieldIds(made), f.id, next);
  }

  method AddScalars(fs: seq<Field>, tmap: Ids, next: int) returns (ok: bool, rows: seq<Field>, fmap: Ids)
    ensures ok <==> forall f | f in fs && !IsRelationField(f) :: f.table in tmap
    ensures ok ==> fmap == Assigned(FieldIds(Scalars(fs)), next) && MadeInOrder(Scalars(fs), rows, tmap, next)
  {
    ok, rows, fmap := true, [], map[];
    for n := 0 to |fs|
      invariant ok && forall f | f in fs[..n] && !IsRelationField(f) :: f.table in tmap
      invariant fmap == Assigned(FieldIds(Scalars(fs[..n])), next) && MadeInOrder(Scalars(fs[..n]), rows, tmap, next)
    {
      var f := fs[n];
      ScalarStep(fs, n);
      if IsRelationField(f) {
        continue;
      }
      if f.table !in tmap {
        ok := false;
        return;
      }
      FieldAdded(Scalars(fs[..n]), rows, tmap, next, f);
      fmap := fmap[f.id := next + |rows|];
      rows := rows + [MakeField(f, tmap, next + |rows|)];
    }
    assert fs[..|fs|] == fs;
  }

  /** The state of the relation pass after `n` relations. */
  ghost predicate Reached(d: Doc, n: nat, t: Ids, c: Counters, fields: seq<Field>, fmap: Ids, rows: seq<Relation>, rmap: Ids)
    requires n <= |d.relations|
  {
    && MadeInOrder(FieldOrder(d, n), fields, t, c.f) && fmap == FieldMap(d, n, c.f)
    && rows == NewRelations(d, n, t, c) && rmap == Assigned(RelationIds(RelationOrder(d, n)), c.r)
    && |rows| == |RelationOrder(d, n)|
  }

  lemma KeyReached(d: Doc, n: nat, t: Ids, c: Counters, fields: seq<Field>, fmap: Ids, f: Field)
    requires n < |d.relations| && d.relations[n].kind == M1 && FindField(d.fields, d.relations[n].fromField) == Some(f)
    requires MadeInOrder(FieldOrder(d, n), fields, t, c.f) && fmap == FieldMap(d, n, c.f)
    ensures MadeInOrder(FieldOrder(d, n + 1), fields + [MakeField(f, t, c.f + |fields|)], t, c.f)
    ensures fmap[f.id := c.f + |fields|] == FieldMap(d, n + 1, c.f)
  {
    FieldAdded(FieldOrder(d, n), fields, t, c.f, f);
  }

  lemma NoKeyReached(d: Doc, n: nat)
    requires n < |d.relations| && (d.relations[n].kind == MN || FindField(d.fields, d.relations[n].fromField).None?)
    ensures FieldOrder(d, n + 1) == FieldOrder(d, n)
  {}

  lemma RowReached(d: Doc, n: nat, t: Ids, c: Counters, fmap: Ids, rows: seq<Relation>)
    requires n < |d.relations| && Kept(d, d.relations[n]) && fmap == FieldMap(d, n + 1, c.f) && rows == NewRelations(d, n, t, c)
    ensures rows + [MakeRelation(d, d.relations[n], t, fmap, c.r + |rows|)] == NewRelations(d, n + 1, t, c)
  {}

  lemma IdReached(d: Doc, n: nat, next: int, rmap: Ids)
    requires n < |d.relations| && Kept(d, d.relations[n]) && rmap == Assigned(RelationIds(RelationOrder(d, n)), next)
    ensures rmap[d.relations[n].id := next + |RelationOrder(d, n)|] == Assigned(RelationIds(RelationOrder(d, n + 1)), next)
    ensures |RelationOrder(d, n)| + 1 == |RelationOrder(d, n + 1)|
  {
    var r, done := d.relations[n], RelationOrder(d, n);
    assert RelationOrder(d, n + 1) == done + [r];
    assert RelationIds(done + [r]) == RelationIds(done) + [r.id];
    AssignedSnoc(RelationIds(done), r.id, next);
  }

  lemma NoRowReached(d: Doc, n: nat, t: Ids, c: Counters)
    requires n < |d.relations| && !Kept(d, d.relations[n])
    ensures NewRelations(d, n + 1, t, c) == NewRelations(d, n, t, c) && RelationOrder(d, n + 1) == RelationOrder(d, n)
    ensures FieldOrder(d, n + 1) == FieldOrder(d, n)
  {}

  /** One round of the relation pass: the FK field first, then the relation itself. */
  method AddRelation(d: Doc, n: nat, tmap: Ids, c: Counters, fields0: seq<Field>, fmap0: Ids, rows0: seq<Relation>, rmap0: Ids)
    returns (fields: seq<Field>, fmap: Ids, rows: seq<Relation>, rmap: Ids)
    requires n < |d.relations| && Kept(d, d.relations[n]) && Reached(d, n, tmap, c, fields0, fmap0, rows0, rmap0)
    ensures Reached(d, n + 1, tmap, c, fields, fmap, rows, rmap)
  {
    fields, fmap := fields0, fmap0;
    var r := d.relations[n];
    if r.kind == M1 {
      var f := FindField(d.fields, r.fromField).value;
      KeyReached(d, n, tmap, c, fields0, fmap0, f);
      fmap := fmap[f.id := c.f + |fields|];
      fields := fields + [MakeField(f, tmap, c.f + |fields|)];
    } else {
      NoKeyReached(d, n);
    }
    RowReached(d, n, tmap, c, fmap, rows0);
    IdReached(d, n, c.r, rmap0);
    rmap := rmap0[r.id := c.r + |rows0|];
    rows := rows0 + [MakeRelation(d, r, tmap, fmap, c.r + |rows0|)];
  }

  lemma SkipReached(d: Doc, n: nat, t: Ids, c: Counters, fields: seq<Field>, fmap: Ids, rows: seq<Relation>, rmap: Ids)
    requires n < |d.relations| && !Kept(d, d.relations[n]) && Reached(d, n, t, c, fields, fmap, rows, rmap)
    ensures Reached(d, n + 1, t, c, fields, fmap, rows, rmap)
  {
    NoRowReached(d, n, t, c);
  }

  ghost predicate Resolved(d: Doc, n: nat)
    requires n <= |d.relations|
  {
    forall i | 0 <= i < n && Kept(d, d.relations[i]) :: RelationResolves(d, d.relations[i])
  }

  lemma AllResolved(d: Doc)
    ensures Resolved(d, |d.relations|) <==> forall r | r in d.relations && Kept(d, r) :: RelationResolves(d, r)
  {}

  method AddRelations(d: Doc, tmap: Ids, scalars: seq<Field>, smap: Ids, c: Counters)
    returns (ok: bool, fields: seq<Field>, fmap: Ids, rows: seq<Relation>, rmap: Ids)
    requires tmap.Keys == set t | t in d.tables :: t.id
    requires MadeInOrder(Scalars(d.fields), scalars, tmap, c.f) && smap == Assigned(FieldIds(Scalars(d.fields)), c.f)
    ensures ok <==> forall r | r in d.relations && Kept(d, r) :: RelationResolves(d, r)
    ensures ok ==> Reached(d, |d.relations|, tmap, c, fields, fmap, rows, rmap)
  {
    ok, fields, fmap, rows, rmap := true, scalars, smap, [], map[];
    for n := 0 to |d.relations|
      invariant ok && Resolved(d, n) && Reached(d, n, tmap, c, fields, fmap, rows, rmap)
    {
      var r := d.relations[n];
      if !Kept(d, r) {
        SkipReached(d, n, tmap, c, fields, fmap, rows, rmap);
      } else if RelationResolves(d, r) {
        fields, fmap, rows, rmap := AddRelation(d, n, tmap, c, fields, fmap, rows, rmap);
      } else {
        assert r in d.relations;
        ok := false;
        return;
      }
    }
    AllResolved(d);
  }

  /** The link of row `j` after the first `n` entries have been linked, ids repeated or not. */
  function LinkBy(ids: seq<int>, links: seq<Option<int>>, m: Ids, n: nat, j: nat): Option<int>
    requires |links| == |ids| && n <= |ids| && j < |ids|
  {
    if LastWith(ids, j) then LinkOf(ids[..n], links[..n], m, ids[j]) else None
  }

  /** One entry is linked: the row its id stands for, and no other. */
  lemma LinkNext(ids: seq<int>, links: seq<Option<int>>, m: Ids, next: int, n: nat, j: nat)
    requires |links| == |ids| && n < |ids| && j < |ids|
    ensures ids[n] in Assigned(ids, next)
    ensures LinkBy(ids, links, m, n + 1, j)
      == if Get(m, links[n]).Some? && Assigned(ids, next)[ids[n]] == next + j then Get(m, links[n]) else LinkBy(ids, links, m, n, j)
  {
    AssignedTo(ids, next, ids[n], j);
    assert ids[..n + 1][..n] == ids[..n] && links[..n + 1][..n] == links[..n];
  }

  lemma LinkDone(ids: seq<int>, links: seq<Option<int>>, m: Ids, j: nat)
    requires |links| == |ids| && j < |ids|
    ensures LinkBy(ids, links, m, 0, j) == None && LinkBy(ids, links, m, |ids|, j) == LinkAt(ids, links, m, j)
  {
    assert ids[..|ids|] == ids && links[..|ids|] == links;
  }

  /** The first `n` tables have had their displays set. */
  ghost predicate Shown(ts: seq<Table>, rows: seq<Table>, fmap: Ids, next: int, n: nat)
    requires n <= |ts|
  {
    && |rows| == |ts|
    && forall j | 0 <= j < |ts| :: rows[j] == ts[j].(id := next + j, display := LinkBy(TableIds(ts), Displays(ts), fmap, n, j))
  }

  function SetDisplay(rows: seq<Table>, id: int, display: Option<int>): seq<Table> {
    seq(|rows|, j requires 0 <= j < |rows| => if rows[j].id == id then rows[j].(display := display) else rows[j])
  }

  lemma ShowOne(ts: seq<Table>, rows: seq<Table>, fmap: Ids, next: int, n: nat)
    requires n < |ts| && Shown(ts, rows, fmap, next, n)
    ensures ts[n].id in Assigned(TableIds(ts), next)
    ensures var display := Get(fmap, ts[n].display);
      Shown(ts, if display.Some? then SetDisplay(rows, Assigned(TableIds(ts), next)[ts[n].id], display) else rows, fmap, next, n + 1)
  {
    LinkNext(TableIds(ts), Displays(ts), fmap, next, n, n);
    forall j | 0 <= j < |ts| ensures rows[j].id == next + j {
    }
    forall j | 0 <= j < |ts|
      ensures LinkBy(TableIds(ts), Displays(ts), fmap, n + 1, j)
        == if Get(fmap, ts[n].display).Some? && Assigned(TableIds(ts), next)[ts[n].id] == next + j then Get(fmap, ts[n].display)
           else LinkBy(TableIds(ts), Displays(ts), fmap, n, j) {
      LinkNext(TableIds(ts), Displays(ts), fmap, next, n, j);
    }
  }

  lemma NoneShown(ts: seq<Table>, created: seq<Table>, fmap: Ids, next: int)
    requires |created| == |ts| && forall i | 0 <= i < |ts| :: created[i] == ts[i].(id := next + i, display := None)
    ensures Shown(ts, created, fmap, next, 0)
  {
    forall j | 0 <= j < |ts| ensures LinkBy(TableIds(ts), Displays(ts), fmap, 0, j) == None {
      LinkDone(TableIds(ts), Displays(ts), fmap, j);
    }
  }

  lemma AllShown(ts: seq<Table>, rows: seq<Table>, fmap: Ids, next: int)
    requires Shown(ts, rows, fmap, next, |ts|)
    ensures rows == NewTables(ts, fmap, next)
  {
    forall j | 0 <= j < |ts| ensures rows[j] == NewTables(ts, fmap, next)[j] {
      LinkDone(TableIds(ts), Displays(ts), fmap, j);
    }
  }

  method SetDisplays(ts: seq<Table>, created: seq<Table>, tmap: Ids, fmap: Ids, next: int) returns (rows: seq<Table>)
    requires tmap == Assigned(TableIds(ts), next)
    requires |created| == |ts| && forall i | 0 <= i < |ts| :: created[i] == ts[i].(id := next + i, display := None)
    ensures rows == NewTables(ts, fmap, next)
  {
    rows := created;
    NoneShown(ts, created, fmap, next);
    for n := 0 to |ts|
      invariant Shown(ts, rows, fmap, next, n)
    {
      ShowOne(ts, rows, fmap, next, n);
      var display := Get(fmap, ts[n].display);
      if display.Some? {
        rows := SetDisplay(rows, tmap[ts[n].id], display);
      }
    }
    AllShown(ts, rows, fmap, next);
  }

  method AddForms(fs: seq<Form>, tmap: Ids, next: int) returns (ok: bool, rows: seq<Form>, formmap: Ids)
    ensures ok <==> forall f | f in fs :: f.table in tmap
    ensures ok ==> formmap == Assigned(FormIds(fs), next) && rows == NewForms(fs, tmap, next)
  {
    ok, rows, formmap := true, [], map[];
    for n := 0 to |fs|
      invariant ok && forall f | f in fs[..n] :: f.table in tmap
      invariant formmap == Assigned(FormIds(fs[..n]), next) && rows == NewForms(fs[..n], tmap, next)
    {
      var f := fs[n];
      if f.table !in tmap {
        ok := false;
        return;
      }
      assert FormIds(fs[..n + 1]) == FormIds(fs[..n]) + [f.id];
      AssignedSnoc(FormIds(fs[..n]), f.id, next);
      rows, formmap := rows + [f.(id := next + n, table := tmap[f.table])], formmap[f.id := next + n];
    }
    assert fs[..|fs|] == fs;
  }

  method AddItems(its: seq<FormField>, m: Maps, next: int) returns (rows: seq<FormField>)
    ensures rows == NewItems(its, m, next)
  {
    rows := [];
    for n := 0 to |its|
      invariant rows == NewItems(its[..n], m, next)
    {
      var it := its[n];
      assert its[..n + 1][..n] == its[..n];
      var field, relation := Get(m.f, it.field), Get(m.r, it.relation);
      if it.form !in m.form || (it.kind == "field" && field.None?) || (it.kind == "relation" && relation.None?) {
        assert NewItems(its[..n + 1], m, next) == NewItems(its[..n], m, next);
        continue;
      }
      rows := rows + [FormField(next + |rows|, m.form[it.form], it.kind, field, relation, Get(m.f, it.parent), Get(m.f, it.filter), it.rest)];
    }
    assert its[..|its|] == its;
  }

  function Unwired(x: Menu, m: Maps, id: int, shift: int): Menu {
    NewMenu(x, None, m, id, shift)
  }

  lemma MenuIdStep(ms: seq<Menu>, next: int, n: nat)
    requires n < |ms|
    ensures Assigned(MenuIds(ms[..n + 1]), next) == Assigned(MenuIds(ms[..n]), next)[ms[n].id := next + n]
  {
    assert MenuIds(ms[..n + 1]) == MenuIds(ms[..n]) + [ms[n].id];
    AssignedSnoc(MenuIds(ms[..n]), ms[n].id, next);
  }

  method AddMenus(ms: seq<Menu>, m: Maps, next: int, shift: int) returns (rows: seq<Menu>, menumap: Ids)
    ensures menumap == Assigned(MenuIds(ms), next)
    ensures |rows| == |ms| && forall i | 0 <= i < |ms| :: rows[i] == Unwired(ms[i], m, next + i, shift)
  {
    rows, menumap := [], map[];
    for n := 0 to |ms|
      invariant menumap == Assigned(MenuIds(ms[..n]), next)
      invariant |rows| == n && forall i | 0 <= i < n :: rows[i] == Unwired(ms[i], m, next + i, shift)
    {
      MenuIdStep(ms, next, n);
      menumap := menumap[ms[n].id := next + n];
      rows := rows + [Unwired(ms[n], m, next + n, shift)];
    }
    assert ms[..|ms|] == ms;
  }

  function SetParent(rows: seq<Menu>, id: int, parent: Option<int>): seq<Menu> {
    seq(|rows|, j requires 0 <= j < |rows| => if rows[j].id == id then rows[j].(parent := parent) else rows[j])
  }

  /** The first `n` menus have been wired to their parents. */
  ghost predicate Wired(ms: seq<Menu>, rows: seq<Menu>, m: Maps, next: int, shift: int, n: nat)
    requires n <= |ms|
  {
    && |rows| == |ms|
    && forall j | 0 <= j < |ms| :: rows[j] == NewMenu(ms[j], LinkBy(MenuIds(ms), Parents(ms), m.menu, n, j), m, next + j, shift)
  }

  lemma WireOne(ms: seq<Menu>, rows: seq<Menu>, m: Maps, next: int, shift: int, n: nat)
    requires n < |ms| && Wired(ms, rows, m, next, shift, n)
    ensures ms[n].id in Assigned(MenuIds(ms), next)
    ensures var parent := Get(m.menu, ms[n].parent);
      Wired(ms, if parent.Some? then SetParent(rows, Assigned(MenuIds(ms), next)[ms[n].id], parent) else rows, m, next, shift, n + 1)
  {
    LinkNext(MenuIds(ms), Parents(ms), m.menu, next, n, n);
    forall j | 0 <= j < |ms|
      ensures LinkBy(MenuIds(ms), Parents(ms), m.menu, n + 1, j)
        == if Get(m.menu, ms[n].parent).Some? && Assigned(MenuIds(ms), next)[ms[n].id] == next + j then Get(m.menu, ms[n].parent)
           else LinkBy(MenuIds(ms), Parents(ms), m.menu, n, j) {
      LinkNext(MenuIds(ms), Parents(ms), m.menu, next, n, j);
    }
  }

  lemma AllWired(ms: seq<Menu>, rows: seq<Menu>, m: Maps, next: int, shift: int)
    requires Wired(ms, rows, m, next, shift, |ms|)
    ensures rows == NewMenus(ms, m, next, shift)
  {
    forall j | 0 <= j < |ms| ensures rows[j] == NewMenus(ms, m, next, shift)[j] {
      LinkDone(MenuIds(ms), Parents(ms), m.menu, j);
    }
  }

  method WireMenus(ms: seq<Menu>, created: seq<Menu>, m: Maps, next: int, shift: int) returns (rows: seq<Menu>)
    requires m.menu == Assigned(MenuIds(ms), next) && Wired(ms, created, m, next, shift, 0)
    ensures rows == NewMenus(ms, m, next, shift)
  {
    rows := created;
    for n := 0 to |ms|
      invariant Wired(ms, rows, m, next, shift, n)
    {
      WireOne(ms, rows, m, next, shift, n);
      var parent := Get(m.menu, ms[n].parent);
      if parent.Some? {
        rows := SetParent(rows, m.menu[ms[n].id], parent);
      }
    }
    AllWired(ms, rows, m, next, shift);
  }

  lemma FlowStep(ws: seq<Flow>, m: Maps, next: int, n: nat)
    requires n < |ws|
    ensures !FlowKept(ws[n], m) ==> KeptFlows(ws[..n + 1], m) == KeptFlows(ws[..n], m)
    ensures FlowKept(ws[n], m) ==> var id := next + |NewFlows(ws[..n], m, next)|;
      && NewFlows(ws[..n + 1], m, next) == NewFlows(ws[..n], m, next) + [Flow(id, m.t[ws[n].table], m.f[ws[n].field], ws[n].rest)]
      && Assigned(FlowIds(KeptFlows(ws[..n + 1], m)), next) == Assigned(FlowIds(KeptFlows(ws[..n], m)), next)[ws[n].id := id]
  {
    var kept, w := KeptFlows(ws[..n], m), ws[n];
    assert ws[..n + 1][..n] == ws[..n];
    if FlowKept(w, m) {
      assert KeptFlows(ws[..n + 1], m) == kept + [w];
      assert FlowIds(kept + [w]) == FlowIds(kept) + [w.id];
      AssignedSnoc(FlowIds(kept), w.id, next);
    }
  }

  method AddFlows(ws: seq<Flow>, m: Maps, next: int) returns (rows: seq<Flow>, flowmap: Ids)
    ensures rows == NewFlows(ws, m, next) && flowmap == Assigned(FlowIds(KeptFlows(ws, m)), next)
  {
    rows, flowmap := [], map[];
    for n := 0 to |ws|
      invariant rows == NewFlows(ws[..n], m, next) && flowmap == Assigned(FlowIds(KeptFlows(ws[..n], m)), next)
    {
      var w := ws[n];
      FlowStep(ws, m, next, n);
      if w.table in m.t && w.field in m.f {
        flowmap := flowmap[w.id := next + |rows|];
        rows := rows + [Flow(next + |rows|, m.t[w.table], m.f[w.field], w.rest)];
      }
    }
    assert ws[..|ws|] == ws;
  }

  method AddSteps(ss: seq<Step>, m: Maps, next: int) returns (rows: seq<Step>)
    ensures rows == NewSteps(ss, m, next)
  {
    rows := [];
    for n := 0 to |ss|
      invariant rows == NewSteps(ss[..n], m, next)
    {
      var s := ss[n];
      assert ss[..n + 1][..n] == ss[..n];
      if s.flow !in m.flow || s.from == "" || s.to == "" {
        assert NewSteps(ss[..n + 1], m, next) == NewSteps(ss[..n], m, next);
        continue;
      }
      rows := rows + [Step(next + |rows|, m.flow[s.flow], s.from, s.to, s.rest)];
    }
    assert ss[..|ss|] == ss;
  }

  // ---------------------------------------------------------------- the transaction

  function MaxPosition(ms: seq<Menu>): (r: Option<int>)
    ensures r.None? <==> ms == []
    ensures r.Some? ==> (forall x | x in ms :: x.position <= r.value) && exists x :: x in ms && x.position == r.value
  {
    if ms == [] then None
    else
      var rest, last := MaxPosition(ms[..|ms| - 1]), ms[|ms| - 1];
      assert ms == ms[..|ms| - 1] + [last];
      assert last in ms;
      if rest.Some? && rest.value >= last.position then
        assert exists x :: x in ms[..|ms| - 1] && x.position == rest.value;
        rest
      else Some(last.position)
  }

  /** Additive menus go after the existing ones. */
  function Shift(additive: bool, d: Doc, menus: seq<Menu>): int {
    if additive && d.menus != [] then (if menus == [] then 0 else MaxPosition(menus).value) + 1 else 0
  }

  predicate Collides(model: Doc, d: Doc, physical: set<string>) {
    || (exists t :: t in d.tables && (t.phys in physical || exists u :: u in model.tables && u.phys == t.phys))
    || (exists f :: f in d.forms && exists g :: g in model.forms && g.name == f.name)
  }

  /** What the checks before the transaction say; `valid` covers version, identifiers and types. */
  function Admit(model: Doc, d: Doc, valid: bool, replace: bool, additive: bool, physical: set<string>): Option<Problem> {
    if !valid then Some(Unsupported)
    else if model.tables == [] then None
    else if additive then (if Collides(model, d, physical) then Some(Taken) else None)
    else if replace then None else Some(NotEmpty)
  }

  /** The model the new rows are added to; a replace has wiped it, and committed that, by then. */
  function Base(model: Doc, replace: bool, additive: bool): Doc {
    if model.tables != [] && !additive && replace then EMPTY_DOC else model
  }

  function Joined(a: Doc, b: Doc): Doc {
    Doc(a.tables + b.tables, a.fields + b.fields, a.relations + b.relations, a.forms + b.forms,
        a.formFields + b.formFields, a.menus + b.menus, a.flows + b.flows, a.steps + b.steps)
  }

  /** The rows of one import, before commit; None when a lookup raised. */
  method Build(d: Doc, c: Counters, shift: int) returns (r: Option<Doc>)
    ensures r.Some? <==> Resolves(d)
    ensures r.Some? ==> r.value == Created(d, c, shift)
  {
    var tables, tmap := AddTables(d.tables, c.t);
    AssignedKeys(TableIds(d.tables), c.t);
    TableKeys(d.tables);
    var ok, scalars, smap := AddScalars(d.fields, tmap, c.f);
    if !ok {
      return None;
    }
    var ok1, fields, fmap, relations, rmap := AddRelations(d, tmap, scalars, smap, c);
    if !ok1 {
      return None;
    }
    tables := SetDisplays(d.tables, tables, tmap, fmap, c.t);
    var ok2, forms, formmap := AddForms(d.forms, tmap, c.form);
    if !ok2 {
      return None;
    }
    var m := Maps(tmap, fmap, rmap, formmap, map[], map[]);
    var rest := BuildRest(d, m, c, shift);
    FieldsReached(d, tmap, c, fields);
    r := Some(Doc(tables, fields, relations, forms, rest.formFields, rest.menus, rest.flows, rest.steps));
  }

  lemma FieldsReached(d: Doc, t: Ids, c: Counters, fields: seq<Field>)
    requires MadeInOrder(FieldOrder(d, |d.relations|), fields, t, c.f)
    ensures fields == NewFields(d, |d.relations|, t, c.f)
  {}

  /** The passes after the forms: items, menus, workflows and approval steps. */
  method BuildRest(d: Doc, early: Maps, c: Counters, shift: int) returns (r: Doc)
    requires var m := FinalMaps(d, c); early == Maps(m.t, m.f, m.r, m.form, map[], map[])
    ensures var m := FinalMaps(d, c);
      && r.formFields == NewItems(d.formFields, m, c.item) && r.menus == NewMenus(d.menus, m, c.menu, shift)
      && r.flows == NewFlows(d.flows, m, c.flow) && r.steps == NewSteps(d.steps, m, c.step)
  {
    var m := early;
    var items := AddItems(d.formFields, m, c.item);
    SameItemRows(d.formFields, m, FinalMaps(d, c), c.item);
    var menus, menumap := AddMenus(d.menus, m, c.menu, shift);
    MenusUnwired(d.menus, menus, m, m.(menu := menumap), c.menu, shift);
    m := m.(menu := menumap);
    menus := WireMenus(d.menus, menus, m, c.menu, shift);
    var flows, flowmap := AddFlows(d.flows, m, c.flow);
    SameFlowRows(d.flows, m, FinalMaps(d, c), c.flow);
    SameMenuRows(d.menus, m, FinalMaps(d, c), c.menu, shift);
    m := m.(flow := flowmap);
    var steps := AddSteps(d.steps, m, c.step);
    r := Doc([], [], [], [], items, menus, flows, steps);
  }

  lemma MenusUnwired(ms: seq<Menu>, rows: seq<Menu>, a: Maps, b: Maps, next: int, shift: int)
    requires a.form == b.form && a.t == b.t
    requires |rows| == |ms| && forall i | 0 <= i < |ms| :: rows[i] == Unwired(ms[i], a, next + i, shift)
    ensures Wired(ms, rows, b, next, shift, 0)
  {
    forall j | 0 <= j < |ms| { LinkDone(MenuIds(ms), Parents(ms), b.menu, j); }
  }

  lemma SameMenuRows(ms: seq<Menu>, a: Maps, b: Maps, next: int, shift: int)
    requires a.form == b.form && a.t == b.t && a.menu == b.menu
    ensures NewMenus(ms, a, next, shift) == NewMenus(ms, b, next, shift)
  {
    forall i | 0 <= i < |ms| ensures NewMenus(ms, a, next, shift)[i] == NewMenus(ms, b, next, shift)[i] {}
  }

  lemma {:induction false} SameKept(ws: seq<Flow>, a: Maps, b: Maps)
    requires a.t == b.t && a.f == b.f
    ensures KeptFlows(ws, a) == KeptFlows(ws, b)
  {
    if ws != [] {
      SameKept(ws[..|ws| - 1], a, b);
    }
  }

  lemma SameFlowRows(ws: seq<Flow>, a: Maps, b: Maps, next: int)
    requires a.t == b.t && a.f == b.f
    ensures NewFlows(ws, a, next) == NewFlows(ws, b, next)
  {
    SameKept(ws, a, b);
  }

  lemma TableKeys(ts: seq<Table>)
    ensures (set x | x in TableIds(ts)) == set t | t in ts :: t.id
  {
    forall t | t in ts ensures t.id in TableIds(ts) {
      var i :| 0 <= i < |ts| && ts[i] == t;
      assert TableIds(ts)[i] == t.id;
    }
  }

  /** Form items read only the maps that are already final when they are created. */
  lemma {:induction false} SameItemRows(its: seq<FormField>, a: Maps, b: Maps, next: int)
    requires a.f == b.f && a.r == b.r && a.form == b.form
    ensures NewItems(its, a, next) == NewItems(its, b, next)
  {
    if its != [] {
      SameItemRows(its[..|its| - 1], a, b, next);
    }
  }

  /** A table of the file has the name of a table of the model or of a physical one, or a form that of a form. */
  ghost predicate NameTaken(model: Doc, d: Doc, physical: set<string>) {
    || (exists i :: 0 <= i < |d.tables| && d.tables[i].phys in physical)
    || (exists i, j :: 0 <= i < |d.tables| && 0 <= j < |model.tables| && d.tables[i].phys == model.tables[j].phys)
    || (exists i, j :: 0 <= i < |d.forms| && 0 <= j < |model.forms| && d.forms[i].name == model.forms[j].name)
  }

  /** No two tables and no two forms have the same name. */
  ghost predicate DistinctNames(d: Doc) {
    && (forall i, j | 0 <= i < j < |d.tables| :: d.tables[i].phys != d.tables[j].phys)
    && (forall i, j | 0 <= i < j < |d.forms| :: d.forms[i].name != d.forms[j].name)
  }

  /** What is refused before anything is written, and why: in the order of the checks. */
  lemma RefusedIff(model: Doc, d: Doc, valid: bool, replace: bool, additive: bool, physical: set<string>)
    ensures var r := Admit(model, d, valid, replace, additive, physical);
      && (r == Some(Unsupported) <==> !valid)
      && (r == Some(Taken) <==> valid && |model.tables| > 0 && additive && NameTaken(model, d, physical))
      && (r == Some(NotEmpty) <==> valid && |model.tables| > 0 && !additive && !replace)
      && r != Some(Dangling)
  {
    if Collides(model, d, physical) {
      if t :| t in d.tables && (t.phys in physical || exists u :: u in model.tables && u.phys == t.phys) {
        var i :| 0 <= i < |d.tables| && d.tables[i] == t;
      } else {
        var f :| f in d.forms && exists g :: g in model.forms && g.name == f.name;
        var i :| 0 <= i < |d.forms| && d.forms[i] == f;
      }
    }
    if NameTaken(model, d, physical) {
      if i :| 0 <= i < |d.tables| && d.tables[i].phys in physical {
        assert d.tables[i] in d.tables;
      } else if i, j :| 0 <= i < |d.tables| && 0 <= j < |model.tables| && d.tables[i].phys == model.tables[j].phys {
        assert d.tables[i] in d.tables && model.tables[j] in model.tables;
      } else {
        var i, j :| 0 <= i < |d.forms| && 0 <= j < |model.forms| && d.forms[i].name == model.forms[j].name;
        assert d.forms[i] in d.forms && model.forms[j] in model.forms;
      }
    }
  }

  /** What an import adds has the names of the file. */
  lemma CreatedNames(d: Doc, c: Counters, shift: int)
    ensures var out := Created(d, c, shift);
      && |out.tables| == |d.tables| && (forall i | 0 <= i < |d.tables| :: out.tables[i].phys == d.tables[i].phys)
      && |out.forms| == |d.forms| && (forall i | 0 <= i < |d.forms| :: out.forms[i].name == d.forms[i].name)
  {}

  /** Names stay distinct over an admitted additive import of distinct names. */
  lemma NamesStayDistinct(model: Doc, d: Doc, c: Counters, shift: int, physical: set<string>)
    requires DistinctNames(model) && DistinctNames(d) && !NameTaken(model, d, physical)
    ensures DistinctNames(Joined(model, Created(d, c, shift)))
  {
    CreatedNames(d, c, shift);
    var out := Created(d, c, shift);
    var all := Joined(model, out);
    forall i, j | 0 <= i < j < |all.tables| ensures all.tables[i].phys != all.tables[j].phys {
      var n := |model.tables|;
      if i < n <= j { assert d.tables[j - n].phys != model.tables[i].phys; }
    }
    forall i, j | 0 <= i < j < |all.forms| ensures all.forms[i].name != all.forms[j].name {
      var n := |model.forms|;
      if i < n <= j { assert d.forms[j - n].name != model.forms[i].name; }
    }
  }

  lemma KeepsNames(model: Doc, d: Doc, c: Counters, shift: int, physical: set<string>)
    ensures DistinctNames(model) && DistinctNames(d) && !NameTaken(model, d, physical) ==> DistinctNames(Joined(model, Created(d, c, shift)))
  {
    if DistinctNames(model) && DistinctNames(d) && !NameTaken(model, d, physical) {
      NamesStayDistinct(model, d, c, shift, physical);
    }
  }

  class Store {
    var model: Doc

    method Import(d: Doc, valid: bool, replace: bool, additive: bool, physical: set<string>, c: Counters) returns (r: Option<Problem>)
      modifies this
      ensures var admit, base := Admit(old(model), d, valid, replace, additive, physical), Base(old(model), replace, additive);
        && (r.None? <==> admit.None? && Resolves(d))
        && (admit.Some? ==> r == admit && model == old(model))
        && (admit.None? && r.Some? ==> r == Some(Dangling) && model == base)
        && (r.None? ==> model == Joined(base, Created(d, c, Shift(additive, d, base.menus))))
        && (r == Some(Unsupported) <==> !valid)
        && (r == Some(Taken) <==> valid && |old(model).tables| > 0 && additive && NameTaken(old(model), d, physical))
        && (r == Some(NotEmpty) <==> valid && |old(model).tables| > 0 && !additive && !replace)
        && (r.None? && additive && |old(model).tables| > 0 && DistinctNames(old(model)) && DistinctNames(d) ==> DistinctNames(model))
        && (admit.None? && Sound(d) ==> r.None?)
        && (admit.None? && Sound(d) && base == EMPTY_DOC ==> (Isomorphic(d, model, FinalMaps(d, c), Shift(additive, d, [])) <==> Survives(d)))
    {
      ghost var base := Base(model, replace, additive);
      RefusedIff(model, d, valid, replace, additive, physical);
      KeepsNames(model, d, c, Shift(additive, d, base.menus), physical);
      SoundImports(base, d, c, Shift(additive, d, base.menus));
      r := Admit(model, d, valid, replace, additive, physical);
      if r.Some? {
        return;
      }
      if model.tables != [] && !additive && replace {
        model := EMPTY_DOC;
      }
      var built := Build(d, c, Shift(additive, d, model.menus));
      if built.None? {
        return Some(Dangling);
      }
      model := Joined(model, built.value);
    }
  }

  // ---------------------------------------------------------------- what the modes promise

  lemma OntoEmpty(x: Doc)
    ensures Joined(EMPTY_DOC, x) == x
  {
    assert EMPTY_DOC.tables + x.tables == x.tables && EMPTY_DOC.fields + x.fields == x.fields;
    assert EMPTY_DOC.relations + x.relations == x.relations && EMPTY_DOC.forms + x.forms == x.forms;
    assert EMPTY_DOC.formFields + x.formFields == x.formFields && EMPTY_DOC.menus + x.menus == x.menus;
    assert EMPTY_DOC.flows + x.flows == x.flows && EMPTY_DOC.steps + x.steps == x.steps;
  }

  /** No lookup raises in the import of an export. */
  lemma SoundResolves(d: SoundDoc)
    ensures Resolves(d)
  {
    TableKeys(d.tables);
    forall r | r in d.relations ensures RelationResolves(d, r) {
      assert SoundRelation(d, r);
    }
  }

  /**
    Importing an export into a store that is empty, or that the import wipes first, commits,
    and the model is the one exported up to a renaming of ids exactly when nothing is lost.
  */
  lemma ReplaceIsRoundTrip(model: Doc, d: SoundDoc, c: Counters, physical: set<string>)
    ensures var base := Base(model, true, false); var admit := Admit(model, d, true, true, false, physical);
      && admit.None? && Resolves(d)
      && (model.tables != [] || model == EMPTY_DOC ==>
            (Isomorphic(d, Joined(base, Created(d, c, 0)), FinalMaps(d, c), 0) <==> Survives(d)))
  {
    SoundResolves(d);
    OntoEmpty(Created(d, c, 0));
    RoundTripIff(d, c, 0);
  }

  lemma SoundImports(base: Doc, d: Doc, c: Counters, shift: int)
    ensures Sound(d) ==> Resolves(d)
    ensures Sound(d) && base == EMPTY_DOC ==>
      (Isomorphic(d, Joined(base, Created(d, c, shift)), FinalMaps(d, c), shift) <==> Survives(d))
  {
    if Sound(d) {
      SoundResolves(d);
      OntoEmpty(Created(d, c, shift));
      RoundTripIff(d, c, shift);
    }
  }

  lemma MenuPosition(ms: seq<Menu>, m: Maps, next: int, shift: int, y: Menu)
    requires y in NewMenus(ms, m, next, shift)
    ensures exists z | z in ms :: y.position == z.position + shift
  {
    var i :| 0 <= i < |ms| && NewMenus(ms, m, next, shift)[i] == y;
    assert ms[i] in ms;
  }

  lemma MenusAfter(menus: seq<Menu>, ms: seq<Menu>, m: Maps, next: int, shift: int, x: Menu, y: Menu)
    requires menus != [] && shift == MaxPosition(menus).value + 1 && x in menus && y in NewMenus(ms, m, next, shift)
    requires forall z | z in ms :: z.position >= 0
    ensures x.position < y.position
  {
    MenuPosition(ms, m, next, shift, y);
  }

  /**
    An additive import leaves every existing row in place, adds the file up to renaming
    exactly when nothing is lost, and puts its menus after all existing ones.
  */
  lemma AdditiveAppends(model: Doc, d: SoundDoc, c: Counters)
    requires forall x | x in d.menus :: x.position >= 0
    ensures var shift := Shift(true, d, model.menus); var out := Created(d, c, shift); var all := Joined(model, out);
      && model.tables <= all.tables && model.fields <= all.fields && model.relations <= all.relations && model.menus <= all.menus
      && (Isomorphic(d, out, FinalMaps(d, c), shift) <==> Survives(d))
      && forall x, y | x in model.menus && y in out.menus :: x.position < y.position
  {
    var shift := Shift(true, d, model.menus);
    RoundTripIff(d, c, shift);
    forall x, y | x in model.menus && y in Created(d, c, shift).menus ensures x.position < y.position {
      assert d.menus != [];
      MenusAfter(model.menus, d.menus, FinalMaps(d, c), c.menu, shift, x, y);
    }
  }
}
