/**
  Export and import of the metadata model (app/schema_io.py): tables, fields, relations,
  forms, form fields, menus, workflows and approval steps.  The importer creates rows
  under fresh ids, pass by pass, and rewrites every cross-reference through id maps that
  grow as it goes.

  A section of the store is the sequence of its rows by ascending id, which is also what
  the export writes.  `rest` holds the columns that are copied unread.
*/
module SchemaIo {
  import opened Texts
  import opened Wrappers

  datatype Table = Table(id: int, phys: string, managed: bool, display: Option<int>, rest: string)

  datatype Field = Field(id: int, table: int, phys: string, dtype: string, related: Option<int>, rest: string)

  datatype Kind = M1 | MN

  datatype Relation = Relation(id: int, name: string, kind: Kind, from: int, to: int, fromField: Option<int>,
                               junction: Option<string>, onDelete: Option<string>,
                               toDisplay: Option<seq<int>>, fromDisplay: Option<seq<int>>)

  datatype Form = Form(id: int, table: int, name: string, rest: string)

  datatype FormField = FormField(id: int, form: int, kind: string, field: Option<int>, relation: Option<int>,
                                 parent: Option<int>, filter: Option<int>, rest: string)

  datatype Menu = Menu(id: int, parent: Option<int>, form: Option<int>, table: Option<int>, position: int, rest: string)

  datatype Flow = Flow(id: int, table: int, field: int, rest: string)

  datatype Step = Step(id: int, flow: int, from: string, to: string, rest: string)

  /** The model, in the store or in an export file. */
  datatype Doc = Doc(tables: seq<Table>, fields: seq<Field>, relations: seq<Relation>, forms: seq<Form>,
                     formFields: seq<FormField>, menus: seq<Menu>, flows: seq<Flow>, steps: seq<Step>)

  /** The next free id of each section. */
  datatype Counters = Counters(t: int, f: int, r: int, form: int, item: int, menu: int, flow: int, step: int)

  type Ids = map<int, int>

  /** The id maps, old to new. */
  datatype Maps = Maps(t: Ids, f: Ids, r: Ids, form: Ids, menu: Ids, flow: Ids)

  const EMPTY_DOC := Doc([], [], [], [], [], [], [], [])

  // ---------------------------------------------------------------- remapping

  /** `m.get(x) if x else None`. */
  function Get(m: Ids, x: Option<int>): Option<int> {
    if x.Some? && x.value != 0 && x.value in m then Some(m[x.value]) else None
  }

  function Id(m: Ids, x: int): int {
    if x in m then m[x] else 0
  }

  /** The ids handed out in order, starting at `next`; a repeated old id keeps its last. */
  function Assigned(ids: seq<int>, next: int): Ids {
    if ids == [] then map[] else Assigned(ids[..|ids| - 1], next)[ids[|ids| - 1] := next + |ids| - 1]
  }

  function Known(m: Ids, ids: seq<int>): seq<int> {
    if ids == [] then [] else Known(m, ids[..|ids| - 1]) + if ids[|ids| - 1] in m then [m[ids[|ids| - 1]]] else []
  }

  /** `_remap_ids_json`: unknown ids are dropped, and nothing left means none. */
  function RemapIds(m: Ids, ids: Option<seq<int>>): Option<seq<int>> {
    if ids.None? || Known(m, ids.value) == [] then None else Some(Known(m, ids.value))
  }

  /** `junction_name`. */
  function JunctionName(a: string, b: string): string {
    var name := "j_" + (if Before(b, a) then b + "_" + a else a + "_" + b);
    if |name| > 64 then name[..64] else name
  }

  /** A reference resolves exactly when it is there, not zero, and to something that was created. */
  lemma GetIff(m: Ids, x: Option<int>, y: int)
    ensures Get(m, x) == Some(y) <==> exists k :: x == Some(k) && k != 0 && k in m && m[k] == y
  {
    if x.Some? { assert x == Some(x.value); }
  }

  /** The name of a junction is that of its two tables in text order, cut at 64 characters, whichever way round they are given. */
  lemma JunctionNameIs(a: string, b: string)
    ensures JunctionName(a, b) == JunctionName(b, a)
    ensures a == b || Before(a, b) ==> (
      var whole := "j_" + a + "_" + b;
      JunctionName(a, b) <= whole && |JunctionName(a, b)| == if |whole| < 64 then |whole| else 64)
  {
    Total(a, b);
    assert "j_" + (a + "_" + b) == "j_" + a + "_" + b;
  }

  // ---------------------------------------------------------------- what each pass creates

  predicate IsRelationField(f: Field) {
    f.dtype == "relation"
  }

  function Scalars(fs: seq<Field>): seq<Field> {
    if fs == [] then []
    else Scalars(fs[..|fs| - 1]) + if IsRelationField(fs[|fs| - 1]) then [] else [fs[|fs| - 1]]
  }

  function FindField(fs: seq<Field>, id: Option<int>): (r: Option<Field>)
    ensures r.Some? ==> r.value in fs && Some(r.value.id) == id
    ensures r.None? ==> forall f | f in fs :: Some(f.id) != id
  {
    if fs == [] then None
    else if Some(fs[|fs| - 1].id) == id then Some(fs[|fs| - 1]) else FindField(fs[..|fs| - 1], id)
  }

  function FindTable(ts: seq<Table>, id: int): (r: Option<Table>)
    ensures r.Some? ==> r.value in ts && r.value.id == id
    ensures r.None? ==> forall t | t in ts :: t.id != id
  {
    if ts == [] then None else if ts[|ts| - 1].id == id then Some(ts[|ts| - 1]) else FindTable(ts[..|ts| - 1], id)
  }

  /** The relation is created at all: an m1 relation is skipped when its FK field is not in the file. */
  predicate Kept(d: Doc, r: Relation) {
    r.kind == MN || FindField(d.fields, r.fromField).Some?
  }

  /** The fields in the order they are created while the first `n` relations are done. */
  function FieldOrder(d: Doc, n: nat): seq<Field>
    requires n <= |d.relations|
  {
    if n == 0 then Scalars(d.fields)
    else
      var r := d.relations[n - 1];
      var of := FindField(d.fields, r.fromField);
      FieldOrder(d, n - 1) + if r.kind == M1 && of.Some? then [of.value] else []
  }

  function FieldIds(fs: seq<Field>): seq<int> {
    seq(|fs|, i requires 0 <= i < |fs| => fs[i].id)
  }

  function RelationOrder(d: Doc, n: nat): seq<Relation>
    requires n <= |d.relations|
  {
    if n == 0 then [] else RelationOrder(d, n - 1) + if Kept(d, d.relations[n - 1]) then [d.relations[n - 1]] else []
  }

  function RelationIds(rs: seq<Relation>): seq<int> {
    seq(|rs|, i requires 0 <= i < |rs| => rs[i].id)
  }

  /** `_make_field` under a new id. */
  function MakeField(f: Field, t: Ids, id: int): Field {
    Field(id, if f.table in t then t[f.table] else 0, f.phys, f.dtype, Get(t, f.related), f.rest)
  }

  function PhysOf(d: Doc, id: int): string {
    var t := FindTable(d.tables, id);
    if t.Some? then t.value.phys else ""
  }

  /** A relation as created, its display ids read through the field map of that moment. */
  function MakeRelation(d: Doc, r: Relation, t: Ids, f: Ids, id: int): Relation {
    var from, to := if r.from in t then t[r.from] else 0, if r.to in t then t[r.to] else 0;
    var toDisplay, fromDisplay := RemapIds(f, r.toDisplay), RemapIds(f, r.fromDisplay);
    if r.kind == M1 then
      var fk := if r.fromField.Some? && r.fromField.value in f then Some(f[r.fromField.value]) else None;
      Relation(id, r.name, M1, from, to, fk, None, r.onDelete, toDisplay, fromDisplay)
    else
      var j := JunctionName(PhysOf(d, r.from), PhysOf(d, r.to));
      Relation(id, r.name, MN, from, to, None, Some(j), None, toDisplay, fromDisplay)
  }

  function FieldMap(d: Doc, n: nat, next: int): Ids
    requires n <= |d.relations|
  {
    Assigned(FieldIds(FieldOrder(d, n)), next)
  }

  function NewFields(d: Doc, n: nat, t: Ids, next: int): seq<Field>
    requires n <= |d.relations|
  {
    var fs := FieldOrder(d, n);
    seq(|fs|, i requires 0 <= i < |fs| => MakeField(fs[i], t, next + i))
  }

  function NewRelations(d: Doc, n: nat, t: Ids, c: Counters): seq<Relation>
    requires n <= |d.relations|
  {
    if n == 0 then []
    else
      var done := NewRelations(d, n - 1, t, c);
      var r := d.relations[n - 1];
      if Kept(d, r) then done + [MakeRelation(d, r, t, FieldMap(d, n, c.f), c.r + |done|)] else done
  }

  /** A form item survives when its form, and the field or relation its kind needs, were created. */
  predicate ItemKept(it: FormField, m: Maps) {
    && it.form in m.form
    && (it.kind == "field" ==> Get(m.f, it.field).Some?)
    && (it.kind == "relation" ==> Get(m.r, it.relation).Some?)
  }

  function NewItems(its: seq<FormField>, m: Maps, next: int): seq<FormField> {
    if its == [] then []
    else
      var done := NewItems(its[..|its| - 1], m, next);
      var it := its[|its| - 1];
      done + if ItemKept(it, m) then
        [FormField(next + |done|, m.form[it.form], it.kind, Get(m.f, it.field), Get(m.r, it.relation),
                   Get(m.f, it.parent), Get(m.f, it.filter), it.rest)] else []
  }

  predicate FlowKept(w: Flow, m: Maps) {
    w.table in m.t && w.field in m.f
  }

  function KeptFlows(ws: seq<Flow>, m: Maps): seq<Flow> {
    if ws == [] then [] else KeptFlows(ws[..|ws| - 1], m) + if FlowKept(ws[|ws| - 1], m) then [ws[|ws| - 1]] else []
  }

  function FlowIds(ws: seq<Flow>): seq<int> {
    seq(|ws|, i requires 0 <= i < |ws| => ws[i].id)
  }

  function NewFlows(ws: seq<Flow>, m: Maps, next: int): seq<Flow> {
    var kept := KeptFlows(ws, m);
    seq(|kept|, i requires 0 <= i < |kept| =>
      Flow(next + i, if kept[i].table in m.t then m.t[kept[i].table] else 0,
           if kept[i].field in m.f then m.f[kept[i].field] else 0, kept[i].rest))
  }

  predicate StepKept(s: Step, m: Maps) {
    s.flow in m.flow && s.from != "" && s.to != ""
  }

  function NewSteps(ss: seq<Step>, m: Maps, next: int): seq<Step> {
    if ss == [] then []
    else
      var done := NewSteps(ss[..|ss| - 1], m, next);
      var s := ss[|ss| - 1];
      done + if StepKept(s, m) then [Step(next + |done|, m.flow[s.flow], s.from, s.to, s.rest)] else []
  }

  function TableIds(ts: seq<Table>): seq<int> {
    seq(|ts|, i requires 0 <= i < |ts| => ts[i].id)
  }

  function FormIds(fs: seq<Form>): seq<int> {
    seq(|fs|, i requires 0 <= i < |fs| => fs[i].id)
  }

  function MenuIds(ms: seq<Menu>): seq<int> {
    seq(|ms|, i requires 0 <= i < |ms| => ms[i].id)
  }

  /** All the id maps an import ends up with. */
  function FinalMaps(d: Doc, c: Counters): Maps {
    var t := Assigned(TableIds(d.tables), c.t);
    var f := FieldMap(d, |d.relations|, c.f);
    var r := Assigned(RelationIds(RelationOrder(d, |d.relations|)), c.r);
    var form := Assigned(FormIds(d.forms), c.form);
    var menu := Assigned(MenuIds(d.menus), c.menu);
    var m := Maps(t, f, r, form, menu, map[]);
    m.(flow := Assigned(FlowIds(KeptFlows(d.flows, m)), c.flow))
  }

  /** No later entry repeats the id of entry `i`, so that the id stands for it. */
  predicate LastWith(ids: seq<int>, i: nat)
    requires i < |ids|
  {
    forall j | i < j < |ids| :: ids[j] != ids[i]
  }

  /** The link that `id` ends up with when entries are linked in order: the last one known. */
  function LinkOf(ids: seq<int>, links: seq<Option<int>>, m: Ids, id: int): Option<int>
    requires |links| == |ids|
  {
    if ids == [] then None
    else
      var n := |ids| - 1;
      if ids[n] == id && Get(m, links[n]).Some? then Get(m, links[n]) else LinkOf(ids[..n], links[..n], m, id)
  }

  /** What row `i` is linked to, in a file that may repeat ids. */
  function LinkAt(ids: seq<int>, links: seq<Option<int>>, m: Ids, i: nat): Option<int>
    requires |links| == |ids| && i < |ids|
  {
    if LastWith(ids, i) then LinkOf(ids, links, m, ids[i]) else None
  }

  function Displays(ts: seq<Table>): seq<Option<int>> {
    seq(|ts|, i requires 0 <= i < |ts| => ts[i].display)
  }

  function Parents(ms: seq<Menu>): seq<Option<int>> {
    seq(|ms|, i requires 0 <= i < |ms| => ms[i].parent)
  }

  function NewTables(ts: seq<Table>, f: Ids, next: int): seq<Table> {
    seq(|ts|, i requires 0 <= i < |ts| => ts[i].(id := next + i, display := LinkAt(TableIds(ts), Displays(ts), f, i)))
  }

  function NewForms(fs: seq<Form>, t: Ids, next: int): seq<Form> {
    seq(|fs|, i requires 0 <= i < |fs| => fs[i].(id := next + i, table := Id(t, fs[i].table)))
  }

  function NewMenu(x: Menu, parent: Option<int>, m: Maps, id: int, shift: int): Menu {
    Menu(id, parent, Get(m.form, x.form), Get(m.t, x.table), x.position + shift, x.rest)
  }

  function NewMenus(ms: seq<Menu>, m: Maps, next: int, shift: int): seq<Menu> {
    seq(|ms|, i requires 0 <= i < |ms| => NewMenu(ms[i], LinkAt(MenuIds(ms), Parents(ms), m.menu, i), m, next + i, shift))
  }

  /** The rows an import creates, `shift` being added to menu positions. */
  function Created(d: Doc, c: Counters, shift: int): Doc {
    var m := FinalMaps(d, c);
    Doc(NewTables(d.tables, m.f, c.t), NewFields(d, |d.relations|, m.t, c.f), NewRelations(d, |d.relations|, m.t, c),
        NewForms(d.forms, m.t, c.form), NewItems(d.formFields, m, c.item), NewMenus(d.menus, m, c.menu, shift),
        NewFlows(d.flows, m, c.flow), NewSteps(d.steps, m, c.step))
  }

  /** No lookup of the import raises: the KeyErrors of the table references. */
  predicate Resolves(d: Doc) {
    var t := set x | x in d.tables :: x.id;
    && (forall f | f in d.fields && !IsRelationField(f) :: f.table in t)
    && (forall r | r in d.relations && Kept(d, r) :: RelationResolves(d, r))
    && (forall f | f in d.forms :: f.table in t)
  }

  predicate RelationResolves(d: Doc, r: Relation) {
    var t := set x | x in d.tables :: x.id;
    && r.from in t && r.to in t
    && (r.kind == M1 ==>
          var of := FindField(d.fields, r.fromField);
          && of.Some? && of.value.table in t
          && (FindTable(d.tables, of.value.table).Some? && FindTable(d.tables, of.value.table).value.managed ==>
                of.value.related.Some? && of.value.related.value in t))
  }

  // ---------------------------------------------------------------- when every lookup finds its row

  /** Some table of the file has the id. */
  ghost predicate HasTable(d: Doc, id: int) {
    exists i :: 0 <= i < |d.tables| && d.tables[i].id == id
  }

  /** Field `k` is the one that the id stands for: the last with it. */
  ghost predicate FieldFor(fs: seq<Field>, id: Option<int>, k: nat) {
    k < |fs| && Some(fs[k].id) == id && forall j | k < j < |fs| :: Some(fs[j].id) != id
  }

  ghost predicate TableFor(ts: seq<Table>, id: int, k: nat) {
    k < |ts| && ts[k].id == id && forall j | k < j < |ts| :: ts[j].id != id
  }

  lemma {:induction false} TheField(fs: seq<Field>, id: Option<int>) returns (k: nat)
    ensures FindField(fs, id).Some? ==> FieldFor(fs, id, k) && FindField(fs, id).value == fs[k]
    decreases |fs|
  {
    k := 0;
    if fs != [] {
      k := if Some(fs[|fs| - 1].id) == id then |fs| - 1 else 0;
      if Some(fs[|fs| - 1].id) != id { k := TheField(fs[..|fs| - 1], id); }
    }
  }

  lemma {:induction false} TheTable(ts: seq<Table>, id: int) returns (k: nat)
    ensures FindTable(ts, id).Some? ==> TableFor(ts, id, k) && FindTable(ts, id).value == ts[k]
    decreases |ts|
  {
    k := 0;
    if ts != [] {
      k := if ts[|ts| - 1].id == id then |ts| - 1 else 0;
      if ts[|ts| - 1].id != id { k := TheTable(ts[..|ts| - 1], id); }
    }
  }

  lemma OneField(fs: seq<Field>, id: Option<int>, k: nat)
    requires FieldFor(fs, id, k)
    ensures FindField(fs, id).Some? && forall i: nat | FieldFor(fs, id, i) :: i == k
  {
    assert fs[k] in fs;
  }

  lemma OneTable(ts: seq<Table>, id: int, k: nat)
    requires TableFor(ts, id, k)
    ensures FindTable(ts, id).Some? && forall i: nat | TableFor(ts, id, i) :: i == k
  {
    assert ts[k] in ts;
  }

  /** The FK field is on a table of the file and, if that one is managed, refers to one. */
  ghost predicate KeyResolves(d: Doc, f: Field) {
    HasTable(d, f.table) && forall i: nat | TableFor(d.tables, f.table, i) && d.tables[i].managed :: RefersToTable(d, f)
  }

  ghost predicate RefersToTable(d: Doc, f: Field) {
    exists x :: f.related == Some(x) && HasTable(d, x)
  }

  /** What one relation has to find: its two tables, and what its FK field needs; an m1 relation without such a field is skipped. */
  ghost predicate LooksUp(d: Doc, r: Relation) {
    if r.kind == MN then HasTable(d, r.from) && HasTable(d, r.to)
    else forall k: nat | FieldFor(d.fields, r.fromField, k) :: HasTable(d, r.from) && HasTable(d, r.to) && KeyResolves(d, d.fields[k])
  }

  lemma HasTableIff(d: Doc, id: int)
    ensures HasTable(d, id) <==> id in set x | x in d.tables :: x.id
  {
    if id in set x | x in d.tables :: x.id {
      var x :| x in d.tables && x.id == id;
      var i :| 0 <= i < |d.tables| && d.tables[i] == x;
    }
  }

  lemma RefersIff(d: Doc, f: Field)
    ensures RefersToTable(d, f) <==> f.related.Some? && f.related.value in set x | x in d.tables :: x.id
  {
    if f.related.Some? {
      HasTableIff(d, f.related.value);
      assert f.related == Some(f.related.value);
    }
  }

  lemma KeyResolvesIff(d: Doc, f: Field)
    ensures KeyResolves(d, f) <==> (
      var t := set x | x in d.tables :: x.id;
      f.table in t
        && (FindTable(d.tables, f.table).Some? && FindTable(d.tables, f.table).value.managed ==> f.related.Some? && f.related.value in t))
  {
    HasTableIff(d, f.table);
    RefersIff(d, f);
    var k := TheTable(d.tables, f.table);
    if FindTable(d.tables, f.table).Some? { OneTable(d.tables, f.table, k); }
    else { forall i: nat ensures !TableFor(d.tables, f.table, i) { if TableFor(d.tables, f.table, i) { OneTable(d.tables, f.table, i); } } }
  }

  lemma LooksUpIff(d: Doc, r: Relation)
    ensures LooksUp(d, r) <==> (Kept(d, r) ==> RelationResolves(d, r))
  {
    HasTableIff(d, r.from);
    HasTableIff(d, r.to);
    if r.kind == M1 {
      var k := TheField(d.fields, r.fromField);
      if FindField(d.fields, r.fromField).Some? {
        OneField(d.fields, r.fromField, k);
        KeyResolvesIff(d, d.fields[k]);
      } else {
        forall i: nat ensures !FieldFor(d.fields, r.fromField, i) { if FieldFor(d.fields, r.fromField, i) { OneField(d.fields, r.fromField, i); } }
      }
    }
  }

  /** No lookup of an import raises exactly when every form and scalar field is on a table of the file and every relation finds what it looks up. */
  lemma ResolvesIff(d: Doc)
    ensures Resolves(d) <==>
      && (forall i | 0 <= i < |d.fields| && d.fields[i].dtype != "relation" :: HasTable(d, d.fields[i].table))
      && (forall i | 0 <= i < |d.forms| :: HasTable(d, d.forms[i].table))
      && (forall i | 0 <= i < |d.relations| :: LooksUp(d, d.relations[i]))
  {
    forall id ensures HasTable(d, id) <==> id in set x | x in d.tables :: x.id { HasTableIff(d, id); }
    forall r ensures LooksUp(d, r) <==> (Kept(d, r) ==> RelationResolves(d, r)) { LooksUpIff(d, r); }
    assert forall f | f in d.fields :: exists i | 0 <= i < |d.fields| :: d.fields[i] == f;
  }

  // ---------------------------------------------------------------- what an export looks like

  ghost predicate Fit(ids: seq<int>) {
    && (forall i | 0 <= i < |ids| :: ids[i] > 0)
    && forall i, j | 0 <= i < j < |ids| :: ids[i] != ids[j]
  }

  ghost predicate UniqueIds(d: Doc) {
    && Fit(TableIds(d.tables)) && Fit(FieldIds(d.fields)) && Fit(RelationIds(d.relations))
    && Fit(FormIds(d.forms)) && Fit(MenuIds(d.menus)) && Fit(FlowIds(d.flows))
  }

  ghost predicate Among(x: Option<int>, ids: seq<int>) {
    x.Some? ==> x.value in ids
  }

  ghost predicate Listed(xs: Option<seq<int>>, ids: seq<int>) {
    xs.Some? ==> forall x | x in xs.value :: x in ids
  }

  ghost predicate SoundRelation(d: Doc, r: Relation) {
    && r.from in TableIds(d.tables) && r.to in TableIds(d.tables)
    && Listed(r.toDisplay, FieldIds(d.fields)) && Listed(r.fromDisplay, FieldIds(d.fields))
    && (match r.kind
        case M1 => r.junction.None? && FindField(d.fields, r.fromField).Some?
          && IsRelationField(FindField(d.fields, r.fromField).value)
        case MN => r.fromField.None? && r.junction == Some(JunctionName(PhysOf(d, r.from), PhysOf(d, r.to))))
  }

  /** Each relation-typed field is the FK of exactly one m1 relation. */
  ghost predicate OneOwner(d: Doc) {
    && (forall f | f in d.fields && IsRelationField(f) ::
          exists k | 0 <= k < |d.relations| :: d.relations[k].kind == M1 && d.relations[k].fromField == Some(f.id))
    && (forall j, k | 0 <= j < k < |d.relations| && d.relations[j].kind == M1 && d.relations[k].kind == M1 ::
          d.relations[j].fromField != d.relations[k].fromField)
  }

  ghost predicate SoundItem(d: Doc, it: FormField) {
    && it.form in FormIds(d.forms)
    && Among(it.field, FieldIds(d.fields)) && Among(it.relation, RelationIds(d.relations))
    && Among(it.parent, FieldIds(d.fields)) && Among(it.filter, FieldIds(d.fields))
    && (it.kind == "field" ==> it.field.Some?) && (it.kind == "relation" ==> it.relation.Some?)
  }

  ghost predicate SoundFields(d: Doc) {
    && (forall t | t in d.tables :: Among(t.display, FieldIds(d.fields)))
    && (forall f | f in d.fields :: f.table in TableIds(d.tables) && Among(f.related, TableIds(d.tables))
          && (IsRelationField(f) ==> f.related.Some?))
  }

  ghost predicate SoundForms(d: Doc) {
    && (forall f | f in d.forms :: f.table in TableIds(d.tables))
    && (forall it | it in d.formFields :: SoundItem(d, it))
    && (forall x | x in d.menus :: SoundMenu(d, x))
  }

  ghost predicate SoundMenu(d: Doc, x: Menu) {
    Among(x.parent, MenuIds(d.menus)) && Among(x.form, FormIds(d.forms)) && Among(x.table, TableIds(d.tables))
  }

  ghost predicate SoundFlows(d: Doc) {
    && (forall w | w in d.flows :: w.table in TableIds(d.tables) && w.field in FieldIds(d.fields))
    && (forall x | x in d.steps :: x.flow in FlowIds(d.flows) && x.from != "" && x.to != "")
  }

  ghost predicate SoundRelations(d: Doc) {
    forall r | r in d.relations :: SoundRelation(d, r)
  }

  /** What the store guarantees of its own export: unique ids and no dangling reference. */
  ghost predicate Sound(d: Doc) {
    UniqueIds(d) && OneOwner(d) && SoundFields(d) && SoundRelations(d) && SoundForms(d) && SoundFlows(d)
  }

  /** A model as the store exports it. */
  type SoundDoc = d: Doc | Sound(d) ghost witness EMPTY_DOC

  /** The display ids of relation `i`, if any, are a non-empty list of fields that exist by the time it is created. */
  ghost predicate DisplayInTime(d: Doc, i: nat)
    requires i < |d.relations|
  {
    var ids := FieldIds(FieldOrder(d, i + 1));
    var r := d.relations[i];
    && Listed(r.toDisplay, ids) && Listed(r.fromDisplay, ids)
    && r.toDisplay != Some([]) && r.fromDisplay != Some([])
  }

  ghost predicate SurvivesAt(d: Doc, i: nat)
    requires i < |d.relations|
  {
    (d.relations[i].kind == MN ==> d.relations[i].onDelete.None?) && DisplayInTime(d, i)
  }

  /** No mn relation carries an on_delete, and no relation has an empty display list or displays an FK field created after it. */
  ghost predicate Survives(d: Doc) {
    forall i: nat | i < |d.relations| :: SurvivesAt(d, i)
  }

  // ---------------------------------------------------------------- isomorphism

  function MapAll(m: Ids, xs: Option<seq<int>>): Option<seq<int>> {
    if xs.None? then None else Some(seq(|xs.value|, i requires 0 <= i < |xs.value| => Id(m, xs.value[i])))
  }

  function RenTable(m: Maps, t: Table): Table {
    t.(id := Id(m.t, t.id), display := Get(m.f, t.display))
  }

  function RenField(m: Maps, f: Field): Field {
    f.(id := Id(m.f, f.id), table := Id(m.t, f.table), related := Get(m.t, f.related))
  }

  function RenRelation(m: Maps, r: Relation): Relation {
    r.(id := Id(m.r, r.id), from := Id(m.t, r.from), to := Id(m.t, r.to), fromField := Get(m.f, r.fromField),
       toDisplay := MapAll(m.f, r.toDisplay), fromDisplay := MapAll(m.f, r.fromDisplay))
  }

  function RenForm(m: Maps, f: Form): Form {
    f.(id := Id(m.form, f.id), table := Id(m.t, f.table))
  }

  /** A form item under its new id, which nothing refers to. */
  function RenItem(m: Maps, it: FormField, id: int): FormField {
    FormField(id, Id(m.form, it.form), it.kind, Get(m.f, it.field), Get(m.r, it.relation), Get(m.f, it.parent), Get(m.f, it.filter), it.rest)
  }

  function RenMenu(m: Maps, x: Menu, shift: int): Menu {
    x.(id := Id(m.menu, x.id), parent := Get(m.menu, x.parent), form := Get(m.form, x.form), table := Get(m.t, x.table),
       position := x.position + shift)
  }

  function RenFlow(m: Maps, w: Flow): Flow {
    w.(id := Id(m.flow, w.id), table := Id(m.t, w.table), field := Id(m.f, w.field))
  }

  function RenStep(m: Maps, x: Step, id: int): Step {
    x.(id := id, flow := Id(m.flow, x.flow))
  }

  ghost predicate Bijective(m: Ids, ids: seq<int>, image: seq<int>) {
    && m.Keys == (set x | x in ids)
    && (forall a, b | a in m && b in m && m[a] == m[b] :: a == b)
    && (set x | x in image) == m.Values
  }

  ghost predicate AllBijective(d: Doc, out: Doc, m: Maps) {
    && Bijective(m.t, TableIds(d.tables), TableIds(out.tables)) && Bijective(m.f, FieldIds(d.fields), FieldIds(out.fields))
    && Bijective(m.r, RelationIds(d.relations), RelationIds(out.relations))
    && Bijective(m.form, FormIds(d.forms), FormIds(out.forms)) && Bijective(m.menu, MenuIds(d.menus), MenuIds(out.menus))
    && Bijective(m.flow, FlowIds(d.flows), FlowIds(out.flows))
  }

  /** `out` is `d` up to the renaming of ids by `m`, menus moved by `shift`; the order of the fields may differ. */
  ghost predicate Isomorphic(d: Doc, out: Doc, m: Maps, shift: int) {
    && AllBijective(d, out, m) && SameTables(d, out, m) && SameFields(d, out, m) && SameRelations(d, out, m)
    && SameForms(d, out, m) && SameItems(d, out, m) && SameMenus(d, out, m, shift) && SameFlows(d, out, m) && SameSteps(d, out, m)
  }

  ghost predicate SameTables(d: Doc, out: Doc, m: Maps) {
    |out.tables| == |d.tables| && forall i | 0 <= i < |d.tables| :: out.tables[i] == RenTable(m, d.tables[i])
  }

  ghost predicate SameFields(d: Doc, out: Doc, m: Maps) {
    |out.fields| == |d.fields| && forall f | f in d.fields :: RenField(m, f) in out.fields
  }

  ghost predicate SameRelations(d: Doc, out: Doc, m: Maps) {
    |out.relations| == |d.relations| && forall i | 0 <= i < |d.relations| :: out.relations[i] == RenRelation(m, d.relations[i])
  }

  ghost predicate SameForms(d: Doc, out: Doc, m: Maps) {
    |out.forms| == |d.forms| && forall i | 0 <= i < |d.forms| :: out.forms[i] == RenForm(m, d.forms[i])
  }

  ghost predicate SameItems(d: Doc, out: Doc, m: Maps) {
    |out.formFields| == |d.formFields|
    && forall i | 0 <= i < |d.formFields| :: out.formFields[i] == RenItem(m, d.formFields[i], out.formFields[i].id)
  }

  ghost predicate SameMenus(d: Doc, out: Doc, m: Maps, shift: int) {
    |out.menus| == |d.menus| && forall i | 0 <= i < |d.menus| :: out.menus[i] == RenMenu(m, d.menus[i], shift)
  }

  ghost predicate SameFlows(d: Doc, out: Doc, m: Maps) {
    |out.flows| == |d.flows| && forall i | 0 <= i < |d.flows| :: out.flows[i] == RenFlow(m, d.flows[i])
  }

  ghost predicate SameSteps(d: Doc, out: Doc, m: Maps) {
    |out.steps| == |d.steps| && forall i | 0 <= i < |d.steps| :: out.steps[i] == RenStep(m, d.steps[i], out.steps[i].id)
  }

  // ---------------------------------------------------------------- id maps

  lemma {:induction false} AssignedKeys(ids: seq<int>, next: int)
    ensures Assigned(ids, next).Keys == set x | x in ids
  {
    if ids != [] {
      var front := ids[..|ids| - 1];
      AssignedKeys(front, next);
      assert ids == front + [ids[|ids| - 1]];
    }
  }

  lemma {:induction false} AssignedAt(ids: seq<int>, next: int, i: nat)
    requires Fit(ids) && i < |ids|
    ensures ids[i] in Assigned(ids, next) && Assigned(ids, next)[ids[i]] == next + i
  {
    if i < |ids| - 1 {
      AssignedAt(ids[..|ids| - 1], next, i);
    }
  }

  /** An id stands for the last entry that has it. */
  lemma {:induction false} AssignedTo(ids: seq<int>, next: int, x: int, i: nat)
    requires x in ids && i < |ids|
    ensures x in Assigned(ids, next)
    ensures Assigned(ids, next)[x] == next + i <==> ids[i] == x && LastWith(ids, i)
  {
    var n := |ids| - 1;
    if ids[n] != x {
      assert x in ids[..n];
      AssignedTo(ids[..n], next, x, if i < n then i else 0);
      if i < n {
        assert LastWith(ids, i) <==> LastWith(ids[..n], i) && ids[n] != ids[i];
      }
      AssignedBelow(ids[..n], next, x);
    }
  }

  lemma {:induction false} AssignedBelow(ids: seq<int>, next: int, x: int)
    requires x in ids
    ensures x in Assigned(ids, next) && Assigned(ids, next)[x] < next + |ids|
  {
    var n := |ids| - 1;
    if ids[n] != x {
      assert x in ids[..n];
      AssignedBelow(ids[..n], next, x);
    }
  }

  lemma {:induction false} LinkOfAbsent(ids: seq<int>, links: seq<Option<int>>, m: Ids, id: int)
    requires |links| == |ids| && id !in ids
    ensures LinkOf(ids, links, m, id) == None
  {
    if ids != [] {
      var n := |ids| - 1;
      assert ids[n] in ids;
      LinkOfAbsent(ids[..n], links[..n], m, id);
    }
  }

  lemma {:induction false} LinkOfAlone(ids: seq<int>, links: seq<Option<int>>, m: Ids, i: nat)
    requires Fit(ids) && |links| == |ids| && i < |ids|
    ensures LinkOf(ids, links, m, ids[i]) == Get(m, links[i])
  {
    var n := |ids| - 1;
    if i < n {
      LinkOfAlone(ids[..n], links[..n], m, i);
    } else if Get(m, links[n]).None? {
      LinkOfAbsent(ids[..n], links[..n], m, ids[n]);
    }
  }

  /** Where no id is repeated every row has its own link. */
  lemma LinkAlone(ids: seq<int>, links: seq<Option<int>>, m: Ids, i: nat)
    requires Fit(ids) && |links| == |ids| && i < |ids|
    ensures LinkAt(ids, links, m, i) == Get(m, links[i])
  {
    LinkOfAlone(ids, links, m, i);
  }

  /** Distinct old ids go to consecutive new ids, one to one. */
  lemma AssignedBijective(ids: seq<int>, next: int, image: seq<int>)
    requires Fit(ids) && |image| == |ids| && forall i | 0 <= i < |ids| :: image[i] == next + i
    ensures Bijective(Assigned(ids, next), ids, image)
  {
    var m := Assigned(ids, next);
    AssignedKeys(ids, next);
    forall x | x in ids ensures exists i | 0 <= i < |ids| :: ids[i] == x && m[x] == next + i {
      var i :| 0 <= i < |ids| && ids[i] == x;
      AssignedAt(ids, next, i);
    }
    forall a, b | a in m && b in m && m[a] == m[b] ensures a == b {
      assert a in ids && b in ids;
    }
    forall y | y in image ensures y in m.Values {
      var i :| 0 <= i < |image| && image[i] == y;
      AssignedAt(ids, next, i);
    }
    forall y | y in m.Values ensures y in image {
      var x :| x in m && m[x] == y;
      assert x in ids;
      var i :| 0 <= i < |ids| && ids[i] == x && m[x] == next + i;
      assert image[i] == y;
    }
  }

  /** A longer assignment agrees with a shorter one on the ids both know. */
  lemma {:induction false} AssignedPrefix(a: seq<int>, b: seq<int>, next: int)
    requires Fit(b) && a <= b
    ensures forall x | x in Assigned(a, next) :: x in Assigned(b, next) && Assigned(b, next)[x] == Assigned(a, next)[x]
  {
    AssignedKeys(a, next);
    forall x | x in Assigned(a, next) ensures x in Assigned(b, next) && Assigned(b, next)[x] == Assigned(a, next)[x] {
      var i :| 0 <= i < |a| && a[i] == x;
      assert Fit(a);
      AssignedAt(a, next, i);
      AssignedAt(b, next, i);
    }
  }

  lemma {:induction false} KnownLength(m: Ids, ids: seq<int>)
    ensures |Known(m, ids)| <= |ids|
    ensures |Known(m, ids)| == |ids| <==> forall x | x in ids :: x in m
  {
    if ids != [] {
      var front := ids[..|ids| - 1];
      KnownLength(m, front);
      assert ids == front + [ids[|ids| - 1]];
      assert forall x :: x in ids <==> x in front || x == ids[|ids| - 1];
    }
  }

  lemma {:induction false} KnownAll(m: Ids, n: Ids, ids: seq<int>)
    requires forall x | x in ids :: x in m && x in n && m[x] == n[x]
    ensures Known(m, ids) == seq(|ids|, i requires 0 <= i < |ids| => Id(n, ids[i]))
  {
    if ids != [] {
      var front := ids[..|ids| - 1];
      assert ids == front + [ids[|ids| - 1]];
      KnownAll(m, n, front);
    }
  }

  /** Remapping through a partial map gives the full renaming exactly when the map knows every id. */
  lemma RemapIff(m: Ids, n: Ids, ids: Option<seq<int>>)
    requires forall x | x in m :: x in n && n[x] == m[x]
    ensures RemapIds(m, ids) == MapAll(n, ids) <==> (ids.Some? ==> ids.value != [] && forall x | x in ids.value :: x in m)
  {
    if ids.Some? {
      KnownLength(m, ids.value);
      if forall x | x in ids.value :: x in m {
        KnownAll(m, n, ids.value);
      }
    }
  }

  // ---------------------------------------------------------------- the fields

  lemma {:induction false} ScalarsAre(fs: seq<Field>)
    requires Fit(FieldIds(fs))
    ensures forall f :: f in Scalars(fs) <==> f in fs && !IsRelationField(f)
    ensures Fit(FieldIds(Scalars(fs)))
  {
    if fs != [] {
      var front, last := fs[..|fs| - 1], fs[|fs| - 1];
      assert fs == front + [last];
      FitPrefix(fs, |front|);
      ScalarsAre(front);
      forall f | f in Scalars(front) ensures f.id != last.id {
        var i :| 0 <= i < |front| && front[i] == f;
        assert FieldIds(fs)[i] != FieldIds(fs)[|front|];
      }
      assert FieldIds(fs)[|front|] == last.id;
      FitAppend(Scalars(front), last);
      assert Scalars(front) + [] == Scalars(front);
    }
  }

  lemma Positive(ids: seq<int>, x: int)
    requires Fit(ids) && x in ids
    ensures x > 0
  {}

  lemma FitPrefix(fs: seq<Field>, n: nat)
    requires Fit(FieldIds(fs)) && n <= |fs|
    ensures Fit(FieldIds(fs[..n]))
  {
    assert FieldIds(fs[..n]) == FieldIds(fs)[..n];
  }

  lemma FitAppend(fs: seq<Field>, f: Field)
    requires Fit(FieldIds(fs)) && f.id > 0 && forall g | g in fs :: g.id != f.id
    ensures Fit(FieldIds(fs + [f]))
  {
    assert FieldIds(fs + [f]) == FieldIds(fs) + [f.id];
    forall i | 0 <= i < |fs| ensures FieldIds(fs)[i] != f.id {
      assert fs[i] in fs;
    }
  }

  lemma FieldIdsHold(fs: seq<Field>, x: int)
    ensures x in FieldIds(fs) <==> exists f :: f in fs && f.id == x
  {
    if x in FieldIds(fs) {
      var i :| 0 <= i < |fs| && FieldIds(fs)[i] == x;
      assert fs[i] in fs;
    }
    if f :| f in fs && f.id == x {
      var i :| 0 <= i < |fs| && fs[i] == f;
      assert FieldIds(fs)[i] == x;
    }
  }

  lemma SameId(fs: seq<Field>, f: Field, g: Field)
    requires Fit(FieldIds(fs)) && f in fs && g in fs && f.id == g.id
    ensures f == g
  {
    var i :| 0 <= i < |fs| && fs[i] == f;
    var j :| 0 <= j < |fs| && fs[j] == g;
    assert FieldIds(fs)[i] == FieldIds(fs)[j];
  }

  /** The field `f` has been created by the time the first `n` relations are. */
  ghost predicate MadeBy(d: Doc, f: Field, n: nat)
    requires n <= |d.relations|
  {
    f in d.fields && (!IsRelationField(f) || exists k | 0 <= k < n :: d.relations[k].kind == M1 && d.relations[k].fromField == Some(f.id))
  }

  ghost predicate OrderMade(d: Doc, n: nat)
    requires n <= |d.relations|
  {
    Fit(FieldIds(FieldOrder(d, n))) && forall f :: f in FieldOrder(d, n) <==> MadeBy(d, f, n)
  }

  lemma {:induction false} FieldOrderIs(d: SoundDoc, n: nat)
    requires n <= |d.relations|
    ensures OrderMade(d, n)
  {
    if n == 0 {
      ScalarsAre(d.fields);
    } else {
      FieldOrderIs(d, n - 1);
      assert d.relations[n - 1] in d.relations;
      if d.relations[n - 1].kind == M1 {
        KeyMade(d, n);
      } else {
        NoKeyMade(d, n);
      }
    }
  }

  lemma NoKeyMade(d: Doc, n: nat)
    requires 0 < n <= |d.relations| && OrderMade(d, n - 1) && d.relations[n - 1].kind == MN
    ensures OrderMade(d, n)
  {
    assert FieldOrder(d, n - 1) + [] == FieldOrder(d, n - 1);
    forall g ensures MadeBy(d, g, n) <==> MadeBy(d, g, n - 1) {}
  }

  /** Creating an m1 relation creates its FK field, which was not there before. */
  lemma KeyMade(d: Doc, n: nat)
    requires UniqueIds(d) && OneOwner(d) && 0 < n <= |d.relations| && OrderMade(d, n - 1)
    requires var r := d.relations[n - 1]; r.kind == M1 && SoundRelation(d, r)
    ensures OrderMade(d, n)
  {
    var f := FindField(d.fields, d.relations[n - 1].fromField).value;
    forall g | g in FieldOrder(d, n - 1) ensures g.id != f.id {
      if g.id == f.id {
        SameId(d.fields, f, g);
        assert false;
      }
    }
    FieldIdsHold(d.fields, f.id);
    Positive(FieldIds(d.fields), f.id);
    FitAppend(FieldOrder(d, n - 1), f);
    forall g ensures g in FieldOrder(d, n) <==> MadeBy(d, g, n) {
      NextMade(d, g, f, n);
    }
  }

  lemma NextMade(d: Doc, g: Field, f: Field, n: nat)
    requires UniqueIds(d) && 0 < n <= |d.relations| && d.relations[n - 1].kind == M1
    requires FindField(d.fields, d.relations[n - 1].fromField) == Some(f)
    ensures MadeBy(d, g, n) <==> MadeBy(d, g, n - 1) || g == f
  {
    if MadeBy(d, g, n) && !MadeBy(d, g, n - 1) {
      SameId(d.fields, f, g);
    }
    if MadeBy(d, g, n - 1) && IsRelationField(g) {
      var k :| 0 <= k < n - 1 && d.relations[k].kind == M1 && d.relations[k].fromField == Some(g.id);
    }
  }

  lemma {:induction false} FieldOrderGrows(d: Doc, a: nat, b: nat)
    requires a <= b <= |d.relations|
    ensures FieldOrder(d, a) <= FieldOrder(d, b)
    decreases b
  {
    if a < b { FieldOrderGrows(d, a, b - 1); }
  }

  /** Every field is created exactly once. */
  lemma AllFieldsMade(d: SoundDoc)
    ensures forall f :: f in FieldOrder(d, |d.relations|) <==> f in d.fields
    ensures |FieldOrder(d, |d.relations|)| == |d.fields|
  {
    FieldOrderIs(d, |d.relations|);
    var made := FieldOrder(d, |d.relations|);
    forall f | f in d.fields ensures MadeBy(d, f, |d.relations|) {}
    forall x ensures x in FieldIds(made) <==> x in FieldIds(d.fields) {
      FieldIdsHold(made, x);
      FieldIdsHold(d.fields, x);
    }
    SameLength(FieldIds(made), FieldIds(d.fields));
  }

  lemma SameLength(a: seq<int>, b: seq<int>)
    requires Fit(a) && Fit(b) && forall x :: x in a <==> x in b
    ensures |a| == |b|
  {
    DistinctCount(a);
    DistinctCount(b);
    assert (set x | x in a) == (set x | x in b);
  }

  lemma {:induction false} DistinctCount(a: seq<int>)
    requires Fit(a)
    ensures |set x | x in a| == |a|
  {
    if a == [] {
      assert (set x | x in a) == {};
    } else {
      var front := a[..|a| - 1];
      DistinctCount(front);
      assert a == front + [a[|a| - 1]];
      assert (set x | x in a) == (set x | x in front) + {a[|a| - 1]};
    }
  }

  // ---------------------------------------------------------------- the relations

  lemma {:induction false} RelationOrderIs(d: SoundDoc, n: nat)
    requires n <= |d.relations|
    ensures RelationOrder(d, n) == d.relations[..n]
  {
    if n > 0 {
      RelationOrderIs(d, n - 1);
      assert SoundRelation(d, d.relations[n - 1]);
      assert d.relations[..n] == d.relations[..n - 1] + [d.relations[n - 1]];
    }
  }

  lemma OrderAll(d: SoundDoc)
    ensures RelationOrder(d, |d.relations|) == d.relations
  {
    RelationOrderIs(d, |d.relations|);
    assert d.relations[..|d.relations|] == d.relations;
  }

  ghost predicate KeptUpTo(d: Doc, n: nat)
    requires n <= |d.relations|
  {
    n == 0 || (KeptUpTo(d, n - 1) && Kept(d, d.relations[n - 1]))
  }

  lemma {:induction false} AllKept(d: SoundDoc, n: nat)
    requires n <= |d.relations|
    ensures KeptUpTo(d, n)
  {
    if n > 0 {
      AllKept(d, n - 1);
      assert SoundRelation(d, d.relations[n - 1]);
    }
  }

  /** Relation `i` as the import creates it when none before it is skipped. */
  function MadeRelation(d: Doc, t: Ids, c: Counters, i: nat): Relation
    requires i < |d.relations|
  {
    MakeRelation(d, d.relations[i], t, FieldMap(d, i + 1, c.f), c.r + i)
  }

  ghost predicate IsMade(d: Doc, t: Ids, c: Counters, rs: seq<Relation>, i: nat)
    requires i < |rs| <= |d.relations|
  {
    rs[i] == MadeRelation(d, t, c, i)
  }

  ghost predicate MadeAll(d: Doc, t: Ids, c: Counters, rs: seq<Relation>) {
    |rs| <= |d.relations| && forall i: nat | i < |rs| :: IsMade(d, t, c, rs, i)
  }

  lemma MadeOne(d: Doc, t: Ids, c: Counters, rs: seq<Relation>, r: Relation)
    requires MadeAll(d, t, c, rs) && |rs| < |d.relations| && r == MadeRelation(d, t, c, |rs|)
    ensures MadeAll(d, t, c, rs + [r])
  {
    forall i: nat | i < |rs| + 1 ensures IsMade(d, t, c, rs + [r], i) {
      if i < |rs| {
        assert IsMade(d, t, c, rs, i);
      }
    }
  }

  lemma {:induction false} NewRelationsCount(d: Doc, n: nat, t: Ids, c: Counters)
    requires n <= |d.relations| && KeptUpTo(d, n)
    ensures |NewRelations(d, n, t, c)| == n
  {
    if n > 0 {
      NewRelationsCount(d, n - 1, t, c);
      NextRelation(d, n, t, c);
    }
  }

  lemma {:induction false} NewRelationsAre(d: Doc, n: nat, t: Ids, c: Counters)
    requires n <= |d.relations| && KeptUpTo(d, n)
    ensures MadeAll(d, t, c, NewRelations(d, n, t, c))
  {
    if n > 0 {
      NewRelationsAre(d, n - 1, t, c);
      NewRelationsCount(d, n - 1, t, c);
      NextRelation(d, n, t, c);
      MadeOne(d, t, c, NewRelations(d, n - 1, t, c), MadeRelation(d, t, c, n - 1));
    }
  }

  lemma NextRelation(d: Doc, n: nat, t: Ids, c: Counters)
    requires 0 < n <= |d.relations| && Kept(d, d.relations[n - 1]) && |NewRelations(d, n - 1, t, c)| == n - 1
    ensures NewRelations(d, n, t, c) == NewRelations(d, n - 1, t, c) + [MadeRelation(d, t, c, n - 1)]
  {}

  /** The field map of an earlier moment agrees with the final one. */
  lemma EarlierMap(d: SoundDoc, c: Counters, n: nat)
    requires n <= |d.relations|
    ensures FieldMap(d, n, c.f).Keys == set x | x in FieldIds(FieldOrder(d, n))
    ensures var f := FieldMap(d, |d.relations|, c.f);
      forall x | x in FieldMap(d, n, c.f) :: x in f && f[x] == FieldMap(d, n, c.f)[x]
  {
    FieldOrderIs(d, |d.relations|);
    FieldOrderGrows(d, n, |d.relations|);
    var a, b := FieldIds(FieldOrder(d, n)), FieldIds(FieldOrder(d, |d.relations|));
    assert a <= b;
    AssignedPrefix(a, b, c.f);
    AssignedKeys(a, c.f);
  }

  lemma DisplaysIff(d: SoundDoc, c: Counters, i: nat)
    requires i < |d.relations|
    ensures var f := FieldMap(d, |d.relations|, c.f); var part := FieldMap(d, i + 1, c.f); var r := d.relations[i];
      RemapIds(part, r.toDisplay) == MapAll(f, r.toDisplay) && RemapIds(part, r.fromDisplay) == MapAll(f, r.fromDisplay) <==>
        DisplayInTime(d, i)
  {
    var r := d.relations[i];
    EarlierMap(d, c, i + 1);
    RemapIff(FieldMap(d, i + 1, c.f), FieldMap(d, |d.relations|, c.f), r.toDisplay);
    RemapIff(FieldMap(d, i + 1, c.f), FieldMap(d, |d.relations|, c.f), r.fromDisplay);
  }

  function NoDisplay(r: Relation): Relation {
    r.(toDisplay := None, fromDisplay := None)
  }

  lemma CoreMatches(d: Doc, r: Relation, m: Maps, part: Ids, id: int)
    requires SoundRelation(d, r) && r.id in m.r && m.r[r.id] == id
    requires r.from in m.t && r.to in m.t
    requires r.kind == M1 ==> r.fromField.Some? && r.fromField.value in part && Get(m.f, r.fromField) == Some(part[r.fromField.value])
    ensures NoDisplay(MakeRelation(d, r, m.t, part, id)) == NoDisplay(RenRelation(m, r)) <==> (r.kind == MN ==> r.onDelete.None?)
  {}

  /** The maps the relations are read through. */
  ghost predicate RelationMaps(d: Doc, c: Counters, m: Maps) {
    && m.t == Assigned(TableIds(d.tables), c.t) && m.f == FieldMap(d, |d.relations|, c.f)
    && m.r == Assigned(RelationIds(d.relations), c.r)
  }

  lemma CoreFacts(d: SoundDoc, c: Counters, m: Maps, i: nat)
    requires i < |d.relations| && RelationMaps(d, c, m)
    ensures var r, part := d.relations[i], FieldMap(d, i + 1, c.f);
      && SoundRelation(d, r) && r.id in m.r && m.r[r.id] == c.r + i && r.from in m.t && r.to in m.t
      && (r.kind == M1 ==> r.fromField.Some? && r.fromField.value in part && Get(m.f, r.fromField) == Some(part[r.fromField.value]))
  {
    AssignedAt(RelationIds(d.relations), c.r, i);
    assert RelationIds(d.relations)[i] == d.relations[i].id;
    AssignedKeys(TableIds(d.tables), c.t);
    assert d.relations[i] in d.relations;
    if d.relations[i].kind == M1 {
      ForeignKey(d, c, i);
    }
  }

  lemma ForeignKey(d: SoundDoc, c: Counters, i: nat)
    requires i < |d.relations| && d.relations[i].kind == M1
    ensures var f := FieldMap(d, |d.relations|, c.f); var part := FieldMap(d, i + 1, c.f); var fk := d.relations[i].fromField;
      fk.Some? && fk.value in part && Get(f, fk) == Some(part[fk.value])
  {
    var r := d.relations[i];
    assert SoundRelation(d, r);
    var f := FindField(d.fields, r.fromField).value;
    FieldOrderIs(d, i + 1);
    assert MadeBy(d, f, i + 1);
    FieldIdsHold(FieldOrder(d, i + 1), f.id);
    EarlierMap(d, c, i + 1);
    var k :| 0 <= k < |d.fields| && d.fields[k] == f;
    assert FieldIds(d.fields)[k] > 0;
  }

  /** One relation comes out as its renaming exactly when it survives. */
  lemma RelationIff(d: SoundDoc, c: Counters, m: Maps, i: nat)
    requires i < |d.relations| && RelationMaps(d, c, m)
    ensures MadeRelation(d, m.t, c, i) == RenRelation(m, d.relations[i]) <==> SurvivesAt(d, i)
  {
    var r := d.relations[i];
    CoreFacts(d, c, m, i);
    CoreMatches(d, r, m, FieldMap(d, i + 1, c.f), c.r + i);
    DisplaysIff(d, c, i);
    SplitDisplays(MadeRelation(d, m.t, c, i), RenRelation(m, r));
  }

  lemma SplitDisplays(a: Relation, b: Relation)
    ensures a == b <==> NoDisplay(a) == NoDisplay(b) && a.toDisplay == b.toDisplay && a.fromDisplay == b.fromDisplay
  {}

  lemma SameRelationsIff(d: SoundDoc, c: Counters, out: Doc, m: Maps)
    requires RelationMaps(d, c, m) && |out.relations| == |d.relations| && MadeAll(d, m.t, c, out.relations)
    ensures SameRelations(d, out, m) <==> Survives(d)
  {
    forall i: nat | i < |d.relations| ensures out.relations[i] == RenRelation(m, d.relations[i]) <==> SurvivesAt(d, i) {
      RelationIff(d, c, m, i);
      assert IsMade(d, m.t, c, out.relations, i);
    }
  }

  // ---------------------------------------------------------------- section by section

  ghost predicate TablesMatch(d: Doc, out: Doc, m: Maps) {
    Bijective(m.t, TableIds(d.tables), TableIds(out.tables))
  }

  ghost predicate FieldsMatch(d: Doc, out: Doc, m: Maps) {
    Bijective(m.f, FieldIds(d.fields), FieldIds(out.fields))
  }

  lemma TablesCopied(d: Doc, out: Doc, m: Maps, next: int)
    requires Fit(TableIds(d.tables)) && m.t == Assigned(TableIds(d.tables), next) && out.tables == NewTables(d.tables, m.f, next)
    ensures SameTables(d, out, m) && TablesMatch(d, out, m)
  {
    var ids := TableIds(d.tables);
    forall i | 0 <= i < |d.tables| ensures out.tables[i] == RenTable(m, d.tables[i]) {
      AssignedAt(ids, next, i);
      assert ids[i] == d.tables[i].id;
      LinkAlone(ids, Displays(d.tables), m.f, i);
    }
    AssignedBijective(ids, next, TableIds(out.tables));
  }

  ghost predicate MadeInOrder(made: seq<Field>, fields: seq<Field>, t: Ids, next: int) {
    |fields| == |made| && forall i | 0 <= i < |made| :: fields[i] == MakeField(made[i], t, next + i)
  }

  lemma NewFieldsInOrder(d: Doc, n: nat, t: Ids, next: int)
    requires n <= |d.relations|
    ensures MadeInOrder(FieldOrder(d, n), NewFields(d, n, t, next), t, next)
  {}

  /** The imported field `g` was made from `f`. */
  ghost predicate From(m: Maps, f: Field, g: Field) {
    g == RenField(m, f) && f.id in m.f
  }

  /** Every imported field was made from one of the file. */
  ghost predicate OnlyFields(d: Doc, out: Doc, m: Maps) {
    forall g | g in out.fields :: exists f | f in d.fields :: From(m, f, g)
  }

  lemma MadeAt(made: seq<Field>, fields: seq<Field>, m: Maps, next: int, i: nat)
    requires Fit(FieldIds(made)) && m.f == Assigned(FieldIds(made), next) && i < |made| && made[i].table in m.t
    requires MadeInOrder(made, fields, m.t, next)
    ensures From(m, made[i], fields[i])
  {
    AssignedAt(FieldIds(made), next, i);
    assert FieldIds(made)[i] == made[i].id;
  }

  /** Fields made in order, each under the id the map gives it. */
  lemma FieldsReach(made: seq<Field>, rows: seq<Field>, m: Maps, next: int)
    requires Fit(FieldIds(made)) && m.f == Assigned(FieldIds(made), next) && MadeInOrder(made, rows, m.t, next)
    requires forall f | f in made :: f.table in m.t
    ensures forall f | f in made :: RenField(m, f) in rows
    ensures forall g | g in rows :: exists f | f in made :: From(m, f, g)
  {
    forall f | f in made ensures RenField(m, f) in rows {
      var i :| 0 <= i < |made| && made[i] == f;
      MadeAt(made, rows, m, next, i);
    }
    forall g | g in rows ensures exists f | f in made :: From(m, f, g) {
      var i :| 0 <= i < |rows| && rows[i] == g;
      assert made[i] in made;
      MadeAt(made, rows, m, next, i);
    }
  }

  lemma FieldsCopied(d: Doc, out: Doc, m: Maps, made: seq<Field>, next: int)
    requires Fit(FieldIds(made)) && m.f == Assigned(FieldIds(made), next) && MadeInOrder(made, out.fields, m.t, next)
    requires |made| == |d.fields| && forall f :: f in made <==> f in d.fields
    requires forall f | f in d.fields :: f.table in m.t
    ensures SameFields(d, out, m) && OnlyFields(d, out, m) && FieldsMatch(d, out, m)
  {
    FieldsReach(made, out.fields, m, next);
    AssignedBijective(FieldIds(made), next, FieldIds(out.fields));
    SameIds(made, d.fields);
  }

  lemma SameIds(a: seq<Field>, b: seq<Field>)
    requires forall f :: f in a <==> f in b
    ensures (set x | x in FieldIds(a)) == set x | x in FieldIds(b)
  {
    forall x ensures x in FieldIds(a) <==> x in FieldIds(b) {
      FieldIdsHold(a, x);
      FieldIdsHold(b, x);
    }
  }

  lemma RelationNumbers(d: Doc, t: Ids, c: Counters, rs: seq<Relation>)
    requires MadeAll(d, t, c, rs)
    ensures forall i | 0 <= i < |rs| :: RelationIds(rs)[i] == c.r + i
  {
    forall i | 0 <= i < |rs| ensures RelationIds(rs)[i] == c.r + i {
      assert IsMade(d, t, c, rs, i);
    }
  }

  lemma RelationsCopied(d: Doc, c: Counters, out: Doc, m: Maps)
    requires Fit(RelationIds(d.relations)) && m.r == Assigned(RelationIds(d.relations), c.r)
    requires |out.relations| == |d.relations| && MadeAll(d, m.t, c, out.relations)
    ensures Bijective(m.r, RelationIds(d.relations), RelationIds(out.relations))
  {
    RelationNumbers(d, m.t, c, out.relations);
    AssignedBijective(RelationIds(d.relations), c.r, RelationIds(out.relations));
  }

  lemma FormsCopied(d: Doc, out: Doc, m: Maps, next: int)
    requires Fit(FormIds(d.forms)) && m.form == Assigned(FormIds(d.forms), next) && out.forms == NewForms(d.forms, m.t, next)
    ensures SameForms(d, out, m) && Bijective(m.form, FormIds(d.forms), FormIds(out.forms))
  {
    var ids := FormIds(d.forms);
    forall i | 0 <= i < |d.forms| ensures d.forms[i].id in m.form && m.form[d.forms[i].id] == next + i {
      AssignedAt(ids, next, i);
      assert ids[i] == d.forms[i].id;
    }
    AssignedBijective(ids, next, FormIds(out.forms));
  }

  lemma {:induction false} ItemsAre(its: seq<FormField>, m: Maps, next: int)
    requires forall i | 0 <= i < |its| :: ItemKept(its[i], m)
    ensures |NewItems(its, m, next)| == |its|
    ensures forall i | 0 <= i < |its| :: NewItems(its, m, next)[i] == RenItem(m, its[i], next + i)
  {
    if its != [] {
      ItemsAre(its[..|its| - 1], m, next);
      assert ItemKept(its[|its| - 1], m);
    }
  }

  lemma MenuIs(ms: seq<Menu>, m: Maps, next: int, shift: int, i: nat)
    requires Fit(MenuIds(ms)) && m.menu == Assigned(MenuIds(ms), next) && i < |ms|
    ensures NewMenus(ms, m, next, shift)[i] == RenMenu(m, ms[i], shift)
  {
    AssignedAt(MenuIds(ms), next, i);
    assert MenuIds(ms)[i] == ms[i].id;
    LinkAlone(MenuIds(ms), Parents(ms), m.menu, i);
  }

  lemma MenusCopied(d: Doc, out: Doc, m: Maps, next: int, shift: int)
    requires Fit(MenuIds(d.menus)) && m.menu == Assigned(MenuIds(d.menus), next) && out.menus == NewMenus(d.menus, m, next, shift)
    ensures SameMenus(d, out, m, shift) && Bijective(m.menu, MenuIds(d.menus), MenuIds(out.menus))
  {
    AssignedBijective(MenuIds(d.menus), next, MenuIds(out.menus));
    forall i | 0 <= i < |d.menus| ensures out.menus[i] == RenMenu(m, d.menus[i], shift) {
      MenuIs(d.menus, m, next, shift, i);
    }
  }

  lemma {:induction false} AllFlowsKept(ws: seq<Flow>, m: Maps)
    requires forall i | 0 <= i < |ws| :: FlowKept(ws[i], m)
    ensures KeptFlows(ws, m) == ws
  {
    if ws != [] {
      var n := |ws| - 1;
      assert FlowKept(ws[n], m);
      assert ws == ws[..n] + [ws[n]];
      AllFlowsKept(ws[..n], m);
    }
  }

  lemma FlowIs(ws: seq<Flow>, m: Maps, next: int, i: nat)
    requires Fit(FlowIds(ws)) && m.flow == Assigned(FlowIds(ws), next) && i < |ws|
    requires KeptFlows(ws, m) == ws && FlowKept(ws[i], m)
    ensures NewFlows(ws, m, next)[i] == RenFlow(m, ws[i])
  {
    AssignedAt(FlowIds(ws), next, i);
    assert FlowIds(ws)[i] == ws[i].id;
  }

  lemma FlowsCopied(d: Doc, out: Doc, m: Maps, next: int)
    requires Fit(FlowIds(d.flows)) && m.flow == Assigned(FlowIds(d.flows), next) && out.flows == NewFlows(d.flows, m, next)
    requires forall i | 0 <= i < |d.flows| :: FlowKept(d.flows[i], m)
    ensures SameFlows(d, out, m) && Bijective(m.flow, FlowIds(d.flows), FlowIds(out.flows))
  {
    AllFlowsKept(d.flows, m);
    AssignedBijective(FlowIds(d.flows), next, FlowIds(out.flows));
    forall i | 0 <= i < |d.flows| ensures out.flows[i] == RenFlow(m, d.flows[i]) {
      FlowIs(d.flows, m, next, i);
    }
  }

  lemma {:induction false} StepsAre(ss: seq<Step>, m: Maps, next: int)
    requires forall i | 0 <= i < |ss| :: StepKept(ss[i], m)
    ensures |NewSteps(ss, m, next)| == |ss|
    ensures forall i | 0 <= i < |ss| :: NewSteps(ss, m, next)[i] == RenStep(m, ss[i], next + i)
  {
    if ss != [] {
      StepsAre(ss[..|ss| - 1], m, next);
      assert StepKept(ss[|ss| - 1], m);
    }
  }

  // ---------------------------------------------------------------- the whole import

  /** Every relation is made, in order. */
  lemma RelationsMade(d: SoundDoc, t: Ids, c: Counters)
    ensures |NewRelations(d, |d.relations|, t, c)| == |d.relations| && MadeAll(d, t, c, NewRelations(d, |d.relations|, t, c))
  {
    AllKept(d, |d.relations|);
    NewRelationsCount(d, |d.relations|, t, c);
    NewRelationsAre(d, |d.relations|, t, c);
  }

  /** The maps know every id a sound model refers to. */
  ghost predicate Knows(d: Doc, m: Maps) {
    && m.t.Keys == (set x | x in TableIds(d.tables)) && m.f.Keys == (set x | x in FieldIds(d.fields))
    && m.r.Keys == (set x | x in RelationIds(d.relations)) && m.form.Keys == (set x | x in FormIds(d.forms))
  }

  lemma ItemKnown(d: Doc, it: FormField, m: Maps)
    requires UniqueIds(d) && SoundItem(d, it) && Knows(d, m)
    ensures ItemKept(it, m)
  {
    if it.kind == "field" { Positive(FieldIds(d.fields), it.field.value); }
    if it.kind == "relation" { Positive(RelationIds(d.relations), it.relation.value); }
  }

  lemma FlowsKnown(d: Doc, m: Maps)
    requires SoundFlows(d) && Knows(d, m)
    ensures forall i | 0 <= i < |d.flows| :: FlowKept(d.flows[i], m)
  {
    forall i | 0 <= i < |d.flows| ensures FlowKept(d.flows[i], m) {
      assert d.flows[i] in d.flows;
    }
  }

  lemma StepsKnown(d: Doc, m: Maps)
    requires SoundFlows(d) && m.flow.Keys == set x | x in FlowIds(d.flows)
    ensures forall i | 0 <= i < |d.steps| :: StepKept(d.steps[i], m)
  {
    forall i | 0 <= i < |d.steps| ensures StepKept(d.steps[i], m) {
      assert d.steps[i] in d.steps;
    }
  }

  lemma FieldsKnown(d: SoundDoc, c: Counters)
    ensures FieldMap(d, |d.relations|, c.f).Keys == set x | x in FieldIds(d.fields)
  {
    AllFieldsMade(d);
    AssignedKeys(FieldIds(FieldOrder(d, |d.relations|)), c.f);
    SameIds(FieldOrder(d, |d.relations|), d.fields);
  }

  /** The maps of an import of a sound model, with no relation or workflow skipped. */
  ghost predicate GoodMaps(d: Doc, c: Counters, m: Maps) {
    && RelationMaps(d, c, m) && Knows(d, m)
    && m.form == Assigned(FormIds(d.forms), c.form) && m.menu == Assigned(MenuIds(d.menus), c.menu)
    && m.flow == Assigned(FlowIds(d.flows), c.flow)
  }

  lemma FinalMapsAreGood(d: SoundDoc, c: Counters)
    ensures GoodMaps(d, c, FinalMaps(d, c))
  {
    var m := FinalMaps(d, c);
    OrderAll(d);
    FieldsKnown(d, c);
    AssignedKeys(TableIds(d.tables), c.t);
    AssignedKeys(RelationIds(d.relations), c.r);
    AssignedKeys(FormIds(d.forms), c.form);
    FlowsKnown(d, m.(flow := map[]));
    AllFlowsKept(d.flows, m.(flow := map[]));
  }

  /** `out` holds the rows an import creates through the maps `m`. */
  ghost predicate RowsOf(d: Doc, c: Counters, m: Maps, out: Doc, shift: int) {
    && out.tables == NewTables(d.tables, m.f, c.t) && out.fields == NewFields(d, |d.relations|, m.t, c.f)
    && out.relations == NewRelations(d, |d.relations|, m.t, c) && out.forms == NewForms(d.forms, m.t, c.form)
    && out.formFields == NewItems(d.formFields, m, c.item) && out.menus == NewMenus(d.menus, m, c.menu, shift)
    && out.flows == NewFlows(d.flows, m, c.flow) && out.steps == NewSteps(d.steps, m, c.step)
  }

  ghost predicate CopiedRows(d: Doc, out: Doc, m: Maps) {
    SameTables(d, out, m) && SameFields(d, out, m) && OnlyFields(d, out, m)
  }

  ghost predicate CopiedRelations(d: Doc, c: Counters, out: Doc, m: Maps) {
    |out.relations| == |d.relations| && MadeAll(d, m.t, c, out.relations) && RelationMaps(d, c, m)
  }

  /** The parts of an import that do not depend on what is lost. */
  ghost predicate Copy(d: Doc, c: Counters, out: Doc, m: Maps, shift: int) {
    && CopiedRows(d, out, m) && CopiedRelations(d, c, out, m) && AllBijective(d, out, m) && Knows(d, m)
    && SameForms(d, out, m) && SameItems(d, out, m) && SameMenus(d, out, m, shift) && SameFlows(d, out, m) && SameSteps(d, out, m)
  }

  lemma FieldPart(d: SoundDoc, c: Counters, m: Maps, out: Doc, shift: int)
    requires GoodMaps(d, c, m) && RowsOf(d, c, m, out, shift)
    ensures SameFields(d, out, m) && OnlyFields(d, out, m) && FieldsMatch(d, out, m)
  {
    AllFieldsMade(d);
    FieldOrderIs(d, |d.relations|);
    NewFieldsInOrder(d, |d.relations|, m.t, c.f);
    FieldsCopied(d, out, m, FieldOrder(d, |d.relations|), c.f);
  }

  lemma ItemPart(d: SoundDoc, c: Counters, m: Maps, out: Doc, shift: int)
    requires GoodMaps(d, c, m) && RowsOf(d, c, m, out, shift)
    ensures SameItems(d, out, m)
  {
    forall i | 0 <= i < |d.formFields| ensures ItemKept(d.formFields[i], m) {
      assert d.formFields[i] in d.formFields;
      ItemKnown(d, d.formFields[i], m);
    }
    ItemsAre(d.formFields, m, c.item);
  }

  lemma FlowPart(d: SoundDoc, c: Counters, m: Maps, out: Doc, shift: int)
    requires GoodMaps(d, c, m) && RowsOf(d, c, m, out, shift)
    ensures SameFlows(d, out, m) && SameSteps(d, out, m) && Bijective(m.flow, FlowIds(d.flows), FlowIds(out.flows))
  {
    FlowsKnown(d, m);
    FlowsCopied(d, out, m, c.flow);
    AssignedKeys(FlowIds(d.flows), c.flow);
    StepsKnown(d, m);
    StepsAre(d.steps, m, c.step);
  }

  lemma RowsAreCopy(d: SoundDoc, c: Counters, m: Maps, out: Doc, shift: int)
    requires GoodMaps(d, c, m) && RowsOf(d, c, m, out, shift)
    ensures Copy(d, c, out, m, shift)
  {
    TablesCopied(d, out, m, c.t);
    FieldPart(d, c, m, out, shift);
    RelationsMade(d, m.t, c);
    RelationsCopied(d, c, out, m);
    FormsCopied(d, out, m, c.form);
    ItemPart(d, c, m, out, shift);
    MenusCopied(d, out, m, c.menu, shift);
    FlowPart(d, c, m, out, shift);
  }

  lemma ImportIsCopy(d: SoundDoc, c: Counters, shift: int)
    ensures Copy(d, c, Created(d, c, shift), FinalMaps(d, c), shift)
  {
    FinalMapsAreGood(d, c);
    RowsAreCopy(d, c, FinalMaps(d, c), Created(d, c, shift), shift);
  }

  /**
    Importing an export gives the same model up to a bijective renaming of ids exactly
    when no mn relation carries an on_delete and every display list names fields created
    by then.
  */
  lemma RoundTripIff(d: SoundDoc, c: Counters, shift: int)
    ensures Isomorphic(d, Created(d, c, shift), FinalMaps(d, c), shift) <==> Survives(d)
  {
    ImportIsCopy(d, c, shift);
    SameRelationsIff(d, c, Created(d, c, shift), FinalMaps(d, c));
  }

  const LINKED_TABLE := Table(1, "item", true, None, "")

  const SELF_LINK := Relation(1, "related", MN, 1, 1, None, Some(JunctionName("item", "item")), Some("cascade"), None, None)

  /** A sound model whose on_delete is lost on the way; no store holds it, but an edited file can. */
  lemma OnDeleteIsLost(c: Counters)
    ensures var d := EMPTY_DOC.(tables := [LINKED_TABLE], relations := [SELF_LINK]);
      Sound(d) && !Isomorphic(d, Created(d, c, 0), FinalMaps(d, c), 0)
  {
    var d := EMPTY_DOC.(tables := [LINKED_TABLE], relations := [SELF_LINK]);
    assert TableIds(d.tables) == [1] && RelationIds(d.relations) == [1];
    assert d.tables[0] in d.tables;
    assert FindTable(d.tables, 1) == Some(LINKED_TABLE);
    assert SoundRelation(d, SELF_LINK);
    assert !SurvivesAt(d, 0);
    RoundTripIff(d, c, 0);
  }

  // Two tables that refer to each other; the first relation shows the column that makes the second.

  const LEFT := Table(1, "left", true, None, "")
  const RIGHT := Table(2, "right", true, None, "")
  const TO_RIGHT := Field(1, 1, "right_id", "relation", Some(2), "")
  const TO_LEFT := Field(2, 2, "left_id", "relation", Some(1), "")
  const FIRST := Relation(1, "first", M1, 1, 2, Some(1), None, None, Some([2]), None)
  const SECOND := Relation(2, "second", M1, 2, 1, Some(2), None, None, None, None)
  const EARLY := EMPTY_DOC.(tables := [LEFT, RIGHT], fields := [TO_RIGHT, TO_LEFT], relations := [FIRST, SECOND])

  lemma EarlyParts()
    ensures TableIds(EARLY.tables) == [1, 2] && FieldIds(EARLY.fields) == [1, 2] && RelationIds(EARLY.relations) == [1, 2]
    ensures FindField(EARLY.fields, Some(1)) == Some(TO_RIGHT) && FindField(EARLY.fields, Some(2)) == Some(TO_LEFT)
  {
    assert 1 in [1, 2] && 2 in [1, 2];
  }

  lemma EarlyIsSound()
    ensures Sound(EARLY)
  {
    EarlyParts();
    assert 1 in [1, 2] && 2 in [1, 2];
    assert SoundRelation(EARLY, FIRST) && SoundRelation(EARLY, SECOND);
    assert EARLY.relations[0].fromField == Some(TO_RIGHT.id) && EARLY.relations[1].fromField == Some(TO_LEFT.id);
  }

  lemma EarlyOrder()
    ensures FieldIds(FieldOrder(EARLY, 1)) == [1]
  {
    EarlyParts();
    assert EARLY.fields[..1] == [TO_RIGHT] && [TO_RIGHT][..0] == [];
    assert Scalars([TO_RIGHT]) == [] && Scalars(EARLY.fields) == [];
    assert FieldOrder(EARLY, 0) == [];
    assert FieldOrder(EARLY, 1) == [] + [TO_RIGHT];
  }

  /** A sound model, as a store can hold it, whose display list is lost on the way. */
  lemma LateDisplayIsLost(c: Counters)
    ensures Sound(EARLY) && !Isomorphic(EARLY, Created(EARLY, c, 0), FinalMaps(EARLY, c), 0)
  {
    EarlyIsSound();
    EarlyOrder();
    assert 2 in [2] && !SurvivesAt(EARLY, 0);
    RoundTripIff(EARLY, c, 0);
  }
}
