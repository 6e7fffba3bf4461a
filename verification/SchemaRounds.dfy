/**
  What an import leaves behind, as the next export finds it: ids are unique, nothing
  dangles, and nothing more can be lost (app/schema_io.py).
*/
module SchemaRounds {
  import opened SchemaIo
  import opened Wrappers

  predicate FromOne(c: Counters) {
    c.t > 0 && c.f > 0 && c.r > 0 && c.form > 0 && c.item > 0 && c.menu > 0 && c.flow > 0 && c.step > 0
  }

  // ---------------------------------------------------------------- unique ids

  lemma Consecutive(ids: seq<int>, next: int)
    requires next > 0 && forall i | 0 <= i < |ids| :: ids[i] == next + i
    ensures Fit(ids)
  {}

  lemma RowsUnique(d: Doc, m: Maps, c: Counters, shift: int)
    requires FromOne(c)
    ensures Fit(TableIds(NewTables(d.tables, m.f, c.t))) && Fit(FormIds(NewForms(d.forms, m.t, c.form)))
    ensures Fit(MenuIds(NewMenus(d.menus, m, c.menu, shift))) && Fit(FlowIds(NewFlows(d.flows, m, c.flow)))
    ensures Fit(FieldIds(NewFields(d, |d.relations|, m.t, c.f)))
  {
    Consecutive(TableIds(NewTables(d.tables, m.f, c.t)), c.t);
    Consecutive(FormIds(NewForms(d.forms, m.t, c.form)), c.form);
    Consecutive(MenuIds(NewMenus(d.menus, m, c.menu, shift)), c.menu);
    Consecutive(FlowIds(NewFlows(d.flows, m, c.flow)), c.flow);
    Consecutive(FieldIds(NewFields(d, |d.relations|, m.t, c.f)), c.f);
  }

  lemma RelationsUnique(d: Doc, t: Ids, c: Counters, rs: seq<Relation>)
    requires MadeAll(d, t, c, rs) && c.r > 0
    ensures Fit(RelationIds(rs))
  {
    RelationNumbers(d, t, c, rs);
    Consecutive(RelationIds(rs), c.r);
  }

  lemma CreatedUnique(d: SoundDoc, c: Counters, shift: int)
    requires FromOne(c)
    ensures UniqueIds(Created(d, c, shift))
  {
    RowsUnique(d, FinalMaps(d, c), c, shift);
    ImportIsCopy(d, c, shift);
    RelationsUnique(d, FinalMaps(d, c).t, c, Created(d, c, shift).relations);
  }

  // ---------------------------------------------------------------- images of references

  lemma GetImage(m: Ids, ids: seq<int>, image: seq<int>, x: Option<int>)
    requires Bijective(m, ids, image)
    ensures Among(Get(m, x), image)
  {
    if Get(m, x).Some? {
      assert Get(m, x).value in m.Values;
    }
  }

  lemma IdImage(m: Ids, ids: seq<int>, image: seq<int>, x: int)
    requires Bijective(m, ids, image) && x in ids
    ensures x in m && Id(m, x) in image
  {
    assert m[x] in m.Values;
  }

  // ---------------------------------------------------------------- fields and their owners

  lemma FieldSound(d: Doc, out: Doc, m: Maps, f: Field, g: Field)
    requires SoundFields(d) && Fit(TableIds(d.tables)) && TablesMatch(d, out, m) && f in d.fields && From(m, f, g)
    ensures g.table in TableIds(out.tables) && Among(g.related, TableIds(out.tables)) && (IsRelationField(g) ==> g.related.Some?)
  {
    IdImage(m.t, TableIds(d.tables), TableIds(out.tables), f.table);
    GetImage(m.t, TableIds(d.tables), TableIds(out.tables), f.related);
    if IsRelationField(g) {
      Positive(TableIds(d.tables), f.related.value);
    }
  }

  lemma FieldsSound(d: Doc, out: Doc, m: Maps)
    requires SoundFields(d) && Fit(TableIds(d.tables)) && TablesMatch(d, out, m) && FieldsMatch(d, out, m)
    requires SameTables(d, out, m) && OnlyFields(d, out, m)
    ensures SoundFields(out)
  {
    forall t | t in out.tables ensures Among(t.display, FieldIds(out.fields)) {
      var i :| 0 <= i < |out.tables| && out.tables[i] == t;
      GetImage(m.f, FieldIds(d.fields), FieldIds(out.fields), d.tables[i].display);
    }
    forall g | g in out.fields
      ensures g.table in TableIds(out.tables) && Among(g.related, TableIds(out.tables)) && (IsRelationField(g) ==> g.related.Some?)
    {
      var f :| f in d.fields && From(m, f, g);
      FieldSound(d, out, m, f, g);
    }
  }

  /** Relation `k` keeps its kind, and its FK field under the new id. */
  ghost predicate KeyKept(d: Doc, out: Doc, m: Maps, k: nat)
    requires k < |d.relations| == |out.relations|
  {
    var r, o := d.relations[k], out.relations[k];
    o.kind == r.kind && (r.kind == M1 ==> r.fromField.Some? && r.fromField.value in m.f && o.fromField == Some(m.f[r.fromField.value]))
  }

  ghost predicate KeysKept(d: Doc, out: Doc, m: Maps) {
    |d.relations| == |out.relations| && forall k: nat | k < |d.relations| :: KeyKept(d, out, m, k)
  }

  lemma KeysOut(d: SoundDoc, c: Counters, out: Doc, m: Maps)
    requires |d.relations| == |out.relations| && MadeAll(d, m.t, c, out.relations) && m.f == FieldMap(d, |d.relations|, c.f)
    ensures KeysKept(d, out, m)
  {
    forall k: nat | k < |d.relations| ensures KeyKept(d, out, m, k) {
      assert IsMade(d, m.t, c, out.relations, k);
      if d.relations[k].kind == M1 {
        ForeignKey(d, c, k);
      }
    }
  }

  lemma OwnerKept(d: Doc, out: Doc, m: Maps)
    requires OneOwner(d) && OnlyFields(d, out, m) && KeysKept(d, out, m) && FieldsMatch(d, out, m)
    ensures OneOwner(out)
  {
    forall g | g in out.fields && IsRelationField(g)
      ensures exists k | 0 <= k < |out.relations| :: out.relations[k].kind == M1 && out.relations[k].fromField == Some(g.id)
    {
      var f :| f in d.fields && From(m, f, g);
      var k :| 0 <= k < |d.relations| && d.relations[k].kind == M1 && d.relations[k].fromField == Some(f.id);
      assert KeyKept(d, out, m, k);
      assert out.relations[k].fromField == Some(g.id);
    }
    forall j, k | 0 <= j < k < |out.relations| && out.relations[j].kind == M1 && out.relations[k].kind == M1
      ensures out.relations[j].fromField != out.relations[k].fromField
    {
      assert KeyKept(d, out, m, j) && KeyKept(d, out, m, k);
    }
  }

  // ---------------------------------------------------------------- relations

  lemma {:induction false} KnownFrom(m: Ids, ids: seq<int>)
    ensures forall y | y in Known(m, ids) :: y in m.Values
  {
    if ids != [] {
      KnownFrom(m, ids[..|ids| - 1]);
    }
  }

  /** `y` is the new id of a field made while the first `n` relations were. */
  ghost predicate Displayed(d: Doc, f: Ids, n: nat, y: int)
    requires n <= |d.relations|
  {
    exists g :: MadeBy(d, g, n) && g.id in f && y == f[g.id]
  }

  /** What is left of a display list was in the field map of its moment. */
  lemma DisplayKept(d: SoundDoc, c: Counters, n: nat, xs: Option<seq<int>>)
    requires n <= |d.relations|
    ensures var ys := RemapIds(FieldMap(d, n, c.f), xs);
      ys.Some? ==> ys.value != [] && forall y | y in ys.value :: Displayed(d, FieldMap(d, |d.relations|, c.f), n, y)
  {
    var part := FieldMap(d, n, c.f);
    var ys := RemapIds(part, xs);
    if ys.Some? {
      KnownFrom(part, xs.value);
      EarlierMap(d, c, n);
      FieldOrderIs(d, n);
      forall y | y in ys.value ensures Displayed(d, FieldMap(d, |d.relations|, c.f), n, y) {
        var x :| x in part && part[x] == y;
        FieldIdsHold(FieldOrder(d, n), x);
        var f :| f in FieldOrder(d, n) && f.id == x;
        assert MadeBy(d, f, n);
      }
    }
  }

  lemma DisplayListed(d: SoundDoc, c: Counters, out: Doc, m: Maps, n: nat, xs: Option<seq<int>>)
    requires n <= |d.relations| && m.f == FieldMap(d, |d.relations|, c.f) && FieldsMatch(d, out, m)
    ensures Listed(RemapIds(FieldMap(d, n, c.f), xs), FieldIds(out.fields))
  {
    DisplayKept(d, c, n, xs);
    var ys := RemapIds(FieldMap(d, n, c.f), xs);
    if ys.Some? {
      forall y | y in ys.value ensures y in FieldIds(out.fields) {
        assert Displayed(d, m.f, n, y);
        assert y in m.f.Values;
      }
    }
  }

  lemma SameTable(ts: seq<Table>, a: Table, b: Table)
    requires Fit(TableIds(ts)) && a in ts && b in ts && a.id == b.id
    ensures a == b
  {
    var i :| 0 <= i < |ts| && ts[i] == a;
    var j :| 0 <= j < |ts| && ts[j] == b;
    assert TableIds(ts)[i] == TableIds(ts)[j];
  }

  lemma PhysKept(d: Doc, out: Doc, m: Maps, x: int)
    requires Fit(TableIds(d.tables)) && TablesMatch(d, out, m) && SameTables(d, out, m) && x in TableIds(d.tables)
    ensures x in m.t && PhysOf(out, m.t[x]) == PhysOf(d, x)
  {
    var i :| 0 <= i < |d.tables| && TableIds(d.tables)[i] == x;
    assert out.tables[i] in out.tables && out.tables[i].id == m.t[x];
    assert d.tables[i] in d.tables;
    var o := FindTable(out.tables, m.t[x]).value;
    var j :| 0 <= j < |out.tables| && out.tables[j] == o;
    assert TableIds(d.tables)[j] in TableIds(d.tables);
    SameTable(d.tables, d.tables[i], d.tables[j]);
    SameTable(d.tables, d.tables[i], FindTable(d.tables, x).value);
  }

  lemma KeyTyped(d: Doc, out: Doc, m: Maps, fk: int)
    requires Fit(FieldIds(d.fields)) && FieldsMatch(d, out, m) && SameFields(d, out, m) && OnlyFields(d, out, m) && fk in m.f
    requires FindField(d.fields, Some(fk)).Some? && IsRelationField(FindField(d.fields, Some(fk)).value)
    ensures var g := FindField(out.fields, Some(m.f[fk])); g.Some? && IsRelationField(g.value)
  {
    var f := FindField(d.fields, Some(fk)).value;
    assert RenField(m, f) in out.fields;
    var g := FindField(out.fields, Some(m.f[fk])).value;
    var h :| h in d.fields && From(m, h, g);
    SameId(d.fields, f, h);
  }

  lemma EndsKept(d: Doc, out: Doc, m: Maps, r: Relation)
    requires Fit(TableIds(d.tables)) && TablesMatch(d, out, m) && SameTables(d, out, m)
    requires r.from in TableIds(d.tables) && r.to in TableIds(d.tables)
    ensures r.from in m.t && r.to in m.t && m.t[r.from] in TableIds(out.tables) && m.t[r.to] in TableIds(out.tables)
    ensures PhysOf(out, m.t[r.from]) == PhysOf(d, r.from) && PhysOf(out, m.t[r.to]) == PhysOf(d, r.to)
  {
    IdImage(m.t, TableIds(d.tables), TableIds(out.tables), r.from);
    IdImage(m.t, TableIds(d.tables), TableIds(out.tables), r.to);
    PhysKept(d, out, m, r.from);
    PhysKept(d, out, m, r.to);
  }

  /** What the checks on one relation come to, once its parts are known to be kept. */
  lemma RelationSound(d: Doc, c: Counters, out: Doc, m: Maps, i: nat)
    requires i < |d.relations| == |out.relations| && SoundRelation(d, d.relations[i]) && IsMade(d, m.t, c, out.relations, i)
    requires var r := d.relations[i];
      && r.from in m.t && r.to in m.t && m.t[r.from] in TableIds(out.tables) && m.t[r.to] in TableIds(out.tables)
      && PhysOf(out, m.t[r.from]) == PhysOf(d, r.from) && PhysOf(out, m.t[r.to]) == PhysOf(d, r.to)
      && Listed(RemapIds(FieldMap(d, i + 1, c.f), r.toDisplay), FieldIds(out.fields))
      && Listed(RemapIds(FieldMap(d, i + 1, c.f), r.fromDisplay), FieldIds(out.fields))
      && (r.kind == M1 ==> var g := FindField(out.fields, out.relations[i].fromField); g.Some? && IsRelationField(g.value))
    ensures SoundRelation(out, out.relations[i])
  {}

  lemma RelationKept(d: SoundDoc, c: Counters, out: Doc, m: Maps, i: nat)
    requires i < |d.relations| && KeysKept(d, out, m) && IsMade(d, m.t, c, out.relations, i) && m.f == FieldMap(d, |d.relations|, c.f)
    requires TablesMatch(d, out, m) && SameTables(d, out, m) && FieldsMatch(d, out, m) && SameFields(d, out, m) && OnlyFields(d, out, m)
    ensures SoundRelation(out, out.relations[i])
  {
    var r := d.relations[i];
    assert r in d.relations;
    EndsKept(d, out, m, r);
    DisplayListed(d, c, out, m, i + 1, r.toDisplay);
    DisplayListed(d, c, out, m, i + 1, r.fromDisplay);
    assert KeyKept(d, out, m, i);
    if r.kind == M1 {
      KeyTyped(d, out, m, r.fromField.value);
    }
    RelationSound(d, c, out, m, i);
  }

  // ---------------------------------------------------------------- forms, menus, workflows

  lemma ItemSound(d: Doc, out: Doc, m: Maps, it: FormField, o: FormField)
    requires SoundItem(d, it) && ItemKept(it, m) && o == RenItem(m, it, o.id)
    requires FieldsMatch(d, out, m) && Bijective(m.r, RelationIds(d.relations), RelationIds(out.relations))
    requires Bijective(m.form, FormIds(d.forms), FormIds(out.forms))
    ensures SoundItem(out, o)
  {
    IdImage(m.form, FormIds(d.forms), FormIds(out.forms), it.form);
    GetImage(m.f, FieldIds(d.fields), FieldIds(out.fields), it.field);
    GetImage(m.r, RelationIds(d.relations), RelationIds(out.relations), it.relation);
    GetImage(m.f, FieldIds(d.fields), FieldIds(out.fields), it.parent);
    GetImage(m.f, FieldIds(d.fields), FieldIds(out.fields), it.filter);
  }

  lemma MenuSound(d: Doc, out: Doc, m: Maps, x: Menu, shift: int)
    requires TablesMatch(d, out, m) && Bijective(m.form, FormIds(d.forms), FormIds(out.forms))
    requires Bijective(m.menu, MenuIds(d.menus), MenuIds(out.menus))
    ensures SoundMenu(out, RenMenu(m, x, shift))
  {
    GetImage(m.menu, MenuIds(d.menus), MenuIds(out.menus), x.parent);
    GetImage(m.form, FormIds(d.forms), FormIds(out.forms), x.form);
    GetImage(m.t, TableIds(d.tables), TableIds(out.tables), x.table);
  }

  lemma FormsSound(d: Doc, out: Doc, m: Maps, shift: int)
    requires UniqueIds(d) && SoundForms(d) && AllBijective(d, out, m) && Knows(d, m)
    requires SameForms(d, out, m) && SameItems(d, out, m) && SameMenus(d, out, m, shift)
    ensures SoundForms(out)
  {
    forall f | f in out.forms ensures f.table in TableIds(out.tables) {
      var i :| 0 <= i < |out.forms| && out.forms[i] == f;
      assert d.forms[i] in d.forms;
      IdImage(m.t, TableIds(d.tables), TableIds(out.tables), d.forms[i].table);
    }
    forall o | o in out.formFields ensures SoundItem(out, o) {
      var i :| 0 <= i < |out.formFields| && out.formFields[i] == o;
      assert d.formFields[i] in d.formFields;
      ItemKnown(d, d.formFields[i], m);
      ItemSound(d, out, m, d.formFields[i], o);
    }
    forall x | x in out.menus ensures SoundMenu(out, x) {
      var i :| 0 <= i < |out.menus| && out.menus[i] == x;
      MenuSound(d, out, m, d.menus[i], shift);
    }
  }

  lemma FlowsSound(d: Doc, out: Doc, m: Maps)
    requires SoundFlows(d) && TablesMatch(d, out, m) && FieldsMatch(d, out, m) && Bijective(m.flow, FlowIds(d.flows), FlowIds(out.flows))
    requires SameFlows(d, out, m) && SameSteps(d, out, m)
    ensures SoundFlows(out)
  {
    forall w | w in out.flows ensures w.table in TableIds(out.tables) && w.field in FieldIds(out.fields) {
      var i :| 0 <= i < |out.flows| && out.flows[i] == w;
      assert d.flows[i] in d.flows;
      IdImage(m.t, TableIds(d.tables), TableIds(out.tables), d.flows[i].table);
      IdImage(m.f, FieldIds(d.fields), FieldIds(out.fields), d.flows[i].field);
    }
    forall x | x in out.steps ensures x.flow in FlowIds(out.flows) && x.from != "" && x.to != "" {
      var i :| 0 <= i < |out.steps| && out.steps[i] == x;
      assert d.steps[i] in d.steps;
      IdImage(m.flow, FlowIds(d.flows), FlowIds(out.flows), d.steps[i].flow);
    }
  }

  // ---------------------------------------------------------------- nothing dangles

  lemma CopyIsSound(d: SoundDoc, c: Counters, out: Doc, m: Maps, shift: int)
    requires Copy(d, c, out, m, shift) && UniqueIds(out)
    ensures Sound(out) && KeysKept(d, out, m)
  {
    KeysOut(d, c, out, m);
    OwnerKept(d, out, m);
    FieldsSound(d, out, m);
    FormsSound(d, out, m, shift);
    FlowsSound(d, out, m);
    forall r | r in out.relations ensures SoundRelation(out, r) {
      var i :| 0 <= i < |out.relations| && out.relations[i] == r;
      assert IsMade(d, m.t, c, out.relations, i);
      RelationKept(d, c, out, m, i);
    }
  }

  /** What an import makes of an export has unique ids and no dangling reference, whatever else was lost. */
  lemma NothingDangles(d: SoundDoc, c: Counters, shift: int)
    requires FromOne(c)
    ensures Sound(Created(d, c, shift))
  {
    ImportIsCopy(d, c, shift);
    CreatedUnique(d, c, shift);
    CopyIsSound(d, c, Created(d, c, shift), FinalMaps(d, c), shift);
  }

  // ---------------------------------------------------------------- the loss happens once

  lemma MadeByOut(d: Doc, out: Doc, m: Maps, f: Field, n: nat)
    requires KeysKept(d, out, m) && SameFields(d, out, m) && n <= |d.relations| && MadeBy(d, f, n) && f.id in m.f
    ensures MadeBy(out, RenField(m, f), n)
  {
    if IsRelationField(f) {
      var k :| 0 <= k < n && d.relations[k].kind == M1 && d.relations[k].fromField == Some(f.id);
      assert KeyKept(d, out, m, k);
      assert out.relations[k].fromField == Some(RenField(m, f).id);
    }
  }

  ghost predicate Fits(xs: Option<seq<int>>, ids: seq<int>) {
    Listed(xs, ids) && xs != Some([])
  }

  /** What a display list is cut down to names fields the next import will have made by the same moment. */
  lemma InTimeAgain(d: SoundDoc, c: Counters, out: SoundDoc, m: Maps, n: nat, xs: Option<seq<int>>)
    requires KeysKept(d, out, m) && SameFields(d, out, m) && n <= |d.relations| && m.f == FieldMap(d, |d.relations|, c.f)
    ensures Fits(RemapIds(FieldMap(d, n, c.f), xs), FieldIds(FieldOrder(out, n)))
  {
    DisplayKept(d, c, n, xs);
    FieldOrderIs(out, n);
    var ys := RemapIds(FieldMap(d, n, c.f), xs);
    if ys.Some? {
      forall y | y in ys.value ensures y in FieldIds(FieldOrder(out, n)) {
        assert Displayed(d, m.f, n, y);
        var f :| MadeBy(d, f, n) && f.id in m.f && y == m.f[f.id];
        MadeByOut(d, out, m, f, n);
        assert RenField(m, f) in FieldOrder(out, n);
        FieldIdsHold(FieldOrder(out, n), y);
      }
    }
  }

  /** A created relation displays what is left of its lists, and drops the on_delete of an mn one. */
  lemma MadeShape(d: Doc, t: Ids, c: Counters, rs: seq<Relation>, i: nat)
    requires i < |rs| <= |d.relations| && IsMade(d, t, c, rs, i)
    ensures var o, part := rs[i], FieldMap(d, i + 1, c.f);
      && o.toDisplay == RemapIds(part, d.relations[i].toDisplay) && o.fromDisplay == RemapIds(part, d.relations[i].fromDisplay)
      && (o.kind == MN ==> o.onDelete.None?)
  {}

  lemma InTime(out: Doc, i: nat)
    requires i < |out.relations|
    requires Fits(out.relations[i].toDisplay, FieldIds(FieldOrder(out, i + 1)))
    requires Fits(out.relations[i].fromDisplay, FieldIds(FieldOrder(out, i + 1)))
    ensures DisplayInTime(out, i)
  {}

  ghost predicate AllInTime(d: Doc, c: Counters, out: Doc, n: nat)
    requires n <= |d.relations| == |out.relations|
  {
    var part, ids := FieldMap(d, n, c.f), FieldIds(FieldOrder(out, n));
    forall xs :: Fits(RemapIds(part, xs), ids)
  }

  lemma AllInTimeAgain(d: SoundDoc, c: Counters, out: SoundDoc, m: Maps, n: nat)
    requires KeysKept(d, out, m) && SameFields(d, out, m) && n <= |d.relations| && m.f == FieldMap(d, |d.relations|, c.f)
    ensures AllInTime(d, c, out, n)
  {
    var part, ids := FieldMap(d, n, c.f), FieldIds(FieldOrder(out, n));
    forall xs ensures Fits(RemapIds(part, xs), ids) {
      InTimeAgain(d, c, out, m, n, xs);
    }
  }

  lemma RelationSurvives(d: Doc, c: Counters, out: Doc, t: Ids, i: nat)
    requires i < |d.relations| == |out.relations| && IsMade(d, t, c, out.relations, i) && AllInTime(d, c, out, i + 1)
    ensures SurvivesAt(out, i)
  {
    MadeShape(d, t, c, out.relations, i);
    InTime(out, i);
  }

  lemma AllSurvive(d: Doc, c: Counters, out: Doc, t: Ids)
    requires |d.relations| == |out.relations| && MadeAll(d, t, c, out.relations)
    requires forall n: nat | n <= |d.relations| :: AllInTime(d, c, out, n)
    ensures Survives(out)
  {
    forall i: nat | i < |out.relations| ensures SurvivesAt(out, i) {
      assert IsMade(d, t, c, out.relations, i);
      RelationSurvives(d, c, out, t, i);
    }
  }

  lemma CopySurvives(d: SoundDoc, c: Counters, out: SoundDoc, m: Maps)
    requires KeysKept(d, out, m) && SameFields(d, out, m) && CopiedRelations(d, c, out, m)
    ensures Survives(out)
  {
    forall n: nat | n <= |d.relations| ensures AllInTime(d, c, out, n) {
      AllInTimeAgain(d, c, out, m, n);
    }
    AllSurvive(d, c, out, m.t);
  }

  /** After one import nothing more can be lost: its own export comes back whole. */
  lemma LossHappensOnce(d: SoundDoc, c: Counters, shift: int)
    requires FromOne(c)
    ensures Survives(Created(d, c, shift))
  {
    ImportIsCopy(d, c, shift);
    CreatedUnique(d, c, shift);
    CopyIsSound(d, c, Created(d, c, shift), FinalMaps(d, c), shift);
    CopySurvives(d, c, Created(d, c, shift), FinalMaps(d, c));
  }

  /** Export, import, export, import: the second round is exact for every export. */
  lemma SecondRoundExact(d: SoundDoc, c: Counters, e: Counters)
    requires FromOne(c)
    ensures var once := Created(d, c, 0); Isomorphic(once, Created(once, e, 0), FinalMaps(once, e), 0)
  {
    NothingDangles(d, c, 0);
    LossHappensOnce(d, c, 0);
    RoundTripIff(Created(d, c, 0), e, 0);
  }
}
