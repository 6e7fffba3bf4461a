/**
  When a mapped template is a valid design: `map_config` (app/form_templates.py) ends by
  handing its result to `validate_config` (app/form_design.py).  A template names fields
  by its own names, so it can be read as a design over those names; the mapped design is
  judged as that one is, but for what the target's columns allow.
*/
module TemplateDesign {
  import opened Wrappers
  import opened FormRules
  import opened FormTemplates
  import D = FormDesign
  import DesignMeaning
  import FormDraft

  // ---------------------------------------------------------------- designs under a renaming

  ghost predicate SameColumn(v: D.FieldDef, f: D.FieldDef, rho: map<string, string>) {
    v.phys in rho && f.phys == rho[v.phys] && f.dtype == v.dtype && v.nullable
  }

  /** Item `b` over table `t` is item `a` over table `v` with its rules renamed. */
  ghost predicate Carried(v: D.Table, t: D.Table, rho: map<string, string>, a: D.RawItem, b: D.RawItem) {
    && b == a.(rules := b.rules)
    && (a.kind == D.Is("field") && a.fieldId.Is? ==>
          && a.fieldId.value in v.fields && a.fieldId.value in t.fields
          && SameColumn(v.fields[a.fieldId.value], t.fields[a.fieldId.value], rho))
    && a.rules.Some? && RuleRefs(a.rules.value) <= rho.Keys && b.rules == Some(RemapRules(a.rules.value, rho))
  }

  ghost predicate AllCarried(v: D.Table, t: D.Table, rho: map<string, string>, xs: seq<D.RawItem>, ys: seq<D.RawItem>) {
    && |ys| == |xs| && Injective(rho) && v.id == t.id && v.relations == t.relations
    && forall i | 0 <= i < |xs| :: Carried(v, t, rho, xs[i], ys[i])
  }

  lemma CarriedFront(v: D.Table, t: D.Table, rho: map<string, string>, xs: seq<D.RawItem>, ys: seq<D.RawItem>, n: nat)
    requires AllCarried(v, t, rho, xs, ys) && n <= |xs|
    ensures AllCarried(v, t, rho, xs[..n], ys[..n])
  {}

  lemma SameSeen(v: D.Table, t: D.Table, rho: map<string, string>, xs: seq<D.RawItem>, ys: seq<D.RawItem>)
    requires AllCarried(v, t, rho, xs, ys)
    ensures D.Seen(xs) == D.Seen(ys)
  {
    forall i | 0 <= i < |xs| ensures ys[i].kind == xs[i].kind && ys[i].fieldId == xs[i].fieldId {
      assert Carried(v, t, rho, xs[i], ys[i]);
    }
    forall id | id in D.Seen(xs) ensures id in D.Seen(ys) {
      var i :| 0 <= i < |xs| && xs[i].kind == D.Is("field") && xs[i].fieldId == D.Is(id);
      assert ys[i] in ys;
    }
    forall id | id in D.Seen(ys) ensures id in D.Seen(xs) {
      var i :| 0 <= i < |ys| && ys[i].kind == D.Is("field") && ys[i].fieldId == D.Is(id);
      assert xs[i] in xs;
    }
  }

  lemma SameItemsFit(v: D.Table, t: D.Table, rho: map<string, string>, xs: seq<D.RawItem>, ys: seq<D.RawItem>)
    requires AllCarried(v, t, rho, xs, ys)
    ensures D.ItemsFit(v, xs, |xs|) <==> D.ItemsFit(t, ys, |ys|)
  {
    forall i | 0 <= i < |xs| ensures D.ItemFits(v, D.Seen(xs[..i]), xs[i]) <==> D.ItemFits(t, D.Seen(ys[..i]), ys[i]) {
      CarriedFront(v, t, rho, xs, ys, i);
      SameSeen(v, t, rho, xs[..i], ys[..i]);
      assert Carried(v, t, rho, xs[i], ys[i]);
    }
  }

  /** The same fields are on both forms, under their two names. */
  ghost predicate SameNames(rho: map<string, string>, a: map<string, D.FieldDef>, b: map<string, D.FieldDef>) {
    && (forall f | f in rho :: f in a <==> rho[f] in b)
    && (forall f | f in rho && f in a && rho[f] in b :: b[rho[f]].dtype == a[f].dtype)
    && a.Keys <= rho.Keys
  }

  lemma {:induction false} NamesCarry(v: D.Table, t: D.Table, rho: map<string, string>, xs: seq<D.RawItem>, ys: seq<D.RawItem>)
    requires AllCarried(v, t, rho, xs, ys)
    ensures SameNames(rho, D.Names(v, xs), D.Names(t, ys))
    ensures Renames(D.RulesConfig(v, xs), D.RulesConfig(t, ys), rho)
  {
    if xs != [] {
      var n := |xs| - 1;
      CarriedFront(v, t, rho, xs, ys, n);
      NamesCarry(v, t, rho, xs[..n], ys[..n]);
      var a, b := xs[n], ys[n];
      assert Carried(v, t, rho, a, b);
      if D.OnField(v, a) {
        var f := v.fields[a.fieldId.value];
        ExtendRenames(D.RulesConfig(v, xs[..n]), D.RulesConfig(t, ys[..n]), rho, f.phys, Item(a.rules.value, f.dtype, false, false));
      }
    }
  }

  lemma {:induction false} NodeCarried(dec: Decimal, n: Node, depth: nat, rho: map<string, string>,
                                       a: map<string, D.FieldDef>, b: map<string, D.FieldDef>, target: string)
    requires Injective(rho) && SameNames(rho, a, b) && References(n) <= rho.Keys && target in rho
    ensures D.NodeFits(dec, Remap(n, rho), depth, b, rho[target]) <==> D.NodeFits(dec, n, depth, a, target)
  {
    if n.Cond? {
      assert n.field in References(n);
    } else {
      var cs, ds := n.children, Remap(n, rho).children;
      forall i | 0 <= i < |cs| ensures References(cs[i]) <= rho.Keys
        && (D.NodeFits(dec, ds[i], depth + 1, b, rho[target]) <==> D.NodeFits(dec, cs[i], depth + 1, a, target)) {
        ChildRefs(n, i);
        NodeCarried(dec, cs[i], depth + 1, rho, a, b, target);
      }
    }
  }

  lemma TreeCarried(dec: Decimal, n: Option<Node>, rho: map<string, string>,
                    a: map<string, D.FieldDef>, b: map<string, D.FieldDef>, target: string)
    requires Injective(rho) && SameNames(rho, a, b) && RefsOf(n) <= rho.Keys && target in rho
    ensures D.TreeFits(dec, RemapTree(n, rho), b, rho[target]) <==> D.TreeFits(dec, n, a, target)
  {
    if n.Some? { NodeCarried(dec, n.value, 0, rho, a, b, target); }
  }

  /** A rule that hides or locks a field is on a column that can do without a value. */
  predicate Open(t: D.Table, it: D.RawItem) {
    D.OnField(t, it) && it.rules.Some? && (it.rules.value.show.Some? || it.rules.value.readonly.Some?) ==>
      t.fields[it.fieldId.value].nullable || t.fields[it.fieldId.value].hasDefault
  }

  lemma RulesCarried(dec: Decimal, v: D.Table, t: D.Table, rho: map<string, string>,
                     a: map<string, D.FieldDef>, b: map<string, D.FieldDef>, x: D.RawItem, y: D.RawItem)
    requires Injective(rho) && SameNames(rho, a, b) && Carried(v, t, rho, x, y)
    ensures D.RulesFit(dec, t, b, y) <==> D.RulesFit(dec, v, a, x) && Open(t, y)
  {
    var r := x.rules.value;
    if D.OnField(v, x) {
      var target := v.fields[x.fieldId.value].phys;
      TreeCarried(dec, r.show, rho, a, b, target);
      TreeCarried(dec, r.readonly, rho, a, b, target);
      TreeCarried(dec, r.require, rho, a, b, target);
    }
  }

  /** A design and its renaming are accepted alike, but for the columns that must hold a value. */
  lemma CarriedAcceptedIff(dec: Decimal, v: D.Table, t: D.Table, rho: map<string, string>, head: D.RawConfig,
                           xs: seq<D.RawItem>, ys: seq<D.RawItem>)
    requires AllCarried(v, t, rho, xs, ys)
    ensures D.Accepts(dec, t, head.(items := D.Is(ys))) <==>
      D.Accepts(dec, v, head.(items := D.Is(xs))) && forall i | 0 <= i < |ys| :: Open(t, ys[i])
  {
    SameItemsFit(v, t, rho, xs, ys);
    NamesCarry(v, t, rho, xs, ys);
    var a, b := D.Names(v, xs), D.Names(t, ys);
    forall i | 0 <= i < |xs| ensures D.RulesFit(dec, t, b, ys[i]) <==> D.RulesFit(dec, v, a, xs[i]) && Open(t, ys[i]) {
      RulesCarried(dec, v, t, rho, a, b, xs[i], ys[i]);
    }
    RenamingPreservesCycles(D.RulesConfig(v, xs), D.RulesConfig(t, ys), rho);
  }

  // ---------------------------------------------------------------- the mapped design

  function Slotted<T>(x: Option<T>): D.Slot<T> {
    if x.Some? then D.Is(x.value) else D.Null
  }

  const NO_RULES := Rules(None, None, None)

  /** An item as `map_config` passes it on, with the given rules. */
  function Passed(it: FormItem, rules: Rules): D.RawItem {
    var kind := match it.body case FieldTarget(_, _, _, _) => "field" case RelationTarget(_) => "relation" case SectionTarget => "section";
    D.RawItem(true, D.Is(kind), if it.body.FieldTarget? then D.Is(it.body.fieldId) else D.Null,
              if it.body.RelationTarget? then D.Is(it.body.relationId) else D.Null,
              if it.body.FieldTarget? then Slotted(it.body.parentId) else D.Null,
              if it.body.FieldTarget? then Slotted(it.body.filterId) else D.Null,
              Slotted(it.look.caption), Slotted(it.look.help), Slotted(it.look.widget), D.Is(it.required), D.Is(it.readonly), Some(rules))
  }

  function MappedRules(it: FormItem): Rules {
    if it.body.FieldTarget? then it.body.rules else NO_RULES
  }

  function LayoutRules(b: Body): Rules {
    if b.FieldBody? then b.rules else NO_RULES
  }

  /** The mapped design, over the target's columns. */
  function MappedItems(items: seq<FormItem>): seq<D.RawItem> {
    seq(|items|, i requires 0 <= i < |items| => Passed(items[i], MappedRules(items[i])))
  }

  /** The same design before the renaming, over the template's own names. */
  function LayoutItems(t: Template, items: seq<FormItem>): seq<D.RawItem>
    requires |items| == |t.items|
  {
    seq(|items|, i requires 0 <= i < |items| => Passed(items[i], LayoutRules(t.items[i].body)))
  }

  function Links(s: Schema): map<int, D.Link> {
    map id | id in s.relations :: D.Link(s.relations[id].kind, s.relations[id].fromTable, s.relations[id].toTable)
  }

  /** The target table; `free` are the columns that are nullable or have a default. */
  function TargetTable(s: Schema, free: set<int>): D.Table {
    D.Table(s.tableId,
            map id | id in (set f | f in FieldsOf(s) :: f.id) && FindId(FieldsOf(s), id).Some? ::
              D.FieldDef(FindId(FieldsOf(s), id).value.phys, FindId(FieldsOf(s), id).value.dtype, id in free, false),
            Links(s))
  }

  ghost function KeyOf(fields: map<string, int>, id: int): (k: string)
    requires id in fields.Values
    ensures k in fields && fields[k] == id
  {
    var k :| k in fields && fields[k] == id;
    k
  }

  /** The template as a table of its own: its names and types, no column required. */
  ghost function LayoutTable(s: Schema, t: Template, fields: map<string, int>): D.Table
    requires fields.Keys == t.fields.Keys
  {
    D.Table(s.tableId, map id | id in fields.Values :: D.FieldDef(KeyOf(fields, id), t.fields[KeyOf(fields, id)].dtype, true, false), Links(s))
  }

  lemma PassedCarried(v: D.Table, t: D.Table, rho: map<string, string>, it: FormItem, rules: Rules)
    requires RuleRefs(rules) <= rho.Keys && MappedRules(it) == RemapRules(rules, rho)
    requires it.body.FieldTarget? ==>
      (it.body.fieldId in v.fields && it.body.fieldId in t.fields && SameColumn(v.fields[it.body.fieldId], t.fields[it.body.fieldId], rho))
    ensures Carried(v, t, rho, Passed(it, rules), Passed(it, MappedRules(it)))
  {}

  /** A mapped field is the same column in both tables. */
  lemma ColumnMapped(s: Schema, t: Template, fields: map<string, int>, relations: map<nat, int>, free: set<int>, k: string)
    requires GoodMappings(s, t, fields, relations) && k in fields
    ensures var v, w := LayoutTable(s, t, fields), TargetTable(s, free);
      fields[k] in v.fields && fields[k] in w.fields && SameColumn(v.fields[fields[k]], w.fields[fields[k]], Names(Resolve(s, fields)))
  {
    SameId(s, t, fields, relations, k);
    assert fields[k] in fields.Values && KeyOf(fields, fields[k]) == k;
  }

  lemma BodyRules(s: Schema, b: Body, mapped: map<string, Field>, relations: map<nat, int>, filters: map<string, int>, it: FormItem)
    requires MapBody(s, b, mapped, relations, filters) == Ok(it.body)
    ensures RuleRefs(LayoutRules(b)) <= Names(mapped).Keys && MappedRules(it) == RemapRules(LayoutRules(b), Names(mapped))
    ensures it.body.FieldTarget? ==> b.FieldBody? && b.field in mapped && it.body.fieldId == mapped[b.field].id
  {
    assert RemapRules(NO_RULES, Names(mapped)) == NO_RULES;
  }

  lemma ItemCarried(s: Schema, t: Template, fields: map<string, int>, relations: map<nat, int>, filters: map<string, int>,
                    b: Body, it: FormItem, free: set<int>)
    requires GoodMappings(s, t, fields, relations) && MapBody(s, b, Resolve(s, fields), relations, filters) == Ok(it.body)
    ensures Carried(LayoutTable(s, t, fields), TargetTable(s, free), Names(Resolve(s, fields)),
                    Passed(it, LayoutRules(b)), Passed(it, MappedRules(it)))
  {
    BodyRules(s, b, Resolve(s, fields), relations, filters, it);
    if b.FieldBody? { ColumnMapped(s, t, fields, relations, free, b.field); }
    PassedCarried(LayoutTable(s, t, fields), TargetTable(s, free), Names(Resolve(s, fields)), it, LayoutRules(b));
  }

  lemma LayoutCarried(s: Schema, t: Template, fields: map<string, int>, relations: map<nat, int>, filters: map<string, int>,
                      items: seq<FormItem>, free: set<int>)
    requires ValidSchema(s) && GoodMappings(s, t, fields, relations) && |items| == |t.items|
    requires ItemsMapped(s, t, fields, relations, filters, items, |items|)
    ensures AllCarried(LayoutTable(s, t, fields), TargetTable(s, free), Names(Resolve(s, fields)), LayoutItems(t, items), MappedItems(items))
  {
    var v, w, rho := LayoutTable(s, t, fields), TargetTable(s, free), Names(Resolve(s, fields));
    NamesInjective(s, t, fields, relations);
    var xs, ys := LayoutItems(t, items), MappedItems(items);
    forall i | 0 <= i < |items| ensures Carried(v, w, rho, xs[i], ys[i]) {
      ItemCarried(s, t, fields, relations, filters, t.items[i].body, items[i], free);
    }
  }

  /**
    The design a template is mapped to is accepted exactly when the template is itself a
    valid design over its own names, and every field it hides or locks by a rule is mapped
    to a column that is nullable or has a default.
  */
  lemma MappedAcceptedIff(dec: Decimal, s: Schema, t: Template, fields: map<string, int>, relations: map<nat, int>,
                          filters: map<string, int>, items: seq<FormItem>, free: set<int>, head: D.RawConfig)
    requires ValidSchema(s) && GoodMappings(s, t, fields, relations) && |items| == |t.items|
    requires ItemsMapped(s, t, fields, relations, filters, items, |items|)
    ensures D.Accepts(dec, TargetTable(s, free), head.(items := D.Is(MappedItems(items)))) <==>
      D.Accepts(dec, LayoutTable(s, t, fields), head.(items := D.Is(LayoutItems(t, items))))
      && forall i | 0 <= i < |items| :: Open(TargetTable(s, free), MappedItems(items)[i])
  {
    LayoutCarried(s, t, fields, relations, filters, items, free);
    CarriedAcceptedIff(dec, LayoutTable(s, t, fields), TargetTable(s, free), Names(Resolve(s, fields)), head, LayoutItems(t, items), MappedItems(items));
  }

  /** `map_config` whole: the mapping, and the validation of the design it comes to; `head` are the target form's own settings. */
  method MapAndValidate(dec: Decimal, s: Schema, t: Template, fields: map<string, int>, relations: map<nat, int>, filters: map<string, int>,
                        free: set<int>, head: D.RawConfig) returns (r: Option<FormDraft.Config>)
    requires ValidSchema(s)
    ensures r.Some? <==>
      && GoodMappings(s, t, fields, relations) && AllMappable(s, t, fields, relations, filters)
      && exists items :: MapsTo(s, t, fields, relations, filters, items) && AcceptedAs(dec, s, t, fields, items, free, head)
    ensures r.Some? ==> exists items :: MapsTo(s, t, fields, relations, filters, items) && r.value == D.Clean(head.(items := D.Is(MappedItems(items))))
  {
    var mapped := MapConfig(s, t, fields, relations, filters);
    if mapped.Err? {
      return None;
    }
    var items := mapped.value;
    assert MapsTo(s, t, fields, relations, filters, items);
    MappedAcceptedIff(dec, s, t, fields, relations, filters, items, free, head);
    forall other | MapsTo(s, t, fields, relations, filters, other) ensures other == items {
      MapsToOne(s, t, fields, relations, filters, items, other);
    }
    r := D.ValidateConfig(dec, TargetTable(s, free), head.(items := D.Is(MappedItems(items))));
  }

  /** What is passed on of item `i` spells the item that is stored if the design is accepted: the mapped one, member by member. */
  lemma MappedIsStored(items: seq<FormItem>, head: D.RawConfig, i: nat)
    requires i < |items|
    ensures var stored := D.Clean(head.(items := D.Is(MappedItems(items)))).items; var it := items[i];
      && |stored| == |items| && DesignMeaning.SpellsItem(MappedItems(items)[i], stored[i])
      && stored[i].caption == it.look.caption && stored[i].help == it.look.help && stored[i].widget == it.look.widget
      && stored[i].required == it.required && stored[i].readonly == it.readonly
      && match it.body
         case FieldTarget(id, rules, parent, filter) =>
           && stored[i].kind == "field" && stored[i].fieldId == Some(id) && stored[i].relationId == None
           && stored[i].parentFieldId == parent && stored[i].filterFieldId == filter && stored[i].rules == rules
         case RelationTarget(id) =>
           && stored[i].kind == "relation" && stored[i].fieldId == None && stored[i].relationId == Some(id)
           && stored[i].parentFieldId == None && stored[i].filterFieldId == None && stored[i].rules == Rules(None, None, None)
         case SectionTarget =>
           && stored[i].kind == "section" && stored[i].fieldId == None && stored[i].relationId == None
           && stored[i].parentFieldId == None && stored[i].filterFieldId == None && stored[i].rules == Rules(None, None, None)
  {
    var it := items[i];
    assert MappedItems(items)[i] == Passed(it, MappedRules(it));
    assert it.required == (D.Is(it.required) == D.Is(true)) && it.readonly == (D.Is(it.readonly) == D.Is(true));
  }

  /** The columns and relationships a mapped design is judged by are those of the target table. */
  lemma TargetTableIs(s: Schema, free: set<int>, f: Field)
    requires ValidSchema(s)
    ensures f in FieldsOf(s) ==> f.id in TargetTable(s, free).fields && TargetTable(s, free).fields[f.id] == D.FieldDef(f.phys, f.dtype, f.id in free, false)
    ensures forall id | id in TargetTable(s, free).fields :: exists g :: g in FieldsOf(s) && g.id == id
    ensures forall id :: id in TargetTable(s, free).relations <==> id in s.relations
    ensures forall id | id in s.relations ::
      TargetTable(s, free).relations[id] == D.Link(s.relations[id].kind, s.relations[id].fromTable, s.relations[id].toTable)
  {
    if f in FieldsOf(s) {
      var fs, g := FieldsOf(s), FindId(FieldsOf(s), f.id).value;
      var i :| 0 <= i < |fs| && fs[i] == f;
      var j :| 0 <= j < |fs| && fs[j] == g;
      assert UniqueFields(fs) && i == j;
    }
  }

  /** `items` are what the template is mapped to. */
  ghost predicate MapsTo(s: Schema, t: Template, fields: map<string, int>, relations: map<nat, int>, filters: map<string, int>, items: seq<FormItem>) {
    GoodMappings(s, t, fields, relations) && |items| == |t.items| && ItemsMapped(s, t, fields, relations, filters, items, |items|)
  }

  /** The template is a valid design over its own names, and what it hides or locks is mapped to columns that can do without a value. */
  ghost predicate AcceptedAs(dec: Decimal, s: Schema, t: Template, fields: map<string, int>, items: seq<FormItem>, free: set<int>, head: D.RawConfig) {
    && fields.Keys == t.fields.Keys && |items| == |t.items|
    && D.Accepts(dec, LayoutTable(s, t, fields), head.(items := D.Is(LayoutItems(t, items))))
    && forall i | 0 <= i < |items| :: Open(TargetTable(s, free), MappedItems(items)[i])
  }

  lemma MapsToOne(s: Schema, t: Template, fields: map<string, int>, relations: map<nat, int>, filters: map<string, int>, a: seq<FormItem>, b: seq<FormItem>)
    requires MapsTo(s, t, fields, relations, filters, a) && MapsTo(s, t, fields, relations, filters, b)
    ensures a == b
  {
    forall i | 0 <= i < |a| ensures a[i] == b[i] {
      assert MapBody(s, t.items[i].body, Resolve(s, fields), relations, filters) == Ok(a[i].body);
      assert MapBody(s, t.items[i].body, Resolve(s, fields), relations, filters) == Ok(b[i].body);
    }
  }
}
