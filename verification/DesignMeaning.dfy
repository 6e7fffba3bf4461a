/**
  Which form designs are accepted (app/form_design.py, app/form_rules.py), told of the
  typed design that the JSON spells, condition by condition.
*/
module DesignMeaning {
  import opened Wrappers
  import FormDraft
  import FormRules
  import opened FormDesign

  // ---------------------------------------------------------------- what the JSON spells

  /** Absent and null are nothing; anything else has to be of the type. */
  ghost predicate Spells<T>(s: Slot<T>, o: Option<T>) {
    (s.Null? && o.None?) || (s.Is? && o == Some(s.value))
  }

  ghost predicate SpellsFlag(s: Slot<bool>, b: bool) {
    !s.WrongType? && (b <==> s == Is(true))
  }

  ghost predicate SpellsItem(raw: RawItem, it: FormDraft.Item) {
    && raw.known && raw.kind == Is(it.kind) && raw.rules == Some(it.rules)
    && Spells(raw.fieldId, it.fieldId) && Spells(raw.relationId, it.relationId)
    && Spells(raw.parentFieldId, it.parentFieldId) && Spells(raw.filterFieldId, it.filterFieldId)
    && Spells(raw.caption, it.caption) && Spells(raw.help, it.help) && Spells(raw.widget, it.widget)
    && SpellsFlag(raw.required, it.required) && SpellsFlag(raw.readonly, it.readonly)
  }

  ghost predicate SpellsConfig(raw: RawConfig, c: FormDraft.Config) {
    && raw.fits && raw.title == Is(c.settings.title) && raw.purpose == Is(c.settings.purpose) && raw.inCatalog == Is(c.settings.inCatalog)
    && Spells(raw.description, c.settings.description) && Spells(raw.catalogGroup, c.settings.catalogGroup)
    && raw.items.Is? && |raw.items.value| == |c.items| && forall i | 0 <= i < |c.items| :: SpellsItem(raw.items.value[i], c.items[i])
  }

  // ---------------------------------------------------------------- valid designs

  ghost predicate AtMost(o: Option<string>, limit: nat) {
    forall x :: o == Some(x) ==> |x| <= limit
  }

  ghost predicate Positive(o: Option<int>) {
    forall x :: o == Some(x) ==> x > 0
  }

  /** The item shows this field of the table. */
  ghost predicate Shows(t: Table, it: FormDraft.Item, id: int) {
    it.kind == "field" && it.fieldId == Some(id) && id in t.fields
  }

  ghost predicate ValidSettings(s: FormDraft.Settings) {
    && 0 < |s.title| <= 160 && AtMost(s.description, 10000) && AtMost(s.catalogGroup, 80)
    && (s.purpose == "data" || s.purpose == "view")
  }

  ghost predicate ValidItem(t: Table, it: FormDraft.Item) {
    && AtMost(it.caption, 160) && AtMost(it.help, 255) && AtMost(it.widget, 30)
    && Positive(it.fieldId) && Positive(it.relationId) && Positive(it.parentFieldId) && Positive(it.filterFieldId)
    && ValidKind(t, it)
  }

  /** A field of the table, a many-to-many relationship of it, or a section with a heading. */
  ghost predicate ValidKind(t: Table, it: FormDraft.Item) {
    || (exists id :: Shows(t, it, id))
    || (it.kind == "relation" && exists id :: it.relationId == Some(id) && ManyToMany(t, id))
    || (it.kind == "section" && exists x :: it.caption == Some(x) && |x| > 0)
  }

  ghost predicate ManyToMany(t: Table, id: int) {
    id in t.relations && t.relations[id].kind == "mn" && t.id in {t.relations[id].from, t.relations[id].to}
  }

  ghost predicate OncePerField(items: seq<FormDraft.Item>) {
    forall i, j | 0 <= i < j < |items| && items[i].kind == "field" && items[j].kind == "field" :: items[i].fieldId != items[j].fieldId
  }

  /** `m` stands `d` levels down in the tree. */
  ghost predicate Inside(n: FormRules.Node, m: FormRules.Node, d: nat)
    decreases d
  {
    if d == 0 then m == n else !n.Cond? && exists i | 0 <= i < |n.children| :: Inside(n.children[i], m, d - 1)
  }

  /** Column `name` is on the form, with this field. */
  ghost predicate OnForm(t: Table, items: seq<FormDraft.Item>, name: string, f: FieldDef) {
    f.phys == name && exists i, id :: 0 <= i < |items| && Shows(t, items[i], id) && t.fields[id] == f
  }

  ghost predicate IsNumber(dtype: string) {
    dtype == "integer" || dtype == "bigint" || dtype == "float" || dtype == "decimal" || dtype == "currency" || dtype == "percent"
  }

  ghost predicate IsText(dtype: string) {
    dtype == "string" || dtype == "text" || dtype == "markdown" || dtype == "email" || dtype == "url" || dtype == "phone"
  }

  ghost predicate Generated(dtype: string) {
    dtype == "file" || dtype == "image" || dtype == "formula" || dtype == "autonumber"
  }

  /** The operators a column type offers, and the operands they take. */
  ghost predicate Offers(dec: FormRules.Decimal, dtype: string, op: FormRules.Op, v: FormRules.Value) {
    && !Generated(dtype) && dtype != "json" && dtype != "tags"
    && (op in {FormRules.Gt, FormRules.Gte, FormRules.Lt, FormRules.Lte} ==> IsNumber(dtype))
    && (op == FormRules.Contains ==> IsText(dtype))
    && v != FormRules.Nil && |FormRules.Text(v)| <= 1000
    && (IsNumber(dtype) && op != FormRules.Empty && op != FormRules.NotEmpty ==> dec(FormRules.Text(v)) != None)
  }

  /** One node of a rule of column `own`. */
  ghost predicate ValidNode(dec: FormRules.Decimal, t: Table, items: seq<FormDraft.Item>, own: string, m: FormRules.Node) {
    && (!m.Cond? ==> 0 < |m.children| <= 20)
    && (m.Cond? ==> m.field != own && exists f :: OnForm(t, items, m.field, f) && Offers(dec, f.dtype, m.op, m.value))
  }

  /** At most five levels of groups, every node valid. */
  ghost predicate ValidTree(dec: FormRules.Decimal, t: Table, items: seq<FormDraft.Item>, own: string, tree: Option<FormRules.Node>) {
    forall m, d: nat | tree.Some? && Inside(tree.value, m, d) :: d <= 5 && ValidNode(dec, t, items, own, m)
  }

  ghost predicate ValidRules(dec: FormRules.Decimal, t: Table, items: seq<FormDraft.Item>, it: FormDraft.Item) {
    var r := it.rules;
    && (it.kind != "field" ==> r == FormRules.Rules(None, None, None))
    && forall id | Shows(t, it, id) ::
         var f := t.fields[id];
         && ValidTree(dec, t, items, f.phys, r.show) && ValidTree(dec, t, items, f.phys, r.readonly) && ValidTree(dec, t, items, f.phys, r.require)
         && (Generated(f.dtype) ==> r == FormRules.Rules(None, None, None))
         && (!f.nullable && !f.hasDefault ==> r.show == None && r.readonly == None)
  }

  ghost predicate ValidDesign(dec: FormRules.Decimal, t: Table, c: FormDraft.Config) {
    && ValidSettings(c.settings) && |c.items| <= 200
    && (forall i | 0 <= i < |c.items| :: ValidItem(t, c.items[i])) && OncePerField(c.items)
    && (forall i | 0 <= i < |c.items| :: ValidRules(dec, t, c.items, c.items[i]))
    && forall config | IsRuleConfig(t, c.items, config) :: FormRules.Acyclic(config)
  }

  /** The rules of the form by column, as they are read when the form is shown. */
  ghost predicate IsRuleConfig(t: Table, items: seq<FormDraft.Item>, config: FormRules.Config) {
    && (forall name :: name in config <==> exists f :: OnForm(t, items, name, f))
    && forall i, id | 0 <= i < |items| && Shows(t, items[i], id) && t.fields[id].phys in config ::
         config[t.fields[id].phys] == FormRules.Item(items[i].rules, t.fields[id].dtype, false, false)
  }

  /** Columns of one table have different names. */
  ghost predicate DistinctColumns(t: Table) {
    forall a, b | a in t.fields && b in t.fields && t.fields[a].phys == t.fields[b].phys :: a == b
  }

  // ---------------------------------------------------------------- settings and items

  lemma TextFitsIff(s: Slot<string>, limit: nat)
    ensures TextFits(s, limit) <==> Spells(s, Opt(s)) && AtMost(Opt(s), limit)
  {}

  lemma IdFitsIff(s: Slot<int>)
    ensures IdFits(s) <==> Spells(s, Opt(s)) && Positive(Opt(s))
  {}

  lemma HeadFitsIff(raw: RawConfig)
    ensures HeadFits(raw) <==> HeadSpelled(raw) && ValidSettings(Clean(raw).settings)
  {
    TextFitsIff(raw.description, 10000);
    TextFitsIff(raw.catalogGroup, 80);
  }

  ghost predicate HeadSpelled(raw: RawConfig) {
    && raw.fits && raw.title.Is? && raw.purpose.Is? && raw.inCatalog.Is?
    && Spells(raw.description, Opt(raw.description)) && Spells(raw.catalogGroup, Opt(raw.catalogGroup))
  }

  /** All members but the rules are of their types. */
  ghost predicate ItemSpelled(raw: RawItem) {
    SpellsItem(raw.(rules := Some(CleanItem(raw).rules)), CleanItem(raw))
  }

  lemma ItemFitsIff(t: Table, seen: set<int>, raw: RawItem)
    ensures ItemFits(t, seen, raw) <==>
      ItemSpelled(raw) && ValidItem(t, CleanItem(raw)) && forall id | Shows(t, CleanItem(raw), id) :: id !in seen
  {
    TextFitsIff(raw.caption, 160);
    TextFitsIff(raw.help, 255);
    TextFitsIff(raw.widget, 30);
    IdFitsIff(raw.fieldId);
    IdFitsIff(raw.relationId);
    IdFitsIff(raw.parentFieldId);
    IdFitsIff(raw.filterFieldId);
    KindIff(t, seen, raw);
  }

  lemma KindIff(t: Table, seen: set<int>, raw: RawItem)
    ensures KindFits(t, seen, raw) <==>
      raw.kind.Is? && ValidKind(t, CleanItem(raw)) && forall id | Shows(t, CleanItem(raw), id) :: id !in seen
  {
    var it := CleanItem(raw);
    if raw.kind == Is("field") && raw.fieldId.Is? && raw.fieldId.value in t.fields { assert Shows(t, it, raw.fieldId.value); }
    if raw.kind == Is("relation") && raw.relationId.Is? && raw.relationId.value in t.relations {
      assert it.relationId == Some(raw.relationId.value);
      assert ManyToMany(t, raw.relationId.value) <==>
        t.relations[raw.relationId.value].kind == "mn" && (t.id == t.relations[raw.relationId.value].from || t.id == t.relations[raw.relationId.value].to);
    }
    if raw.kind == Is("section") && raw.caption.Is? {
      assert it.caption == Some(raw.caption.value) && (|raw.caption.value| > 0 <==> raw.caption.value != "");
    }
  }

  lemma SeenIff(items: seq<RawItem>, id: int)
    ensures id in Seen(items) <==> exists j :: 0 <= j < |items| && items[j].kind == Is("field") && items[j].fieldId == Is(id)
  {}

  /** The items fit one after the other exactly when each is valid and no two show the same field. */
  lemma ItemsFitIff(t: Table, items: seq<RawItem>)
    ensures ItemsFit(t, items, |items|) <==>
      (forall i | 0 <= i < |items| :: ItemSpelled(items[i]) && ValidItem(t, CleanItem(items[i]))) && OncePerField(CleanItems(items))
  {
    var clean := CleanItems(items);
    forall i | 0 <= i < |items|
      ensures ItemFits(t, Seen(items[..i]), items[i]) <==>
        ItemSpelled(items[i]) && ValidItem(t, clean[i]) && forall id | Shows(t, clean[i], id) :: id !in Seen(items[..i]) {
      ItemFitsIff(t, Seen(items[..i]), items[i]);
    }
    forall i, id | 0 <= i < |items|
      ensures id in Seen(items[..i]) <==> exists j :: 0 <= j < i && items[j].kind == Is("field") && items[j].fieldId == Is(id) {
      SeenIff(items[..i], id);
    }
    if ItemsFit(t, items, |items|) {
      forall i, j | 0 <= i < j < |items| && clean[i].kind == "field" && clean[j].kind == "field" ensures clean[i].fieldId != clean[j].fieldId {
        assert Shows(t, clean[i], items[i].fieldId.value) && Shows(t, clean[j], items[j].fieldId.value);
      }
    }
  }

  // ---------------------------------------------------------------- the form's columns

  lemma OneMoreShown(t: Table, items: seq<FormDraft.Item>, last: FormDraft.Item, name: string, f: FieldDef)
    ensures OnForm(t, items + [last], name, f) <==>
      OnForm(t, items, name, f) || (f.phys == name && exists id :: Shows(t, last, id) && t.fields[id] == f)
  {
    var all := items + [last];
    if OnForm(t, items, name, f) {
      var i, id :| 0 <= i < |items| && Shows(t, items[i], id) && t.fields[id] == f;
      assert Shows(t, all[i], id);
    }
    if f.phys == name && exists id :: Shows(t, last, id) && t.fields[id] == f {
      var id :| Shows(t, last, id) && t.fields[id] == f;
      assert Shows(t, all[|items|], id);
    }
  }

  lemma SameColumn(t: Table, items: seq<FormDraft.Item>, name: string, f: FieldDef, g: FieldDef)
    requires DistinctColumns(t) && OnForm(t, items, name, f) && OnForm(t, items, name, g)
    ensures f == g
  {
    var i, a :| 0 <= i < |items| && Shows(t, items[i], a) && t.fields[a] == f;
    var j, b :| 0 <= j < |items| && Shows(t, items[j], b) && t.fields[b] == g;
  }

  lemma {:induction false} NamesAre(t: Table, items: seq<RawItem>, name: string)
    requires DistinctColumns(t)
    ensures forall f :: OnForm(t, CleanItems(items), name, f) <==> name in Names(t, items) && Names(t, items)[name] == f
    decreases |items|
  {
    if items != [] {
      var n := |items| - 1;
      var front, last := items[..n], items[n];
      NamesAre(t, front, name);
      assert items[..n + 1] == items;
      OneMoreItem(t, items, n);
      forall f ensures OnForm(t, CleanItems(items), name, f) <==> name in Names(t, items) && Names(t, items)[name] == f {
        OneMoreShown(t, CleanItems(front), CleanItem(last), name, f);
        OnFieldIff(t, last);
        if OnField(t, last) && t.fields[last.fieldId.value].phys == name {
          var g := t.fields[last.fieldId.value];
          OneMoreShown(t, CleanItems(front), CleanItem(last), name, g);
          if OnForm(t, CleanItems(items), name, f) { SameColumn(t, CleanItems(items), name, f, g); }
        }
      }
    }
  }

  lemma OnFieldIff(t: Table, it: RawItem)
    ensures OnField(t, it) <==> exists id :: Shows(t, CleanItem(it), id)
    ensures forall id | Shows(t, CleanItem(it), id) :: it.fieldId == Is(id)
  {
    if OnField(t, it) { assert Shows(t, CleanItem(it), it.fieldId.value); }
  }

  // ---------------------------------------------------------------- the rules

  lemma TypeNames(dtype: string)
    ensures dtype in FormRules.NUMERIC <==> IsNumber(dtype)
    ensures dtype in TEXTUAL <==> IsText(dtype)
    ensures dtype in GENERATED <==> Generated(dtype)
    ensures dtype in NO_CONTROL <==> Generated(dtype) || dtype == "json" || dtype == "tags"
  {}

  lemma CondFitsIff(dec: FormRules.Decimal, op: FormRules.Op, v: FormRules.Value, dtype: string)
    ensures CondFits(dec, op, v, dtype) <==> Offers(dec, dtype, op, v)
  {
    TypeNames(dtype);
  }

  /** Every node at or below `n` is valid, and none is more than five levels down, `n` itself being `depth` down. */
  ghost predicate ValidBelow(dec: FormRules.Decimal, t: Table, items: seq<FormDraft.Item>, own: string, n: FormRules.Node, depth: nat) {
    forall m, d: nat | Inside(n, m, d) :: depth + d <= 5 && ValidNode(dec, t, items, own, m)
  }

  lemma ValidBelowChildren(dec: FormRules.Decimal, t: Table, items: seq<FormDraft.Item>, own: string, n: FormRules.Node, depth: nat)
    ensures ValidBelow(dec, t, items, own, n, depth) <==>
      depth <= 5 && ValidNode(dec, t, items, own, n)
      && (!n.Cond? ==> forall i | 0 <= i < |n.children| :: ValidBelow(dec, t, items, own, n.children[i], depth + 1))
  {
    assert Inside(n, n, 0);
    if ValidBelow(dec, t, items, own, n, depth) && !n.Cond? {
      forall i, m, d: nat | 0 <= i < |n.children| && Inside(n.children[i], m, d)
        ensures depth + 1 + d <= 5 && ValidNode(dec, t, items, own, m) {
        var e := d + 1;
        assert Inside(n, m, e);
      }
    }
    if depth <= 5 && ValidNode(dec, t, items, own, n)
       && (!n.Cond? ==> forall i | 0 <= i < |n.children| :: ValidBelow(dec, t, items, own, n.children[i], depth + 1)) {
      forall m, d: nat | Inside(n, m, d) ensures depth + d <= 5 && ValidNode(dec, t, items, own, m) {
        if d > 0 {
          var i :| 0 <= i < |n.children| && Inside(n.children[i], m, d - 1);
          assert ValidBelow(dec, t, items, own, n.children[i], depth + 1);
        }
      }
    }
  }

  /** The names the second loop looks conditions up in are the columns on the form. */
  ghost predicate AreColumns(t: Table, items: seq<FormDraft.Item>, names: map<string, FieldDef>) {
    forall name, f :: OnForm(t, items, name, f) <==> name in names && names[name] == f
  }

  lemma CondNodeIff(dec: FormRules.Decimal, t: Table, items: seq<FormDraft.Item>, names: map<string, FieldDef>, own: string, n: FormRules.Node)
    requires n.Cond? && AreColumns(t, items, names)
    ensures ValidNode(dec, t, items, own, n) <==> n.field in names && n.field != own && CondFits(dec, n.op, n.value, names[n.field].dtype)
  {
    if n.field in names {
      assert OnForm(t, items, n.field, names[n.field]);
      CondFitsIff(dec, n.op, n.value, names[n.field].dtype);
    }
  }

  lemma {:induction false} NodeFitsIff(dec: FormRules.Decimal, t: Table, items: seq<FormDraft.Item>, names: map<string, FieldDef>,
                                       own: string, n: FormRules.Node, depth: nat)
    requires AreColumns(t, items, names)
    ensures NodeFits(dec, n, depth, names, own) <==> ValidBelow(dec, t, items, own, n, depth)
  {
    ValidBelowChildren(dec, t, items, own, n, depth);
    if n.Cond? {
      CondNodeIff(dec, t, items, names, own, n);
    } else {
      var next := depth + 1;
      forall i | 0 <= i < |n.children|
        ensures NodeFits(dec, n.children[i], next, names, own) <==> ValidBelow(dec, t, items, own, n.children[i], next) {
        NodeFitsIff(dec, t, items, names, own, n.children[i], next);
      }
    }
  }

  lemma TreeFitsIff(dec: FormRules.Decimal, t: Table, items: seq<FormDraft.Item>, names: map<string, FieldDef>, own: string, tree: Option<FormRules.Node>)
    requires AreColumns(t, items, names)
    ensures TreeFits(dec, tree, names, own) <==> ValidTree(dec, t, items, own, tree)
  {
    if tree.Some? { NodeFitsIff(dec, t, items, names, own, tree.value, 0); }
  }

  lemma RulesFitIff(dec: FormRules.Decimal, t: Table, items: seq<FormDraft.Item>, names: map<string, FieldDef>, it: RawItem)
    requires AreColumns(t, items, names) && ValidItem(t, CleanItem(it)) && it.kind.Is?
    ensures RulesFit(dec, t, names, it) <==> it.rules.Some? && ValidRules(dec, t, items, CleanItem(it))
  {
    OnFieldIff(t, it);
    if it.rules.Some? && OnField(t, it) {
      var r, f := it.rules.value, t.fields[it.fieldId.value];
      assert Shows(t, CleanItem(it), it.fieldId.value);
      TreeFitsIff(dec, t, items, names, f.phys, r.show);
      TreeFitsIff(dec, t, items, names, f.phys, r.readonly);
      TreeFitsIff(dec, t, items, names, f.phys, r.require);
    }
  }

  /** The rules as `order` gets them are the rules of the form by column. */
  lemma {:induction false} RuleConfigIs(t: Table, items: seq<RawItem>)
    requires DistinctColumns(t) && (forall i | 0 <= i < |items| :: items[i].rules.Some?) && OncePerField(CleanItems(items))
    ensures IsRuleConfig(t, CleanItems(items), RulesConfig(t, items))
    decreases |items|
  {
    if items != [] {
      var n := |items| - 1;
      var front, last := items[..n], items[n];
      assert items[..n + 1] == items;
      OneMoreRule(t, items, n);
      OneMoreItem(t, items, n);
      RuleConfigFront(t, CleanItems(front), CleanItem(last));
      RuleConfigIs(t, front);
      OnFieldIff(t, last);
      RuleConfigNext(t, CleanItems(front), CleanItem(last), RulesConfig(t, front), RulesConfig(t, items));
    }
  }

  lemma RuleConfigFront(t: Table, front: seq<FormDraft.Item>, last: FormDraft.Item)
    requires OncePerField(front + [last])
    ensures OncePerField(front)
    ensures forall i | 0 <= i < |front| && front[i].kind == "field" && last.kind == "field" :: front[i].fieldId != last.fieldId
  {
    var all := front + [last];
    forall i, j | 0 <= i < j < |front| && front[i].kind == "field" && front[j].kind == "field" ensures front[i].fieldId != front[j].fieldId {
      assert all[i] == front[i] && all[j] == front[j];
    }
    forall i | 0 <= i < |front| && front[i].kind == "field" && last.kind == "field" ensures front[i].fieldId != last.fieldId {
      assert all[i] == front[i] && all[|front|] == last;
    }
  }

  lemma RuleConfigNext(t: Table, front: seq<FormDraft.Item>, last: FormDraft.Item, before: FormRules.Config, after: FormRules.Config)
    requires DistinctColumns(t) && IsRuleConfig(t, front, before)
    requires forall i | 0 <= i < |front| && front[i].kind == "field" && last.kind == "field" :: front[i].fieldId != last.fieldId
    requires (forall id :: !Shows(t, last, id)) ==> after == before
    requires forall id | Shows(t, last, id) :: after == before[t.fields[id].phys := FormRules.Item(last.rules, t.fields[id].dtype, false, false)]
    ensures IsRuleConfig(t, front + [last], after)
  {
    var all := front + [last];
    forall name ensures name in after <==> exists f :: OnForm(t, all, name, f) {
      forall f { OneMoreShown(t, front, last, name, f); }
      if name in after && name !in before {
        var id :| Shows(t, last, id) && t.fields[id].phys == name;
        assert OnForm(t, all, name, t.fields[id]);
      }
    }
    forall i, id | 0 <= i < |all| && Shows(t, all[i], id) && t.fields[id].phys in after
      ensures after[t.fields[id].phys] == FormRules.Item(all[i].rules, t.fields[id].dtype, false, false) {
      if i < |front| {
        assert Shows(t, front[i], id);
        assert OnForm(t, front, t.fields[id].phys, t.fields[id]);
      }
    }
  }

  lemma RuleConfigUnique(t: Table, items: seq<FormDraft.Item>, a: FormRules.Config, b: FormRules.Config)
    requires IsRuleConfig(t, items, a) && IsRuleConfig(t, items, b)
    ensures a == b
  {
    forall name | name in a ensures name in b && a[name] == b[name] {
      var f :| OnForm(t, items, name, f);
      var i, id :| 0 <= i < |items| && Shows(t, items[i], id) && t.fields[id] == f;
    }
    assert forall name :: name in a <==> name in b;
  }

  lemma AcyclicIff(t: Table, items: seq<RawItem>)
    requires DistinctColumns(t) && (forall i | 0 <= i < |items| :: items[i].rules.Some?) && OncePerField(CleanItems(items))
    ensures FormRules.Acyclic(RulesConfig(t, items)) <==>
      forall config | IsRuleConfig(t, CleanItems(items), config) :: FormRules.Acyclic(config)
  {
    RuleConfigIs(t, items);
    forall config | IsRuleConfig(t, CleanItems(items), config) ensures config == RulesConfig(t, items) {
      RuleConfigUnique(t, CleanItems(items), config, RulesConfig(t, items));
    }
  }

  // ---------------------------------------------------------------- accepted designs

  lemma ItemSpelledIs(raw: RawItem)
    requires raw.rules.Some?
    ensures ItemSpelled(raw) <==> SpellsItem(raw, CleanItem(raw))
  {
    assert raw.(rules := Some(CleanItem(raw).rules)) == raw;
  }

  lemma {:induction false} ItemsAcceptedIff(dec: FormRules.Decimal, t: Table, items: seq<RawItem>)
    requires DistinctColumns(t) && ItemsFit(t, items, |items|)
    ensures AllRulesFit(dec, t, Names(t, items), items, |items|) <==>
      forall i | 0 <= i < |items| :: items[i].rules.Some? && ValidRules(dec, t, CleanItems(items), CleanItem(items[i]))
  {
    ItemsFitIff(t, items);
    forall name, f ensures OnForm(t, CleanItems(items), name, f) <==> name in Names(t, items) && Names(t, items)[name] == f {
      NamesAre(t, items, name);
    }
    forall i | 0 <= i < |items|
      ensures RulesFit(dec, t, Names(t, items), items[i]) <==> items[i].rules.Some? && ValidRules(dec, t, CleanItems(items), CleanItem(items[i])) {
      RulesFitIff(dec, t, CleanItems(items), Names(t, items), items[i]);
    }
  }

  lemma AcceptedItems(dec: FormRules.Decimal, t: Table, raw: RawConfig)
    requires DistinctColumns(t) && Accepts(dec, t, raw)
    ensures forall i | 0 <= i < |raw.items.value| ::
      raw.items.value[i].rules.Some? && ItemSpelled(raw.items.value[i]) && ValidItem(t, CleanItem(raw.items.value[i]))
      && ValidRules(dec, t, CleanItems(raw.items.value), CleanItem(raw.items.value[i]))
    ensures OncePerField(CleanItems(raw.items.value))
  {
    ItemsFitIff(t, raw.items.value);
    ItemsAcceptedIff(dec, t, raw.items.value);
  }

  lemma SpelledInParts(raw: RawConfig)
    requires HeadSpelled(raw) && raw.items.Is?
    requires forall i | 0 <= i < |raw.items.value| :: raw.items.value[i].rules.Some? && ItemSpelled(raw.items.value[i])
    ensures SpellsConfig(raw, Clean(raw))
  {
    var clean := CleanItems(raw.items.value);
    assert Clean(raw).items == clean && |clean| == |raw.items.value|;
    assert raw.inCatalog == Is(Clean(raw).settings.inCatalog) by {
      if raw.inCatalog.value { assert raw.inCatalog == Is(true); }
    }
    forall i | 0 <= i < |clean| ensures SpellsItem(raw.items.value[i], clean[i]) {
      ItemSpelledIs(raw.items.value[i]);
    }
  }

  /** What is stored of an accepted design is the design the JSON spells … */
  lemma AcceptedSpells(dec: FormRules.Decimal, t: Table, raw: RawConfig)
    requires DistinctColumns(t) && Accepts(dec, t, raw)
    ensures SpellsConfig(raw, Clean(raw))
  {
    HeadFitsIff(raw);
    AcceptedItems(dec, t, raw);
    SpelledInParts(raw);
  }

  /** … and a valid one. */
  lemma AcceptedDesign(dec: FormRules.Decimal, t: Table, raw: RawConfig)
    requires DistinctColumns(t) && Accepts(dec, t, raw)
    ensures ValidDesign(dec, t, Clean(raw))
  {
    HeadFitsIff(raw);
    AcceptedItems(dec, t, raw);
    AcyclicIff(t, raw.items.value);
    assert Clean(raw).items == CleanItems(raw.items.value);
    forall i | 0 <= i < |Clean(raw).items| ensures Clean(raw).items[i] == CleanItem(raw.items.value[i]) {}
  }

  lemma SpelledIsClean(raw: RawConfig, c: FormDraft.Config)
    requires SpellsConfig(raw, c)
    ensures c == Clean(raw)
  {
    assert c.items == CleanItems(raw.items.value) by {
      forall i | 0 <= i < |c.items| ensures c.items[i] == CleanItem(raw.items.value[i]) {
        assert SpellsItem(raw.items.value[i], c.items[i]);
      }
    }
  }

  lemma ValidIsAccepted(dec: FormRules.Decimal, t: Table, raw: RawConfig, c: FormDraft.Config)
    requires DistinctColumns(t) && SpellsConfig(raw, c) && ValidDesign(dec, t, c)
    ensures Accepts(dec, t, raw)
  {
    SpelledIsClean(raw, c);
    var items := raw.items.value;
    HeadFitsIff(raw);
    forall i | 0 <= i < |items| ensures ItemSpelled(items[i]) && items[i].rules.Some? && ValidItem(t, CleanItem(items[i])) {
      assert SpellsItem(items[i], c.items[i]) && c.items[i] == CleanItem(items[i]);
    }
    ItemsFitIff(t, items);
    ItemsAcceptedIff(dec, t, items);
    AcyclicIff(t, items);
  }

  /** A design is accepted exactly when the JSON spells a valid one, and that one is stored. */
  lemma AcceptedIff(dec: FormRules.Decimal, t: Table, raw: RawConfig)
    requires DistinctColumns(t)
    ensures Accepts(dec, t, raw) <==> exists c :: SpellsConfig(raw, c) && ValidDesign(dec, t, c)
    ensures forall c | SpellsConfig(raw, c) :: c == Clean(raw)
  {
    if Accepts(dec, t, raw) { AcceptedSpells(dec, t, raw); AcceptedDesign(dec, t, raw); }
    if c :| SpellsConfig(raw, c) && ValidDesign(dec, t, c) { ValidIsAccepted(dec, t, raw, c); }
    forall c | SpellsConfig(raw, c) ensures c == Clean(raw) { SpelledIsClean(raw, c); }
  }
}
