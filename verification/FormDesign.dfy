/**
  Validation of a form design before it is saved, previewed or published
  (`validate_config` of app/form_design.py, with `validate` of app/form_rules.py).  A
  design arrives as JSON, so every setting can be absent, of the wrong type, or a value.
*/
module FormDesign {
  import opened Wrappers
  import FormDraft
  import FormRules

  /** A JSON member: absent or null, a value of the expected type, or something else. */
  datatype Slot<T> = Null | Is(value: T) | WrongType

  /** `known`: an object with no unknown keys.  `rules` is None when they cannot be read as rules at all. */
  datatype RawItem = RawItem(known: bool, kind: Slot<string>, fieldId: Slot<int>, relationId: Slot<int>,
                             parentFieldId: Slot<int>, filterFieldId: Slot<int>,
                             caption: Slot<string>, help: Slot<string>, widget: Slot<string>,
                             required: Slot<bool>, readonly: Slot<bool>, rules: Option<FormRules.Rules>)

  /** `fits`: an object with exactly the expected keys. */
  datatype RawConfig = RawConfig(fits: bool, title: Slot<string>, description: Slot<string>, purpose: Slot<string>,
                                 inCatalog: Slot<bool>, catalogGroup: Slot<string>, items: Slot<seq<RawItem>>)

  datatype FieldDef = FieldDef(phys: string, dtype: string, nullable: bool, hasDefault: bool)

  datatype Link = Link(kind: string, from: int, to: int)

  /** The form's table, its fields by id, and every relation by id. */
  datatype Table = Table(id: int, fields: map<int, FieldDef>, relations: map<int, Link>)

  const NO_CONTROL: set<string> := {"file", "image", "formula", "autonumber", "json", "tags"}
  const GENERATED: set<string> := {"file", "image", "formula", "autonumber"}
  const TEXTUAL: set<string> := {"string", "text", "markdown", "email", "url", "phone"}

  // ---------------------------------------------------------------- the settings and the items

  predicate TextFits(s: Slot<string>, limit: nat) {
    s.Null? || (s.Is? && |s.value| <= limit)
  }

  predicate IdFits(s: Slot<int>) {
    s.Null? || (s.Is? && s.value >= 1)
  }

  predicate HeadFits(raw: RawConfig) {
    && raw.fits && TextFits(raw.title, 160) && TextFits(raw.description, 10000) && TextFits(raw.catalogGroup, 80)
    && raw.title.Is? && raw.title.value != "" && (raw.purpose == Is("data") || raw.purpose == Is("view")) && raw.inCatalog.Is?
  }

  /** What an item of each kind needs, given the fields used before it. */
  predicate KindFits(t: Table, seen: set<int>, it: RawItem) {
    && it.kind.Is? && it.kind.value in {"field", "relation", "section"}
    && (it.kind.value == "field" ==> it.fieldId.Is? && it.fieldId.value in t.fields && it.fieldId.value !in seen)
    && (it.kind.value == "relation" ==>
          && it.relationId.Is? && it.relationId.value in t.relations
          && var r := t.relations[it.relationId.value]; r.kind == "mn" && (t.id == r.from || t.id == r.to))
    && (it.kind.value == "section" ==> it.caption.Is? && it.caption.value != "")
  }

  /** One item, given the fields used before it. */
  predicate ItemFits(t: Table, seen: set<int>, it: RawItem) {
    && it.known && KindFits(t, seen, it)
    && IdFits(it.fieldId) && IdFits(it.relationId) && IdFits(it.parentFieldId) && IdFits(it.filterFieldId)
    && !it.required.WrongType? && !it.readonly.WrongType?
    && TextFits(it.caption, 160) && TextFits(it.help, 255) && TextFits(it.widget, 30)
  }

  predicate OnField(t: Table, it: RawItem) {
    it.kind == Is("field") && it.fieldId.Is? && it.fieldId.value in t.fields
  }

  function Seen(items: seq<RawItem>): set<int> {
    set it | it in items && it.kind == Is("field") && it.fieldId.Is? :: it.fieldId.value
  }

  /** `names`: the form's fields by column name. */
  function Names(t: Table, items: seq<RawItem>): map<string, FieldDef> {
    if items == [] then map[]
    else
      var before, it := Names(t, items[..|items| - 1]), items[|items| - 1];
      if OnField(t, it) then var f := t.fields[it.fieldId.value]; before[f.phys := f] else before
  }

  // ---------------------------------------------------------------- the rules

  /** `validate`'s visit of one node. */
  predicate NodeFits(dec: FormRules.Decimal, n: FormRules.Node, depth: nat, names: map<string, FieldDef>, target: string) {
    depth <= 5 &&
    match n
    case All(cs) => 1 <= |cs| <= 20 && forall i | 0 <= i < |cs| :: NodeFits(dec, cs[i], depth + 1, names, target)
    case AnyOf(cs) => 1 <= |cs| <= 20 && forall i | 0 <= i < |cs| :: NodeFits(dec, cs[i], depth + 1, names, target)
    case Cond(f, op, v) => f in names && f != target && CondFits(dec, op, v, names[f].dtype)
  }

  predicate CondFits(dec: FormRules.Decimal, op: FormRules.Op, v: FormRules.Value, dtype: string) {
    && dtype !in NO_CONTROL
    && (op.Gt? || op.Gte? || op.Lt? || op.Lte? ==> dtype in FormRules.NUMERIC)
    && (op.Contains? ==> dtype in TEXTUAL)
    && !v.Nil? && |FormRules.Text(v)| <= 1000
    && (!op.Empty? && !op.NotEmpty? && dtype in FormRules.NUMERIC ==> dec(FormRules.Text(v)).Some?)
  }

  predicate TreeFits(dec: FormRules.Decimal, t: Option<FormRules.Node>, names: map<string, FieldDef>, target: string) {
    t.Some? ==> NodeFits(dec, t.value, 0, names, target)
  }

  predicate HasRules(r: FormRules.Rules) {
    r.show.Some? || r.readonly.Some? || r.require.Some?
  }

  predicate RulesFit(dec: FormRules.Decimal, t: Table, names: map<string, FieldDef>, it: RawItem) {
    && it.rules.Some?
    && var r := it.rules.value;
       if !OnField(t, it) then !HasRules(r)
       else
         var f := t.fields[it.fieldId.value];
         && TreeFits(dec, r.show, names, f.phys) && TreeFits(dec, r.readonly, names, f.phys) && TreeFits(dec, r.require, names, f.phys)
         && (HasRules(r) ==> f.dtype !in GENERATED)
         && (r.show.Some? || r.readonly.Some? ==> f.nullable || f.hasDefault)
  }

  /** `rules_config`, as `form_rules.order` gets it. */
  function RulesConfig(t: Table, items: seq<RawItem>): FormRules.Config {
    if items == [] then map[]
    else
      var before, it := RulesConfig(t, items[..|items| - 1]), items[|items| - 1];
      if OnField(t, it) && it.rules.Some? then
        var f := t.fields[it.fieldId.value];
        before[f.phys := FormRules.Item(it.rules.value, f.dtype, false, false)]
      else before
  }

  ghost predicate ItemsFit(t: Table, items: seq<RawItem>, n: nat)
    requires n <= |items|
  {
    forall i | 0 <= i < n :: ItemFits(t, Seen(items[..i]), items[i])
  }

  ghost predicate AllRulesFit(dec: FormRules.Decimal, t: Table, names: map<string, FieldDef>, items: seq<RawItem>, n: nat)
    requires n <= |items|
  {
    forall i | 0 <= i < n :: RulesFit(dec, t, names, items[i])
  }

  ghost predicate Accepts(dec: FormRules.Decimal, t: Table, raw: RawConfig) {
    && HeadFits(raw) && raw.items.Is? && |raw.items.value| <= 200
    && var items := raw.items.value;
       && ItemsFit(t, items, |items|) && AllRulesFit(dec, t, Names(t, items), items, |items|)
       && FormRules.Acyclic(RulesConfig(t, items))
  }

  // ---------------------------------------------------------------- the normal form

  function Opt<T>(s: Slot<T>): Option<T> {
    if s.Is? then Some(s.value) else None
  }

  function CleanItem(it: RawItem): FormDraft.Item {
    FormDraft.Item(if it.kind.Is? then it.kind.value else "", Opt(it.fieldId), Opt(it.relationId), Opt(it.parentFieldId), Opt(it.filterFieldId),
                   Opt(it.caption), Opt(it.help), Opt(it.widget), it.required == Is(true), it.readonly == Is(true),
                   if it.rules.Some? then it.rules.value else FormRules.Rules(None, None, None))
  }

  function CleanItems(items: seq<RawItem>): seq<FormDraft.Item> {
    seq(|items|, i requires 0 <= i < |items| => CleanItem(items[i]))
  }

  /** What the draft stores of an accepted design. */
  function Clean(raw: RawConfig): FormDraft.Config {
    var settings := FormDraft.Settings(if raw.title.Is? then raw.title.value else "", Opt(raw.description),
                                       if raw.purpose.Is? then raw.purpose.value else "", raw.inCatalog == Is(true), Opt(raw.catalogGroup));
    FormDraft.Config(settings, if raw.items.Is? then CleanItems(raw.items.value) else [])
  }

  function ToSlot<T>(o: Option<T>): Slot<T> {
    if o.Some? then Is(o.value) else Null
  }

  function StoredItem(it: FormDraft.Item): RawItem {
    RawItem(true, Is(it.kind), ToSlot(it.fieldId), ToSlot(it.relationId), ToSlot(it.parentFieldId), ToSlot(it.filterFieldId),
            ToSlot(it.caption), ToSlot(it.help), ToSlot(it.widget), Is(it.required), Is(it.readonly), Some(it.rules))
  }

  function StoredItems(items: seq<FormDraft.Item>): seq<RawItem> {
    seq(|items|, i requires 0 <= i < |items| => StoredItem(items[i]))
  }

  /** A stored draft as it is read back. */
  function Stored(c: FormDraft.Config): RawConfig {
    RawConfig(true, Is(c.settings.title), ToSlot(c.settings.description), Is(c.settings.purpose), Is(c.settings.inCatalog),
              ToSlot(c.settings.catalogGroup), Is(StoredItems(c.items)))
  }

  lemma OneMoreItem(t: Table, items: seq<RawItem>, n: nat)
    requires n < |items|
    ensures var it := items[n];
      && Seen(items[..n + 1]) == Seen(items[..n]) + (if it.kind == Is("field") && it.fieldId.Is? then {it.fieldId.value} else {})
      && Names(t, items[..n + 1]) ==
           (if OnField(t, it) then Names(t, items[..n])[t.fields[it.fieldId.value].phys := t.fields[it.fieldId.value]] else Names(t, items[..n]))
      && CleanItems(items[..n + 1]) == CleanItems(items[..n]) + [CleanItem(it)]
  {
    assert items[..n + 1] == items[..n] + [items[n]];
    assert items[..n + 1][..n] == items[..n];
  }

  lemma OneMoreRule(t: Table, items: seq<RawItem>, n: nat)
    requires n < |items|
    ensures var it := items[n];
      RulesConfig(t, items[..n + 1]) ==
        if OnField(t, it) && it.rules.Some? then
          var f := t.fields[it.fieldId.value]; RulesConfig(t, items[..n])[f.phys := FormRules.Item(it.rules.value, f.dtype, false, false)]
        else RulesConfig(t, items[..n])
  {
    assert items[..n + 1][..n] == items[..n];
  }

  /** An item that fits is on a field exactly when it is of kind field. */
  lemma OneMoreFit(t: Table, items: seq<RawItem>, n: nat)
    requires n < |items| && ItemFits(t, Seen(items[..n]), items[n])
    ensures ItemsFit(t, items, n) ==> ItemsFit(t, items, n + 1)
    ensures CleanItems(items[..n + 1]) == CleanItems(items[..n]) + [CleanItem(items[n])]
    ensures items[n].kind.value == "field" ==> var f := t.fields[items[n].fieldId.value];
      Seen(items[..n + 1]) == Seen(items[..n]) + {items[n].fieldId.value} && Names(t, items[..n + 1]) == Names(t, items[..n])[f.phys := f]
    ensures items[n].kind.value != "field" ==> Seen(items[..n + 1]) == Seen(items[..n]) && Names(t, items[..n + 1]) == Names(t, items[..n])
  {
    OneMoreItem(t, items, n);
  }

  /** The first loop: each item on its own, normalised, with the fields used so far. */
  method CheckItems(t: Table, items: seq<RawItem>) returns (ok: bool, names: map<string, FieldDef>, clean: seq<FormDraft.Item>)
    ensures ok <==> ItemsFit(t, items, |items|)
    ensures ok ==> names == Names(t, items) && clean == CleanItems(items)
  {
    ok, names, clean := true, map[], [];
    var seen: set<int> := {};
    for n := 0 to |items|
      invariant ItemsFit(t, items, n)
      invariant seen == Seen(items[..n]) && names == Names(t, items[..n]) && clean == CleanItems(items[..n])
    {
      var it := items[n];
      if !ItemFits(t, seen, it) {
        ok := false;
        return;
      }
      OneMoreFit(t, items, n);
      if it.kind.value == "field" {
        var f := t.fields[it.fieldId.value];
        names := names[f.phys := f];
        seen := seen + {it.fieldId.value};
      }
      clean := clean + [CleanItem(it)];
    }
    assert items[..|items|] == items;
  }

  /** The second loop: each item's rules against the whole form. */
  method CheckRules(dec: FormRules.Decimal, t: Table, names: map<string, FieldDef>, items: seq<RawItem>)
    returns (ok: bool, config: FormRules.Config, keys: seq<string>)
    ensures ok <==> AllRulesFit(dec, t, names, items, |items|)
    ensures ok ==> config == RulesConfig(t, items) && forall x :: x in keys <==> x in config
  {
    ok, config, keys := true, map[], [];
    for n := 0 to |items|
      invariant AllRulesFit(dec, t, names, items, n)
      invariant config == RulesConfig(t, items[..n]) && forall x :: x in keys <==> x in config
    {
      var it := items[n];
      OneMoreRule(t, items, n);
      if !RulesFit(dec, t, names, it) {
        ok := false;
        return;
      }
      if OnField(t, it) {
        var f := t.fields[it.fieldId.value];
        config := config[f.phys := FormRules.Item(it.rules.value, f.dtype, false, false)];
        keys := keys + [f.phys];
      }
    }
    assert items[..|items|] == items;
  }

  /** `validate_config`, up to the health check of the finished design: the normalised design, or None when it raises. */
  method ValidateConfig(dec: FormRules.Decimal, t: Table, raw: RawConfig) returns (r: Option<FormDraft.Config>)
    ensures r.Some? <==> Accepts(dec, t, raw)
    ensures r.Some? ==> r.value == Clean(raw)
  {
    if !HeadFits(raw) || !raw.items.Is? || |raw.items.value| > 200 {
      return None;
    }
    var items := raw.items.value;
    var ok, names, clean := CheckItems(t, items);
    if !ok {
      return None;
    }
    var fit, config, keys := CheckRules(dec, t, names, items);
    if !fit {
      return None;
    }
    var o := FormRules.Order(config, keys);
    if o.None? {
      return None;
    }
    r := Some(FormDraft.Config(Clean(raw).settings, clean));
  }

  // ---------------------------------------------------------------- what acceptance is worth

  lemma StoredFits(t: Table, seen: set<int>, it: RawItem)
    requires ItemFits(t, seen, it) && it.rules.Some?
    ensures var again := StoredItem(CleanItem(it));
      ItemFits(t, seen, again) && CleanItem(again) == CleanItem(it) && again.kind == it.kind && again.rules == it.rules
      && OnField(t, again) == OnField(t, it) && (it.fieldId.Is? ==> again.fieldId == it.fieldId)
  {}

  lemma {:induction false} StoredSame(t: Table, items: seq<RawItem>, again: seq<RawItem>)
    requires |again| == |items|
    requires forall i | 0 <= i < |items| :: again[i].kind == items[i].kind && Opt(again[i].fieldId) == Opt(items[i].fieldId) && again[i].rules == items[i].rules
    ensures Seen(again) == Seen(items) && Names(t, again) == Names(t, items) && RulesConfig(t, again) == RulesConfig(t, items)
  {
    if items != [] {
      var n := |items| - 1;
      StoredSame(t, items[..n], again[..n]);
      assert items[..n + 1] == items && again[..n + 1] == again;
      OneMoreItem(t, items, n);
      OneMoreItem(t, again, n);
    }
  }

  lemma StoredItemsFit(t: Table, items: seq<RawItem>, again: seq<RawItem>)
    requires ItemsFit(t, items, |items|) && forall i | 0 <= i < |items| :: items[i].rules.Some?
    requires again == StoredItems(CleanItems(items))
    ensures ItemsFit(t, again, |again|) && CleanItems(again) == CleanItems(items)
    ensures Names(t, again) == Names(t, items) && RulesConfig(t, again) == RulesConfig(t, items)
    ensures forall i | 0 <= i < |items| :: again[i].rules == items[i].rules && OnField(t, again[i]) == OnField(t, items[i])
    ensures forall i | 0 <= i < |items| && OnField(t, items[i]) :: again[i].fieldId == items[i].fieldId
  {
    forall i | 0 <= i < |items|
      ensures ItemFits(t, Seen(items[..i]), again[i]) && CleanItem(again[i]) == CleanItem(items[i])
      ensures again[i].kind == items[i].kind && Opt(again[i].fieldId) == Opt(items[i].fieldId) && again[i].rules == items[i].rules
      ensures OnField(t, again[i]) == OnField(t, items[i]) && (OnField(t, items[i]) ==> again[i].fieldId == items[i].fieldId)
    {
      StoredFits(t, Seen(items[..i]), items[i]);
    }
    forall i | 0 <= i <= |items| ensures Seen(again[..i]) == Seen(items[..i]) {
      StoredSame(t, items[..i], again[..i]);
    }
    StoredSame(t, items, again);
  }

  /**
    What is stored of an accepted design is accepted again and normalises to itself, so a
    preview's test of a saved draft is a test of exactly what the draft holds.
  */
  lemma StoredIsAccepted(dec: FormRules.Decimal, t: Table, raw: RawConfig)
    requires Accepts(dec, t, raw)
    ensures Accepts(dec, t, Stored(Clean(raw))) && Clean(Stored(Clean(raw))) == Clean(raw)
  {
    var items := raw.items.value;
    var again := StoredItems(CleanItems(items));
    forall i | 0 <= i < |items| ensures items[i].rules.Some? {
      assert RulesFit(dec, t, Names(t, items), items[i]);
    }
    StoredItemsFit(t, items, again);
    forall i | 0 <= i < |again| ensures RulesFit(dec, t, Names(t, again), again[i]) {
      assert RulesFit(dec, t, Names(t, items), items[i]);
    }
  }

  /** Every accepted rule is the rule of a field on the form that `RulesFit` held of. */
  lemma {:induction false} RuleOrigin(dec: FormRules.Decimal, t: Table, items: seq<RawItem>, name: string) returns (i: nat)
    requires name in RulesConfig(t, items)
    ensures i < |items| && OnField(t, items[i]) && items[i].rules == Some(RulesConfig(t, items)[name].rules)
    ensures t.fields[items[i].fieldId.value].phys == name
  {
    var n := |items| - 1;
    var it := items[n];
    if OnField(t, it) && it.rules.Some? && t.fields[it.fieldId.value].phys == name {
      i := n;
    } else {
      i := RuleOrigin(dec, t, items[..n], name);
    }
  }

  lemma {:induction false} NodeRefs(dec: FormRules.Decimal, n: FormRules.Node, depth: nat, names: map<string, FieldDef>, target: string)
    requires NodeFits(dec, n, depth, names, target)
    ensures FormRules.References(n) <= names.Keys - {target}
  {
    if !n.Cond? {
      forall c | c in n.children ensures FormRules.References(c) <= names.Keys - {target} {
        var i :| 0 <= i < |n.children| && n.children[i] == c;
        NodeRefs(dec, n.children[i], depth + 1, names, target);
      }
    }
  }

  lemma TreeRefs(dec: FormRules.Decimal, tree: Option<FormRules.Node>, names: map<string, FieldDef>, target: string)
    requires TreeFits(dec, tree, names, target)
    ensures FormRules.RefsOf(tree) <= names.Keys - {target}
  {
    if tree.Some? { NodeRefs(dec, tree.value, 0, names, target); }
  }

  /** Every rule of an accepted design reads only other fields of the same form. */
  lemma RulesReadTheForm(dec: FormRules.Decimal, t: Table, raw: RawConfig, name: string)
    requires Accepts(dec, t, raw) && name in RulesConfig(t, raw.items.value)
    ensures FormRules.RuleRefs(RulesConfig(t, raw.items.value)[name].rules) <= Names(t, raw.items.value).Keys - {name}
  {
    var items := raw.items.value;
    var i := RuleOrigin(dec, t, items, name);
    assert RulesFit(dec, t, Names(t, items), items[i]);
    var r := items[i].rules.value;
    TreeRefs(dec, r.show, Names(t, items), name);
    TreeRefs(dec, r.readonly, Names(t, items), name);
    TreeRefs(dec, r.require, Names(t, items), name);
  }

  /** `shown` has some of the form's fields, with the accepted rules, whatever their types and locks. */
  ghost predicate ShownPart(config: FormRules.Config, shown: FormRules.Config) {
    shown.Keys <= config.Keys && forall n | n in shown :: shown[n].rules == config[n].rules
  }

  /** An accepted design never meets the cycle error at run time, whichever of its fields a user may see. */
  lemma AcceptedNeverCycles(dec: FormRules.Decimal, t: Table, raw: RawConfig, shown: FormRules.Config)
    requires Accepts(dec, t, raw) && ShownPart(RulesConfig(t, raw.items.value), shown)
    ensures FormRules.Acyclic(shown)
  {
    var config := RulesConfig(t, raw.items.value);
    forall p ensures !FormRules.Closed(shown, p) {
      if FormRules.Closed(shown, p) {
        forall i | 0 <= i < |p| - 1 ensures FormRules.Edge(config, p[i], p[i + 1]) {
          assert FormRules.Edge(shown, p[i], p[i + 1]);
        }
        assert FormRules.Closed(config, p);
      }
    }
  }

  /** A column the database requires, without a default, is never hidden nor made read-only by an accepted rule. */
  lemma RequiredStaysReachable(dec: FormRules.Decimal, t: Table, raw: RawConfig, shown: FormRules.Config, name: string, values: FormRules.Values)
    requires Accepts(dec, t, raw) && ShownPart(RulesConfig(t, raw.items.value), shown) && name in shown
    requires forall f | f in t.fields && t.fields[f].phys == name :: !t.fields[f].nullable && !t.fields[f].hasDefault
    ensures var s := FormRules.Decide(dec, shown, name, values); s.visible && s.readonly == shown[name].locked
  {
    var items := raw.items.value;
    var i := RuleOrigin(dec, t, items, name);
    assert RulesFit(dec, t, Names(t, items), items[i]);
  }
}
