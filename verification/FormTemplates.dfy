/**
  Portable form layouts (app/form_templates.py): a captured layout names fields by
  physical name; `map_config` rewrites it onto another table's fields and
  relationships.  The main result is that the rewritten conditional rules mean on the
  target table exactly what the original ones meant.
*/
module FormTemplates {
  import opened Wrappers
  import opened FormRules

  /** A field of some table: what mapping looks at. */
  datatype Field = Field(id: int, phys: string, dtype: string, choices: set<string>, related: Option<int>)

  datatype Relation = Relation(kind: string, fromTable: int, toTable: int)

  /** The table behind the form, the fields of every table, and the relations, by id. */
  datatype Schema = Schema(tableId: int, tables: map<int, seq<Field>>, relations: map<int, Relation>)

  /** The copied keys of an item: label_override, help_text and widget. */
  datatype Look = Look(caption: Option<string>, help: Option<string>, widget: Option<string>)

  datatype Body =
    | FieldBody(field: string, rules: Rules, parent: Option<string>, filter: Option<string>)
    | RelationBody(relation: nat)
    | SectionBody

  datatype Source = Source(look: Look, required: bool, readonly: bool, body: Body)

  datatype Spec = Spec(dtype: string, choices: set<string>)

  /** Relationship keys are `relation_0`, `relation_1`, …: their number. */
  datatype Template = Template(version: int, fields: map<string, Spec>, relations: set<nat>, items: seq<Source>)

  datatype Target =
    | FieldTarget(fieldId: int, rules: Rules, parentId: Option<int>, filterId: Option<int>)
    | RelationTarget(relationId: int)
    | SectionTarget

  datatype FormItem = FormItem(look: Look, required: bool, readonly: bool, body: Target)

  datatype Error =
    | UnsupportedVersion | IncompleteMapping | IncompatibleField | RepeatedField | RepeatedRelation
    | BadRelation | UnknownRuleField | MissingKey | BadFilter | NoFilter | LostParent

  predicate Compatible(s: Spec, f: Field) {
    s.dtype == f.dtype && (f.dtype == "enum" ==> s.choices <= f.choices)
  }

  function FieldsOf(s: Schema): seq<Field> {
    if s.tableId in s.tables then s.tables[s.tableId] else []
  }

  /** Ids and physical names are unique within a table, as the metadata tables enforce. */
  ghost predicate ValidSchema(s: Schema) {
    forall t | t in s.tables :: UniqueFields(s.tables[t])
  }

  ghost predicate UniqueFields(fs: seq<Field>) {
    forall i, j | 0 <= i < j < |fs| :: fs[i].id != fs[j].id && fs[i].phys != fs[j].phys
  }

  function FindId(fs: seq<Field>, id: int): (r: Option<Field>)
    ensures r.Some? ==> r.value in fs && r.value.id == id
    ensures r.None? ==> forall f | f in fs :: f.id != id
  {
    if fs == [] then None else if fs[0].id == id then Some(fs[0]) else FindId(fs[1..], id)
  }

  // ---------------------------------------------------------------- rewriting rules

  function Remap(n: Node, rho: map<string, string>): Node
    requires References(n) <= rho.Keys
  {
    match n
    case Cond(f, op, v) => Cond(rho[f], op, v)
    case All(cs) => All(seq(|cs|, i requires 0 <= i < |cs| => ChildRefs(n, i); Remap(cs[i], rho)))
    case AnyOf(cs) => AnyOf(seq(|cs|, i requires 0 <= i < |cs| => ChildRefs(n, i); Remap(cs[i], rho)))
  }

  lemma ChildRefs(n: Node, i: nat)
    requires !n.Cond? && i < |n.children|
    ensures References(n.children[i]) <= References(n)
  {}

  function RemapTree(t: Option<Node>, rho: map<string, string>): Option<Node>
    requires RefsOf(t) <= rho.Keys
  {
    if t.Some? then Some(Remap(t.value, rho)) else None
  }

  function RemapRules(r: Rules, rho: map<string, string>): Rules
    requires RuleRefs(r) <= rho.Keys
  {
    Rules(RemapTree(r.show, rho), RemapTree(r.readonly, rho), RemapTree(r.require, rho))
  }

  ghost predicate Injective(rho: map<string, string>) {
    forall a, b | a in rho && b in rho && rho[a] == rho[b] :: a == b
  }

  ghost function Image(s: set<string>, rho: map<string, string>): set<string>
    requires s <= rho.Keys
  {
    set f | f in s :: rho[f]
  }

  lemma {:induction false} RemapReferences(n: Node, rho: map<string, string>)
    requires References(n) <= rho.Keys
    ensures References(Remap(n, rho)) == Image(References(n), rho)
  {
    if !n.Cond? {
      var cs, ds := n.children, Remap(n, rho).children;
      forall i | 0 <= i < |cs| ensures References(cs[i]) <= rho.Keys && References(ds[i]) == Image(References(cs[i]), rho) {
        ChildRefs(n, i);
        RemapReferences(cs[i], rho);
      }
      forall g | g in References(Remap(n, rho)) ensures g in Image(References(n), rho) {
        var i :| 0 <= i < |ds| && g in References(ds[i]);
        ChildRefs(n, i);
      }
      forall f | f in References(n) ensures rho[f] in References(Remap(n, rho)) {
        var i :| 0 <= i < |cs| && f in References(cs[i]);
        assert rho[f] in References(ds[i]);
        ChildRefs(Remap(n, rho), i);
      }
    }
  }

  /** `n` carries the same value on one side as its renaming does on the other. */
  ghost predicate Mirrors(a: Values, b: Values, n: string, m: string) {
    (n in a <==> m in b) && (n in a ==> a[n] == b[m])
  }

  lemma {:induction false} RemapMatches(dec: Decimal, n: Node, rho: map<string, string>,
                                        a: Values, c: Config, b: Values, d: Config)
    requires References(n) <= rho.Keys
    requires forall f | f in References(n) :: Mirrors(a, b, f, rho[f]) && TypeOf(c, f) == TypeOf(d, rho[f])
    ensures Matches(dec, Remap(n, rho), b, d) == Matches(dec, n, a, c)
  {
    match n
    case Cond(f, op, v) =>
    case All(cs) =>
      var ds := Remap(n, rho).children;
      forall i | 0 <= i < |cs| ensures Matches(dec, ds[i], b, d) == Matches(dec, cs[i], a, c) {
        ChildRefs(n, i);
        RemapMatches(dec, cs[i], rho, a, c, b, d);
      }
    case AnyOf(cs) =>
      var ds := Remap(n, rho).children;
      forall i | 0 <= i < |cs| ensures Matches(dec, ds[i], b, d) == Matches(dec, cs[i], a, c) {
        ChildRefs(n, i);
        RemapMatches(dec, cs[i], rho, a, c, b, d);
      }
  }

  // ---------------------------------------------------------------- renamed configs

  /** `d` is the config `c` with every field and every rule renamed by `rho`. */
  ghost predicate Renames(c: Config, d: Config, rho: map<string, string>) {
    && Injective(rho)
    && c.Keys <= rho.Keys
    && d.Keys == Image(c.Keys, rho)
    && forall n | n in c :: RenamedItem(c[n], d, rho, n)
  }

  ghost predicate RenamedItem(item: Item, d: Config, rho: map<string, string>, n: string)
    requires n in rho
  {
    && RuleRefs(item.rules) <= rho.Keys
    && rho[n] in d
    && d[rho[n]] == item.(rules := RemapRules(item.rules, rho))
  }

  lemma SameTypes(c: Config, d: Config, rho: map<string, string>, f: string)
    requires Renames(c, d, rho) && f in rho
    ensures TypeOf(c, f) == TypeOf(d, rho[f])
  {
    if f in c {
      assert RenamedItem(c[f], d, rho, f);
    }
  }

  lemma RemapCheck(dec: Decimal, t: Option<Node>, rho: map<string, string>, a: Values, c: Config, b: Values, d: Config, default: bool)
    requires RefsOf(t) <= rho.Keys
    requires forall f | f in RefsOf(t) :: Mirrors(a, b, f, rho[f]) && TypeOf(c, f) == TypeOf(d, rho[f])
    ensures Check(dec, RemapTree(t, rho), b, d, default) == Check(dec, t, a, c, default)
  {
    if t.Some? { RemapMatches(dec, t.value, rho, a, c, b, d); }
  }

  lemma RemapDecide(dec: Decimal, c: Config, d: Config, rho: map<string, string>, a: Values, b: Values, n: string)
    requires Renames(c, d, rho) && n in c
    requires forall f | f in RuleRefs(c[n].rules) && f in rho :: Mirrors(a, b, f, rho[f])
    ensures rho[n] in d && Decide(dec, d, rho[n], b) == Decide(dec, c, n, a)
  {
    assert RenamedItem(c[n], d, rho, n);
    var r := c[n].rules;
    forall f | f in RuleRefs(r) ensures TypeOf(c, f) == TypeOf(d, rho[f]) {
      SameTypes(c, d, rho, f);
    }
    RemapCheck(dec, r.show, rho, a, c, b, d, true);
    RemapCheck(dec, r.readonly, rho, a, c, b, d, false);
    RemapCheck(dec, r.require, rho, a, c, b, d, false);
  }

  /** The submitted and trusted values of the two forms agree through the renaming. */
  ghost predicate SameInputs(c: Config, rho: map<string, string>, v: Values, v': Values, t: Values, t': Values)
    requires c.Keys <= rho.Keys
  {
    && (forall n | n in rho :: Mirrors(v, v', n, rho[n]))
    && (forall n | n in c :: Trusted(t, n) == Trusted(t', rho[n]))
  }

  function PullValues(rho: map<string, string>, v: Values, fin': Values): Values {
    map n | n in rho.Keys + v.Keys && (if n in rho then rho[n] in fin' else n in v)
      :: if n in rho then fin'[rho[n]] else v[n]
  }

  lemma PullSettled(c: Config, d: Config, rho: map<string, string>, v: Values, v': Values, t: Values, t': Values,
                    fin': Values, st: map<string, State>, st': map<string, State>, n: string)
    requires Renames(c, d, rho) && st.Keys == c.Keys && st'.Keys == d.Keys
    requires n in rho ==> Mirrors(v, v', n, rho[n]) && Settled(d, v', t', fin', st', rho[n])
    requires n in c ==> n in rho && rho[n] in d && st[n] == st'[rho[n]] && Trusted(t, n) == Trusted(t', rho[n])
    ensures Settled(c, v, t, PullValues(rho, v, fin'), st, n)
  {
    if n in rho && n !in c && rho[n] in d {
      assert false;
    }
  }

  lemma PullMirrors(rho: map<string, string>, v: Values, fin': Values)
    ensures SameValues(rho, PullValues(rho, v, fin'), fin')
  {}

  lemma PullDecided(dec: Decimal, c: Config, d: Config, rho: map<string, string>, v: Values,
                    v': Values, t': Values, fin': Values, st': map<string, State>, n: string)
    requires Renames(c, d, rho) && Solves(dec, d, v', t', fin', st') && n in c
    ensures rho[n] in st' && st'[rho[n]] == Decide(dec, c, n, PullValues(rho, v, fin'))
  {
    PullMirrors(rho, v, fin');
    RemapDecide(dec, c, d, rho, PullValues(rho, v, fin'), fin', n);
  }

  /** A solution of the renamed config, read back through the renaming, solves the original. */
  lemma PullSolution(dec: Decimal, c: Config, d: Config, rho: map<string, string>,
                     v: Values, v': Values, t: Values, t': Values,
                     fin: Values, st: map<string, State>, fin': Values, st': map<string, State>)
    requires Renames(c, d, rho) && SameInputs(c, rho, v, v', t, t')
    requires Solves(dec, d, v', t', fin', st')
    requires fin == PullValues(rho, v, fin')
    requires st.Keys == c.Keys && SameStates(c, rho, st, st')
    ensures Solves(dec, c, v, t, fin, st)
  {
    forall n | n in c ensures st[n] == Decide(dec, c, n, fin) {
      PullDecided(dec, c, d, rho, v, v', t', fin', st', n);
    }
    forall n ensures Settled(c, v, t, fin, st, n) {
      if n in rho {
        assert Mirrors(v, v', n, rho[n]);
        assert Settled(d, v', t', fin', st', rho[n]);
      }
      PullSettled(c, d, rho, v, v', t, t', fin', st, st', n);
    }
  }

  /** `st'` holds exactly the renamed fields, each in the state `st` gives the original. */
  ghost predicate SameStates(c: Config, rho: map<string, string>, st: map<string, State>, st': map<string, State>)
  {
    && c.Keys <= rho.Keys && st'.Keys == Image(c.Keys, rho)
    && forall k | k in c :: k in st && rho[k] in st' && st'[rho[k]] == st[k]
  }

  ghost predicate SameValues(rho: map<string, string>, fin: Values, fin': Values) {
    forall n | n in rho :: Mirrors(fin, fin', n, rho[n])
  }

  /**
    Mapping preserves meaning.  However either config happens to be ordered, the renamed
    config gives each renamed field exactly the state the original gives the field.
  */
  lemma RenamingPreservesStates(dec: Decimal, c: Config, d: Config, rho: map<string, string>,
                                v: Values, v': Values, t: Values, t': Values, o: seq<string>, o': seq<string>)
    requires Renames(c, d, rho) && SameInputs(c, rho, v, v', t, t')
    requires Ordered(c, o) && Ordered(d, o')
    ensures var (fin, st) := Settle(dec, c, v, t, o); var (fin', st') := Settle(dec, d, v', t', o');
      SameStates(c, rho, st, st') && SameValues(rho, fin, fin')
  {
    SettleSolves(dec, c, v, t, o);
    SettleSolves(dec, d, v', t', o');
    var (fin, st) := Settle(dec, c, v, t, o);
    var (fin', st') := Settle(dec, d, v', t', o');
    SolutionsCorrespond(dec, c, d, rho, v, v', t, t', o, fin, st, fin', st');
  }

  lemma SolutionsCorrespond(dec: Decimal, c: Config, d: Config, rho: map<string, string>,
                            v: Values, v': Values, t: Values, t': Values, o: seq<string>,
                            fin: Values, st: map<string, State>, fin': Values, st': map<string, State>)
    requires Renames(c, d, rho) && SameInputs(c, rho, v, v', t, t') && Ordered(c, o)
    requires Solves(dec, c, v, t, fin, st) && Solves(dec, d, v', t', fin', st')
    ensures SameStates(c, rho, st, st') && SameValues(rho, fin, fin')
  {
    PullUnique(dec, c, d, rho, v, v', t, t', o, fin, st, fin', st', PullStates(c, rho, st'));
    PullMirrors(rho, v, fin');
    PulledStatesAgree(c, d, rho, st');
  }

  function PullStates(c: Config, rho: map<string, string>, st': map<string, State>): map<string, State> {
    map n | n in c && n in rho && rho[n] in st' :: st'[rho[n]]
  }

  lemma PulledStatesAgree(c: Config, d: Config, rho: map<string, string>, st': map<string, State>)
    requires Renames(c, d, rho) && st'.Keys == d.Keys
    ensures SameStates(c, rho, PullStates(c, rho, st'), st')
    ensures PullStates(c, rho, st').Keys == c.Keys
  {
    RenamedKeys(c, d, rho);
  }

  lemma RenamedKeys(c: Config, d: Config, rho: map<string, string>)
    requires Renames(c, d, rho)
    ensures forall n | n in c :: rho[n] in d
  {}

  lemma PullUnique(dec: Decimal, c: Config, d: Config, rho: map<string, string>,
                   v: Values, v': Values, t: Values, t': Values, o: seq<string>,
                   fin: Values, st: map<string, State>, fin': Values, st': map<string, State>, pulled: map<string, State>)
    requires Renames(c, d, rho) && SameInputs(c, rho, v, v', t, t') && Ordered(c, o)
    requires Solves(dec, c, v, t, fin, st) && Solves(dec, d, v', t', fin', st')
    requires pulled == PullStates(c, rho, st')
    ensures fin == PullValues(rho, v, fin') && st == pulled
  {
    PulledStatesAgree(c, d, rho, st');
    PullSolution(dec, c, d, rho, v, v', t, t', PullValues(rho, v, fin'), pulled, fin', st');
    SolutionUnique(dec, c, v, t, o, fin, st, PullValues(rho, v, fin'), pulled);
  }

  lemma RemapRefs(t: Option<Node>, rho: map<string, string>)
    requires RefsOf(t) <= rho.Keys
    ensures RefsOf(RemapTree(t, rho)) == Image(RefsOf(t), rho)
  {
    if t.Some? { RemapReferences(t.value, rho); }
  }

  lemma ImageUnion(s: set<string>, t: set<string>, rho: map<string, string>)
    requires s <= rho.Keys && t <= rho.Keys
    ensures Image(s + t, rho) == Image(s, rho) + Image(t, rho)
  {}

  lemma RemapRuleRefs(r: Rules, rho: map<string, string>)
    requires RuleRefs(r) <= rho.Keys
    ensures RuleRefs(RemapRules(r, rho)) == Image(RuleRefs(r), rho)
  {
    RemapRefs(r.show, rho);
    RemapRefs(r.readonly, rho);
    RemapRefs(r.require, rho);
    ImageUnion(RefsOf(r.show), RefsOf(r.readonly), rho);
    ImageUnion(RefsOf(r.show) + RefsOf(r.readonly), RefsOf(r.require), rho);
  }

  lemma RenamedEdge(c: Config, d: Config, rho: map<string, string>, a: string, b: string)
    requires Renames(c, d, rho) && a in c && b in rho
    ensures rho[a] in d && (Edge(d, rho[a], rho[b]) <==> Edge(c, a, b))
  {
    assert RenamedItem(c[a], d, rho, a);
    RemapRuleRefs(c[a].rules, rho);
  }

  /** The mapped rules are cyclic exactly when the original ones are. */
  lemma RenamingPreservesCycles(c: Config, d: Config, rho: map<string, string>)
    requires Renames(c, d, rho)
    ensures Acyclic(d) <==> Acyclic(c)
  {
    if exists p :: Closed(c, p) {
      var p :| Closed(c, p);
      forall i | 0 <= i < |p| ensures p[i] in c {
        assert Edge(c, p[if i < |p| - 1 then i else 0], p[if i < |p| - 1 then i + 1 else 1]);
      }
      var q := seq(|p|, i requires 0 <= i < |p| => rho[p[i]]);
      forall i | 0 <= i < |q| - 1 ensures Edge(d, q[i], q[i + 1]) {
        assert Edge(c, p[i], p[i + 1]);
        RenamedEdge(c, d, rho, p[i], p[i + 1]);
      }
      assert Closed(d, q);
    }
    if exists q :: Closed(d, q) {
      var q :| Closed(d, q);
      forall i | 0 <= i < |q| ensures q[i] in d.Keys {
        assert Edge(d, q[if i < |q| - 1 then i else 0], q[if i < |q| - 1 then i + 1 else 1]);
      }
      var p := seq(|q|, i requires 0 <= i < |q| => Origin(c, d, rho, q[i]));
      forall i | 0 <= i < |p| - 1 ensures Edge(c, p[i], p[i + 1]) {
        assert Edge(d, q[i], q[i + 1]);
        RenamedEdge(c, d, rho, p[i], p[i + 1]);
      }
      assert Closed(c, p);
    }
  }

  ghost function Origin(c: Config, d: Config, rho: map<string, string>, m: string): (n: string)
    requires Renames(c, d, rho) && m in d
    ensures n in c && rho[n] == m
  {
    var n :| n in c && rho[n] == m;
    n
  }

  // ---------------------------------------------------------------- map_config

  /** The fields of the related table that point where the parent field points. */
  function Candidates(s: Schema, f: Field, parent: Field): seq<Field> {
    if f.related.Some? && f.related.value in s.tables then
      Matching(s.tables[f.related.value], parent.related)
    else []
  }

  function Matching(fs: seq<Field>, related: Option<int>): (r: seq<Field>)
    ensures forall f :: f in r <==> f in fs && f.dtype == "relation" && f.related == related
  {
    if fs == [] then []
    else (if fs[0].dtype == "relation" && fs[0].related == related then [fs[0]] else []) + Matching(fs[1..], related)
  }

  function Named(fs: seq<Field>, name: Option<string>): (r: seq<Field>)
    ensures forall f :: f in r <==> f in fs && Some(f.phys) == name
  {
    if fs == [] then []
    else (if Some(fs[0].phys) == name then [fs[0]] else []) + Named(fs[1..], name)
  }

  /** The dependent-dropdown match field: the designer's pick, else the same name, else the only one. */
  function ChooseFilter(candidates: seq<Field>, picked: Option<int>, name: Option<string>): (r: Result<int, Error>)
    ensures r.Ok? ==> exists f :: f in candidates && f.id == r.value
    ensures picked.Some? && r.Ok? ==> r.value == picked.value
  {
    var same := Named(candidates, name);
    if picked.Some? then
      if FindId(candidates, picked.value).Some? then Ok(picked.value) else Err(BadFilter)
    else if |same| == 1 then assert same[0] in same; Ok(same[0].id)
    else if |candidates| == 1 then assert candidates[0] in candidates; Ok(candidates[0].id)
    else Err(NoFilter)
  }

  function MapBody(s: Schema, b: Body, mapped: map<string, Field>, relations: map<nat, int>, filters: map<string, int>)
    : Result<Target, Error>
  {
    match b
    case SectionBody => Ok(SectionTarget)
    case RelationBody(r) => if r in relations then Ok(RelationTarget(relations[r])) else Err(MissingKey)
    case FieldBody(field, rules, parent, filter) =>
      if field !in mapped then Err(MissingKey)
      else if !(RuleRefs(rules) <= mapped.Keys) then Err(UnknownRuleField)
      else
        var renamed := RemapRules(rules, Names(mapped));
        if parent.None? then Ok(FieldTarget(mapped[field].id, renamed, None, None))
        else if parent.value !in mapped then Err(MissingKey)
        else
          var up := mapped[parent.value];
          var picked := if field in filters then Some(filters[field]) else None;
          var choice := ChooseFilter(Candidates(s, mapped[field], up), picked, filter);
          if choice.Ok? then Ok(FieldTarget(mapped[field].id, renamed, Some(up.id), Some(choice.value)))
          else Err(choice.error)
  }

  function Names(mapped: map<string, Field>): map<string, string> {
    map k | k in mapped :: mapped[k].phys
  }

  /** The two mapping arguments are acceptable for the template and the target table. */
  ghost predicate GoodMappings(s: Schema, t: Template, fields: map<string, int>, relations: map<nat, int>) {
    && t.version == 1
    && fields.Keys == t.fields.Keys && relations.Keys == t.relations
    && (forall k | k in fields :: var f := FindId(FieldsOf(s), fields[k]); f.Some? && Compatible(t.fields[k], f.value))
    && (forall a, b | a in fields && b in fields && fields[a] == fields[b] :: a == b)
    && (forall a, b | a in relations && b in relations && relations[a] == relations[b] :: a == b)
    && (forall r | r in relations :: GoodRelation(s, relations[r]))
  }

  predicate GoodRelation(s: Schema, id: int) {
    id in s.relations && s.relations[id].kind == "mn"
    && (s.relations[id].fromTable == s.tableId || s.relations[id].toTable == s.tableId)
  }

  function Resolve(s: Schema, fields: map<string, int>): map<string, Field> {
    map k | k in fields && FindId(FieldsOf(s), fields[k]).Some? :: FindId(FieldsOf(s), fields[k]).value
  }

  predicate Repeats<K(!new)>(m: map<K, int>) {
    exists a, b | a in m && b in m :: a != b && m[a] == m[b]
  }

  /** The field loop of `map_config`. */
  method MapFields(s: Schema, t: Template, fields: map<string, int>) returns (r: Result<map<string, Field>, Error>)
    requires fields.Keys == t.fields.Keys
    ensures r.Ok? <==> forall k | k in fields :: var f := FindId(FieldsOf(s), fields[k]); f.Some? && Compatible(t.fields[k], f.value)
    ensures r.Ok? ==> r.value == Resolve(s, fields)
  {
    var mapped: map<string, Field> := map[];
    var todo := t.fields.Keys;
    while todo != {}
      invariant todo <= t.fields.Keys
      invariant mapped.Keys == t.fields.Keys - todo
      invariant forall k | k in mapped ::
        FindId(FieldsOf(s), fields[k]) == Some(mapped[k]) && Compatible(t.fields[k], mapped[k])
      decreases todo
    {
      var k :| k in todo;
      var f := FindId(FieldsOf(s), fields[k]);
      if f.None? || !Compatible(t.fields[k], f.value) {
        return Err(IncompatibleField);
      }
      mapped := mapped[k := f.value];
      todo := todo - {k};
    }
    return Ok(mapped);
  }

  /** Each produced item is the image of the template's item in the same place. */
  ghost predicate ItemsMapped(s: Schema, t: Template, fields: map<string, int>, relations: map<nat, int>,
                              filters: map<string, int>, items: seq<FormItem>, n: nat)
    requires n <= |t.items| && |items| == n
  {
    forall i | 0 <= i < n ::
      items[i].look == t.items[i].look && items[i].required == t.items[i].required
      && items[i].readonly == t.items[i].readonly
      && MapBody(s, t.items[i].body, Resolve(s, fields), relations, filters) == Ok(items[i].body)
  }

  ghost predicate AllMappable(s: Schema, t: Template, fields: map<string, int>, relations: map<nat, int>,
                              filters: map<string, int>) {
    forall i | 0 <= i < |t.items| :: MapBody(s, t.items[i].body, Resolve(s, fields), relations, filters).Ok?
  }

  /** `map_config`, up to the call of `validate_config` on its result. */
  method MapConfig(s: Schema, t: Template, fields: map<string, int>, relations: map<nat, int>, filters: map<string, int>)
    returns (r: Result<seq<FormItem>, Error>)
    ensures r.Ok? <==> GoodMappings(s, t, fields, relations) && AllMappable(s, t, fields, relations, filters)
    ensures r.Ok? ==> |r.value| == |t.items| && ItemsMapped(s, t, fields, relations, filters, r.value, |t.items|)
  {
    if t.version != 1 {
      return Err(UnsupportedVersion);
    }
    if fields.Keys != t.fields.Keys || relations.Keys != t.relations {
      return Err(IncompleteMapping);
    }
    var resolved := MapFields(s, t, fields);
    if resolved.Err? {
      return Err(resolved.error);
    }
    if Repeats(fields) {
      return Err(RepeatedField);
    }
    if Repeats(relations) {
      return Err(RepeatedRelation);
    }
    if exists k | k in relations :: !GoodRelation(s, relations[k]) {
      return Err(BadRelation);
    }
    var items := [];
    for i := 0 to |t.items|
      invariant |items| == i
      invariant ItemsMapped(s, t, fields, relations, filters, items, i)
    {
      var source := t.items[i];
      var body := MapBody(s, source.body, resolved.value, relations, filters);
      if body.Err? {
        return Err(body.error);
      }
      items := items + [FormItem(source.look, source.required, source.readonly, body.value)];
    }
    return Ok(items);
  }

  // ---------------------------------------------------------------- rules of a layout

  /** Per-field facts `bind` reads off the record and the permissions. */
  datatype Flags = Flags(locked: bool, required: bool)

  /** The rule config `bind` builds from a captured layout, keyed by the template's names. */
  function SourceConfig(t: Template, flags: map<string, Flags>, n: nat): Config
    requires n <= |t.items|
    requires forall i | 0 <= i < |t.items| && t.items[i].body.FieldBody? ::
      t.items[i].body.field in t.fields && t.items[i].body.field in flags
  {
    if n == 0 then map[]
    else
      var c := SourceConfig(t, flags, n - 1);
      var b := t.items[n - 1].body;
      if !b.FieldBody? then c
      else c[b.field := Item(b.rules, t.fields[b.field].dtype, flags[b.field].locked, flags[b.field].required)]
  }

  /** The rule config `bind` builds from the target form's items, keyed by physical names. */
  function TargetConfig(s: Schema, items: seq<FormItem>, flags: map<string, Flags>, n: nat): Config
    requires n <= |items|
  {
    if n == 0 then map[]
    else
      var c := TargetConfig(s, items, flags, n - 1);
      var b := items[n - 1].body;
      if !b.FieldTarget? then c
      else
        var f := FindId(FieldsOf(s), b.fieldId);
        if f.None? || f.value.phys !in flags then c
        else
          var phys := f.value.phys;
          c[phys := Item(b.rules, f.value.dtype, flags[phys].locked, flags[phys].required)]
  }

  /** The mapping's names are pairwise different, because the ids are. */
  lemma NamesInjective(s: Schema, t: Template, fields: map<string, int>, relations: map<nat, int>)
    requires ValidSchema(s) && GoodMappings(s, t, fields, relations)
    ensures Injective(Names(Resolve(s, fields))) && Names(Resolve(s, fields)).Keys == t.fields.Keys
  {
    var fs := FieldsOf(s);
    forall a, b | a in fields && b in fields && Names(Resolve(s, fields))[a] == Names(Resolve(s, fields))[b] ensures a == b {
      var f, g := FindId(fs, fields[a]).value, FindId(fs, fields[b]).value;
      var i :| 0 <= i < |fs| && fs[i] == f;
      var j :| 0 <= j < |fs| && fs[j] == g;
      assert UniqueFields(fs);
      assert i == j;
    }
  }

  /** Every mapped field carries the same locked and required flags as the captured one. */
  ghost predicate SameFlags(rho: map<string, string>, flags: map<string, Flags>, flags': map<string, Flags>) {
    forall k | k in flags && k in rho :: rho[k] in flags' && flags'[rho[k]] == flags[k]
  }

  /** What `map_config` returns is the captured layout's rule config, renamed. */
  lemma {:induction false} MappedConfigRenames(s: Schema, t: Template, fields: map<string, int>, relations: map<nat, int>,
                            filters: map<string, int>, items: seq<FormItem>,
                            flags: map<string, Flags>, flags': map<string, Flags>, n: nat)
    requires ValidSchema(s) && GoodMappings(s, t, fields, relations) && |items| == |t.items| && n <= |items|
    requires ItemsMapped(s, t, fields, relations, filters, items, |items|)
    requires flags.Keys == t.fields.Keys && SameFlags(Names(Resolve(s, fields)), flags, flags')
    ensures forall i | 0 <= i < |t.items| && t.items[i].body.FieldBody? :: t.items[i].body.field in t.fields
    ensures Renames(SourceConfig(t, flags, n), TargetConfig(s, items, flags', n), Names(Resolve(s, fields)))
  {
    var rho := Names(Resolve(s, fields));
    NamesInjective(s, t, fields, relations);
    forall i | 0 <= i < |t.items| && t.items[i].body.FieldBody? ensures t.items[i].body.field in t.fields {
      assert MapBody(s, t.items[i].body, Resolve(s, fields), relations, filters) == Ok(items[i].body);
    }
    if n > 0 {
      MappedConfigRenames(s, t, fields, relations, filters, items, flags, flags', n - 1);
      assert MapBody(s, t.items[n - 1].body, Resolve(s, fields), relations, filters) == Ok(items[n - 1].body);
      if t.items[n - 1].body.FieldBody? {
        MappedStep(s, t, fields, relations, filters, items, flags, flags', n);
      }
    }
  }

  lemma MappedStep(s: Schema, t: Template, fields: map<string, int>, relations: map<nat, int>,
                   filters: map<string, int>, items: seq<FormItem>,
                   flags: map<string, Flags>, flags': map<string, Flags>, n: nat)
    requires GoodMappings(s, t, fields, relations) && |items| == |t.items| && 0 < n <= |items|
    requires flags.Keys == t.fields.Keys && SameFlags(Names(Resolve(s, fields)), flags, flags')
    requires forall i | 0 <= i < |t.items| && t.items[i].body.FieldBody? :: t.items[i].body.field in t.fields
    requires t.items[n - 1].body.FieldBody?
    requires MapBody(s, t.items[n - 1].body, Resolve(s, fields), relations, filters) == Ok(items[n - 1].body)
    requires Renames(SourceConfig(t, flags, n - 1), TargetConfig(s, items, flags', n - 1), Names(Resolve(s, fields)))
    ensures Renames(SourceConfig(t, flags, n), TargetConfig(s, items, flags', n), Names(Resolve(s, fields)))
  {
    var b := t.items[n - 1].body;
    var rho := Names(Resolve(s, fields));
    SameId(s, t, fields, relations, b.field);
    var item := Item(b.rules, t.fields[b.field].dtype, flags[b.field].locked, flags[b.field].required);
    var f := Resolve(s, fields)[b.field];
    assert items[n - 1].body.fieldId == f.id && items[n - 1].body.rules == RemapRules(b.rules, rho);
    ExtendRenames(SourceConfig(t, flags, n - 1), TargetConfig(s, items, flags', n - 1), rho, b.field, item);
  }

  lemma SameId(s: Schema, t: Template, fields: map<string, int>, relations: map<nat, int>, k: string)
    requires GoodMappings(s, t, fields, relations) && k in fields
    ensures var f := Resolve(s, fields)[k];
      FindId(FieldsOf(s), f.id) == Some(f) && f.dtype == t.fields[k].dtype
  {}

  lemma ExtendRenames(c: Config, d: Config, rho: map<string, string>, n: string, item: Item)
    requires Renames(c, d, rho) && n in rho && RuleRefs(item.rules) <= rho.Keys
    ensures Renames(c[n := item], d[rho[n] := item.(rules := RemapRules(item.rules, rho))], rho)
  {
    var c', d' := c[n := item], d[rho[n] := item.(rules := RemapRules(item.rules, rho))];
    assert d'.Keys == Image(c'.Keys, rho);
    forall m | m in c' ensures RenamedItem(c'[m], d', rho, m) {
      if m != n {
        assert RenamedItem(c[m], d, rho, m);
      }
    }
  }

  /**
    The whole story of a mapped template: whenever `map_config` accepts it, its rules on
    the target table give every field the state the captured rules gave it, for all
    submitted values, and are rejected as cyclic exactly when the captured ones are.
  */
  lemma MappedTemplateMeansTheSame(dec: Decimal, s: Schema, t: Template, fields: map<string, int>,
                                   relations: map<nat, int>, filters: map<string, int>, items: seq<FormItem>,
                                   flags: map<string, Flags>, flags': map<string, Flags>,
                                   v: Values, v': Values, tr: Values, tr': Values, o: seq<string>, o': seq<string>)
    requires ValidSchema(s) && GoodMappings(s, t, fields, relations) && |items| == |t.items|
    requires ItemsMapped(s, t, fields, relations, filters, items, |items|)
    requires flags.Keys == t.fields.Keys && SameFlags(Names(Resolve(s, fields)), flags, flags')
    requires forall k | k in t.fields :: var m := Names(Resolve(s, fields))[k];
      Mirrors(v, v', k, m) && Trusted(tr, k) == Trusted(tr', m)
    ensures forall i | 0 <= i < |t.items| && t.items[i].body.FieldBody? :: t.items[i].body.field in t.fields
    ensures
      var c, d := SourceConfig(t, flags, |items|), TargetConfig(s, items, flags', |items|);
      var rho := Names(Resolve(s, fields));
      && c.Keys <= rho.Keys
      && (Acyclic(d) <==> Acyclic(c))
      && (Ordered(c, o) && Ordered(d, o') ==>
            SameStates(c, rho, Settle(dec, c, v, tr, o).1, Settle(dec, d, v', tr', o').1))
  {
    MappedConfigRenames(s, t, fields, relations, filters, items, flags, flags', |items|);
    var c, d := SourceConfig(t, flags, |items|), TargetConfig(s, items, flags', |items|);
    var rho := Names(Resolve(s, fields));
    NamesInjective(s, t, fields, relations);
    RenamingPreservesCycles(c, d, rho);
    if Ordered(c, o) && Ordered(d, o') {
      RenamingPreservesStates(dec, c, d, rho, v, v', tr, tr', o, o');
    }
  }

  // ---------------------------------------------------------------- capture

  function CaptureSpec(f: Field): Spec {
    Spec(f.dtype, if f.dtype == "enum" then f.choices else {})
  }

  function FilterName(s: Schema, f: Field, filter: Option<int>): Option<string> {
    if filter.Some? && f.related.Some? && f.related.value in s.tables then
      var hit := FindId(s.tables[f.related.value], filter.value);
      if hit.Some? then Some(hit.value.phys) else None
    else None
  }

  /** One item of `capture`; `k` is the number of relationship items before it. */
  function CaptureBody(s: Schema, b: Target, k: nat): Result<Body, Error> {
    match b
    case SectionTarget => Ok(SectionBody)
    case RelationTarget(_) => Ok(RelationBody(k))
    case FieldTarget(fieldId, rules, parentId, filterId) =>
      var f := FindId(FieldsOf(s), fieldId);
      if f.None? then Err(MissingKey)
      else if parentId.None? then Ok(FieldBody(f.value.phys, rules, None, None))
      else
        var up := FindId(FieldsOf(s), parentId.value);
        if up.None? then Err(LostParent)
        else Ok(FieldBody(f.value.phys, rules, Some(up.value.phys), FilterName(s, f.value, filterId)))
  }

  /** The relationship ids of the first `n` items, in item order. */
  function RelationIds(items: seq<FormItem>, n: nat): seq<int>
    requires n <= |items|
  {
    if n == 0 then []
    else RelationIds(items, n - 1) + (if items[n - 1].body.RelationTarget? then [items[n - 1].body.relationId] else [])
  }

  /** The physical names of the fields on the form, with their ids. */
  function FieldIds(s: Schema, items: seq<FormItem>, n: nat): map<string, int>
    requires n <= |items|
  {
    if n == 0 then map[]
    else
      var m := FieldIds(s, items, n - 1);
      var b := items[n - 1].body;
      if b.FieldTarget? && FindId(FieldsOf(s), b.fieldId).Some? then
        m[FindId(FieldsOf(s), b.fieldId).value.phys := b.fieldId]
      else m
  }

  ghost predicate SpecsUpTo(s: Schema, items: seq<FormItem>, specs: map<string, Spec>, n: nat)
    requires n <= |items|
  {
    var ids := FieldIds(s, items, n);
    && specs.Keys == ids.Keys
    && forall k | k in ids :: var f := FindId(FieldsOf(s), ids[k]); f.Some? && specs[k] == CaptureSpec(f.value)
  }

  /** `t` is the layout `capture` makes of the form's items. */
  ghost predicate Captures(s: Schema, items: seq<FormItem>, t: Template) {
    && t.version == 1 && |t.items| == |items|
    && SpecsUpTo(s, items, t.fields, |items|)
    && t.relations == KeysBelow(|RelationIds(items, |items|)|)
    && RowsUpTo(s, items, t.items, |items|)
  }

  function KeysBelow(n: nat): (r: set<nat>)
    ensures forall k: nat :: k in r <==> k < n
  {
    if n == 0 then {} else KeysBelow(n - 1) + {n - 1}
  }

  ghost predicate RowsUpTo(s: Schema, items: seq<FormItem>, rows: seq<Source>, n: nat)
    requires n <= |items|
  {
    |rows| == n && forall i | 0 <= i < n :: CapturedAt(s, items, rows, i)
  }

  ghost predicate CapturedAt(s: Schema, items: seq<FormItem>, rows: seq<Source>, i: nat)
    requires i < |rows| <= |items|
  {
    && rows[i].look == items[i].look && rows[i].required == items[i].required
    && rows[i].readonly == items[i].readonly
    && CaptureBody(s, items[i].body, |RelationIds(items, i)|) == Ok(rows[i].body)
  }

  /** `capture`, after `validate_config` has accepted the items. */
  method Capture(s: Schema, items: seq<FormItem>) returns (r: Result<Template, Error>)
    ensures r.Ok? <==> forall i | 0 <= i < |items| :: CaptureBody(s, items[i].body, |RelationIds(items, i)|).Ok?
    ensures r.Ok? ==> Captures(s, items, r.value)
  {
    var specs: map<string, Spec> := map[];
    var relations: set<nat> := {};
    var next: nat := 0;
    var rows: seq<Source> := [];
    for i := 0 to |items|
      invariant next == |RelationIds(items, i)| && relations == KeysBelow(next)
      invariant SpecsUpTo(s, items, specs, i)
      invariant RowsUpTo(s, items, rows, i)
    {
      assert forall j | 0 <= j < i :: CapturedAt(s, items, rows, j);
      var item := items[i];
      var body := CaptureBody(s, item.body, next);
      if body.Err? {
        return Err(body.error);
      }
      if item.body.FieldTarget? {
        var f := FindId(FieldsOf(s), item.body.fieldId).value;
        specs := specs[f.phys := CaptureSpec(f)];
      }
      if item.body.RelationTarget? {
        relations := relations + {next};
        next := next + 1;
      }
      ghost var before := rows;
      rows := rows + [Source(item.look, item.required, item.readonly, body.value)];
      forall j | 0 <= j < i + 1 ensures CapturedAt(s, items, rows, j) {
        if j < i { assert CapturedAt(s, items, before, j); }
      }
    }
    forall j | 0 <= j < |items| ensures CaptureBody(s, items[j].body, |RelationIds(items, j)|).Ok? {
      assert CapturedAt(s, items, rows, j);
    }
    return Ok(Template(1, specs, relations, rows));
  }

  lemma {:induction false} FieldIdsResolve(s: Schema, items: seq<FormItem>, n: nat)
    requires n <= |items|
    ensures forall k | k in FieldIds(s, items, n) ::
      var f := FindId(FieldsOf(s), FieldIds(s, items, n)[k]); f.Some? && f.value.phys == k
  {
    if n > 0 { FieldIdsResolve(s, items, n - 1); }
  }

  lemma {:induction false} FieldIdsCover(s: Schema, items: seq<FormItem>, i: nat, n: nat)
    requires i < n <= |items| && items[i].body.FieldTarget?
    requires FindId(FieldsOf(s), items[i].body.fieldId).Some?
    ensures FindId(FieldsOf(s), items[i].body.fieldId).value.phys in FieldIds(s, items, n)
    decreases n
  {
    if i < n - 1 { FieldIdsCover(s, items, i, n - 1); }
  }

  lemma {:induction false} RelationIdsPrefix(items: seq<FormItem>, i: nat, n: nat)
    requires i <= n <= |items|
    ensures RelationIds(items, i) <= RelationIds(items, n)
    decreases n
  {
    if i < n { RelationIdsPrefix(items, i, n - 1); }
  }

  lemma {:induction false} RemapIdentity(n: Node, rho: map<string, string>)
    requires References(n) <= rho.Keys && forall f | f in References(n) :: rho[f] == f
    ensures Remap(n, rho) == n
  {
    if !n.Cond? {
      var cs, ds := n.children, Remap(n, rho).children;
      forall i | 0 <= i < |cs| ensures ds[i] == cs[i] {
        ChildRefs(n, i);
        RemapIdentity(cs[i], rho);
      }
      assert cs == ds;
    }
  }

  lemma RemapRulesIdentity(r: Rules, rho: map<string, string>)
    requires RuleRefs(r) <= rho.Keys && forall f | f in RuleRefs(r) :: rho[f] == f
    ensures RemapRules(r, rho) == r
  {
    if r.show.Some? { RemapIdentity(r.show.value, rho); }
    if r.readonly.Some? { RemapIdentity(r.readonly.value, rho); }
    if r.require.Some? { RemapIdentity(r.require.value, rho); }
  }

  lemma {:induction false} MatchingUnique(fs: seq<Field>, related: Option<int>)
    requires UniqueFields(fs)
    ensures UniqueFields(Matching(fs, related))
  {
    if fs != [] {
      MatchingUnique(fs[1..], related);
      var rest := Matching(fs[1..], related);
      forall f | f in rest ensures f.id != fs[0].id && f.phys != fs[0].phys {
        var i :| 0 <= i < |fs[1..]| && fs[1..][i] == f;
        assert fs[i + 1] == f;
      }
    }
  }

  lemma {:induction false} NamedOnce(fs: seq<Field>, f: Field)
    requires UniqueFields(fs) && f in fs
    ensures Named(fs, Some(f.phys)) == [f]
  {
    var rest := Named(fs[1..], Some(f.phys));
    assert |rest| > 0 ==> rest[0] in rest;
    if fs[0].phys == f.phys {
      assert fs[0] == f;
      forall j | 0 <= j < |fs[1..]| ensures fs[1..][j].phys != f.phys {
        assert fs[1..][j] == fs[j + 1];
      }
      assert forall g | g in rest :: g in fs[1..] && g.phys == f.phys;
    } else {
      NamedOnce(fs[1..], f);
    }
  }

  /** The references of a captured item lead somewhere on this form and schema. */
  ghost predicate SoundBody(s: Schema, b: Target, names: map<string, int>) {
    match b
    case SectionTarget => true
    case RelationTarget(id) => GoodRelation(s, id)
    case FieldTarget(fieldId, rules, parentId, filterId) =>
      && FindId(FieldsOf(s), fieldId).Some?
      && RuleRefs(rules) <= names.Keys
      && (parentId.Some? <==> filterId.Some?)
      && (parentId.Some? ==>
            var up := FindId(FieldsOf(s), parentId.value);
            && up.Some? && up.value.phys in names
            && exists f | f in Candidates(s, FindId(FieldsOf(s), fieldId).value, up.value) :: f.id == filterId.value)
  }

  lemma TableUnique(s: Schema, id: int)
    requires ValidSchema(s) && id in s.tables
    ensures UniqueFields(s.tables[id])
  {}

  lemma FilterRoundTrip(s: Schema, f: Field, up: Field, filter: int)
    requires ValidSchema(s)
    requires exists g | g in Candidates(s, f, up) :: g.id == filter
    ensures ChooseFilter(Candidates(s, f, up), None, FilterName(s, f, Some(filter))) == Ok(filter)
  {
    var g :| g in Candidates(s, f, up) && g.id == filter;
    var fs := s.tables[f.related.value];
    TableUnique(s, f.related.value);
    var hit := FindId(fs, filter).value;
    var i :| 0 <= i < |fs| && fs[i] == g;
    var j :| 0 <= j < |fs| && fs[j] == hit;
    assert i == j;
    MatchingUnique(fs, up.related);
    NamedOnce(Candidates(s, f, up), g);
  }

  lemma BodyRoundTrip(s: Schema, items: seq<FormItem>, t: Template, relations: map<nat, int>, i: nat)
    requires ValidSchema(s) && Captures(s, items, t) && i < |items|
    requires SoundBody(s, items[i].body, FieldIds(s, items, |items|))
    requires forall k: nat | k < |RelationIds(items, |items|)| :: k in relations && relations[k] == RelationIds(items, |items|)[k]
    ensures MapBody(s, t.items[i].body, Resolve(s, FieldIds(s, items, |items|)), relations, map[]) == Ok(items[i].body)
  {
    var ids := FieldIds(s, items, |items|);
    FieldIdsResolve(s, items, |items|);
    assert CapturedAt(s, items, t.items, i);
    match items[i].body
    case SectionTarget =>
    case RelationTarget(id) =>
      RelationIdsPrefix(items, i + 1, |items|);
      var k := |RelationIds(items, i)|;
      assert RelationIds(items, i + 1)[k] == id;
    case FieldTarget(fieldId, rules, parentId, filterId) =>
      FieldIdsCover(s, items, i, |items|);
      var f := FindId(FieldsOf(s), fieldId).value;
      SameField(s, fieldId, ids[f.phys]);
      RemapRulesIdentity(rules, Names(Resolve(s, ids)));
      if parentId.Some? {
        var up := FindId(FieldsOf(s), parentId.value).value;
        SameField(s, parentId.value, ids[up.phys]);
        FilterRoundTrip(s, f, up, filterId.value);
      }
  }

  lemma SameField(s: Schema, a: int, b: int)
    requires ValidSchema(s) && FindId(FieldsOf(s), a).Some? && FindId(FieldsOf(s), b).Some?
    requires FindId(FieldsOf(s), a).value.phys == FindId(FieldsOf(s), b).value.phys
    ensures a == b
  {
    var fs := FieldsOf(s);
    assert UniqueFields(fs);
    var i :| 0 <= i < |fs| && fs[i] == FindId(fs, a).value;
    var j :| 0 <= j < |fs| && fs[j] == FindId(fs, b).value;
    assert i == j;
  }

  /**
    Capturing a form and mapping the layout back onto the same table, every name to
    itself and no match field picked by hand, reproduces the form's items exactly.
  */
  lemma CaptureRoundTrip(s: Schema, items: seq<FormItem>, t: Template, relations: map<nat, int>)
    requires ValidSchema(s) && Captures(s, items, t)
    requires forall i | 0 <= i < |items| :: SoundBody(s, items[i].body, FieldIds(s, items, |items|))
    requires var ids := RelationIds(items, |items|);
      Distinct(ids) && relations.Keys == KeysBelow(|ids|) && forall k | k in relations :: relations[k] == ids[k]
    ensures GoodMappings(s, t, FieldIds(s, items, |items|), relations)
    ensures ItemsMapped(s, t, FieldIds(s, items, |items|), relations, map[], items, |items|)
  {
    var ids := FieldIds(s, items, |items|);
    FieldIdsResolve(s, items, |items|);
    forall r | r in relations ensures GoodRelation(s, relations[r]) {
      RelationIdsGood(s, items, |items|, r);
    }
    forall i | 0 <= i < |items|
      ensures MapBody(s, t.items[i].body, Resolve(s, ids), relations, map[]) == Ok(items[i].body)
        && items[i].look == t.items[i].look && items[i].required == t.items[i].required
        && items[i].readonly == t.items[i].readonly {
      BodyRoundTrip(s, items, t, relations, i);
      assert CapturedAt(s, items, t.items, i);
    }
  }

  lemma {:induction false} RelationIdsGood(s: Schema, items: seq<FormItem>, n: nat, k: nat)
    requires n <= |items| && k < |RelationIds(items, n)|
    requires forall i | 0 <= i < n && items[i].body.RelationTarget? :: GoodRelation(s, items[i].body.relationId)
    ensures GoodRelation(s, RelationIds(items, n)[k])
  {
    if k < |RelationIds(items, n - 1)| { RelationIdsGood(s, items, n - 1, k); }
  }
}
