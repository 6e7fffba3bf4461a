/**
  What a mapped layout consists of (app/form_templates.py): which target field, match field
  or relationship each item gets, and which mappings are accepted, told by the fields of
  the schema themselves.
*/
module TemplateMeaning {
  import opened Wrappers
  import opened FormRules
  import opened FormTemplates

  /** A field of the related table that points to the table the parent field points to. */
  ghost predicate Candidate(s: Schema, f: Field, up: Field, g: Field) {
    f.related.Some? && f.related.value in s.tables && g in s.tables[f.related.value] && g.dtype == "relation" && g.related == up.related
  }

  lemma {:induction false} FoundIff(fs: seq<Field>, id: int)
    ensures FindId(fs, id).Some? <==> exists f :: f in fs && f.id == id
  {}

  lemma FoundIs(fs: seq<Field>, f: Field)
    requires UniqueFields(fs) && f in fs
    ensures FindId(fs, f.id) == Some(f)
  {
    var g := FindId(fs, f.id).value;
    var i :| 0 <= i < |fs| && fs[i] == f;
    var j :| 0 <= j < |fs| && fs[j] == g;
    assert i == j;
  }

  lemma CandidatesAre(s: Schema, f: Field, up: Field)
    requires ValidSchema(s)
    ensures UniqueFields(Candidates(s, f, up)) && forall g :: g in Candidates(s, f, up) <==> Candidate(s, f, up, g)
  {
    if f.related.Some? && f.related.value in s.tables {
      TableUnique(s, f.related.value);
      MatchingUnique(s.tables[f.related.value], up.related);
    }
  }

  /** The designer's pick, if it is a candidate; without a pick the candidate of the captured name; without one, the only candidate. */
  ghost predicate IsMatch(s: Schema, f: Field, up: Field, picked: Option<int>, name: Option<string>, g: Field) {
    && Candidate(s, f, up, g)
    && (picked.Some? ==> picked.value == g.id)
    && (picked.None? ==> name == Some(g.phys) || forall h :: Candidate(s, f, up, h) ==> name != Some(h.phys) && h == g)
  }

  lemma PickIs(s: Schema, f: Field, up: Field, picked: Option<int>, name: Option<string>, g: Field)
    requires ValidSchema(s)
    ensures IsMatch(s, f, up, picked, name, g) ==> ChooseFilter(Candidates(s, f, up), picked, name) == Ok(g.id)
  {
    var cs := Candidates(s, f, up);
    CandidatesAre(s, f, up);
    if IsMatch(s, f, up, picked, name, g) {
      if picked.Some? {
        FoundIff(cs, picked.value);
      } else if name == Some(g.phys) {
        NamedOnce(cs, g);
      } else {
        SomeNamed(cs, name);
        OnlyOne(cs, g);
      }
    }
  }

  lemma SomeNamed(cs: seq<Field>, name: Option<string>)
    ensures Named(cs, name) != [] ==> exists h :: h in cs && name == Some(h.phys)
  {
    var same := Named(cs, name);
    if same != [] { assert same[0] in same; }
  }

  lemma TwoDiffer(cs: seq<Field>)
    requires UniqueFields(cs) && |cs| > 1
    ensures cs[0] in cs && cs[1] in cs && cs[0] != cs[1]
  {}

  lemma OnlyOne(cs: seq<Field>, g: Field)
    requires UniqueFields(cs) && g in cs && forall h | h in cs :: h == g
    ensures cs == [g]
  {
    if |cs| > 1 { TwoDiffer(cs); }
  }

  /** A match field is found exactly when there is one by these rules. */
  lemma PickIff(s: Schema, f: Field, up: Field, picked: Option<int>, name: Option<string>)
    requires ValidSchema(s)
    ensures ChooseFilter(Candidates(s, f, up), picked, name).Ok? <==> exists g :: IsMatch(s, f, up, picked, name, g)
  {
    var cs := Candidates(s, f, up);
    CandidatesAre(s, f, up);
    if g :| IsMatch(s, f, up, picked, name, g) { PickIs(s, f, up, picked, name, g); }
    if ChooseFilter(cs, picked, name).Ok? {
      if picked.Some? {
        var g := FindId(cs, picked.value).value;
        assert IsMatch(s, f, up, picked, name, g);
      } else {
        var same := Named(cs, name);
        if |same| == 1 {
          assert same[0] in same;
          assert IsMatch(s, f, up, picked, name, same[0]);
        } else {
          assert cs[0] in cs;
          assert name != Some(cs[0].phys) by {
            if name == Some(cs[0].phys) { NamedOnce(cs, cs[0]); }
          }
          assert IsMatch(s, f, up, picked, name, cs[0]);
        }
      }
    }
  }

  // ---------------------------------------------------------------- the items

  /** Template key `k` stands for field `f` of the target table. */
  ghost predicate Chosen(s: Schema, fields: map<string, int>, k: string, f: Field) {
    k in fields && f in FieldsOf(s) && f.id == fields[k]
  }

  lemma ResolvedIs(s: Schema, fields: map<string, int>, k: string)
    requires ValidSchema(s)
    ensures k in Resolve(s, fields) <==> exists f :: Chosen(s, fields, k, f)
    ensures forall f | Chosen(s, fields, k, f) :: k in Resolve(s, fields) && Resolve(s, fields)[k] == f
  {
    if s.tableId in s.tables { TableUnique(s, s.tableId); }
    forall f | Chosen(s, fields, k, f) ensures k in Resolve(s, fields) && Resolve(s, fields)[k] == f {
      FoundIs(FieldsOf(s), f);
    }
    if k in Resolve(s, fields) { assert Chosen(s, fields, k, Resolve(s, fields)[k]); }
  }

  /** What an item of the layout becomes: its own field, parent and match field, or its relationship, under the mapping. */
  ghost predicate Becomes(s: Schema, fields: map<string, int>, relations: map<nat, int>, filters: map<string, int>, b: Body, x: Target) {
    match b
    case SectionBody => x.SectionTarget?
    case RelationBody(r) => r in relations && x == RelationTarget(relations[r])
    case FieldBody(key, rules, parent, name) =>
      && x.FieldTarget? && (exists f :: Chosen(s, fields, key, f) && x.fieldId == f.id)
      && match parent
         case None => x.parentId == None && x.filterId == None
         case Some(p) => exists f, up, g :: HasMatch(s, fields, filters, key, f, p, up, name, g, x)
  }

  ghost predicate HasMatch(s: Schema, fields: map<string, int>, filters: map<string, int>, key: string, f: Field,
                           p: string, up: Field, name: Option<string>, g: Field, x: Target) {
    Matched(s, fields, filters, key, f, p, up, name, g) && x.FieldTarget? && x.parentId == Some(up.id) && x.filterId == Some(g.id)
  }

  ghost predicate Matched(s: Schema, fields: map<string, int>, filters: map<string, int>, key: string, f: Field,
                          p: string, up: Field, name: Option<string>, g: Field) {
    && Chosen(s, fields, key, f) && Chosen(s, fields, p, up)
    && IsMatch(s, f, up, if key in filters then Some(filters[key]) else None, name, g)
  }

  /** What `map_config` makes of one item is what the mapping says. */
  lemma MappedBecomes(s: Schema, fields: map<string, int>, relations: map<nat, int>, filters: map<string, int>, b: Body, x: Target)
    requires ValidSchema(s) && MapBody(s, b, Resolve(s, fields), relations, filters) == Ok(x)
    ensures Becomes(s, fields, relations, filters, b, x)
  {
    if b.FieldBody? {
      ResolvedIs(s, fields, b.field);
      var f := Resolve(s, fields)[b.field];
      assert Chosen(s, fields, b.field, f);
      if b.parent.Some? {
        ResolvedIs(s, fields, b.parent.value);
        var up := Resolve(s, fields)[b.parent.value];
        assert Chosen(s, fields, b.parent.value, up);
        var picked := if b.field in filters then Some(filters[b.field]) else None;
        PickIff(s, f, up, picked, b.filter);
        var g :| IsMatch(s, f, up, picked, b.filter, g);
        PickIs(s, f, up, picked, b.filter, g);
        assert HasMatch(s, fields, filters, b.field, f, b.parent.value, up, b.filter, g, x);
      }
    }
  }

  /** An item can be mapped exactly when its keys are mapped, its conditions read mapped fields, and a match field is found where it needs one. */
  lemma MappableIff(s: Schema, fields: map<string, int>, relations: map<nat, int>, filters: map<string, int>, b: Body)
    requires ValidSchema(s)
    ensures MapBody(s, b, Resolve(s, fields), relations, filters).Ok? <==>
      (b.RelationBody? ==> b.relation in relations)
      && (b.FieldBody? ==>
            && (exists f :: Chosen(s, fields, b.field, f))
            && (forall k | k in RuleRefs(b.rules) :: exists f :: Chosen(s, fields, k, f))
            && (b.parent.Some? ==> exists f, up, g :: Matched(s, fields, filters, b.field, f, b.parent.value, up, b.filter, g)))
  {
    if b.FieldBody? {
      ResolvedIs(s, fields, b.field);
      forall k ensures k in Resolve(s, fields) <==> exists f :: Chosen(s, fields, k, f) { ResolvedIs(s, fields, k); }
      if b.parent.Some? {
        ResolvedIs(s, fields, b.parent.value);
        if b.field in Resolve(s, fields) && b.parent.value in Resolve(s, fields) {
          var f, up := Resolve(s, fields)[b.field], Resolve(s, fields)[b.parent.value];
          assert Chosen(s, fields, b.field, f) && Chosen(s, fields, b.parent.value, up);
          var picked := if b.field in filters then Some(filters[b.field]) else None;
          PickIff(s, f, up, picked, b.filter);
          if g :| IsMatch(s, f, up, picked, b.filter, g) {
            assert Matched(s, fields, filters, b.field, f, b.parent.value, up, b.filter, g);
          }
        }
      }
    }
  }

  /** A captured field can be mapped onto a field of the same type that has all its choices, if it is an enum, and onto no other. */
  lemma CapturedFits(f: Field, g: Field)
    ensures Compatible(CaptureSpec(f), g) <==> f.dtype == g.dtype && (f.dtype == "enum" ==> forall c | c in f.choices :: c in g.choices)
  {}

  /** Template key `k` is mapped to a field of its type that has all its choices, if it is an enum. */
  ghost predicate FieldFits(s: Schema, t: Template, fields: map<string, int>, k: string) {
    k in t.fields && exists f :: Chosen(s, fields, k, f) && SameKind(t.fields[k], f)
  }

  ghost predicate SameKind(spec: Spec, f: Field) {
    spec.dtype == f.dtype && (f.dtype == "enum" ==> forall c | c in spec.choices :: c in f.choices)
  }

  lemma FieldFitsIff(s: Schema, t: Template, fields: map<string, int>, k: string)
    requires ValidSchema(s) && k in fields && k in t.fields
    ensures FieldFits(s, t, fields, k) <==> var f := FindId(FieldsOf(s), fields[k]); f.Some? && Compatible(t.fields[k], f.value)
  {
    ResolvedIs(s, fields, k);
    var f := FindId(FieldsOf(s), fields[k]);
    if f.Some? { assert Chosen(s, fields, k, f.value); }
  }

  /** The relationship is many-to-many and has the table at one end. */
  ghost predicate RelationFits(s: Schema, id: int) {
    id in s.relations && s.relations[id].kind == "mn" && s.tableId in {s.relations[id].fromTable, s.relations[id].toTable}
  }

  /** The two mappings: every key once, to different compatible fields and different many-to-many relationships of the table. */
  lemma GoodMappingsIff(s: Schema, t: Template, fields: map<string, int>, relations: map<nat, int>)
    requires ValidSchema(s)
    ensures GoodMappings(s, t, fields, relations) <==>
      && t.version == 1 && fields.Keys == t.fields.Keys && relations.Keys == t.relations
      && (forall k | k in fields :: FieldFits(s, t, fields, k))
      && (forall a, b | a in fields && b in fields && a != b :: fields[a] != fields[b])
      && (forall a, b | a in relations && b in relations && a != b :: relations[a] != relations[b])
      && (forall r | r in relations :: RelationFits(s, relations[r]))
  {
    forall k | k in fields && k in t.fields
      ensures FieldFits(s, t, fields, k) <==> var f := FindId(FieldsOf(s), fields[k]); f.Some? && Compatible(t.fields[k], f.value) {
      FieldFitsIff(s, t, fields, k);
    }
    forall r | r in relations ensures RelationFits(s, relations[r]) <==> GoodRelation(s, relations[r]) {}
  }
}
