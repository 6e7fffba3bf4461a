/**
  Stored formula columns (app/formula.py): formula columns hold computed values, and a
  write ripples one level, to the parents the row points at and the children that point at
  it, until an evaluation raises.

  A table is the sequence of its rows.  A formula combines plain and earlier formula
  columns of its row with cross-table parts: rollups over an incoming M:1 relation and
  lookups through an own one.
*/
module Rollups {
  import opened Wrappers
  import opened ForeignKeys

  datatype Cell = Null | Num(r: real) | Ref(id: int) | Text(s: string)

  datatype Op = Count | Sum | Avg | Min | Max

  /** What a formula reads. */
  datatype Part =
    | Own(name: string)
    | Rollup(child: string, fk: string, op: Op, col: Option<string>)
    | Lookup(link: string, parent: string, target: string)

  datatype Kind = Plain | Relation(table: string) | Computed(formula: string, parts: seq<Part>)

  datatype Field = Field(name: string, kind: Kind)

  type Cells = map<string, Cell>

  datatype Rec = Rec(pk: int, cells: Cells)

  /**
    The tables, the M:1 relations (child table and column) in store order, the relation
    columns that cannot be empty, what the database does to each when its target is
    deleted, and what each formula makes of its parts: a value (NULL for a FormulaError),
    or None when it raises anything else.
  */
  datatype Schema = Schema(tables: map<string, seq<Field>>, relations: seq<(string, string)>, required: set<(string, string)>,
                           onDelete: (string, string) -> Action, combine: (string, seq<Cell>) -> Option<Cell>)

  type Db = map<string, seq<Rec>>

  predicate Formula(f: Field) {
    f.kind.Computed?
  }

  predicate IsFormula(u: Schema, t: string, col: string) {
    t in u.tables && exists f | f in u.tables[t] :: f.name == col && Formula(f)
  }

  function Get(cells: Cells, col: string): Cell {
    if col in cells then cells[col] else Null
  }

  // ---------------------------------------------------------------- aggregates

  function Total(cells: seq<Cell>): real {
    if cells == [] then 0.0 else (if cells[0].Num? then cells[0].r else 0.0) + Total(cells[1..])
  }

  function Numbers(cells: seq<Cell>): seq<real> {
    if cells == [] then [] else (if cells[0].Num? then [cells[0].r] else []) + Numbers(cells[1..])
  }

  function Present(cells: seq<Cell>): nat {
    if cells == [] then 0 else (if cells[0] != Null then 1 else 0) + Present(cells[1..])
  }

  function Least(rs: seq<real>): real
    requires rs != []
  {
    if |rs| == 1 then rs[0] else var m := Least(rs[1..]); if rs[0] < m then rs[0] else m
  }

  function Greatest(rs: seq<real>): real
    requires rs != []
  {
    if |rs| == 1 then rs[0] else var m := Greatest(rs[1..]); if rs[0] > m then rs[0] else m
  }

  /** `aggregate_value` over the selected cells: NULL when there is nothing to aggregate. */
  function Aggregate(op: Op, cells: seq<Cell>): Cell {
    var ns := Numbers(cells);
    match op
    case Count => Num(Present(cells) as real)
    case Sum => if ns == [] then Null else Num(Total(cells))
    case Avg => if ns == [] then Null else Num(Total(cells) / |ns| as real)
    case Min => if ns == [] then Null else Num(Least(ns))
    case Max => if ns == [] then Null else Num(Greatest(ns))
  }

  /** The cells a rollup selects: `col` (the key itself when no column is named) of the rows whose `fk` is `pk`. */
  function Values(rows: seq<Rec>, fk: string, pk: int, col: Option<string>): seq<Cell> {
    if rows == [] then [] else Selected(rows[0], fk, pk, col) + Values(rows[1..], fk, pk, col)
  }

  function Selected(r: Rec, fk: string, pk: int, col: Option<string>): seq<Cell> {
    if Get(r.cells, fk) != Ref(pk) then [] else [if col.Some? then Get(r.cells, col.value) else Ref(r.pk)]
  }

  function Find(rows: seq<Rec>, pk: int): (r: Option<nat>)
    ensures r.Some? ==> r.value < |rows| && rows[r.value].pk == pk
    ensures r.None? ==> forall i | 0 <= i < |rows| :: rows[i].pk != pk
  {
    if rows == [] then None
    else if rows[0].pk == pk then Some(0)
    else var r := Find(rows[1..], pk); if r.Some? then Some(r.value + 1) else None
  }

  function RowsOf(db: Db, t: string): seq<Rec> {
    if t in db then db[t] else []
  }

  function PartValue(db: Db, pk: int, cells: Cells, p: Part): Cell {
    match p
    case Own(name) => Get(cells, name)
    case Rollup(child, fk, op, col) => Aggregate(op, Values(RowsOf(db, child), fk, pk, col))
    case Lookup(link, parent, target) =>
      var c := Get(cells, link);
      if !c.Ref? then Null
      else
        var i := Find(RowsOf(db, parent), c.id);
        if i.None? then Null else Get(RowsOf(db, parent)[i.value].cells, target)
  }

  function PartValues(db: Db, pk: int, cells: Cells, ps: seq<Part>): seq<Cell> {
    seq(|ps|, i requires 0 <= i < |ps| => PartValue(db, pk, cells, ps[i]))
  }

  /** The value of one formula field evaluated from scratch; None when that raises. */
  function Fresh(u: Schema, db: Db, pk: int, cells: Cells, k: Kind): Option<Cell>
    requires k.Computed?
  {
    u.combine(k.formula, PartValues(db, pk, cells, k.parts))
  }

  lemma SameParts(u: Schema, a: Db, x: Cells, b: Db, y: Cells, pk: int, k: Kind)
    requires k.Computed? && forall p | p in k.parts :: PartValue(a, pk, x, p) == PartValue(b, pk, y, p)
    ensures Fresh(u, a, pk, x, k) == Fresh(u, b, pk, y, k)
  {
    assert PartValues(a, pk, x, k.parts) == PartValues(b, pk, y, k.parts) by {
      forall i | 0 <= i < |k.parts| ensures PartValue(a, pk, x, k.parts[i]) == PartValue(b, pk, y, k.parts[i]) {
        assert k.parts[i] in k.parts;
      }
    }
  }

  // ---------------------------------------------------------------- schemas

  /**
    Across tables formulas read plain columns through declared relations, no rollup of a
    rollup and no lookup of a computed column, since the ripple goes one level only; in its
    own row a formula reads no formula column that is computed later.
  */
  ghost predicate OneLevel(u: Schema) {
    && (forall t, f | t in u.tables && f in u.tables[t] :: SoundField(u, t, f))
    && (forall t, i: nat | t in u.tables && i < |u.tables[t]| :: ReadsEarlier(u.tables[t], i))
    && (forall t | t in u.tables :: DistinctNames(u.tables[t]))
  }

  ghost predicate DistinctNames(fs: seq<Field>) {
    forall i, j | 0 <= i < j < |fs| :: fs[i].name != fs[j].name
  }

  ghost predicate ReadsEarlier(fs: seq<Field>, i: nat)
    requires i < |fs|
  {
    fs[i].kind.Computed? ==> forall p, j | p in fs[i].kind.parts && i <= j < |fs| && Formula(fs[j]) :: p != Own(fs[j].name)
  }

  ghost predicate SoundField(u: Schema, t: string, f: Field)
    requires t in u.tables
  {
    match f.kind
    case Computed(_, parts) => forall p | p in parts :: SoundPart(u, t, p)
    case Relation(_) => !IsFormula(u, t, f.name) && (t, f.name) in u.relations
    case Plain => true
  }

  ghost predicate SoundPart(u: Schema, t: string, p: Part)
    requires t in u.tables
  {
    match p
    case Own(_) => true
    case Rollup(child, fk, op, col) =>
      && child in u.tables && Field(fk, Relation(t)) in u.tables[child]
      && !IsFormula(u, child, fk) && (col.Some? ==> !IsFormula(u, child, col.value))
    case Lookup(link, parent, target) =>
      && Field(link, Relation(parent)) in u.tables[t] && !IsFormula(u, t, link) && !IsFormula(u, parent, target)
  }

  ghost predicate ValidDb(u: Schema, db: Db) {
    && db.Keys == u.tables.Keys
    && forall t | t in db :: DistinctKeys(db[t])
  }

  ghost predicate DistinctKeys(rows: seq<Rec>) {
    forall i, j | 0 <= i < j < |rows| :: rows[i].pk != rows[j].pk
  }

  // ---------------------------------------------------------------- recomputing one row

  /** `compute_values` put into the row: its formula columns in field order, or None when one of them raises. */
  function Refreshed(u: Schema, db: Db, pk: int, cells: Cells, fs: seq<Field>): Option<Cells> {
    if fs == [] then Some(cells)
    else
      var before := Refreshed(u, db, pk, cells, fs[..|fs| - 1]);
      var f := fs[|fs| - 1];
      if before.None? || !Formula(f) then before
      else
        var v := Fresh(u, db, pk, before.value, f.kind);
        if v.None? then None else Some(before.value[f.name := v.value])
  }

  function Recomputation(u: Schema, db: Db, t: string, r: Rec): Option<Cells>
    requires t in u.tables
  {
    Refreshed(u, db, r.pk, r.cells, u.tables[t])
  }

  /** The formula columns of the two rows hold the same. */
  ghost predicate SameFormulas(u: Schema, t: string, a: Cells, b: Cells)
    requires t in u.tables
  {
    forall f | f in u.tables[t] && Formula(f) :: Get(a, f.name) == Get(b, f.name)
  }

  /** Recomputing the row, unless that raises, would store what is there. */
  ghost predicate RowAgrees(u: Schema, db: Db, t: string, r: Rec)
    requires t in u.tables
  {
    var c := Recomputation(u, db, t, r);
    c.Some? ==> SameFormulas(u, t, r.cells, c.value)
  }

  ghost predicate AllAgree(u: Schema, db: Db) {
    forall t, r | t in u.tables && r in RowsOf(db, t) :: RowAgrees(u, db, t, r)
  }

  /** Same rows, same plain cells: at most formula cells differ. */
  ghost predicate SameBase(u: Schema, a: Db, b: Db) {
    && a.Keys == b.Keys
    && forall t | t in a :: SameRows(u, t, a[t], b[t])
  }

  ghost predicate SameRows(u: Schema, t: string, a: seq<Rec>, b: seq<Rec>) {
    |a| == |b| && forall i | 0 <= i < |a| :: SameRec(u, t, a[i], b[i])
  }

  ghost predicate SameRec(u: Schema, t: string, a: Rec, b: Rec) {
    a.pk == b.pk && forall c | !IsFormula(u, t, c) :: Get(a.cells, c) == Get(b.cells, c)
  }

  /** A formula part that reads the own row only. */
  ghost predicate CrossSame(a: Db, b: Db, x: Rec, fs: seq<Field>) {
    forall f, p | f in fs && Formula(f) && p in f.kind.parts && !p.Own? :: PartValue(a, x.pk, x.cells, p) == PartValue(b, x.pk, x.cells, p)
  }

  /** Some formula reads this column of its own row. */
  ghost predicate ReadHere(u: Schema, t: string, col: string)
    requires t in u.tables
  {
    exists f :: f in u.tables[t] && Formula(f) && ReadBy(f, col)
  }

  ghost predicate ReadBy(f: Field, col: string)
    requires Formula(f)
  {
    Own(col) in f.kind.parts || exists p :: p in f.kind.parts && p.Lookup? && p.link == col
  }

  /** The plain columns that formulas read in their own row hold the same. */
  ghost predicate SameRead(u: Schema, t: string, a: Cells, b: Cells)
    requires t in u.tables
  {
    forall col | !IsFormula(u, t, col) && ReadHere(u, t, col) :: Get(a, col) == Get(b, col)
  }

  /** The columns the first `n` fields leave settled: the plain ones they read, and the formulas among the first `n`. */
  ghost predicate SettledBy(u: Schema, t: string, n: nat, col: string)
    requires t in u.tables && n <= |u.tables[t]|
  {
    (!IsFormula(u, t, col) && ReadHere(u, t, col)) || exists i | 0 <= i < n :: Formula(u.tables[t][i]) && u.tables[t][i].name == col
  }

  ghost predicate SameSettled(u: Schema, t: string, n: nat, x: Option<Cells>, y: Option<Cells>)
    requires t in u.tables && n <= |u.tables[t]|
  {
    (x.None? <==> y.None?) && (x.Some? ==> forall col | SettledBy(u, t, n, col) :: Get(x.value, col) == Get(y.value, col))
  }

  lemma SamePart(u: Schema, a: Db, b: Db, t: string, x: Rec, n: nat, p: Part, cx: Cells, cy: Cells)
    requires OneLevel(u) && t in u.tables && n < |u.tables[t]| && Formula(u.tables[t][n]) && p in u.tables[t][n].kind.parts
    requires !p.Own? ==> PartValue(a, x.pk, x.cells, p) == PartValue(b, x.pk, x.cells, p)
    requires SameSettled(u, t, n, Some(cx), Some(cy))
    requires forall col | !IsFormula(u, t, col) :: Get(cx, col) == Get(x.cells, col)
    ensures PartValue(a, x.pk, cx, p) == PartValue(b, x.pk, cy, p)
  {
    var f := u.tables[t][n];
    assert f in u.tables[t] && SoundField(u, t, f) && SoundPart(u, t, p);
    match p
    case Own(name) =>
      assert ReadsEarlier(u.tables[t], n);
      if IsFormula(u, t, name) {
        var g :| g in u.tables[t] && g.name == name && Formula(g);
        var j :| 0 <= j < |u.tables[t]| && u.tables[t][j] == g;
        assert j < n;
      }
      assert ReadBy(f, name);
      assert SettledBy(u, t, n, name);
    case Rollup(_, _, _, _) =>
    case Lookup(link, _, _) =>
      assert p.Lookup? && ReadBy(f, link);
      assert SettledBy(u, t, n, link);
  }

  /** What recomputing a row comes to depends on its plain cells and on what its parts read in other rows. */
  lemma {:induction false} RefreshedSame(u: Schema, a: Db, b: Db, t: string, x: Rec, y: Rec, n: nat)
    requires OneLevel(u) && t in u.tables && n <= |u.tables[t]| && x.pk == y.pk && SameRead(u, t, x.cells, y.cells) && CrossSame(a, b, x, u.tables[t])
    ensures SameSettled(u, t, n, Refreshed(u, a, x.pk, x.cells, u.tables[t][..n]), Refreshed(u, b, y.pk, y.cells, u.tables[t][..n]))
    ensures var c := Refreshed(u, a, x.pk, x.cells, u.tables[t][..n]); c.Some? ==> SameRec(u, t, x, Rec(x.pk, c.value))
  {
    if n > 0 {
      RefreshedSame(u, a, b, t, x, y, n - 1);
      var fs, f := u.tables[t], u.tables[t][n - 1];
      assert fs[..n][..n - 1] == fs[..n - 1];
      var cx, cy := Refreshed(u, a, x.pk, x.cells, fs[..n - 1]), Refreshed(u, b, y.pk, y.cells, fs[..n - 1]);
      assert f in fs;
      if Formula(f) && cx.Some? {
        forall p | p in f.kind.parts ensures PartValue(a, x.pk, cx.value, p) == PartValue(b, x.pk, cy.value, p) {
          SamePart(u, a, b, t, x, n - 1, p, cx.value, cy.value);
        }
        SameParts(u, a, cx.value, b, cy.value, x.pk, f.kind);
        assert IsFormula(u, t, f.name);
        SettledNext(u, t, n - 1, cx.value, cy.value, Fresh(u, a, x.pk, cx.value, f.kind));
      } else if !Formula(f) {
        forall col | SettledBy(u, t, n, col) ensures SettledBy(u, t, n - 1, col) {}
      }
    }
  }

  lemma SettledNext(u: Schema, t: string, n: nat, cx: Cells, cy: Cells, v: Option<Cell>)
    requires t in u.tables && n < |u.tables[t]| && SameSettled(u, t, n, Some(cx), Some(cy))
    ensures var name := u.tables[t][n].name;
      v.Some? ==> SameSettled(u, t, n + 1, Some(cx[name := v.value]), Some(cy[name := v.value]))
  {
    var name := u.tables[t][n].name;
    if v.Some? {
      var m, x, y := n + 1, cx[name := v.value], cy[name := v.value];
      forall col | SettledBy(u, t, m, col) ensures Get(x, col) == Get(y, col) {
        if col != name && IsFormula(u, t, col) {
          var i :| 0 <= i < m && Formula(u.tables[t][i]) && u.tables[t][i].name == col;
          assert i < n;
          assert SettledBy(u, t, n, col);
        } else if col != name {
          assert SettledBy(u, t, n, col);
        }
      }
    }
  }

  /** The same for the whole row: both raise, or both come to the same formula cells. */
  lemma RecomputedSame(u: Schema, a: Db, b: Db, t: string, x: Rec, y: Rec)
    requires OneLevel(u) && t in u.tables && x.pk == y.pk && SameRead(u, t, x.cells, y.cells) && CrossSame(a, b, x, u.tables[t])
    ensures var c, d := Recomputation(u, a, t, x), Recomputation(u, b, t, y);
      && (c.None? <==> d.None?)
      && (c.Some? ==> SameFormulas(u, t, c.value, d.value) && SameRec(u, t, x, Rec(x.pk, c.value)))
  {
    var fs := u.tables[t];
    assert fs[..|fs|] == fs;
    RefreshedSame(u, a, b, t, x, y, |fs|);
    forall f | f in fs && Formula(f) ensures SettledBy(u, t, |fs|, f.name) {
      var i :| 0 <= i < |fs| && fs[i] == f;
    }
  }

  /** A recomputed row keeps its plain cells, and agrees. */
  lemma RecomputedAgrees(u: Schema, db: Db, t: string, x: Rec)
    requires OneLevel(u) && t in u.tables && Recomputation(u, db, t, x).Some?
    ensures var y := Rec(x.pk, Recomputation(u, db, t, x).value); SameRec(u, t, x, y) && RowAgrees(u, db, t, y)
  {
    RecomputedSame(u, db, db, t, x, x);
    RecomputedSame(u, db, db, t, x, Rec(x.pk, Recomputation(u, db, t, x).value));
  }

  /** While the fields from `n` on are not computed yet, the ones before are settled at their own values. */
  lemma {:induction false} RefreshWorks(u: Schema, db: Db, t: string, pk: int, cells: Cells, n: nat)
    requires OneLevel(u) && t in u.tables && n <= |u.tables[t]|
    ensures var r := Refreshed(u, db, pk, cells, u.tables[t][..n]);
      r.Some? ==> forall i | 0 <= i < n && Formula(u.tables[t][i]) ::
        Fresh(u, db, pk, r.value, u.tables[t][i].kind) == Some(Get(r.value, u.tables[t][i].name))
  {
    var fs := u.tables[t][..n];
    if n > 0 {
      RefreshWorks(u, db, t, pk, cells, n - 1);
      assert fs[..|fs| - 1] == u.tables[t][..n - 1];
      var before, after := Refreshed(u, db, pk, cells, u.tables[t][..n - 1]), Refreshed(u, db, pk, cells, fs);
      var f := u.tables[t][n - 1];
      if Formula(f) && after.Some? {
        forall i | 0 <= i < n && Formula(u.tables[t][i])
          ensures Fresh(u, db, pk, after.value, u.tables[t][i].kind) == Some(Get(after.value, u.tables[t][i].name)) {
          LaterUnread(u, db, t, pk, before.value, after.value, i, n - 1);
          assert DistinctNames(u.tables[t]);
        }
      }
    }
  }

  /** Writing a formula column does not disturb the formulas computed before it, nor itself. */
  lemma LaterUnread(u: Schema, db: Db, t: string, pk: int, before: Cells, after: Cells, i: nat, j: nat)
    requires OneLevel(u) && t in u.tables && i <= j < |u.tables[t]| && Formula(u.tables[t][i]) && Formula(u.tables[t][j])
    requires forall c | c != u.tables[t][j].name :: Get(before, c) == Get(after, c)
    ensures Fresh(u, db, pk, before, u.tables[t][i].kind) == Fresh(u, db, pk, after, u.tables[t][i].kind)
  {
    var g, f := u.tables[t][i], u.tables[t][j];
    assert g in u.tables[t] && SoundField(u, t, g) && ReadsEarlier(u.tables[t], i);
    assert IsFormula(u, t, f.name);
    forall p | p in g.kind.parts ensures PartValue(db, pk, before, p) == PartValue(db, pk, after, p) {
      assert SoundPart(u, t, p);
    }
    SameParts(u, db, before, db, after, pk, g.kind);
  }

  /**
    Agreement, without the order of evaluation: unless recomputing the row raises, each of
    its stored formula cells is the value of its formula from scratch.
  */
  lemma AgreesIffFresh(u: Schema, db: Db, t: string, r: Rec)
    requires OneLevel(u) && t in u.tables && Recomputation(u, db, t, r).Some?
    ensures RowAgrees(u, db, t, r) <==>
      forall f | f in u.tables[t] && Formula(f) :: Fresh(u, db, r.pk, r.cells, f.kind) == Some(Get(r.cells, f.name))
  {
    var fs := u.tables[t];
    var c := Recomputation(u, db, t, r).value;
    assert fs[..|fs|] == fs;
    RecomputedAgrees(u, db, t, r);
    RefreshWorks(u, db, t, r.pk, r.cells, |fs|);
    if RowAgrees(u, db, t, r) {
      forall f | f in fs && Formula(f) ensures Fresh(u, db, r.pk, r.cells, f.kind) == Some(Get(r.cells, f.name)) {
        var i :| 0 <= i < |fs| && fs[i] == f;
        SameColumns(u, db, t, r.pk, r.cells, c, f);
      }
    } else if forall f | f in fs && Formula(f) :: Fresh(u, db, r.pk, r.cells, f.kind) == Some(Get(r.cells, f.name)) {
      FreshIsRefreshed(u, db, t, r, |fs|);
    }
  }

  lemma SameColumns(u: Schema, db: Db, t: string, pk: int, a: Cells, b: Cells, f: Field)
    requires OneLevel(u) && t in u.tables && f in u.tables[t] && Formula(f)
    requires SameRec(u, t, Rec(pk, a), Rec(pk, b)) && SameFormulas(u, t, a, b)
    ensures Fresh(u, db, pk, a, f.kind) == Fresh(u, db, pk, b, f.kind)
  {
    assert SoundField(u, t, f);
    forall col ensures Get(a, col) == Get(b, col) {}
    forall p | p in f.kind.parts ensures PartValue(db, pk, a, p) == PartValue(db, pk, b, p) {
      assert SoundPart(u, t, p);
    }
    SameParts(u, db, a, db, b, pk, f.kind);
  }

  /** Stored cells that are the values of their formulas are what the evaluation in order comes to. */
  lemma {:induction false} FreshIsRefreshed(u: Schema, db: Db, t: string, r: Rec, n: nat)
    requires OneLevel(u) && t in u.tables && n <= |u.tables[t]|
    requires forall f | f in u.tables[t] && Formula(f) :: Fresh(u, db, r.pk, r.cells, f.kind) == Some(Get(r.cells, f.name))
    ensures SameSettled(u, t, n, Refreshed(u, db, r.pk, r.cells, u.tables[t][..n]), Some(r.cells))
    ensures var c := Refreshed(u, db, r.pk, r.cells, u.tables[t][..n]); c.Some? && SameRec(u, t, r, Rec(r.pk, c.value))
    ensures n == |u.tables[t]| ==> RowAgrees(u, db, t, r)
  {
    var fs := u.tables[t];
    if n > 0 {
      FreshIsRefreshed(u, db, t, r, n - 1);
      var f := fs[n - 1];
      assert fs[..n][..n - 1] == fs[..n - 1] && f in fs;
      var c := Refreshed(u, db, r.pk, r.cells, fs[..n - 1]).value;
      if Formula(f) {
        forall p | p in f.kind.parts ensures PartValue(db, r.pk, c, p) == PartValue(db, r.pk, r.cells, p) {
          SamePart(u, db, db, t, r, n - 1, p, c, r.cells);
        }
        SameParts(u, db, c, db, r.cells, r.pk, f.kind);
        assert IsFormula(u, t, f.name);
        SettledNext(u, t, n - 1, c, r.cells, Some(Get(r.cells, f.name)));
        SameUpdate(u, t, n, c[f.name := Get(r.cells, f.name)], r.cells, f.name);
      } else {
        forall col | SettledBy(u, t, n, col) ensures SettledBy(u, t, n - 1, col) {}
      }
    }
    if n == |fs| {
      assert fs[..n] == fs;
      forall g | g in fs && Formula(g) ensures SettledBy(u, t, n, g.name) {
        var i :| 0 <= i < |fs| && fs[i] == g;
      }
    }
  }

  lemma SameUpdate(u: Schema, t: string, n: nat, c: Cells, cells: Cells, name: string)
    requires t in u.tables && n <= |u.tables[t]|
    requires SameSettled(u, t, n, Some(c), Some(cells[name := Get(cells, name)]))
    ensures SameSettled(u, t, n, Some(c), Some(cells))
  {
    forall col ensures Get(cells[name := Get(cells, name)], col) == Get(cells, col) {}
  }

  lemma {:induction false} SameValues(u: Schema, t: string, a: seq<Rec>, b: seq<Rec>, fk: string, pk: int, col: Option<string>)
    requires SameRows(u, t, a, b) && !IsFormula(u, t, fk) && (col.Some? ==> !IsFormula(u, t, col.value))
    ensures Values(a, fk, pk, col) == Values(b, fk, pk, col)
  {
    if a != [] {
      assert SameRec(u, t, a[0], b[0]);
      assert SameRows(u, t, a[1..], b[1..]) by {
        forall i | 0 <= i < |a[1..]| ensures SameRec(u, t, a[1..][i], b[1..][i]) {
          assert SameRec(u, t, a[i + 1], b[i + 1]);
        }
      }
      SameValues(u, t, a[1..], b[1..], fk, pk, col);
    }
  }

  lemma {:induction false} SameFind(u: Schema, t: string, a: seq<Rec>, b: seq<Rec>, pk: int)
    requires SameRows(u, t, a, b)
    ensures Find(a, pk) == Find(b, pk)
  {
    if a != [] {
      assert SameRec(u, t, a[0], b[0]);
      assert SameRows(u, t, a[1..], b[1..]) by {
        forall i | 0 <= i < |a[1..]| ensures SameRec(u, t, a[1..][i], b[1..][i]) {
          assert SameRec(u, t, a[i + 1], b[i + 1]);
        }
      }
      SameFind(u, t, a[1..], b[1..], pk);
    }
  }

  lemma PartReadsBase(u: Schema, a: Db, b: Db, t: string, r: Rec, p: Part)
    requires SameBase(u, a, b) && a.Keys == u.tables.Keys && t in u.tables && SoundPart(u, t, p)
    ensures PartValue(a, r.pk, r.cells, p) == PartValue(b, r.pk, r.cells, p)
  {
    match p
    case Own(_) =>
    case Rollup(child, fk, op, col) =>
      SameValues(u, child, a[child], b[child], fk, r.pk, col);
    case Lookup(link, parent, target) =>
      var c := Get(r.cells, link);
      if c.Ref? && parent in a {
        SameFind(u, parent, a[parent], b[parent], c.id);
        var i := Find(a[parent], c.id);
        if i.Some? {
          assert SameRec(u, parent, a[parent][i.value], b[parent][i.value]);
        }
      }
  }

  lemma BaseCrossSame(u: Schema, a: Db, b: Db, t: string, x: Rec)
    requires OneLevel(u) && SameBase(u, a, b) && a.Keys == u.tables.Keys && t in u.tables
    ensures CrossSame(a, b, x, u.tables[t])
  {
    forall f, p | f in u.tables[t] && Formula(f) && p in f.kind.parts && !p.Own?
      ensures PartValue(a, x.pk, x.cells, p) == PartValue(b, x.pk, x.cells, p) {
      assert SoundField(u, t, f) && SoundPart(u, t, p);
      PartReadsBase(u, a, b, t, x, p);
    }
  }

  /** What formulas read in other rows are plain cells: recomputation comes to the same whatever formula cells are stored. */
  lemma RecomputedReadsBase(u: Schema, a: Db, b: Db, t: string, x: Rec, y: Rec)
    requires OneLevel(u) && SameBase(u, a, b) && a.Keys == u.tables.Keys && t in u.tables && SameRec(u, t, x, y)
    ensures var c, d := Recomputation(u, a, t, x), Recomputation(u, b, t, y);
      (c.None? <==> d.None?) && (c.Some? ==> SameFormulas(u, t, c.value, d.value))
  {
    BaseCrossSame(u, a, b, t, x);
    RecomputedSame(u, a, b, t, x, y);
  }

  /** So does agreement of a row that is stored alike. */
  lemma AgreesOnBase(u: Schema, a: Db, b: Db, t: string, x: Rec)
    requires OneLevel(u) && SameBase(u, a, b) && a.Keys == u.tables.Keys && t in u.tables
    ensures RowAgrees(u, a, t, x) <==> RowAgrees(u, b, t, x)
  {
    RecomputedReadsBase(u, a, b, t, x, x);
  }

  lemma SameBaseSelf(u: Schema, db: Db)
    ensures SameBase(u, db, db)
  {}

  lemma SameBaseTwice(u: Schema, a: Db, b: Db, c: Db)
    requires SameBase(u, a, b) && SameBase(u, b, c)
    ensures SameBase(u, a, c)
  {
    forall t, i | t in a && 0 <= i < |a[t]| ensures SameRec(u, t, a[t][i], c[t][i]) {
      assert SameRec(u, t, a[t][i], b[t][i]) && SameRec(u, t, b[t][i], c[t][i]);
    }
  }

  // ---------------------------------------------------------------- the ripple

  /** `_recompute_row` on a row by its key; None when it raises, and nothing at all when there is no such row. */
  function Recomputed(u: Schema, db: Db, k: Key): (r: Option<Db>)
    requires db.Keys == u.tables.Keys
    ensures r.Some? ==> r.value.Keys == db.Keys
  {
    if k.0 !in db then Some(db)
    else
      var i := Find(db[k.0], k.1);
      if i.None? then Some(db)
      else
        var c := Recomputation(u, db, k.0, db[k.0][i.value]);
        if c.None? then None else Some(db[k.0 := db[k.0][i.value := Rec(k.1, c.value)]])
  }

  predicate Raises(u: Schema, db: Db, k: Key)
    requires db.Keys == u.tables.Keys
  {
    Recomputed(u, db, k).None?
  }

  /** The rows to visit one after the other, up to the first that raises. */
  function RippleOver(u: Schema, db: Db, vs: seq<Key>): (r: Db)
    requires db.Keys == u.tables.Keys
    ensures r.Keys == db.Keys
    decreases |vs|
  {
    if vs == [] then db
    else
      var next := Recomputed(u, db, vs[0]);
      if next.None? then db else RippleOver(u, next.value, vs[1..])
  }

  /** How many of the rows to visit come before the first that raises. */
  function Reach(u: Schema, db: Db, vs: seq<Key>): (n: nat)
    requires db.Keys == u.tables.Keys
    ensures n <= |vs|
    decreases |vs|
  {
    if vs == [] || Raises(u, db, vs[0]) then 0 else 1 + Reach(u, db, vs[1..])
  }

  ghost predicate Visited(u: Schema, db: Db, vs: seq<Key>, k: Key)
    requires db.Keys == u.tables.Keys
  {
    k in vs[..Reach(u, db, vs)]
  }

  lemma RaisesOnBase(u: Schema, a: Db, b: Db, k: Key)
    requires OneLevel(u) && SameBase(u, a, b) && a.Keys == u.tables.Keys
    ensures Raises(u, a, k) <==> Raises(u, b, k)
  {
    if k.0 in a {
      SameFind(u, k.0, a[k.0], b[k.0], k.1);
      var i := Find(a[k.0], k.1);
      if i.Some? {
        assert SameRec(u, k.0, a[k.0][i.value], b[k.0][i.value]);
        RecomputedReadsBase(u, a, b, k.0, a[k.0][i.value], b[k.0][i.value]);
      }
    }
  }

  lemma {:induction false} ReachOnBase(u: Schema, a: Db, b: Db, vs: seq<Key>)
    requires OneLevel(u) && SameBase(u, a, b) && a.Keys == u.tables.Keys
    ensures Reach(u, a, vs) == Reach(u, b, vs)
    decreases |vs|
  {
    if vs != [] {
      RaisesOnBase(u, a, b, vs[0]);
      ReachOnBase(u, a, b, vs[1..]);
    }
  }

  /** Only the row `k` differs, and only in formula cells. */
  ghost predicate OnlyKey(u: Schema, a: Db, b: Db, k: Key) {
    && SameBase(u, a, b)
    && forall t, i: nat | t in a && i < |a[t]| && i < |RowsOf(b, t)| && (t, a[t][i].pk) != k :: RowsOf(b, t)[i] == a[t][i]
  }

  /** Recomputing one row writes that row only, and makes it agree. */
  lemma RecomputedWorks(u: Schema, db: Db, k: Key)
    requires OneLevel(u) && ValidDb(u, db) && Recomputed(u, db, k).Some?
    ensures var after := Recomputed(u, db, k).value;
      && ValidDb(u, after) && OnlyKey(u, db, after, k)
      && forall i: nat | k.0 in after && i < |after[k.0]| && after[k.0][i].pk == k.1 :: RowAgrees(u, after, k.0, after[k.0][i])
  {
    SameBaseSelf(u, db);
    if k.0 in db && Find(db[k.0], k.1).Some? {
      var i := Find(db[k.0], k.1).value;
      var after := Recomputed(u, db, k).value;
      RecomputedAgrees(u, db, k.0, db[k.0][i]);
      assert DistinctKeys(after[k.0]);
      forall t | t in db ensures SameRows(u, t, db[t], after[t]) {}
      AgreesOnBase(u, db, after, k.0, after[k.0][i]);
    }
  }

  lemma VisitedNext(u: Schema, db: Db, next: Db, vs: seq<Key>, k: Key)
    requires OneLevel(u) && db.Keys == u.tables.Keys && vs != [] && Recomputed(u, db, vs[0]) == Some(next) && SameBase(u, db, next)
    ensures Visited(u, db, vs, k) <==> k == vs[0] || Visited(u, next, vs[1..], k)
  {
    ReachOnBase(u, db, next, vs[1..]);
    var n := Reach(u, db, vs[1..]);
    assert vs[..n + 1] == [vs[0]] + vs[1..][..n];
  }

  /** What a ripple leaves of one row: it agrees if it was visited, and is as it was otherwise. */
  ghost predicate Rippled(u: Schema, db: Db, after: Db, vs: seq<Key>, t: string, i: nat)
    requires db.Keys == u.tables.Keys && t in db && i < |db[t]| && i < |RowsOf(after, t)|
  {
    if Visited(u, db, vs, (t, db[t][i].pk)) then RowAgrees(u, after, t, RowsOf(after, t)[i]) else RowsOf(after, t)[i] == db[t][i]
  }

  ghost predicate AllRippled(u: Schema, db: Db, after: Db, vs: seq<Key>)
    requires db.Keys == u.tables.Keys && SameBase(u, db, after)
  {
    forall t, i: nat | t in db && i < |db[t]| && i < |RowsOf(after, t)| :: Rippled(u, db, after, vs, t, i)
  }

  lemma {:induction false} RippleWorks(u: Schema, db: Db, vs: seq<Key>)
    requires OneLevel(u) && ValidDb(u, db)
    ensures var after := RippleOver(u, db, vs); ValidDb(u, after) && SameBase(u, db, after) && AllRippled(u, db, after, vs)
    decreases |vs|
  {
    SameBaseSelf(u, db);
    if vs != [] && Recomputed(u, db, vs[0]).Some? {
      var next := Recomputed(u, db, vs[0]).value;
      var after := RippleOver(u, db, vs);
      RecomputedWorks(u, db, vs[0]);
      RippleWorks(u, next, vs[1..]);
      SameBaseTwice(u, db, next, after);
      forall t, i: nat | t in db && i < |db[t]| && i < |RowsOf(after, t)| ensures Rippled(u, db, after, vs, t, i) {
        RippledNext(u, db, next, after, vs, t, i);
      }
    }
  }

  lemma RippledNext(u: Schema, db: Db, next: Db, after: Db, vs: seq<Key>, t: string, i: nat)
    requires OneLevel(u) && ValidDb(u, db) && vs != [] && Recomputed(u, db, vs[0]) == Some(next) && ValidDb(u, next)
    requires SameBase(u, next, after) && AllRippled(u, next, after, vs[1..])
    requires t in db && i < |db[t]| && i < |RowsOf(after, t)|
    ensures Rippled(u, db, after, vs, t, i)
  {
    RecomputedWorks(u, db, vs[0]);
    var k := (t, db[t][i].pk);
    VisitedNext(u, db, next, vs, k);
    assert SameRec(u, t, db[t][i], next[t][i]);
    assert Rippled(u, next, after, vs[1..], t, i);
    if !Visited(u, next, vs[1..], k) && k == vs[0] {
      AgreesOnBase(u, next, after, t, next[t][i]);
    }
  }

  /** After the ripple every stored formula cell agrees exactly when each row it did not visit agreed before it. */
  lemma RippleAgreesIff(u: Schema, db: Db, vs: seq<Key>)
    requires OneLevel(u) && ValidDb(u, db)
    ensures AllAgree(u, RippleOver(u, db, vs)) <==>
      forall t, x | t in u.tables && x in RowsOf(db, t) && !Visited(u, db, vs, (t, x.pk)) :: RowAgrees(u, db, t, x)
  {
    var after := RippleOver(u, db, vs);
    RippleWorks(u, db, vs);
    forall t, i: nat | t in u.tables && i < |db[t]|
      ensures RowAgrees(u, after, t, after[t][i]) <==> Visited(u, db, vs, (t, db[t][i].pk)) || RowAgrees(u, db, t, db[t][i]) {
      assert SameRows(u, t, db[t], after[t]);
      assert Rippled(u, db, after, vs, t, i);
      AgreesOnBase(u, db, after, t, db[t][i]);
    }
    if AllAgree(u, after) {
      forall t, x | t in u.tables && x in RowsOf(db, t) && !Visited(u, db, vs, (t, x.pk)) ensures RowAgrees(u, db, t, x) {
        var i :| 0 <= i < |db[t]| && db[t][i] == x;
        assert SameRows(u, t, db[t], after[t]) && after[t][i] in RowsOf(after, t);
      }
    }
    if forall t, x | t in u.tables && x in RowsOf(db, t) && !Visited(u, db, vs, (t, x.pk)) :: RowAgrees(u, db, t, x) {
      forall t, y | t in u.tables && y in RowsOf(after, t) ensures RowAgrees(u, after, t, y) {
        var i :| 0 <= i < |after[t]| && after[t][i] == y;
        assert SameRows(u, t, db[t], after[t]) && db[t][i] in RowsOf(db, t);
      }
    }
  }

  // ---------------------------------------------------------------- the rows a ripple visits

  /** The parents a row points at, in field order. */
  function ParentVisits(cells: Cells, fs: seq<Field>): seq<Key> {
    if fs == [] then []
    else
      var f, c := fs[0], Get(cells, fs[0].name);
      (if f.kind.Relation? && c.Ref? then [(f.kind.table, c.id)] else []) + ParentVisits(cells, fs[1..])
  }

  /** The rows of one child table that point at `pk`. */
  function Pointing(rows: seq<Rec>, c: string, col: string, pk: int): seq<Key> {
    if rows == [] then []
    else (if Get(rows[0].cells, col) == Ref(pk) then [(c, rows[0].pk)] else []) + Pointing(rows[1..], c, col, pk)
  }

  /** The children of a row, relation by relation. */
  function ChildVisits(u: Schema, db: Db, t: string, pk: int, rels: seq<(string, string)>): seq<Key> {
    if rels == [] then []
    else
      var (c, col) := rels[|rels| - 1];
      ChildVisits(u, db, t, pk, rels[..|rels| - 1]) + if Points(u, c, col, t) then Pointing(RowsOf(db, c), c, col, pk) else []
  }

  predicate Points(u: Schema, c: string, col: string, t: string) {
    c in u.tables && Field(col, Relation(t)) in u.tables[c]
  }

  /** `recompute_related`: parents, then children, one level. */
  function Visits(u: Schema, db: Db, t: string, pk: int, cells: Cells): seq<Key>
    requires t in u.tables
  {
    ParentVisits(cells, u.tables[t]) + ChildVisits(u, db, t, pk, u.relations)
  }

  lemma {:induction false} SamePointing(u: Schema, a: seq<Rec>, b: seq<Rec>, c: string, col: string, pk: int)
    requires SameRows(u, c, a, b) && !IsFormula(u, c, col)
    ensures Pointing(a, c, col, pk) == Pointing(b, c, col, pk)
  {
    if a != [] {
      assert SameRec(u, c, a[0], b[0]);
      assert SameRows(u, c, a[1..], b[1..]) by {
        forall i | 0 <= i < |a[1..]| ensures SameRec(u, c, a[1..][i], b[1..][i]) {
          assert SameRec(u, c, a[i + 1], b[i + 1]);
        }
      }
      SamePointing(u, a[1..], b[1..], c, col, pk);
    }
  }

  /** Whom the ripple visits depends on plain cells alone. */
  lemma {:induction false} SameChildVisits(u: Schema, a: Db, b: Db, t: string, pk: int, rels: seq<(string, string)>)
    requires OneLevel(u) && a.Keys == u.tables.Keys && SameBase(u, a, b)
    ensures ChildVisits(u, a, t, pk, rels) == ChildVisits(u, b, t, pk, rels)
  {
    if rels != [] {
      var (c, col) := rels[|rels| - 1];
      SameChildVisits(u, a, b, t, pk, rels[..|rels| - 1]);
      if Points(u, c, col, t) {
        assert SoundField(u, c, Field(col, Relation(t)));
        SamePointing(u, a[c], b[c], c, col, pk);
      }
    }
  }

  lemma {:induction false} ParentIsVisited(cells: Cells, fs: seq<Field>, f: Field)
    requires f in fs && f.kind.Relation? && Get(cells, f.name).Ref?
    ensures (f.kind.table, Get(cells, f.name).id) in ParentVisits(cells, fs)
  {
    if fs[0] != f {
      ParentIsVisited(cells, fs[1..], f);
    }
  }

  lemma {:induction false} PointingIs(rows: seq<Rec>, c: string, col: string, pk: int, r: Rec)
    requires r in rows && Get(r.cells, col) == Ref(pk)
    ensures (c, r.pk) in Pointing(rows, c, col, pk)
  {
    if rows[0] != r {
      PointingIs(rows[1..], c, col, pk, r);
    }
  }

  lemma {:induction false} ChildIsVisited(u: Schema, db: Db, t: string, pk: int, rels: seq<(string, string)>, c: string, col: string, r: Rec)
    requires (c, col) in rels && Points(u, c, col, t) && r in RowsOf(db, c) && Get(r.cells, col) == Ref(pk)
    ensures (c, r.pk) in ChildVisits(u, db, t, pk, rels)
  {
    if rels[|rels| - 1] == (c, col) {
      PointingIs(RowsOf(db, c), c, col, pk, r);
    } else {
      ChildIsVisited(u, db, t, pk, rels[..|rels| - 1], c, col, r);
    }
  }

  /** Two lists one after the other: the second only if the first got through. */
  lemma {:induction false} RippleAppend(u: Schema, db: Db, a: seq<Key>, b: seq<Key>)
    requires OneLevel(u) && ValidDb(u, db)
    ensures Reach(u, db, a + b) == if Reach(u, db, a) == |a| then |a| + Reach(u, db, b) else Reach(u, db, a)
    ensures RippleOver(u, db, a + b) == if Reach(u, db, a) == |a| then RippleOver(u, RippleOver(u, db, a), b) else RippleOver(u, db, a)
    decreases |a|
  {
    if a == [] {
      assert a + b == b;
    } else {
      assert (a + b)[1..] == a[1..] + b;
      RippleTail(u, db, a, b);
    }
  }

  lemma {:induction false} RippleTail(u: Schema, db: Db, a: seq<Key>, b: seq<Key>)
    requires OneLevel(u) && ValidDb(u, db) && a != [] && (a + b)[1..] == a[1..] + b
    ensures Reach(u, db, a + b) == if Reach(u, db, a) == |a| then |a| + Reach(u, db, b) else Reach(u, db, a)
    ensures RippleOver(u, db, a + b) == if Reach(u, db, a) == |a| then RippleOver(u, RippleOver(u, db, a), b) else RippleOver(u, db, a)
    decreases |a|, 0
  {
    if Recomputed(u, db, a[0]).Some? {
      var next := Recomputed(u, db, a[0]).value;
      RecomputedWorks(u, db, a[0]);
      RippleAppend(u, next, a[1..], b);
      ReachOnBase(u, db, next, a[1..]);
      ReachOnBase(u, db, next, b);
      ReachOnBase(u, db, next, a[1..] + b);
    }
  }

  // ---------------------------------------------------------------- a reference that moves away

  lemma Regroup(a: seq<Cell>, b: seq<Cell>, c: seq<Cell>)
    ensures a + (b + c) == (a + b) + c
  {}

  lemma {:induction false} ValuesAppend(a: seq<Rec>, b: seq<Rec>, fk: string, pk: int, col: Option<string>)
    ensures Values(a + b, fk, pk, col) == Values(a, fk, pk, col) + Values(b, fk, pk, col)
  {
    if a == [] {
      assert a + b == b;
    } else {
      ValuesAppend(a[1..], b, fk, pk, col);
      var rows := a + b;
      assert rows[0] == a[0] && rows[1..] == a[1..] + b;
      Regroup(Selected(a[0], fk, pk, col), Values(a[1..], fk, pk, col), Values(b, fk, pk, col));
    }
  }

  lemma {:induction false} PresentAppend(a: seq<Cell>, b: seq<Cell>)
    ensures Present(a + b) == Present(a) + Present(b)
  {
    if a == [] {
      assert a + b == b;
    } else {
      PresentAppend(a[1..], b);
      assert (a + b)[1..] == a[1..] + b;
    }
  }

  /**
    A reference that moves away from `p`.  The row count over `p` is as before exactly when
    the row did not point at `p` before.
  */
  lemma MovedCountIsStale(db: Db, child: string, i: nat, r: Rec, fk: string, p: int)
    requires child in db && i < |db[child]| && Get(r.cells, fk) != Ref(p)
    ensures var count := Rollup(child, fk, Count, None); var after := db[child := db[child][i := r]];
      PartValue(after, p, map[], count) == PartValue(db, p, map[], count) <==> Get(db[child][i].cells, fk) != Ref(p)
  {
    var a, b := db[child], db[child][i := r];
    var front, back := Values(a[..i], fk, p, None), Values(a[i + 1..], fk, p, None);
    var was, now := Selected(a[i], fk, p, None), Selected(r, fk, p, None);
    ValuesAround(a[..i], a[i], a[i + 1..], fk, p, None);
    ValuesAround(a[..i], r, a[i + 1..], fk, p, None);
    assert a == a[..i] + [a[i]] + a[i + 1..] && b == a[..i] + [r] + a[i + 1..];
    PresentAppend(front + was, back);
    PresentAppend(front, was);
    PresentAppend(front + now, back);
    PresentAppend(front, now);
    assert was != [] ==> was[1..] == [];
  }

  lemma ValuesAround(front: seq<Rec>, r: Rec, back: seq<Rec>, fk: string, pk: int, col: Option<string>)
    ensures Values(front + [r] + back, fk, pk, col) == Values(front, fk, pk, col) + Selected(r, fk, pk, col) + Values(back, fk, pk, col)
  {
    ValuesAppend(front + [r], back, fk, pk, col);
    ValuesAppend(front, [r], fk, pk, col);
    assert [r][1..] == [] && Values([], fk, pk, col) == [];
    assert Values([r], fk, pk, col) == Selected(r, fk, pk, col);
  }
}
