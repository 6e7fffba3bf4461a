/**
  The write path over stored formula columns (app/record_service.py): create, update and
  remove, with what the database does to referring rows, and the ripple of
  app/formula.py that follows.  The main result says exactly which writes leave every
  stored formula cell right.
*/
module RecordWrites {
  import opened Wrappers
  import opened ForeignKeys
  import opened Rollups

  // ---------------------------------------------------------------- editing the rows of a table

  /** Each row replaced, or dropped. */
  function Edited(rows: seq<Rec>, e: Rec -> Option<Rec>): seq<Rec> {
    if rows == [] then []
    else (if e(rows[0]).Some? then [e(rows[0]).value] else []) + Edited(rows[1..], e)
  }

  ghost predicate KeepsKeys(e: Rec -> Option<Rec>) {
    forall r :: e(r).Some? ==> e(r).value.pk == r.pk
  }

  ghost predicate HasKey(rows: seq<Rec>, pk: int) {
    exists r | r in rows :: r.pk == pk
  }

  /** The rows of `b` with a key in `a` stand in the order of `a`. */
  ghost predicate Tracks(a: seq<Rec>, b: seq<Rec>) {
    a == [] ||
    if b != [] && b[0].pk == a[0].pk then Tracks(a[1..], b[1..]) else !HasKey(b, a[0].pk) && Tracks(a[1..], b)
  }

  ghost predicate NoNew(a: seq<Rec>, b: seq<Rec>) {
    forall r | r in b :: HasKey(a, r.pk)
  }

  lemma TailKeys(a: seq<Rec>)
    requires DistinctKeys(a) && a != []
    ensures DistinctKeys(a[1..]) && !HasKey(a[1..], a[0].pk)
  {
    forall r | r in a[1..] ensures r.pk != a[0].pk {
      var i :| 0 <= i < |a[1..]| && a[1..][i] == r;
      assert a[i + 1] == r;
    }
  }

  lemma OneByKey(rows: seq<Rec>, x: Rec, y: Rec)
    requires DistinctKeys(rows) && x in rows && y in rows && x.pk == y.pk
    ensures x == y
  {
    var i :| 0 <= i < |rows| && rows[i] == x;
    var j :| 0 <= j < |rows| && rows[j] == y;
  }

  lemma NoNewKey(b: seq<Rec>, c: seq<Rec>, k: int)
    requires NoNew(b, c)
    ensures HasKey(c, k) ==> HasKey(b, k)
  {
    if HasKey(c, k) {
      var r :| r in c && r.pk == k;
      assert HasKey(b, r.pk);
    }
  }

  lemma {:induction false} EditedNoNew(rows: seq<Rec>, e: Rec -> Option<Rec>)
    requires KeepsKeys(e)
    ensures NoNew(rows, Edited(rows, e))
  {
    if rows != [] {
      EditedNoNew(rows[1..], e);
      forall r | r in Edited(rows, e) ensures HasKey(rows, r.pk) {
        if r in Edited(rows[1..], e) {
          var x :| x in rows[1..] && x.pk == r.pk;
          assert x in rows;
        } else {
          assert rows[0] in rows && r.pk == rows[0].pk;
        }
      }
    }
  }

  lemma DistinctCons(r: Rec, rest: seq<Rec>)
    requires DistinctKeys(rest) && !HasKey(rest, r.pk)
    ensures DistinctKeys([r] + rest) && ([r] + rest)[1..] == rest
  {
    var all := [r] + rest;
    forall i, j | 0 <= i < j < |all| ensures all[i].pk != all[j].pk {
      assert all[j] == rest[j - 1] && rest[j - 1] in rest;
    }
  }

  lemma {:induction false} EditedTracks(rows: seq<Rec>, e: Rec -> Option<Rec>)
    requires KeepsKeys(e) && DistinctKeys(rows)
    ensures Tracks(rows, Edited(rows, e)) && NoNew(rows, Edited(rows, e)) && DistinctKeys(Edited(rows, e))
  {
    EditedNoNew(rows, e);
    if rows != [] {
      TailKeys(rows);
      EditedTracks(rows[1..], e);
      var rest := Edited(rows[1..], e);
      NoNewKey(rows[1..], rest, rows[0].pk);
      if e(rows[0]).Some? {
        DistinctCons(e(rows[0]).value, rest);
      } else {
        assert [] + rest == rest;
      }
    }
  }

  lemma DropHead(b: seq<Rec>, c: seq<Rec>)
    requires b != [] && NoNew(b, c) && !HasKey(c, b[0].pk)
    ensures NoNew(b[1..], c)
  {
    forall r | r in c ensures HasKey(b[1..], r.pk) {
      var x :| x in b && x.pk == r.pk;
      assert x in b[1..];
    }
  }

  lemma {:induction false} TracksTwice(a: seq<Rec>, b: seq<Rec>, c: seq<Rec>)
    requires Tracks(a, b) && Tracks(b, c) && NoNew(b, c) && DistinctKeys(c)
    ensures Tracks(a, c)
  {
    if a != [] && b != [] && b[0].pk == a[0].pk {
      if c != [] && c[0].pk == b[0].pk {
        TailKeys(c);
        forall r | r in c[1..] ensures HasKey(b, r.pk) { assert r in c; }
        DropHead(b, c[1..]);
        TracksTwice(a[1..], b[1..], c[1..]);
      } else {
        DropHead(b, c);
        TracksTwice(a[1..], b[1..], c);
      }
    } else if a != [] {
      NoNewKey(b, c, a[0].pk);
      TracksTwice(a[1..], b, c);
    }
  }

  lemma NoNewTwice(a: seq<Rec>, b: seq<Rec>, c: seq<Rec>)
    requires NoNew(a, b) && NoNew(b, c)
    ensures NoNew(a, c)
  {
    forall r | r in c ensures HasKey(a, r.pk) {
      var x :| x in b && x.pk == r.pk;
      assert HasKey(a, x.pk);
    }
  }

  lemma {:induction false} SameKeysTrack(a: seq<Rec>, b: seq<Rec>)
    requires |a| <= |b| && forall i | 0 <= i < |a| :: b[i].pk == a[i].pk
    ensures Tracks(a, b)
  {
    if a != [] {
      SameKeysTrack(a[1..], b[1..]);
    }
  }

  lemma {:induction false} NoneSelected(rows: seq<Rec>, fk: string, pk: int, col: Option<string>)
    requires forall r | r in rows :: Get(r.cells, fk) != Ref(pk)
    ensures Values(rows, fk, pk, col) == []
  {
    if rows != [] {
      assert rows[0] in rows;
      NoneSelected(rows[1..], fk, pk, col);
    }
  }

  /** What a rollup selects is the same when the rows it counts are. */
  lemma {:induction false} TrackedValues(a: seq<Rec>, b: seq<Rec>, fk: string, pk: int, col: Option<string>)
    requires Tracks(a, b) && DistinctKeys(a) && DistinctKeys(b)
    requires forall r: Rec | Get(r.cells, fk) == Ref(pk) :: r in a <==> r in b
    ensures Values(a, fk, pk, col) == Values(b, fk, pk, col)
  {
    if a == [] {
      NoneSelected(b, fk, pk, col);
    } else if b != [] && b[0].pk == a[0].pk {
      TailKeys(a);
      TailKeys(b);
      assert a[0] in a && b[0] in b;
      if Get(a[0].cells, fk) == Ref(pk) { OneByKey(b, a[0], b[0]); }
      if Get(b[0].cells, fk) == Ref(pk) { OneByKey(a, a[0], b[0]); }
      TrackedValues(a[1..], b[1..], fk, pk, col);
    } else {
      TailKeys(a);
      assert a[0] in a && a[0] !in b;
      TrackedValues(a[1..], b, fk, pk, col);
    }
  }

  // ---------------------------------------------------------------- deleting rows

  /** Every reference that is stored. */
  function LinksOf(u: Schema, db: Db): set<Link> {
    set c, r, f | c in db && c in u.tables && r in db[c] && f in u.tables[c] && f.kind.Relation? && Get(r.cells, f.name).Ref? ::
      Link((c, r.pk), f.name, (f.kind.table, Get(r.cells, f.name).id), u.onDelete(c, f.name))
  }

  /** Column `col` of `c` refers to row `id` of a table where that row goes, and is set to NULL then. */
  predicate Loses(u: Schema, c: string, col: string, id: int, gone: set<Key>)
    requires c in u.tables
  {
    u.onDelete(c, col) == SetNull && exists f | f in u.tables[c] :: f.name == col && f.kind.Relation? && (f.kind.table, id) in gone
  }

  function Orphaned(u: Schema, c: string, cells: Cells, gone: set<Key>): Cells
    requires c in u.tables
  {
    map col | col in cells :: if cells[col].Ref? && Loses(u, c, col, cells[col].id, gone) then Null else cells[col]
  }

  function Survivor(u: Schema, c: string, gone: set<Key>): Rec -> Option<Rec>
    requires c in u.tables
  {
    (r: Rec) => if (c, r.pk) in gone then None else Some(Rec(r.pk, Orphaned(u, c, r.cells, gone)))
  }

  /** DELETE of some rows, with the actions of the foreign keys; None when one of them forbids it. */
  function DeleteRows(u: Schema, db: Db, seeds: set<Key>): (r: Option<Db>)
    requires db.Keys == u.tables.Keys
    ensures r.Some? ==> r.value.Keys == db.Keys
  {
    var gone := Doomed(LinksOf(u, db), seeds);
    if gone.None? then None else Some(map c | c in db :: Edited(db[c], Survivor(u, c, gone.value)))
  }

  function Cleared(col: string, pk: int): Rec -> Option<Rec> {
    (r: Rec) => Some(Rec(r.pk, if Get(r.cells, col) == Ref(pk) then r.cells[col := Null] else r.cells))
  }

  /** The rows of `c` that refer to `pk` in column `col`. */
  function Referring(c: string, rows: seq<Rec>, col: string, pk: int): set<Key> {
    set r | r in rows && Get(r.cells, col) == Ref(pk) :: (c, r.pk)
  }

  /** One relation at the removal of row `pk` of `t` into the trash: clear the references, or delete the rows that must have one. */
  function ReleaseOne(u: Schema, db: Db, t: string, pk: int, rel: (string, string)): (r: Option<Db>)
    requires db.Keys == u.tables.Keys
    ensures r.Some? ==> r.value.Keys == db.Keys
  {
    var (c, col) := rel;
    if !Points(u, c, col, t) then Some(db)
    else if rel !in u.required then Some(db[c := Edited(db[c], Cleared(col, pk))])
    else DeleteRows(u, db, Referring(c, db[c], col, pk))
  }

  /** A database, and whether the statements that led there all went through. */
  datatype Stored = Stored(db: Db, ok: bool)

  function ReleaseAll(u: Schema, db: Db, t: string, pk: int, rels: seq<(string, string)>): (r: Stored)
    requires db.Keys == u.tables.Keys
    ensures r.db.Keys == db.Keys
  {
    if rels == [] then Stored(db, true)
    else
      var s := ReleaseAll(u, db, t, pk, rels[..|rels| - 1]);
      if !s.ok then s
      else
        var next := ReleaseOne(u, s.db, t, pk, rels[|rels| - 1]);
        if next.None? then Stored(s.db, false) else Stored(next.value, true)
  }

  function Stamped(db: Db, t: string, pk: int, stamp: Cells): Db
    requires t in db
  {
    var i := Find(db[t], pk);
    if i.None? then db else db[t := db[t][i.value := Rec(pk, db[t][i.value].cells + stamp)]]
  }

  // ---------------------------------------------------------------- the writes

  /** One create, update or delete of a record, as the callers of record_service ask for it. */
  datatype Write =
    | Create(table: string, key: int, values: Cells)
    | Update(table: string, key: int, values: Cells)
    | Remove(table: string, key: int, soft: bool, stamp: Cells)

  /** A new key for a create, an existing one otherwise; the stamp of a removal is in columns of its own. */
  predicate Possible(u: Schema, db: Db, w: Write) {
    && w.table in u.tables && db.Keys == u.tables.Keys
    && match w
       case Create(t, pk, _) => Find(db[t], pk).None?
       case Update(t, pk, _) => Find(db[t], pk).Some?
       case Remove(t, pk, _, stamp) =>
         && Find(db[t], pk).Some?
         && forall f | f in u.tables[t] && (f.kind.Relation? || Formula(f)) :: f.name !in stamp
  }

  /** A part of a row that has no key yet: rollups have nothing to count. */
  function NewPartValue(db: Db, cells: Cells, p: Part): Cell {
    if p.Rollup? then (if p.op == Count then Num(0.0) else Null) else PartValue(db, 0, cells, p)
  }

  function NewPartValues(db: Db, cells: Cells, ps: seq<Part>): seq<Cell> {
    seq(|ps|, i requires 0 <= i < |ps| => NewPartValue(db, cells, ps[i]))
  }

  /** `compute_values` for a row that has no key yet. */
  function RefreshedNew(u: Schema, db: Db, cells: Cells, fs: seq<Field>): Option<Cells> {
    if fs == [] then Some(cells)
    else
      var before := RefreshedNew(u, db, cells, fs[..|fs| - 1]);
      var f := fs[|fs| - 1];
      if before.None? || !Formula(f) then before
      else
        var v := u.combine(f.kind.formula, NewPartValues(db, before.value, f.kind.parts));
        if v.None? then None else Some(before.value[f.name := v.value])
  }

  function OrElse(c: Option<Cells>, cells: Cells): Cells {
    if c.Some? then c.value else cells
  }

  /** The row without its formulas, and as a create or update stores it: computed before it is, or not at all when that raises. */
  function PlainRow(u: Schema, db: Db, w: Write): Rec
    requires Possible(u, db, w)
  {
    match w
    case Create(_, pk, values) => Rec(pk, values)
    case Update(t, pk, values) => Rec(pk, db[t][Find(db[t], pk).value].cells + values)
    case Remove(t, pk, _, _) => db[t][Find(db[t], pk).value]
  }

  function OwnRow(u: Schema, db: Db, w: Write): Rec
    requires Possible(u, db, w)
  {
    var r := PlainRow(u, db, w);
    match w
    case Create(t, _, _) => Rec(r.pk, OrElse(RefreshedNew(u, db, r.cells, u.tables[t]), r.cells))
    case Update(t, _, _) => Rec(r.pk, OrElse(Recomputation(u, db, t, r), r.cells))
    case Remove(_, _, _, _) => r
  }

  /** The statements of a write, `r` being the row it stores; they are not undone when a later one is refused. */
  function Execute(u: Schema, db: Db, w: Write, r: Rec): (s: Stored)
    requires Possible(u, db, w)
    ensures s.db.Keys == db.Keys
  {
    match w
    case Create(t, _, _) => Stored(db[t := db[t] + [r]], true)
    case Update(t, pk, _) => Stored(db[t := db[t][Find(db[t], pk).value := r]], true)
    case Remove(t, pk, soft, stamp) =>
      if soft then
        var s := ReleaseAll(u, db, t, pk, u.relations);
        if s.ok then Stored(Stamped(s.db, t, pk, stamp), true) else s
      else
        var next := DeleteRows(u, db, {(t, pk)});
        if next.None? then Stored(db, false) else Stored(next.value, true)
  }

  /** The database as the write leaves it, before the ripple. */
  function Written(u: Schema, db: Db, w: Write): Stored
    requires Possible(u, db, w)
  {
    Execute(u, db, w, OwnRow(u, db, w))
  }

  /** The rows the ripple is to visit; there is none after a write that was refused. */
  function ToVisit(u: Schema, db: Db, w: Write): seq<Key>
    requires Possible(u, db, w)
  {
    var s := Written(u, db, w);
    if s.ok then Visits(u, s.db, w.table, w.key, OwnRow(u, db, w).cells) else []
  }

  /** The write and its ripple. */
  function After(u: Schema, db: Db, w: Write): Db
    requires Possible(u, db, w)
  {
    RippleOver(u, Written(u, db, w).db, ToVisit(u, db, w))
  }

  // ---------------------------------------------------------------- which writes are harmless

  function RowAt(db: Db, t: string, pk: int): Option<Rec> {
    var i := Find(RowsOf(db, t), pk);
    if i.None? then None else Some(RowsOf(db, t)[i.value])
  }

  /** The part reads, for row `x`, a row that the write changed, added or took away. */
  ghost predicate PartHit(db: Db, after: Db, x: Rec, p: Part) {
    match p
    case Own(_) => false
    case Lookup(link, parent, _) =>
      var c := Get(x.cells, link);
      c.Ref? && RowAt(db, parent, c.id) != RowAt(after, parent, c.id)
    case Rollup(child, fk, _, _) =>
      exists y :: (y in RowsOf(db, child) || y in RowsOf(after, child)) && Counted(db, after, child, fk, x.pk, y)
  }

  ghost predicate Counted(db: Db, after: Db, child: string, fk: string, pk: int, y: Rec) {
    Get(y.cells, fk) == Ref(pk) && RowAt(db, child, y.pk) != RowAt(after, child, y.pk)
  }

  /** Some formula of the row reads what the write changed. */
  ghost predicate Disturbed(u: Schema, db: Db, after: Db, t: string, x: Rec)
    requires t in u.tables
  {
    exists f, p :: f in u.tables[t] && Formula(f) && p in f.kind.parts && PartHit(db, after, x, p)
  }

  /** The write changed the row, or something one of its formulas reads. */
  ghost predicate Exposed(u: Schema, db: Db, after: Db, t: string, x: Rec)
    requires t in u.tables
  {
    RowAt(db, t, x.pk) != Some(x) || Disturbed(u, db, after, t, x)
  }

  /**
    A write after which nothing is stale: each row that it changed, or a formula of which
    reads what it changed, is visited by the ripple before an evaluation raises, or still
    holds what recomputing it comes to.
  */
  ghost predicate Harmless(u: Schema, db: Db, w: Write)
    requires Possible(u, db, w)
  {
    var after := Written(u, db, w).db;
    forall t, x | t in u.tables && x in RowsOf(after, t) && Exposed(u, db, after, t, x) ::
      Visited(u, after, ToVisit(u, db, w), (t, x.pk)) || RowAgrees(u, after, t, x)
  }

  lemma RowAtIs(db: Db, t: string, x: Rec)
    requires DistinctKeys(RowsOf(db, t))
    ensures x in RowsOf(db, t) <==> RowAt(db, t, x.pk) == Some(x)
  {
    var rows := RowsOf(db, t);
    if x in rows {
      var i :| 0 <= i < |rows| && rows[i] == x;
      assert Find(rows, x.pk) == Some(i);
    }
  }

  /** A database whose tables keep their rows in order. */
  ghost predicate AllTrack(a: Db, b: Db) {
    a.Keys == b.Keys && forall c | c in a :: Tracks(a[c], b[c])
  }

  lemma UnhitPart(u: Schema, db: Db, after: Db, x: Rec, p: Part)
    requires ValidDb(u, db) && ValidDb(u, after) && AllTrack(db, after) && !p.Own? && !PartHit(db, after, x, p)
    ensures PartValue(db, x.pk, x.cells, p) == PartValue(after, x.pk, x.cells, p)
  {
    match p
    case Lookup(_, _, _) =>
    case Rollup(child, fk, _, col) =>
      if child in db {
        forall r: Rec | Get(r.cells, fk) == Ref(x.pk) ensures r in db[child] <==> r in after[child] {
          RowAtIs(db, child, r);
          RowAtIs(after, child, r);
          assert Counted(db, after, child, fk, x.pk, r) <==> RowAt(db, child, r.pk) != RowAt(after, child, r.pk);
        }
        TrackedValues(db[child], after[child], fk, x.pk, col);
      }
  }

  lemma UndisturbedSame(u: Schema, db: Db, after: Db, t: string, x: Rec)
    requires ValidDb(u, db) && ValidDb(u, after) && AllTrack(db, after) && t in u.tables && !Disturbed(u, db, after, t, x)
    ensures CrossSame(db, after, x, u.tables[t])
  {
    forall f, p | f in u.tables[t] && Formula(f) && p in f.kind.parts && !p.Own?
      ensures PartValue(db, x.pk, x.cells, p) == PartValue(after, x.pk, x.cells, p) {
      UnhitPart(u, db, after, x, p);
    }
  }

  /** A row the write left alone, and whose formulas read nothing it changed, keeps agreeing. */
  lemma UnexposedAgrees(u: Schema, db: Db, after: Db, t: string, x: Rec)
    requires OneLevel(u) && ValidDb(u, db) && ValidDb(u, after) && AllTrack(db, after) && AllAgree(u, db)
    requires t in u.tables && !Exposed(u, db, after, t, x)
    ensures RowAgrees(u, after, t, x)
  {
    RowAtIs(db, t, x);
    UndisturbedSame(u, db, after, t, x);
    RecomputedSame(u, db, after, t, x, x);
    assert RowAgrees(u, db, t, x);
  }

  // ---------------------------------------------------------------- the writes keep keys and order

  /** What every statement does to the tables: no duplicate keys, no rows out of order, none made up. */
  ghost predicate Reduces(u: Schema, a: Db, b: Db) {
    ValidDb(u, b) && AllTrack(a, b) && forall c | c in a :: c in b && NoNew(a[c], b[c])
  }

  lemma ReducesNothing(u: Schema, db: Db)
    requires ValidDb(u, db)
    ensures Reduces(u, db, db)
  {
    forall c | c in db ensures Tracks(db[c], db[c]) && NoNew(db[c], db[c]) {
      SameKeysTrack(db[c], db[c]);
    }
  }

  lemma ReducesTwice(u: Schema, a: Db, b: Db, c: Db)
    requires Reduces(u, a, b) && Reduces(u, b, c)
    ensures Reduces(u, a, c)
  {
    forall t | t in a ensures Tracks(a[t], c[t]) && NoNew(a[t], c[t]) {
      TracksTwice(a[t], b[t], c[t]);
      NoNewTwice(a[t], b[t], c[t]);
    }
  }

  lemma DeleteReduces(u: Schema, db: Db, seeds: set<Key>)
    requires ValidDb(u, db) && DeleteRows(u, db, seeds).Some?
    ensures Reduces(u, db, DeleteRows(u, db, seeds).value)
  {
    var gone := Doomed(LinksOf(u, db), seeds).value;
    forall c | c in db
      ensures var b := Edited(db[c], Survivor(u, c, gone)); DistinctKeys(b) && Tracks(db[c], b) && NoNew(db[c], b) {
      EditedTracks(db[c], Survivor(u, c, gone));
    }
  }

  lemma ReleaseOneReduces(u: Schema, db: Db, t: string, pk: int, rel: (string, string))
    requires ValidDb(u, db) && ReleaseOne(u, db, t, pk, rel).Some?
    ensures Reduces(u, db, ReleaseOne(u, db, t, pk, rel).value)
  {
    var (c, col) := rel;
    ReducesNothing(u, db);
    if Points(u, c, col, t) {
      if rel in u.required {
        DeleteReduces(u, db, Referring(c, db[c], col, pk));
      } else {
        EditedTracks(db[c], Cleared(col, pk));
      }
    }
  }

  lemma {:induction false} ReleaseAllReduces(u: Schema, db: Db, t: string, pk: int, rels: seq<(string, string)>)
    requires ValidDb(u, db)
    ensures Reduces(u, db, ReleaseAll(u, db, t, pk, rels).db)
  {
    ReducesNothing(u, db);
    if rels != [] {
      ReleaseAllReduces(u, db, t, pk, rels[..|rels| - 1]);
      var s := ReleaseAll(u, db, t, pk, rels[..|rels| - 1]);
      if s.ok && ReleaseOne(u, s.db, t, pk, rels[|rels| - 1]).Some? {
        ReleaseOneReduces(u, s.db, t, pk, rels[|rels| - 1]);
        ReducesTwice(u, db, s.db, ReleaseOne(u, s.db, t, pk, rels[|rels| - 1]).value);
      }
    }
  }

  lemma ReplacedReduces(u: Schema, db: Db, t: string, i: nat, r: Rec)
    requires ValidDb(u, db) && t in db && i < |db[t]| && r.pk == db[t][i].pk
    ensures Reduces(u, db, db[t := db[t][i := r]])
  {
    ReducesNothing(u, db);
    var rows := db[t][i := r];
    SameKeysTrack(db[t], rows);
    forall x | x in rows ensures HasKey(db[t], x.pk) {
      assert db[t][i] in db[t];
    }
  }

  /** A write keeps the keys distinct and the rows of each table in order. */
  lemma ExecuteTracks(u: Schema, db: Db, w: Write, r: Rec)
    requires ValidDb(u, db) && Possible(u, db, w) && r.pk == w.key
    ensures ValidDb(u, Execute(u, db, w, r).db) && AllTrack(db, Execute(u, db, w, r).db)
  {
    ReducesNothing(u, db);
    match w
    case Create(t, pk, _) => SameKeysTrack(db[t], db[t] + [r]);
    case Update(t, pk, _) => ReplacedReduces(u, db, t, Find(db[t], pk).value, r);
    case Remove(t, pk, soft, stamp) =>
      if soft { TrashReduces(u, db, t, pk, stamp); }
      else if DeleteRows(u, db, {(t, pk)}).Some? { DeleteReduces(u, db, {(t, pk)}); }
  }

  lemma TrashReduces(u: Schema, db: Db, t: string, pk: int, stamp: Cells)
    requires ValidDb(u, db) && t in db
    ensures var s := ReleaseAll(u, db, t, pk, u.relations); Reduces(u, db, s.db) && Reduces(u, db, Stamped(s.db, t, pk, stamp))
  {
    var s := ReleaseAll(u, db, t, pk, u.relations);
    ReleaseAllReduces(u, db, t, pk, u.relations);
    var i := Find(s.db[t], pk);
    if i.Some? {
      ReplacedReduces(u, s.db, t, i.value, Rec(pk, s.db[t][i.value].cells + stamp));
      ReducesTwice(u, db, s.db, Stamped(s.db, t, pk, stamp));
    }
  }

  lemma OwnKey(u: Schema, db: Db, w: Write)
    requires Possible(u, db, w)
    ensures OwnRow(u, db, w).pk == w.key && PlainRow(u, db, w).pk == w.key
  {}

  /**
    The main result.  In a database in which every stored formula cell is right, all are
    right again after a write and its ripple exactly when the write was harmless.
  */
  lemma WriteAgreesIff(u: Schema, db: Db, w: Write)
    requires OneLevel(u) && ValidDb(u, db) && Possible(u, db, w) && AllAgree(u, db)
    ensures AllAgree(u, After(u, db, w)) <==> Harmless(u, db, w)
  {
    var after := Written(u, db, w).db;
    OwnKey(u, db, w);
    ExecuteTracks(u, db, w, OwnRow(u, db, w));
    RippleAgreesIff(u, after, ToVisit(u, db, w));
    forall t, x | t in u.tables && x in RowsOf(after, t) && !Exposed(u, db, after, t, x) ensures RowAgrees(u, after, t, x) {
      UnexposedAgrees(u, db, after, t, x);
    }
  }

  // ---------------------------------------------------------------- harmless kinds of writes

  /** No row refers to the key. */
  predicate Unreferenced(u: Schema, db: Db, t: string, pk: int) {
    forall c, r, g | c in u.tables && r in RowsOf(db, c) && g in u.tables[c] && g.kind == Relation(t) :: Get(r.cells, g.name) != Ref(pk)
  }

  predicate KeepsLinks(u: Schema, t: string, cells: Cells, values: Cells)
    requires t in u.tables
  {
    forall f | f in u.tables[t] && f.kind.Relation? && f.name in values :: values[f.name] == Get(cells, f.name)
  }

  /** The write went through, and no row the ripple is to visit raises. */
  predicate Smooth(u: Schema, db: Db, w: Write)
    requires Possible(u, db, w)
  {
    Written(u, db, w).ok && forall k | k in ToVisit(u, db, w) :: !Raises(u, Written(u, db, w).db, k)
  }

  lemma {:induction false} ReachAll(u: Schema, db: Db, vs: seq<Key>)
    requires db.Keys == u.tables.Keys && forall k | k in vs :: !Raises(u, db, k)
    ensures Reach(u, db, vs) == |vs|
  {
    if vs != [] {
      assert vs[0] in vs;
      ReachAll(u, db, vs[1..]);
    }
  }

  ghost predicate OnlyAt(db: Db, after: Db, t: string, pk: int) {
    forall c, k | (c, k) != (t, pk) :: RowAt(db, c, k) == RowAt(after, c, k)
  }

  ghost predicate SameLinks(u: Schema, t: string, a: Cells, b: Cells)
    requires t in u.tables
  {
    forall f | f in u.tables[t] && f.kind.Relation? :: Get(a, f.name) == Get(b, f.name)
  }

  /** The row, if there is one, has the references of `cells`. */
  ghost predicate LinksAt(u: Schema, db: Db, t: string, pk: int, cells: Cells)
    requires t in u.tables
  {
    RowAt(db, t, pk).Some? ==> SameLinks(u, t, RowAt(db, t, pk).value.cells, cells)
  }

  lemma HitIsVisited(u: Schema, db: Db, after: Db, t: string, pk: int, cells: Cells, t2: string, x: Rec, f: Field, p: Part)
    requires OneLevel(u) && ValidDb(u, db) && ValidDb(u, after) && t in u.tables && t2 in u.tables && x in RowsOf(after, t2)
    requires OnlyAt(db, after, t, pk) && LinksAt(u, db, t, pk, cells) && LinksAt(u, after, t, pk, cells)
    requires f in u.tables[t2] && Formula(f) && p in f.kind.parts && PartHit(db, after, x, p)
    ensures (t2, x.pk) in Visits(u, after, t, pk, cells)
  {
    assert SoundField(u, t2, f) && SoundPart(u, t2, p);
    match p
    case Lookup(link, parent, _) =>
      assert SoundField(u, t2, Field(link, Relation(parent)));
      assert parent == t && Get(x.cells, link) == Ref(pk);
      ChildIsVisited(u, after, t, pk, u.relations, t2, link, x);
    case Rollup(child, fk, _, _) =>
      var y :| (y in RowsOf(db, child) || y in RowsOf(after, child)) && Counted(db, after, child, fk, x.pk, y);
      RowAtIs(db, child, y);
      RowAtIs(after, child, y);
      var g := Field(fk, Relation(t2));
      assert child == t && y.pk == pk && g in u.tables[t];
      ParentIsVisited(cells, u.tables[t], g);
  }

  lemma DisturbedIsVisited(u: Schema, db: Db, after: Db, t: string, pk: int, cells: Cells, t2: string, x: Rec)
    requires OneLevel(u) && ValidDb(u, db) && ValidDb(u, after) && t in u.tables && t2 in u.tables && x in RowsOf(after, t2)
    requires OnlyAt(db, after, t, pk) && LinksAt(u, db, t, pk, cells) && LinksAt(u, after, t, pk, cells)
    requires Disturbed(u, db, after, t2, x)
    ensures (t2, x.pk) in Visits(u, after, t, pk, cells)
  {
    var f, p :| f in u.tables[t2] && Formula(f) && p in f.kind.parts && PartHit(db, after, x, p);
    HitIsVisited(u, db, after, t, pk, cells, t2, x, f, p);
  }

  /** A write that changes one row and keeps its references disturbs only rows that the ripple visits. */
  lemma SmoothIsHarmless(u: Schema, db: Db, w: Write)
    requires OneLevel(u) && ValidDb(u, db) && Possible(u, db, w) && Smooth(u, db, w)
    requires var s, cells := Written(u, db, w), OwnRow(u, db, w).cells;
      && OnlyAt(db, s.db, w.table, w.key) && LinksAt(u, db, w.table, w.key, cells) && LinksAt(u, s.db, w.table, w.key, cells)
      && forall x | x in RowsOf(s.db, w.table) && x.pk == w.key && !Disturbed(u, db, s.db, w.table, x) :: RowAgrees(u, s.db, w.table, x)
    ensures Harmless(u, db, w)
  {
    var after, vs := Written(u, db, w).db, ToVisit(u, db, w);
    OwnKey(u, db, w);
    ExecuteTracks(u, db, w, OwnRow(u, db, w));
    ReachAll(u, after, vs);
    assert vs[..|vs|] == vs;
    forall t, x | t in u.tables && x in RowsOf(after, t) && Exposed(u, db, after, t, x)
      ensures (t, x.pk) in vs || RowAgrees(u, after, t, x) {
      ExposedIsFine(u, db, after, w.table, w.key, OwnRow(u, db, w).cells, t, x);
    }
  }

  lemma ExposedIsFine(u: Schema, db: Db, after: Db, t: string, pk: int, cells: Cells, t2: string, x: Rec)
    requires OneLevel(u) && ValidDb(u, db) && ValidDb(u, after) && t in u.tables && t2 in u.tables && x in RowsOf(after, t2)
    requires OnlyAt(db, after, t, pk) && LinksAt(u, db, t, pk, cells) && LinksAt(u, after, t, pk, cells)
    requires forall y | y in RowsOf(after, t) && y.pk == pk && !Disturbed(u, db, after, t, y) :: RowAgrees(u, after, t, y)
    requires Exposed(u, db, after, t2, x)
    ensures (t2, x.pk) in Visits(u, after, t, pk, cells) || RowAgrees(u, after, t2, x)
  {
    if Disturbed(u, db, after, t2, x) {
      DisturbedIsVisited(u, db, after, t, pk, cells, t2, x);
    } else {
      RowAtIs(after, t2, x);
      assert (t2, x.pk) == (t, pk);
    }
  }

  /** A row stored as computed, or without computed cells when that raised, agrees if its formulas read nothing the write changed. */
  lemma OwnAgrees(u: Schema, db: Db, after: Db, t: string, x: Rec)
    requires OneLevel(u) && ValidDb(u, db) && ValidDb(u, after) && AllTrack(db, after) && t in u.tables
    requires var own := Rec(x.pk, OrElse(Recomputation(u, db, t, x), x.cells)); !Disturbed(u, db, after, t, own)
    ensures RowAgrees(u, after, t, Rec(x.pk, OrElse(Recomputation(u, db, t, x), x.cells)))
  {
    var own := Rec(x.pk, OrElse(Recomputation(u, db, t, x), x.cells));
    UndisturbedSame(u, db, after, t, own);
    RecomputedSame(u, db, after, t, own, own);
    if Recomputation(u, db, t, x).Some? { RecomputedAgrees(u, db, t, x); }
  }

  lemma RowAtReplaced(rows: seq<Rec>, i: nat, r: Rec, k: int)
    requires DistinctKeys(rows) && i < |rows| && r.pk == rows[i].pk
    ensures DistinctKeys(rows[i := r]) && Find(rows[i := r], k) == Find(rows, k)
  {
    var after := rows[i := r];
    assert forall j | 0 <= j < |rows| :: after[j].pk == rows[j].pk;
    var a, b := Find(rows, k), Find(after, k);
    if a.Some? { assert after[a.value].pk == k; }
    if b.Some? { assert rows[b.value].pk == k; }
  }

  lemma ReplacedOnlyAt(u: Schema, db: Db, t: string, i: nat, y: Rec)
    requires ValidDb(u, db) && t in db && i < |db[t]| && y.pk == db[t][i].pk
    ensures var after := db[t := db[t][i := y]]; OnlyAt(db, after, t, y.pk) && RowAt(after, t, y.pk) == Some(y)
  {
    forall k ensures Find(db[t][i := y], k) == Find(db[t], k) { RowAtReplaced(db[t], i, y, k); }
    RowAtIs(db, t, db[t][i]);
    assert db[t][i] in db[t] && DistinctKeys(db[t]);
    var j := Find(db[t], y.pk).value;
    assert db[t][j].pk == db[t][i].pk;
  }

  /** The references of a recomputed row are those of the row. */
  lemma RecomputedKeepsLinks(u: Schema, db: Db, t: string, x: Rec)
    requires OneLevel(u) && t in u.tables
    ensures SameLinks(u, t, OrElse(Recomputation(u, db, t, x), x.cells), x.cells)
  {
    if Recomputation(u, db, t, x).Some? { RecomputedAgrees(u, db, t, x); }
    forall f | f in u.tables[t] && f.kind.Relation? ensures !IsFormula(u, t, f.name) {
      assert SoundField(u, t, f);
    }
  }

  /** An update that leaves the references as they are is harmless, as long as no row to visit raises. */
  lemma KeptLinksAreHarmless(u: Schema, db: Db, t: string, pk: int, values: Cells)
    requires OneLevel(u) && ValidDb(u, db) && Possible(u, db, Update(t, pk, values)) && Smooth(u, db, Update(t, pk, values))
    requires KeepsLinks(u, t, db[t][Find(db[t], pk).value].cells, values)
    ensures Harmless(u, db, Update(t, pk, values))
  {
    var w := Update(t, pk, values);
    var i, plain, own, after := Find(db[t], pk).value, PlainRow(u, db, w), OwnRow(u, db, w), Written(u, db, w).db;
    RecomputedKeepsLinks(u, db, t, plain);
    assert SameLinks(u, t, own.cells, db[t][i].cells);
    forall k ensures Find(after[t], k) == Find(db[t], k) { RowAtReplaced(db[t], i, own, k); }
    assert OnlyAt(db, after, t, pk);
    ExecuteTracks(u, db, w, own);
    forall x | x in RowsOf(after, t) && x.pk == pk && !Disturbed(u, db, after, t, x) ensures RowAgrees(u, after, t, x) {
      RowAtIs(after, t, x);
      OwnAgrees(u, db, after, t, plain);
    }
    SmoothIsHarmless(u, db, w);
  }

  /** A formula of row `x` counts rows of `t`, and the written row among them before the write. */
  ghost predicate FormerParent(u: Schema, t: string, was: Cells, t2: string, x: Rec)
    requires t2 in u.tables
  {
    exists f, p :: f in u.tables[t2] && Formula(f) && p in f.kind.parts && CountedBefore(t, was, x, p)
  }

  predicate CountedBefore(t: string, was: Cells, x: Rec, p: Part) {
    p.Rollup? && p.child == t && Get(was, p.fk) == Ref(x.pk)
  }

  lemma UpdateHitIs(u: Schema, db: Db, after: Db, t: string, pk: int, was: Cells, cells: Cells, t2: string, x: Rec, f: Field, p: Part)
    requires OneLevel(u) && ValidDb(u, db) && ValidDb(u, after) && t in u.tables && t2 in u.tables && x in RowsOf(after, t2)
    requires OnlyAt(db, after, t, pk) && RowAt(db, t, pk) == Some(Rec(pk, was)) && LinksAt(u, after, t, pk, cells)
    requires f in u.tables[t2] && Formula(f) && p in f.kind.parts && PartHit(db, after, x, p)
    ensures (t2, x.pk) in Visits(u, after, t, pk, cells) || FormerParent(u, t, was, t2, x)
  {
    assert SoundField(u, t2, f) && SoundPart(u, t2, p);
    match p
    case Lookup(link, parent, _) =>
      assert SoundField(u, t2, Field(link, Relation(parent)));
      assert parent == t && Get(x.cells, link) == Ref(pk);
      ChildIsVisited(u, after, t, pk, u.relations, t2, link, x);
    case Rollup(child, fk, _, _) =>
      var y :| (y in RowsOf(db, child) || y in RowsOf(after, child)) && Counted(db, after, child, fk, x.pk, y);
      RowAtIs(db, child, y);
      RowAtIs(after, child, y);
      var g := Field(fk, Relation(t2));
      assert child == t && y.pk == pk && g in u.tables[t];
      if y in RowsOf(db, child) {
        assert CountedBefore(t, was, x, p);
      } else {
        ParentIsVisited(cells, u.tables[t], g);
      }
  }

  /** No former parent that the ripple does not visit is stale. */
  ghost predicate FormerParentsAgree(u: Schema, db: Db, w: Write)
    requires Possible(u, db, w) && w.Update?
  {
    var after, was := Written(u, db, w).db, db[w.table][Find(db[w.table], w.key).value].cells;
    forall t, x | t in u.tables && x in RowsOf(after, t) && FormerParent(u, w.table, was, t, x) && (t, x.pk) !in ToVisit(u, db, w) ::
      RowAgrees(u, after, t, x)
  }

  lemma UpdateExposedIsFine(u: Schema, db: Db, t: string, pk: int, values: Cells, t2: string, x: Rec)
    requires OneLevel(u) && ValidDb(u, db) && Possible(u, db, Update(t, pk, values)) && FormerParentsAgree(u, db, Update(t, pk, values))
    requires var after := Written(u, db, Update(t, pk, values)).db; t2 in u.tables && x in RowsOf(after, t2) && Exposed(u, db, after, t2, x)
    ensures (t2, x.pk) in ToVisit(u, db, Update(t, pk, values)) || RowAgrees(u, Written(u, db, Update(t, pk, values)).db, t2, x)
  {
    var w := Update(t, pk, values);
    var i, own, after := Find(db[t], pk).value, OwnRow(u, db, w), Written(u, db, w).db;
    ReplacedOnlyAt(u, db, t, i, own);
    ExecuteTracks(u, db, w, own);
    RowAtIs(db, t, db[t][i]);
    assert db[t][i] in RowsOf(db, t);
    if Disturbed(u, db, after, t2, x) {
      var f, p :| f in u.tables[t2] && Formula(f) && p in f.kind.parts && PartHit(db, after, x, p);
      UpdateHitIs(u, db, after, t, pk, db[t][i].cells, own.cells, t2, x, f, p);
    } else {
      RowAtIs(after, t2, x);
      assert (t2, x.pk) == (t, pk);
      OwnAgrees(u, db, after, t, PlainRow(u, db, w));
    }
  }

  /**
    An update, of plain cells or of references, whatever its formulas aggregate: as long as
    no row to visit raises, it is harmless exactly when each former parent that the ripple
    does not visit still holds the right values.
  */
  lemma UpdateHarmlessIff(u: Schema, db: Db, t: string, pk: int, values: Cells)
    requires OneLevel(u) && ValidDb(u, db) && AllAgree(u, db)
    requires Possible(u, db, Update(t, pk, values)) && Smooth(u, db, Update(t, pk, values))
    ensures Harmless(u, db, Update(t, pk, values)) <==> FormerParentsAgree(u, db, Update(t, pk, values))
  {
    var w := Update(t, pk, values);
    var after, vs := Written(u, db, w).db, ToVisit(u, db, w);
    ExecuteTracks(u, db, w, OwnRow(u, db, w));
    ReachAll(u, after, vs);
    assert vs[..|vs|] == vs;
    forall t2, x | t2 in u.tables && x in RowsOf(after, t2) && !Exposed(u, db, after, t2, x) ensures RowAgrees(u, after, t2, x) {
      UnexposedAgrees(u, db, after, t2, x);
    }
    if FormerParentsAgree(u, db, w) {
      forall t2, x | t2 in u.tables && x in RowsOf(after, t2) && Exposed(u, db, after, t2, x)
        ensures (t2, x.pk) in vs || RowAgrees(u, after, t2, x) {
        UpdateExposedIsFine(u, db, t, pk, values, t2, x);
      }
    }
  }

  lemma NewPartIs(u: Schema, db: Db, t: string, pk: int, cells: Cells, p: Part)
    requires t in u.tables && SoundPart(u, t, p) && db.Keys == u.tables.Keys && Unreferenced(u, db, t, pk)
    ensures NewPartValue(db, cells, p) == PartValue(db, pk, cells, p)
  {
    if p.Rollup? {
      forall r | r in db[p.child] ensures Get(r.cells, p.fk) != Ref(pk) {
        assert r in RowsOf(db, p.child) && Field(p.fk, Relation(t)) in u.tables[p.child];
      }
      NoneSelected(db[p.child], p.fk, pk, p.col);
    }
  }

  /** For a key nobody refers to, computing without the key gives what computing with it gives. */
  lemma {:induction false} NewIsRefreshed(u: Schema, db: Db, t: string, pk: int, cells: Cells, n: nat)
    requires OneLevel(u) && t in u.tables && n <= |u.tables[t]| && db.Keys == u.tables.Keys && Unreferenced(u, db, t, pk)
    ensures RefreshedNew(u, db, cells, u.tables[t][..n]) == Refreshed(u, db, pk, cells, u.tables[t][..n])
  {
    if n > 0 {
      NewIsRefreshed(u, db, t, pk, cells, n - 1);
      assert u.tables[t][..n][..n - 1] == u.tables[t][..n - 1];
      var f, before := u.tables[t][n - 1], RefreshedNew(u, db, cells, u.tables[t][..n - 1]);
      if Formula(f) && before.Some? {
        assert SoundField(u, t, f);
        forall i | 0 <= i < |f.kind.parts|
          ensures NewPartValue(db, before.value, f.kind.parts[i]) == PartValue(db, pk, before.value, f.kind.parts[i]) {
          assert f.kind.parts[i] in f.kind.parts;
          NewPartIs(u, db, t, pk, before.value, f.kind.parts[i]);
        }
        assert PartValues(db, pk, before.value, f.kind.parts) == NewPartValues(db, before.value, f.kind.parts);
      }
    }
  }

  lemma {:induction false} FindAppended(rows: seq<Rec>, r: Rec, k: int)
    ensures Find(rows + [r], k) == if Find(rows, k).Some? then Find(rows, k) else if r.pk == k then Some(|rows|) else None
  {
    if rows == [] {
      assert rows + [r] == [r] && [r][1..] == [];
    } else {
      assert (rows + [r])[1..] == rows[1..] + [r];
      FindAppended(rows[1..], r, k);
    }
  }

  /** A create under a key nobody refers to, as the database hands them out, is harmless, as long as no row to visit raises. */
  lemma FreshKeyIsHarmless(u: Schema, db: Db, t: string, pk: int, values: Cells)
    requires OneLevel(u) && ValidDb(u, db) && Possible(u, db, Create(t, pk, values)) && Smooth(u, db, Create(t, pk, values))
    requires Unreferenced(u, db, t, pk)
    ensures Harmless(u, db, Create(t, pk, values))
  {
    var w := Create(t, pk, values);
    var plain, own, after := PlainRow(u, db, w), OwnRow(u, db, w), Written(u, db, w).db;
    assert u.tables[t][..|u.tables[t]|] == u.tables[t];
    NewIsRefreshed(u, db, t, pk, values, |u.tables[t]|);
    assert own == Rec(pk, OrElse(Recomputation(u, db, t, plain), plain.cells));
    forall k ensures RowAt(after, t, k) == if k == pk then Some(own) else RowAt(db, t, k) { FindAppended(db[t], own, k); }
    assert OnlyAt(db, after, t, pk);
    ExecuteTracks(u, db, w, own);
    forall x | x in RowsOf(after, t) && x.pk == pk && !Disturbed(u, db, after, t, x) ensures RowAgrees(u, after, t, x) {
      RowAtIs(after, t, x);
      OwnAgrees(u, db, after, t, plain);
    }
    SmoothIsHarmless(u, db, w);
  }

  lemma {:induction false} EditedSame(rows: seq<Rec>, e: Rec -> Option<Rec>)
    requires forall r | r in rows :: e(r) == Some(r)
    ensures Edited(rows, e) == rows
  {
    if rows != [] {
      assert rows[0] in rows;
      EditedSame(rows[1..], e);
      assert rows == [rows[0]] + rows[1..];
    }
  }

  lemma KeyFound(rows: seq<Rec>, k: int)
    ensures Find(rows, k).Some? <==> HasKey(rows, k)
  {
    var i := Find(rows, k);
    if i.Some? { assert rows[i.value] in rows; }
  }

  lemma {:induction false} EditedFind(rows: seq<Rec>, e: Rec -> Option<Rec>, k: int)
    requires KeepsKeys(e) && DistinctKeys(rows)
    ensures var i, j := Find(rows, k), Find(Edited(rows, e), k);
      && (j.Some? <==> i.Some? && e(rows[i.value]).Some?)
      && (j.Some? ==> e(rows[i.value]) == Some(Edited(rows, e)[j.value]))
  {
    if rows != [] {
      TailKeys(rows);
      EditedFind(rows[1..], e, k);
      EditedNoNew(rows[1..], e);
      NoNewKey(rows[1..], Edited(rows[1..], e), rows[0].pk);
      if e(rows[0]).Some? {
        assert Edited(rows, e)[1..] == Edited(rows[1..], e);
      } else {
        assert Edited(rows, e) == Edited(rows[1..], e);
      }
      if k == rows[0].pk && e(rows[0]).None? {
        KeyFound(Edited(rows[1..], e), k);
      }
    }
  }

  lemma NoLinkTo(u: Schema, db: Db, t: string, pk: int)
    requires db.Keys == u.tables.Keys && Unreferenced(u, db, t, pk)
    ensures forall l | l in LinksOf(u, db) :: l.to != (t, pk)
  {
    forall c, r, f | c in u.tables && r in db[c] && f in u.tables[c] && f.kind.Relation? ensures Get(r.cells, f.name) == Ref(pk) ==> f.kind.table != t {
      assert r in RowsOf(db, c);
      assert f.kind == Relation(f.kind.table);
    }
  }

  lemma NothingLost(u: Schema, db: Db, c: string, r: Rec, t: string, pk: int, gone: set<Key>)
    requires db.Keys == u.tables.Keys && Unreferenced(u, db, t, pk) && c in u.tables && r in db[c] && gone <= {(t, pk)}
    ensures Orphaned(u, c, r.cells, gone) == r.cells
  {
    forall col | col in r.cells && r.cells[col].Ref? ensures !Loses(u, c, col, r.cells[col].id, gone) {
      forall f | f in u.tables[c] && f.name == col && f.kind.Relation? ensures (f.kind.table, r.cells[col].id) !in gone {
        assert r in RowsOf(db, c) && f.kind == Relation(f.kind.table);
      }
    }
  }

  lemma DeletedRowAt(u: Schema, db: Db, t: string, pk: int, c: string, k: int, gone: set<Key>)
    requires ValidDb(u, db) && Unreferenced(u, db, t, pk) && gone <= {(t, pk)} && c in db
    ensures var b := Edited(db[c], Survivor(u, c, gone)); var i, j := Find(db[c], k), Find(b, k);
      if (c, k) in gone then j.None? else (i.Some? <==> j.Some?) && (i.Some? ==> b[j.value] == db[c][i.value])
  {
    EditedFind(db[c], Survivor(u, c, gone), k);
    var i := Find(db[c], k);
    if i.Some? { NothingLost(u, db, c, db[c][i.value], t, pk, gone); }
  }

  /** Deleting a row nobody refers to changes nothing else. */
  lemma DeletedAlone(u: Schema, db: Db, t: string, pk: int)
    requires ValidDb(u, db) && Unreferenced(u, db, t, pk)
    ensures DeleteRows(u, db, {(t, pk)}).Some?
    ensures OnlyAt(db, DeleteRows(u, db, {(t, pk)}).value, t, pk) && RowAt(DeleteRows(u, db, {(t, pk)}).value, t, pk) == None
  {
    NoLinkTo(u, db, t, pk);
    UnreferencedGoAlone(LinksOf(u, db), {(t, pk)});
    var after := DeleteRows(u, db, {(t, pk)}).value;
    forall c, k ensures RowAt(after, c, k) == if (c, k) == (t, pk) then None else RowAt(db, c, k) {
      if c in db { DeletedRowAt(u, db, t, pk, c, k, {(t, pk)}); }
    }
  }

  lemma DeletedNone(u: Schema, db: Db, t: string, pk: int)
    requires ValidDb(u, db) && Unreferenced(u, db, t, pk)
    ensures DeleteRows(u, db, {}) == Some(db)
  {
    UnreferencedGoAlone(LinksOf(u, db), {});
    var none: set<Key> := {};
    var after := DeleteRows(u, db, none).value;
    forall c | c in db ensures after[c] == db[c] {
      forall r | r in db[c] ensures Survivor(u, c, none)(r) == Some(r) { NothingLost(u, db, c, r, t, pk, none); }
      EditedSame(db[c], Survivor(u, c, none));
    }
    assert after == db;
  }

  lemma {:induction false} NothingReleased(u: Schema, db: Db, t: string, pk: int, rels: seq<(string, string)>)
    requires ValidDb(u, db) && Unreferenced(u, db, t, pk)
    ensures ReleaseAll(u, db, t, pk, rels) == Stored(db, true)
  {
    if rels != [] {
      NothingReleased(u, db, t, pk, rels[..|rels| - 1]);
      var (c, col) := rels[|rels| - 1];
      if Points(u, c, col, t) {
        forall r | r in db[c] ensures Get(r.cells, col) != Ref(pk) {
          assert r in RowsOf(db, c) && Field(col, Relation(t)) in u.tables[c];
        }
        if (c, col) in u.required {
          assert Referring(c, db[c], col, pk) == {};
          DeletedNone(u, db, t, pk);
        } else {
          EditedSame(db[c], Cleared(col, pk));
          assert db[c := db[c]] == db;
        }
      }
    }
  }

  lemma StampKeeps(u: Schema, t: string, cells: Cells, stamp: Cells)
    requires OneLevel(u) && t in u.tables && forall f | f in u.tables[t] && (f.kind.Relation? || Formula(f)) :: f.name !in stamp
    requires forall f, p | f in u.tables[t] && Formula(f) && p in f.kind.parts && p.Own? :: p.name !in stamp
    ensures SameLinks(u, t, cells, cells + stamp) && SameFormulas(u, t, cells, cells + stamp) && SameRead(u, t, cells, cells + stamp)
  {
    forall col | ReadHere(u, t, col) ensures col !in stamp {
      var f :| f in u.tables[t] && Formula(f) && ReadBy(f, col);
      assert SoundField(u, t, f);
      if Own(col) !in f.kind.parts {
        var p :| p in f.kind.parts && p.Lookup? && p.link == col;
        assert SoundPart(u, t, p);
        assert Field(col, Relation(p.parent)) in u.tables[t];
      }
    }
  }

  lemma StampedAgrees(u: Schema, db: Db, after: Db, t: string, x: Rec, stamp: Cells)
    requires OneLevel(u) && ValidDb(u, db) && ValidDb(u, after) && AllTrack(db, after) && t in u.tables && RowAgrees(u, db, t, x)
    requires var y := Rec(x.pk, x.cells + stamp);
      !Disturbed(u, db, after, t, y) && SameRead(u, t, x.cells, y.cells) && SameFormulas(u, t, x.cells, y.cells)
    ensures RowAgrees(u, after, t, Rec(x.pk, x.cells + stamp))
  {
    var y := Rec(x.pk, x.cells + stamp);
    UndisturbedSame(u, db, after, t, y);
    RecomputedSame(u, db, after, t, y, y);
    RecomputedSame(u, db, db, t, x, y);
  }

  lemma TrashedAlone(u: Schema, db: Db, t: string, pk: int, stamp: Cells)
    requires OneLevel(u) && ValidDb(u, db) && AllAgree(u, db) && Unreferenced(u, db, t, pk) && Possible(u, db, Remove(t, pk, true, stamp))
    requires forall f, p | f in u.tables[t] && Formula(f) && p in f.kind.parts && p.Own? :: p.name !in stamp
    ensures var w := Remove(t, pk, true, stamp); var s := Written(u, db, w);
      && s.ok && OnlyAt(db, s.db, t, pk) && LinksAt(u, s.db, t, pk, OwnRow(u, db, w).cells)
      && forall x | x in RowsOf(s.db, t) && x.pk == pk && !Disturbed(u, db, s.db, t, x) :: RowAgrees(u, s.db, t, x)
  {
    var w := Remove(t, pk, true, stamp);
    var i, after := Find(db[t], pk).value, Written(u, db, w).db;
    NothingReleased(u, db, t, pk, u.relations);
    StampKeeps(u, t, db[t][i].cells, stamp);
    ReplacedOnlyAt(u, db, t, i, Rec(pk, db[t][i].cells + stamp));
    ExecuteTracks(u, db, w, OwnRow(u, db, w));
    forall x | x in RowsOf(after, t) && x.pk == pk && !Disturbed(u, db, after, t, x) ensures RowAgrees(u, after, t, x) {
      RowAtIs(after, t, x);
      assert db[t][i] in RowsOf(db, t);
      StampedAgrees(u, db, after, t, db[t][i], stamp);
    }
  }

  /** A removal into the trash of a row nobody refers to is harmless, as long as no row to visit raises and its own formulas read no stamp. */
  lemma UnreferencedTrashIsHarmless(u: Schema, db: Db, t: string, pk: int, stamp: Cells)
    requires OneLevel(u) && ValidDb(u, db) && AllAgree(u, db) && Unreferenced(u, db, t, pk) && Possible(u, db, Remove(t, pk, true, stamp))
    requires forall k | k in ToVisit(u, db, Remove(t, pk, true, stamp)) :: !Raises(u, Written(u, db, Remove(t, pk, true, stamp)).db, k)
    requires forall f, p | f in u.tables[t] && Formula(f) && p in f.kind.parts && p.Own? :: p.name !in stamp
    ensures Written(u, db, Remove(t, pk, true, stamp)).ok && Harmless(u, db, Remove(t, pk, true, stamp))
  {
    TrashedAlone(u, db, t, pk, stamp);
    SmoothIsHarmless(u, db, Remove(t, pk, true, stamp));
  }

  /** A removal for good of a row nobody refers to goes through and is harmless, as long as no row to visit raises. */
  lemma UnreferencedDeleteIsHarmless(u: Schema, db: Db, t: string, pk: int, stamp: Cells)
    requires OneLevel(u) && ValidDb(u, db) && Unreferenced(u, db, t, pk) && Possible(u, db, Remove(t, pk, false, stamp))
    requires forall k | k in ToVisit(u, db, Remove(t, pk, false, stamp)) :: !Raises(u, Written(u, db, Remove(t, pk, false, stamp)).db, k)
    ensures Written(u, db, Remove(t, pk, false, stamp)).ok && Harmless(u, db, Remove(t, pk, false, stamp))
  {
    var w := Remove(t, pk, false, stamp);
    DeletedAlone(u, db, t, pk);
    ExecuteTracks(u, db, w, OwnRow(u, db, w));
    forall x | x in RowsOf(Written(u, db, w).db, t) ensures x.pk != pk { RowAtIs(Written(u, db, w).db, t, x); }
    SmoothIsHarmless(u, db, w);
  }

  // ---------------------------------------------------------------- plain content

  lemma LinkBothWays(u: Schema, a: Db, b: Db, l: Link)
    requires OneLevel(u) && a.Keys == u.tables.Keys && SameBase(u, a, b) && l in LinksOf(u, a)
    ensures l in LinksOf(u, b)
  {
    var c, r, f :| c in a && c in u.tables && r in a[c] && f in u.tables[c] && f.kind.Relation? && Get(r.cells, f.name).Ref?
      && l == Link((c, r.pk), f.name, (f.kind.table, Get(r.cells, f.name).id), u.onDelete(c, f.name));
    assert SoundField(u, c, f);
    var i :| 0 <= i < |a[c]| && a[c][i] == r;
    assert SameRec(u, c, a[c][i], b[c][i]) && b[c][i] in b[c];
  }

  lemma SameBaseBack(u: Schema, a: Db, b: Db)
    requires SameBase(u, a, b)
    ensures SameBase(u, b, a)
  {
    forall t, i | t in b && 0 <= i < |b[t]| ensures SameRec(u, t, b[t][i], a[t][i]) {
      assert SameRec(u, t, a[t][i], b[t][i]);
    }
  }

  lemma SameLinksOf(u: Schema, a: Db, b: Db)
    requires OneLevel(u) && a.Keys == u.tables.Keys && SameBase(u, a, b)
    ensures LinksOf(u, a) == LinksOf(u, b)
  {
    SameBaseBack(u, a, b);
    forall l | l in LinksOf(u, a) ensures l in LinksOf(u, b) { LinkBothWays(u, a, b, l); }
    forall l | l in LinksOf(u, b) ensures l in LinksOf(u, a) { LinkBothWays(u, b, a, l); }
  }

  /** The edit treats rows with the same plain cells alike. */
  ghost predicate PlainEdit(u: Schema, c: string, e: Rec -> Option<Rec>) {
    forall x, y | SameRec(u, c, x, y) :: (e(x).Some? <==> e(y).Some?) && (e(x).Some? ==> SameRec(u, c, e(x).value, e(y).value))
  }

  lemma {:induction false} EditedBase(u: Schema, c: string, a: seq<Rec>, b: seq<Rec>, e: Rec -> Option<Rec>)
    requires PlainEdit(u, c, e) && SameRows(u, c, a, b)
    ensures SameRows(u, c, Edited(a, e), Edited(b, e))
  {
    if a != [] {
      assert SameRows(u, c, a[1..], b[1..]) by {
        forall i | 0 <= i < |a[1..]| ensures SameRec(u, c, a[1..][i], b[1..][i]) {
          assert SameRec(u, c, a[i + 1], b[i + 1]);
        }
      }
      EditedBase(u, c, a[1..], b[1..], e);
      assert SameRec(u, c, a[0], b[0]);
    }
  }

  lemma SurvivorIsPlain(u: Schema, c: string, gone: set<Key>)
    requires OneLevel(u) && c in u.tables
    ensures PlainEdit(u, c, Survivor(u, c, gone))
  {
    forall x, y | SameRec(u, c, x, y) ensures SameRec(u, c, Rec(x.pk, Orphaned(u, c, x.cells, gone)), Rec(y.pk, Orphaned(u, c, y.cells, gone))) {
      forall col | !IsFormula(u, c, col) ensures Get(Orphaned(u, c, x.cells, gone), col) == Get(Orphaned(u, c, y.cells, gone), col) {
        assert Get(x.cells, col) == Get(y.cells, col);
      }
    }
  }

  lemma ClearedIsPlain(u: Schema, c: string, col: string, pk: int)
    requires !IsFormula(u, c, col)
    ensures PlainEdit(u, c, Cleared(col, pk))
  {
    forall x, y | SameRec(u, c, x, y) ensures SameRec(u, c, Cleared(col, pk)(x).value, Cleared(col, pk)(y).value) {
      assert Get(x.cells, col) == Get(y.cells, col);
    }
  }

  lemma DeleteBase(u: Schema, a: Db, b: Db, seeds: set<Key>)
    requires OneLevel(u) && a.Keys == u.tables.Keys && SameBase(u, a, b)
    ensures var x, y := DeleteRows(u, a, seeds), DeleteRows(u, b, seeds);
      (x.Some? <==> y.Some?) && (x.Some? ==> SameBase(u, x.value, y.value))
  {
    SameLinksOf(u, a, b);
    var gone := Doomed(LinksOf(u, a), seeds);
    if gone.Some? {
      forall c | c in a ensures SameRows(u, c, Edited(a[c], Survivor(u, c, gone.value)), Edited(b[c], Survivor(u, c, gone.value))) {
        SurvivorIsPlain(u, c, gone.value);
        EditedBase(u, c, a[c], b[c], Survivor(u, c, gone.value));
      }
    }
  }

  lemma SameSeeds(u: Schema, c: string, a: seq<Rec>, b: seq<Rec>, col: string, pk: int)
    requires SameRows(u, c, a, b) && !IsFormula(u, c, col)
    ensures Referring(c, a, col, pk) == Referring(c, b, col, pk)
  {
    forall i | 0 <= i < |a| ensures a[i].pk == b[i].pk && Get(a[i].cells, col) == Get(b[i].cells, col) && a[i] in a && b[i] in b {
      assert SameRec(u, c, a[i], b[i]);
    }
    forall k | k in Referring(c, a, col, pk) ensures k in Referring(c, b, col, pk) {
      var i :| 0 <= i < |a| && Get(a[i].cells, col) == Ref(pk) && k == (c, a[i].pk);
      assert b[i] in b;
    }
    forall k | k in Referring(c, b, col, pk) ensures k in Referring(c, a, col, pk) {
      var i :| 0 <= i < |b| && Get(b[i].cells, col) == Ref(pk) && k == (c, b[i].pk);
      assert a[i] in a;
    }
  }

  lemma ClearBase(u: Schema, a: Db, b: Db, c: string, col: string, pk: int)
    requires SameBase(u, a, b) && c in a && !IsFormula(u, c, col)
    ensures SameBase(u, a[c := Edited(a[c], Cleared(col, pk))], b[c := Edited(b[c], Cleared(col, pk))])
  {
    var e := Cleared(col, pk);
    ClearedIsPlain(u, c, col, pk);
    EditedBase(u, c, a[c], b[c], e);
    TableBase(u, a, b, c, Edited(a[c], e), Edited(b[c], e));
  }

  lemma TableBase(u: Schema, a: Db, b: Db, c: string, xs: seq<Rec>, ys: seq<Rec>)
    requires SameBase(u, a, b) && c in a && SameRows(u, c, xs, ys)
    ensures SameBase(u, a[c := xs], b[c := ys])
  {}

  lemma ReleaseOneBase(u: Schema, a: Db, b: Db, t: string, pk: int, rel: (string, string))
    requires OneLevel(u) && a.Keys == u.tables.Keys && SameBase(u, a, b)
    ensures var x, y := ReleaseOne(u, a, t, pk, rel), ReleaseOne(u, b, t, pk, rel);
      (x.Some? <==> y.Some?) && (x.Some? ==> SameBase(u, x.value, y.value))
  {
    var (c, col) := rel;
    if Points(u, c, col, t) {
      assert SoundField(u, c, Field(col, Relation(t)));
      if rel in u.required {
        SameSeeds(u, c, a[c], b[c], col, pk);
        DeleteBase(u, a, b, Referring(c, a[c], col, pk));
      } else {
        ClearBase(u, a, b, c, col, pk);
      }
    }
  }

  lemma {:induction false} ReleaseAllBase(u: Schema, a: Db, b: Db, t: string, pk: int, rels: seq<(string, string)>)
    requires OneLevel(u) && a.Keys == u.tables.Keys && SameBase(u, a, b)
    ensures var x, y := ReleaseAll(u, a, t, pk, rels), ReleaseAll(u, b, t, pk, rels); x.ok == y.ok && SameBase(u, x.db, y.db)
  {
    if rels != [] {
      ReleaseAllBase(u, a, b, t, pk, rels[..|rels| - 1]);
      ReleaseOneBase(u, ReleaseAll(u, a, t, pk, rels[..|rels| - 1]).db, ReleaseAll(u, b, t, pk, rels[..|rels| - 1]).db, t, pk, rels[|rels| - 1]);
    }
  }

  lemma ReplacedBase(u: Schema, a: Db, b: Db, t: string, i: nat, x: Rec, y: Rec)
    requires SameBase(u, a, b) && t in a && i < |a[t]| && SameRec(u, t, x, y)
    ensures SameBase(u, a[t := a[t][i := x]], b[t := b[t][i := y]])
  {
    assert SameRows(u, t, a[t], b[t]);
    var xs, ys := a[t][i := x], b[t][i := y];
    forall k | 0 <= k < |xs| ensures SameRec(u, t, xs[k], ys[k]) {
      assert SameRec(u, t, a[t][k], b[t][k]);
    }
  }

  lemma StampedBase(u: Schema, a: Db, b: Db, t: string, pk: int, stamp: Cells)
    requires SameBase(u, a, b) && t in a
    ensures SameBase(u, Stamped(a, t, pk, stamp), Stamped(b, t, pk, stamp))
  {
    SameFind(u, t, a[t], b[t], pk);
    var i := Find(a[t], pk);
    if i.Some? {
      assert SameRec(u, t, a[t][i.value], b[t][i.value]);
      ReplacedBase(u, a, b, t, i.value, Rec(pk, a[t][i.value].cells + stamp), Rec(pk, b[t][i.value].cells + stamp));
    }
  }

  /** Whether a write is possible depends on the keys alone. */
  lemma SamePossible(u: Schema, a: Db, b: Db, w: Write)
    requires SameBase(u, a, b)
    ensures Possible(u, a, w) <==> Possible(u, b, w)
  {
    if w.table in a {
      SameFind(u, w.table, a[w.table], b[w.table], w.key);
    }
  }

  /** What a write does to rows and plain cells, and whether it is refused, depends on them alone. */
  lemma ExecuteBase(u: Schema, a: Db, b: Db, w: Write, x: Rec, y: Rec)
    requires OneLevel(u) && SameBase(u, a, b) && Possible(u, a, w) && Possible(u, b, w) && SameRec(u, w.table, x, y)
    ensures Execute(u, a, w, x).ok == Execute(u, b, w, y).ok && SameBase(u, Execute(u, a, w, x).db, Execute(u, b, w, y).db)
  {
    var t := w.table;
    SameFind(u, t, a[t], b[t], w.key);
    match w
    case Create(_, _, _) => assert SameRows(u, t, a[t], b[t]);
    case Update(_, pk, _) => ReplacedBase(u, a, b, t, Find(a[t], pk).value, x, y);
    case Remove(_, pk, soft, stamp) =>
      if soft {
        ReleaseAllBase(u, a, b, t, pk, u.relations);
        StampedBase(u, ReleaseAll(u, a, t, pk, u.relations).db, ReleaseAll(u, b, t, pk, u.relations).db, t, pk, stamp);
      } else {
        DeleteBase(u, a, b, {(t, pk)});
      }
  }

  lemma {:induction false} NewKeepsBase(u: Schema, db: Db, t: string, pk: int, cells: Cells, n: nat)
    requires t in u.tables && n <= |u.tables[t]|
    ensures var c := RefreshedNew(u, db, cells, u.tables[t][..n]); c.Some? ==> SameRec(u, t, Rec(pk, cells), Rec(pk, c.value))
  {
    if n > 0 {
      NewKeepsBase(u, db, t, pk, cells, n - 1);
      assert u.tables[t][..n][..n - 1] == u.tables[t][..n - 1];
      assert u.tables[t][n - 1] in u.tables[t];
    }
  }

  /** Computing the formulas of the written row changes no plain cell. */
  lemma OwnBase(u: Schema, db: Db, w: Write)
    requires OneLevel(u) && Possible(u, db, w)
    ensures SameRec(u, w.table, PlainRow(u, db, w), OwnRow(u, db, w))
  {
    var t, r := w.table, PlainRow(u, db, w);
    assert u.tables[t][..|u.tables[t]|] == u.tables[t];
    match w
    case Create(_, pk, values) => NewKeepsBase(u, db, t, pk, values, |u.tables[t]|);
    case Update(_, _, _) => if Recomputation(u, db, t, r).Some? { RecomputedAgrees(u, db, t, r); }
    case Remove(_, _, _, _) =>
  }

  /** The write itself, without any formula. */
  function PlainWrite(u: Schema, db: Db, w: Write): Db
    requires Possible(u, db, w)
  {
    Execute(u, db, w, PlainRow(u, db, w)).db
  }

  lemma PlainRowBase(u: Schema, a: Db, b: Db, w: Write)
    requires SameBase(u, a, b) && Possible(u, a, w) && Possible(u, b, w)
    ensures SameRec(u, w.table, PlainRow(u, a, w), PlainRow(u, b, w))
  {
    var t := w.table;
    SameFind(u, t, a[t], b[t], w.key);
    if !w.Create? {
      var i := Find(a[t], w.key).value;
      assert SameRec(u, t, a[t][i], b[t][i]);
    }
  }

  /** A write and its ripple, on any database with the same plain cells, leave the plain cells of the write alone. */
  lemma AfterBase(u: Schema, plain: Db, db: Db, w: Write)
    requires OneLevel(u) && ValidDb(u, db) && SameBase(u, plain, db) && Possible(u, plain, w) && Possible(u, db, w)
    ensures SameBase(u, PlainWrite(u, plain, w), After(u, db, w)) && ValidDb(u, After(u, db, w))
  {
    PlainRowBase(u, plain, db, w);
    OwnBase(u, db, w);
    var x, own := PlainRow(u, plain, w), OwnRow(u, db, w);
    assert SameRec(u, w.table, x, own) by {
      var y := PlainRow(u, db, w);
      assert SameRec(u, w.table, x, y) && SameRec(u, w.table, y, own);
    }
    ExecuteBase(u, plain, db, w, x, own);
    OwnKey(u, db, w);
    ExecuteTracks(u, db, w, own);
    RippleWorks(u, Written(u, db, w).db, ToVisit(u, db, w));
    SameBaseTwice(u, PlainWrite(u, plain, w), Written(u, db, w).db, After(u, db, w));
  }

  // ---------------------------------------------------------------- runs of writes

  /** A run of writes with their ripples, the impossible ones refused. */
  function RunOf(u: Schema, db: Db, ws: seq<Write>): Db {
    if ws == [] then db
    else
      var before, w := RunOf(u, db, ws[..|ws| - 1]), ws[|ws| - 1];
      if Possible(u, before, w) then After(u, before, w) else before
  }

  /** The same writes without any formula. */
  function PlainRun(u: Schema, db: Db, ws: seq<Write>): Db {
    if ws == [] then db
    else
      var before, w := PlainRun(u, db, ws[..|ws| - 1]), ws[|ws| - 1];
      if Possible(u, before, w) then PlainWrite(u, before, w) else before
  }

  /** The plain content of a run is that of the writes alone. */
  lemma {:induction false} RunBase(u: Schema, db: Db, ws: seq<Write>)
    requires OneLevel(u) && ValidDb(u, db)
    ensures SameBase(u, PlainRun(u, db, ws), RunOf(u, db, ws)) && ValidDb(u, RunOf(u, db, ws))
  {
    if ws == [] {
      SameBaseSelf(u, db);
    } else {
      var n := |ws| - 1;
      RunBase(u, db, ws[..n]);
      SamePossible(u, PlainRun(u, db, ws[..n]), RunOf(u, db, ws[..n]), ws[n]);
      if Possible(u, RunOf(u, db, ws[..n]), ws[n]) {
        AfterBase(u, PlainRun(u, db, ws[..n]), RunOf(u, db, ws[..n]), ws[n]);
      }
    }
  }

  ghost predicate HarmlessAt(u: Schema, db: Db, ws: seq<Write>, k: nat)
    requires k < |ws|
  {
    var now := RunOf(u, db, ws[..k]); Possible(u, now, ws[k]) ==> Harmless(u, now, ws[k])
  }

  lemma RunStep(u: Schema, db: Db, ws: seq<Write>, k: nat)
    requires OneLevel(u) && ValidDb(u, db) && k < |ws| && AllAgree(u, RunOf(u, db, ws[..k]))
    ensures AllAgree(u, RunOf(u, db, ws[..k + 1])) <==> HarmlessAt(u, db, ws, k)
  {
    RunBase(u, db, ws[..k]);
    assert ws[..k + 1][..k] == ws[..k];
    if Possible(u, RunOf(u, db, ws[..k]), ws[k]) {
      WriteAgreesIff(u, RunOf(u, db, ws[..k]), ws[k]);
    }
  }

  lemma {:induction false} HarmlessSoFar(u: Schema, db: Db, ws: seq<Write>, n: nat)
    requires OneLevel(u) && ValidDb(u, db) && AllAgree(u, db) && n <= |ws|
    requires forall k | 0 <= k < n :: HarmlessAt(u, db, ws, k)
    ensures AllAgree(u, RunOf(u, db, ws[..n]))
  {
    if n > 0 {
      HarmlessSoFar(u, db, ws, n - 1);
      assert HarmlessAt(u, db, ws, n - 1);
      RunStep(u, db, ws, n - 1);
    }
  }

  /** Every stored formula cell is right all along a run of writes exactly when every write of it was harmless. */
  lemma RunAgreesIff(u: Schema, db: Db, ws: seq<Write>)
    requires OneLevel(u) && ValidDb(u, db) && AllAgree(u, db)
    ensures (forall n | 0 <= n <= |ws| :: AllAgree(u, RunOf(u, db, ws[..n])))
       <==> (forall k | 0 <= k < |ws| :: HarmlessAt(u, db, ws, k))
  {
    if forall n | 0 <= n <= |ws| :: AllAgree(u, RunOf(u, db, ws[..n])) {
      forall k | 0 <= k < |ws| ensures HarmlessAt(u, db, ws, k) {
        var m := k + 1;
        assert AllAgree(u, RunOf(u, db, ws[..k])) && AllAgree(u, RunOf(u, db, ws[..m]));
        RunStep(u, db, ws, k);
      }
    }
    if forall k | 0 <= k < |ws| :: HarmlessAt(u, db, ws, k) {
      forall n | 0 <= n <= |ws| ensures AllAgree(u, RunOf(u, db, ws[..n])) {
        HarmlessSoFar(u, db, ws, n);
      }
    }
  }

  // ---------------------------------------------------------------- the stored rows

  function RelationVisits(u: Schema, db: Db, t: string, pk: int, rel: (string, string)): seq<Key> {
    if Points(u, rel.0, rel.1, t) then Pointing(RowsOf(db, rel.0), rel.0, rel.1, pk) else []
  }

  /** The ripple got through all of `vs`. */
  ghost predicate Through(u: Schema, db: Db, vs: seq<Key>, now: Db)
    requires db.Keys == u.tables.Keys
  {
    now == RippleOver(u, db, vs) && Reach(u, db, vs) == |vs|
  }

  /** One relation further. */
  lemma RelationNext(u: Schema, db: Db, now: Db, t: string, pk: int, parents: seq<Key>, k: nat)
    requires OneLevel(u) && ValidDb(u, db) && SameBase(u, db, now) && k < |u.relations|
    requires Through(u, db, parents + ChildVisits(u, db, t, pk, u.relations[..k]), now)
    ensures var done, vs := parents + ChildVisits(u, db, t, pk, u.relations[..k + 1]), RelationVisits(u, now, t, pk, u.relations[k]);
      && RippleOver(u, db, done) == RippleOver(u, now, vs)
      && (Reach(u, db, done) == |done| <==> Reach(u, now, vs) == |vs|)
  {
    var (c, col) := u.relations[k];
    var before, vs := parents + ChildVisits(u, db, t, pk, u.relations[..k]), RelationVisits(u, now, t, pk, u.relations[k]);
    assert u.relations[..k + 1][..k] == u.relations[..k];
    if Points(u, c, col, t) { PointingOnBase(u, db, now, c, col, t, pk); }
    assert parents + ChildVisits(u, db, t, pk, u.relations[..k + 1]) == before + vs;
    RippleAppend(u, db, before, vs);
    ReachOnBase(u, db, now, vs);
  }

  lemma {:induction false} ChildVisitsPrefix(u: Schema, db: Db, t: string, pk: int, rels: seq<(string, string)>, k: nat)
    requires k <= |rels|
    ensures ChildVisits(u, db, t, pk, rels[..k]) <= ChildVisits(u, db, t, pk, rels)
    decreases |rels|
  {
    if k < |rels| {
      var n := |rels| - 1;
      assert rels[..n][..k] == rels[..k];
      ChildVisitsPrefix(u, db, t, pk, rels[..n], k);
    } else {
      assert rels[..k] == rels;
    }
  }

  /** A ripple that stopped within the first rows stays where it is. */
  lemma StoppedStays(u: Schema, db: Db, a: seq<Key>, all: seq<Key>)
    requires OneLevel(u) && ValidDb(u, db) && a <= all && Reach(u, db, a) < |a|
    ensures RippleOver(u, db, all) == RippleOver(u, db, a)
  {
    RippleAppend(u, db, a, all[|a|..]);
    assert a + all[|a|..] == all;
  }

  lemma ReleaseNext(u: Schema, db: Db, t: string, pk: int, rels: seq<(string, string)>, k: nat)
    requires db.Keys == u.tables.Keys && k < |rels| && ReleaseAll(u, db, t, pk, rels[..k]).ok
    ensures var now := ReleaseAll(u, db, t, pk, rels[..k]).db; var next := ReleaseOne(u, now, t, pk, rels[k]);
      ReleaseAll(u, db, t, pk, rels[..k + 1]) == if next.None? then Stored(now, false) else Stored(next.value, true)
  {
    assert rels[..k + 1][..k] == rels[..k];
  }

  lemma {:induction false} FailedStays(u: Schema, db: Db, t: string, pk: int, rels: seq<(string, string)>, k: nat)
    requires db.Keys == u.tables.Keys && k <= |rels| && !ReleaseAll(u, db, t, pk, rels[..k]).ok
    ensures ReleaseAll(u, db, t, pk, rels) == ReleaseAll(u, db, t, pk, rels[..k])
    decreases |rels|
  {
    if k < |rels| {
      var n := |rels| - 1;
      assert rels[..n][..k] == rels[..k];
      FailedStays(u, db, t, pk, rels[..n], k);
    } else {
      assert rels[..k] == rels;
    }
  }

  lemma ReachStep(u: Schema, db: Db, now: Db, vs: seq<Key>, k: nat)
    requires OneLevel(u) && ValidDb(u, db) && SameBase(u, db, now) && k < |vs|
    ensures Reach(u, db, vs[k..]) == if Raises(u, now, vs[k]) then 0 else 1 + Reach(u, db, vs[k + 1..])
  {
    RaisesOnBase(u, db, now, vs[k]);
    assert vs[k..][1..] == vs[k + 1..];
  }

  class Store {
    const u: Schema
    var db: Db

    ghost predicate Valid()
      reads this
    {
      OneLevel(u) && ValidDb(u, db)
    }

    constructor (u: Schema)
      requires OneLevel(u)
      ensures Valid() && this.u == u && AllAgree(u, db)
    {
      this.u := u;
      this.db := map t | t in u.tables :: [];
    }

    /** `_recompute_row`; false when it raises. */
    method Recompute(k: Key) returns (ok: bool)
      requires db.Keys == u.tables.Keys
      modifies this`db
      ensures ok <==> !Raises(u, old(db), k)
      ensures db == if ok then Recomputed(u, old(db), k).value else old(db)
    {
      if k.0 !in db {
        return true;
      }
      var i := Find(db[k.0], k.1);
      if i.None? {
        return true;
      }
      var cells := Recomputation(u, db, k.0, db[k.0][i.value]);
      if cells.None? {
        return false;
      }
      db := db[k.0 := db[k.0][i.value := Rec(k.1, cells.value)]];
      return true;
    }

    /** A list of rows, until one raises. */
    method RecomputeAll(vs: seq<Key>) returns (ok: bool)
      requires Valid()
      modifies this`db
      ensures Valid() && SameBase(u, old(db), db) && db == RippleOver(u, old(db), vs)
      ensures ok <==> Reach(u, old(db), vs) == |vs|
    {
      ghost var db0 := db;
      SameBaseSelf(u, db);
      assert vs[0..] == vs;
      for k := 0 to |vs|
        invariant Valid() && SameBase(u, db0, db)
        invariant RippleOver(u, db, vs[k..]) == RippleOver(u, db0, vs)
        invariant Reach(u, db0, vs) == k + Reach(u, db0, vs[k..])
      {
        ghost var before := db;
        ReachStep(u, db0, db, vs, k);
        assert vs[k..][1..] == vs[k + 1..];
        var fine := Recompute(vs[k]);
        if !fine {
          return false;
        }
        RecomputedWorks(u, before, vs[k]);
        SameBaseTwice(u, db0, before, db);
      }
      return true;
    }

    /** `recompute_related`, an exception swallowed: the parents, then the children relation by relation. */
    method Ripple(t: string, pk: int, cells: Cells)
      requires Valid() && t in u.tables
      modifies this`db
      ensures Valid() && db == RippleOver(u, old(db), Visits(u, old(db), t, pk, cells))
    {
      ghost var db0, parents, all := db, ParentVisits(cells, u.tables[t]), Visits(u, db, t, pk, cells);
      var ok := RecomputeAll(ParentVisits(cells, u.tables[t]));
      if !ok {
        StoppedStays(u, db0, parents, all);
        return;
      }
      assert parents + ChildVisits(u, db0, t, pk, u.relations[..0]) == parents;
      for k := 0 to |u.relations|
        invariant Valid() && SameBase(u, db0, db) && Through(u, db0, parents + ChildVisits(u, db0, t, pk, u.relations[..k]), db)
      {
        ghost var before := db;
        RelationNext(u, db0, db, t, pk, parents, k);
        ok := RippleRelation(t, pk, u.relations[k]);
        if !ok {
          ChildVisitsPrefix(u, db0, t, pk, u.relations, k + 1);
          StoppedStays(u, db0, parents + ChildVisits(u, db0, t, pk, u.relations[..k + 1]), all);
          return;
        }
        SameBaseTwice(u, db0, before, db);
      }
      assert u.relations[..|u.relations|] == u.relations;
    }

    /** The children through one relation, as they are read when its turn comes. */
    method RippleRelation(t: string, pk: int, rel: (string, string)) returns (ok: bool)
      requires Valid()
      modifies this`db
      ensures Valid() && SameBase(u, old(db), db) && db == RippleOver(u, old(db), RelationVisits(u, old(db), t, pk, rel))
      ensures ok <==> Reach(u, old(db), RelationVisits(u, old(db), t, pk, rel)) == |RelationVisits(u, old(db), t, pk, rel)|
    {
      ok := RecomputeAll(RelationVisits(u, db, t, pk, rel));
    }

    /** The loop of `remove` into the trash over the incoming relations; false when a statement is refused. */
    method ReleaseRelations(t: string, pk: int) returns (ok: bool)
      requires db.Keys == u.tables.Keys
      modifies this`db
      ensures Stored(db, ok) == ReleaseAll(u, old(db), t, pk, u.relations)
    {
      ghost var db0 := db;
      for k := 0 to |u.relations|
        invariant db.Keys == u.tables.Keys && Stored(db, true) == ReleaseAll(u, db0, t, pk, u.relations[..k])
      {
        ReleaseNext(u, db0, t, pk, u.relations, k);
        ok := ReleaseRelation(t, pk, u.relations[k]);
        if !ok {
          FailedStays(u, db0, t, pk, u.relations, k + 1);
          return false;
        }
      }
      assert u.relations[..|u.relations|] == u.relations;
      return true;
    }

    method ReleaseRelation(t: string, pk: int, rel: (string, string)) returns (ok: bool)
      requires db.Keys == u.tables.Keys
      modifies this`db
      ensures ok <==> ReleaseOne(u, old(db), t, pk, rel).Some?
      ensures db == if ok then ReleaseOne(u, old(db), t, pk, rel).value else old(db)
    {
      var (c, col) := rel;
      if Points(u, c, col, t) {
        if rel !in u.required {
          db := db[c := Edited(db[c], Cleared(col, pk))];
        } else {
          var next := DeleteRows(u, db, Referring(c, db[c], col, pk));
          if next.None? {
            return false;
          }
          db := next.value;
        }
      }
      return true;
    }

    /** `create`. */
    method Insert(t: string, pk: int, values: Cells)
      requires Valid() && Possible(u, db, Create(t, pk, values))
      modifies this`db
      ensures Valid() && db == After(u, old(db), Create(t, pk, values))
    {
      WriteIsValid(u, db, Create(t, pk, values));
      var r := Rec(pk, OrElse(RefreshedNew(u, db, values, u.tables[t]), values));
      db := db[t := db[t] + [r]];
      Ripple(t, pk, r.cells);
    }

    /** `update`. */
    method Change(t: string, pk: int, values: Cells)
      requires Valid() && Possible(u, db, Update(t, pk, values))
      modifies this`db
      ensures Valid() && db == After(u, old(db), Update(t, pk, values))
    {
      WriteIsValid(u, db, Update(t, pk, values));
      var i := Find(db[t], pk).value;
      var merged := db[t][i].cells + values;
      var r := Rec(pk, OrElse(Recomputation(u, db, t, Rec(pk, merged)), merged));
      db := db[t := db[t][i := r]];
      Ripple(t, pk, r.cells);
    }

    /** `remove`: into the trash, its references released, or for good; false when the database refuses, which can be half-way. */
    method Delete(t: string, pk: int, soft: bool, stamp: Cells) returns (ok: bool)
      requires Valid() && Possible(u, db, Remove(t, pk, soft, stamp))
      modifies this`db
      ensures Valid() && db == After(u, old(db), Remove(t, pk, soft, stamp))
      ensures ok == Written(u, old(db), Remove(t, pk, soft, stamp)).ok
    {
      WriteIsValid(u, db, Remove(t, pk, soft, stamp));
      var row := db[t][Find(db[t], pk).value];
      if soft {
        ok := ReleaseRelations(t, pk);
        if !ok {
          return;
        }
        db := Stamped(db, t, pk, stamp);
      } else {
        var next := DeleteRows(u, db, {(t, pk)});
        if next.None? {
          return false;
        }
        db := next.value;
      }
      Ripple(t, pk, row.cells);
      return true;
    }

    /** Any run of writes, the impossible ones refused. */
    method Run(ws: seq<Write>)
      requires Valid()
      modifies this`db
      ensures Valid() && db == RunOf(u, old(db), ws)
    {
      ghost var db0 := db;
      assert ws[..0] == [];
      for k := 0 to |ws|
        invariant Valid() && db == RunOf(u, db0, ws[..k])
      {
        assert ws[..k + 1][..k] == ws[..k];
        if Possible(u, db, ws[k]) {
          match ws[k] {
            case Create(t, pk, values) => Insert(t, pk, values);
            case Update(t, pk, values) => Change(t, pk, values);
            case Remove(t, pk, soft, stamp) => var _ := Delete(t, pk, soft, stamp);
          }
        }
      }
      assert ws[..|ws|] == ws;
    }
  }

  lemma WriteIsValid(u: Schema, db: Db, w: Write)
    requires OneLevel(u) && ValidDb(u, db) && Possible(u, db, w)
    ensures ValidDb(u, Written(u, db, w).db) && ValidDb(u, After(u, db, w))
  {
    OwnKey(u, db, w);
    ExecuteTracks(u, db, w, OwnRow(u, db, w));
    RippleWorks(u, Written(u, db, w).db, ToVisit(u, db, w));
  }

  lemma PointingOnBase(u: Schema, a: Db, b: Db, c: string, col: string, t: string, pk: int)
    requires OneLevel(u) && a.Keys == u.tables.Keys && SameBase(u, a, b) && Points(u, c, col, t)
    ensures Pointing(RowsOf(a, c), c, col, pk) == Pointing(RowsOf(b, c), c, col, pk)
  {
    assert SoundField(u, c, Field(col, Relation(t)));
    SamePointing(u, a[c], b[c], c, col, pk);
  }

  // ---------------------------------------------------------------- writes that leave something stale

  // Parents with a name and a count of their children; children that show their parent's name, unless a text in `mood` makes that raise.

  const COUNT := Rollup("child", "of", Count, None)
  const SHOWN := Lookup("of", "parent", "name")
  const PARENT := [Field("name", Plain), Field("n", Computed("", [COUNT]))]
  const CHILD := [Field("of", Relation("parent")), Field("mood", Plain), Field("shown", Computed("", [SHOWN, Own("mood")]))]

  function First(formula: string, vs: seq<Cell>): Option<Cell> {
    if |vs| == 0 || (|vs| > 1 && vs[1].Text?) then None else Some(vs[0])
  }

  function Family(action: Action): Schema {
    Schema(map["parent" := PARENT, "child" := CHILD], [("child", "of")], {}, (c, col) => action, First)
  }

  const ADA := Rec(1, map["name" := Text("Ada"), "n" := Num(1.0)])
  const BOB := Rec(2, map["name" := Text("Bob"), "n" := Num(0.0)])
  const KID := Rec(1, map["of" := Ref(1), "shown" := Text("Ada")])
  const STORED: Db := map["parent" := [ADA, BOB], "child" := [KID]]

  lemma FamilyColumns(action: Action)
    ensures forall c :: IsFormula(Family(action), "parent", c) <==> c == "n"
    ensures forall c :: IsFormula(Family(action), "child", c) <==> c == "shown"
  {
    assert PARENT[1] in PARENT && CHILD[2] in CHILD;
  }

  lemma ColumnNames()
    ensures "of" != "shown" && "name" != "n" && "mood" != "shown" && "of" != "mood"
  {
    assert "of"[0] != "shown"[0] && |"name"| != |"n"| && "mood"[0] != "shown"[0] && |"of"| != |"mood"|;
  }

  lemma FamilyFields(action: Action, t: string, f: Field)
    requires t in Family(action).tables && f in Family(action).tables[t]
    ensures SoundField(Family(action), t, f)
  {
    FamilyColumns(action);
    ColumnNames();
    assert CHILD[0] == Field("of", Relation("parent")) && CHILD[0] in CHILD;
    if t == "parent" {
      assert SoundPart(Family(action), t, COUNT);
    } else {
      assert SoundPart(Family(action), t, SHOWN);
    }
  }

  lemma FamilyOrder(action: Action, t: string)
    requires t in Family(action).tables
    ensures var fs := Family(action).tables[t]; DistinctNames(fs) && forall i: nat | i < |fs| :: ReadsEarlier(fs, i)
  {
    ColumnNames();
  }

  lemma FamilyIsSound(action: Action)
    ensures OneLevel(Family(action)) && ValidDb(Family(action), STORED)
  {
    forall t, f | t in Family(action).tables && f in Family(action).tables[t] ensures SoundField(Family(action), t, f) {
      FamilyFields(action, t, f);
    }
    forall t | t in Family(action).tables
      ensures DistinctNames(Family(action).tables[t]) && forall i: nat | i < |Family(action).tables[t]| :: ReadsEarlier(Family(action).tables[t], i) {
      FamilyOrder(action, t);
    }
  }

  lemma OneCount(db: Db, pk: int, cells: Cells)
    ensures PartValues(db, pk, cells, [COUNT]) == [PartValue(db, pk, cells, COUNT)]
    ensures PartValues(db, pk, cells, [SHOWN, Own("mood")]) == [PartValue(db, pk, cells, SHOWN), Get(cells, "mood")]
  {}

  lemma Recount(action: Action, db: Db, x: Rec)
    ensures Recomputation(Family(action), db, "parent", x) == Some(x.cells["n" := PartValue(db, x.pk, x.cells, COUNT)])
  {
    var u := Family(action);
    assert PARENT[..2] == PARENT && PARENT[..2][..1] == PARENT[..1] && PARENT[..1][..0] == [];
    assert Refreshed(u, db, x.pk, x.cells, []) == Some(x.cells);
    assert Refreshed(u, db, x.pk, x.cells, PARENT[..1]) == Some(x.cells);
    OneCount(db, x.pk, x.cells);
    assert Refreshed(u, db, x.pk, x.cells, PARENT[..2]) == Some(x.cells["n" := PartValue(db, x.pk, x.cells, COUNT)]);
  }

  lemma Reshow(action: Action, db: Db, x: Rec)
    ensures Recomputation(Family(action), db, "child", x)
      == if Get(x.cells, "mood").Text? then None else Some(x.cells["shown" := PartValue(db, x.pk, x.cells, SHOWN)])
  {
    var u := Family(action);
    assert CHILD[..3] == CHILD && CHILD[..3][..2] == CHILD[..2] && CHILD[..2][..1] == CHILD[..1] && CHILD[..1][..0] == [];
    assert Refreshed(u, db, x.pk, x.cells, []) == Some(x.cells);
    assert Refreshed(u, db, x.pk, x.cells, CHILD[..1]) == Some(x.cells);
    assert Refreshed(u, db, x.pk, x.cells, CHILD[..2]) == Some(x.cells);
    OneCount(db, x.pk, x.cells);
  }

  lemma Counts(r: Rec, pk: int)
    ensures Aggregate(Count, Values([r], "of", pk, None)) == if Get(r.cells, "of") == Ref(pk) then Num(1.0) else Num(0.0)
  {
    assert [r][1..] == [] && Values([], "of", pk, None) == [];
    var vs := Values([r], "of", pk, None);
    assert vs == Selected(r, "of", pk, None) + [];
    if Get(r.cells, "of") == Ref(pk) {
      assert vs == [Ref(r.pk)];
      assert vs[1..] == [] && Present(vs) == 1;
    } else {
      assert vs == [] && Present(vs) == 0;
    }
  }

  /** A parent is right exactly when its count is. */
  lemma ParentAgrees(action: Action, db: Db, x: Rec, kid: Rec)
    requires RowsOf(db, "child") == [kid]
    ensures RowAgrees(Family(action), db, "parent", x) <==>
      Get(x.cells, "n") == if Get(kid.cells, "of") == Ref(x.pk) then Num(1.0) else Num(0.0)
  {
    Recount(action, db, x);
    Counts(kid, x.pk);
    assert PARENT[1] in PARENT;
    forall f | f in PARENT && Formula(f) ensures f == PARENT[1] {}
  }

  /** A child is right exactly when it shows what there is to show, or cannot be computed. */
  lemma ChildAgrees(action: Action, db: Db, x: Rec)
    ensures RowAgrees(Family(action), db, "child", x) <==>
      Get(x.cells, "mood").Text? || Get(x.cells, "shown") == PartValue(db, x.pk, x.cells, SHOWN)
  {
    Reshow(action, db, x);
    assert CHILD[2] in CHILD;
    forall f | f in CHILD && Formula(f) ensures f == CHILD[2] {}
  }

  lemma FamilyAgrees(action: Action)
    ensures AllAgree(Family(action), STORED)
  {
    ParentAgrees(action, STORED, ADA, KID);
    ParentAgrees(action, STORED, BOB, KID);
    ChildAgrees(action, STORED, KID);
    assert Find([ADA, BOB], 1) == Some(0);
    ColumnNames();
  }

  const MOVE := Update("child", 1, map["of" := Ref(2)])
  const MOVED := Rec(1, map["of" := Ref(2), "shown" := Text("Bob")])

  lemma Moved(action: Action)
    ensures Possible(Family(action), STORED, MOVE) && OwnRow(Family(action), STORED, MOVE) == MOVED
    ensures Written(Family(action), STORED, MOVE) == Stored(STORED["child" := [MOVED]], true)
    ensures ToVisit(Family(action), STORED, MOVE) == [("parent", 2)]
  {
    var u := Family(action);
    var merged := Rec(1, map["of" := Ref(2), "shown" := Text("Ada")]);
    assert Find([KID], 1) == Some(0);
    assert PlainRow(u, STORED, MOVE) == merged;
    assert merged.cells == KID.cells + map["of" := Ref(2)];
    MovedShows(action);
    assert [KID][0 := MOVED] == [MOVED];
    MovedVisits(action, STORED["child" := [MOVED]]);
  }

  lemma MovedShows(action: Action)
    ensures Recomputation(Family(action), STORED, "child", Rec(1, map["of" := Ref(2), "shown" := Text("Ada")])) == Some(MOVED.cells)
  {
    var merged := Rec(1, map["of" := Ref(2), "shown" := Text("Ada")]);
    Reshow(action, STORED, merged);
    assert [ADA, BOB][1..] == [BOB] && Find([BOB], 2) == Some(0) && Find([ADA, BOB], 2) == Some(1);
    assert PartValue(STORED, 1, merged.cells, SHOWN) == Text("Bob");
    assert merged.cells["shown" := Text("Bob")] == MOVED.cells;
  }

  lemma MovedVisits(action: Action, db: Db)
    ensures Visits(Family(action), db, "child", 1, MOVED.cells) == [("parent", 2)]
  {
    var rels := [("child", "of")];
    assert CHILD[1..] == [CHILD[1], CHILD[2]] && [CHILD[1], CHILD[2]][1..] == [CHILD[2]] && [CHILD[2]][1..] == [];
    assert ParentVisits(MOVED.cells, [CHILD[2]]) == [];
    assert ParentVisits(MOVED.cells, [CHILD[1], CHILD[2]]) == [];
    assert ParentVisits(MOVED.cells, CHILD) == [("parent", 2)] + [];
    assert !Points(Family(action), "child", "of", "child");
    assert rels[..0] == [] && ChildVisits(Family(action), db, "child", 1, []) == [];
    assert ChildVisits(Family(action), db, "child", 1, rels) == [] + [];
  }

  /** The kid moves from Ada to Bob: Ada's count stays at one. */
  lemma MoveLeavesStale(action: Action)
    ensures Possible(Family(action), STORED, MOVE) && !Harmless(Family(action), STORED, MOVE)
  {
    Moved(action);
    var u, after := Family(action), STORED["child" := [MOVED]];
    ParentAgrees(action, after, ADA, MOVED);
    AdaIsExposed(action, after);
    assert ADA in RowsOf(after, "parent");
  }

  lemma AdaIsExposed(action: Action, after: Db)
    requires RowsOf(after, "child") == [MOVED]
    ensures Exposed(Family(action), STORED, after, "parent", ADA)
  {
    KidHasMoved(after);
    assert KID in RowsOf(STORED, "child");
    assert PARENT[1] in PARENT && COUNT in PARENT[1].kind.parts && PartHit(STORED, after, ADA, COUNT);
    assert Disturbed(Family(action), STORED, after, "parent", ADA);
  }

  lemma KidHasMoved(after: Db)
    requires RowsOf(after, "child") == [MOVED]
    ensures Counted(STORED, after, "child", "of", 1, KID)
  {
    assert Find([KID], 1) == Some(0) && Find([MOVED], 1) == Some(0);
    assert Get(KID.cells, "of") != Get(MOVED.cells, "of");
  }

  const FREED := Rec(1, map["of" := Null, "shown" := Text("Ada")])

  lemma FreedVisits(action: Action, db: Db)
    requires RowsOf(db, "child") == [FREED]
    ensures Visits(Family(action), db, "parent", 1, ADA.cells) == []
  {
    var rels := [("child", "of")];
    assert PARENT[1..] == [PARENT[1]] && [PARENT[1]][1..] == [];
    assert ParentVisits(ADA.cells, [PARENT[1]]) == [] && ParentVisits(ADA.cells, PARENT) == [];
    assert [FREED][1..] == [] && Pointing([], "child", "of", 1) == [];
    assert Pointing([FREED], "child", "of", 1) == [];
    assert rels[..0] == [] && ChildVisits(Family(action), db, "parent", 1, []) == [];
    assert ChildVisits(Family(action), db, "parent", 1, rels) == [];
  }

  lemma FreedIsStale(action: Action, w: Write, after: Db)
    requires w.table == "parent" && w.key == 1 && Possible(Family(action), STORED, w) && OwnRow(Family(action), STORED, w) == ADA
    requires Written(Family(action), STORED, w) == Stored(after, true) && RowsOf(after, "child") == [FREED]
    ensures !Harmless(Family(action), STORED, w)
  {
    FreedVisits(action, after);
    FreedDisagrees(action, after);
    FreedIsExposed(action, after);
    assert FREED in RowsOf(after, "child");
  }

  lemma FreedDisagrees(action: Action, after: Db)
    ensures !RowAgrees(Family(action), after, "child", FREED)
  {
    ChildAgrees(action, after, FREED);
  }

  lemma FreedIsExposed(action: Action, after: Db)
    ensures Exposed(Family(action), STORED, after, "child", FREED)
  {
    assert Find([KID], 1) == Some(0);
    assert Get(KID.cells, "of") != Get(FREED.cells, "of");
  }

  const TRASH := Remove("parent", 1, true, map[])

  lemma KidIsFreed()
    ensures Edited([KID], Cleared("of", 1)) == [FREED]
  {
    assert [KID][1..] == [];
    assert KID.cells["of" := Null] == FREED.cells;
  }

  lemma Trashed(action: Action)
    ensures Possible(Family(action), STORED, TRASH) && OwnRow(Family(action), STORED, TRASH) == ADA
    ensures var s := Written(Family(action), STORED, TRASH); s.ok && RowsOf(s.db, "child") == [FREED]
  {
    var u, rels := Family(action), [("child", "of")];
    assert Find([ADA, BOB], 1) == Some(0);
    assert CHILD[0] == Field("of", Relation("parent")) && CHILD[0] in CHILD && Points(u, "child", "of", "parent");
    KidIsFreed();
    assert rels[..0] == [] && ReleaseAll(u, STORED, "parent", 1, []) == Stored(STORED, true);
    assert ReleaseAll(u, STORED, "parent", 1, rels) == Stored(STORED["child" := [FREED]], true);
  }

  /** Ada goes to the trash: the kid belongs to no one and still shows her name. */
  lemma TrashLeavesStale(action: Action)
    ensures Possible(Family(action), STORED, TRASH) && !Harmless(Family(action), STORED, TRASH)
  {
    Trashed(action);
    FreedIsStale(action, TRASH, Written(Family(action), STORED, TRASH).db);
  }

  const DELETE := Remove("parent", 1, false, map[])

  lemma FamilyLinks(action: Action)
    ensures LinksOf(Family(action), STORED) == {Link(("child", 1), "of", ("parent", 1), action)}
  {
    var l := Link(("child", 1), "of", ("parent", 1), action);
    KidIsLinked(action);
    forall m | m in LinksOf(Family(action), STORED) ensures m == l {
      OnlyOneRelation(action, m);
    }
  }

  lemma KidIsLinked(action: Action)
    ensures Link(("child", 1), "of", ("parent", 1), action) in LinksOf(Family(action), STORED)
  {
    assert CHILD[0] == Field("of", Relation("parent")) && CHILD[0] in CHILD;
    assert "child" in STORED && KID in STORED["child"] && Get(KID.cells, "of") == Ref(1);
  }

  lemma OnlyOneRelation(action: Action, m: Link)
    requires m in LinksOf(Family(action), STORED)
    ensures m == Link(("child", 1), "of", ("parent", 1), action)
  {
    var u := Family(action);
    var c, r, f :| c in STORED && c in u.tables && r in STORED[c] && f in u.tables[c] && f.kind.Relation? && Get(r.cells, f.name).Ref?
      && m == Link((c, r.pk), f.name, (f.kind.table, Get(r.cells, f.name).id), u.onDelete(c, f.name));
    assert c == "child" ==> r == KID;
  }

  lemma AdaDoomed(action: Action)
    ensures Doomed(LinksOf(Family(action), STORED), {("parent", 1)}) ==
      match action
      case Restrict => None
      case Cascade => Some({("parent", 1), ("child", 1)})
      case _ => Some({("parent", 1)})
  {
    FamilyLinks(action);
    OneLinkDoomed(Link(("child", 1), "of", ("parent", 1), action));
  }

  /** What becomes of the kid when Ada is deleted for good: it is freed, goes with her, or is left behind. */
  function KidLeft(action: Action): seq<Rec> {
    match action
    case SetNull => [FREED]
    case Cascade => []
    case _ => [KID]
  }

  lemma DeletedIs(u: Schema, db: Db, seeds: set<Key>, gone: set<Key>, after: Db)
    requires db.Keys == u.tables.Keys == after.Keys && Doomed(LinksOf(u, db), seeds) == Some(gone)
    requires forall c | c in db :: after[c] == Edited(db[c], Survivor(u, c, gone))
    ensures DeleteRows(u, db, seeds) == Some(after)
  {
    var next := DeleteRows(u, db, seeds).value;
    assert next == after by {
      forall c | c in db ensures next[c] == after[c] {}
    }
  }

  function LeftBy(action: Action): Db {
    map["parent" := [BOB], "child" := KidLeft(action)]
  }

  lemma DeletedTables(action: Action, gone: set<Key>, c: string)
    requires ("parent", 1) in gone && ("parent", 2) !in gone && (("child", 1) in gone <==> action == Cascade) && action != Restrict
    requires c in STORED
    ensures c in LeftBy(action) && LeftBy(action)[c] == Edited(STORED[c], Survivor(Family(action), c, gone))
  {
    if c == "parent" { DeletedParents(action, gone); } else { DeletedKid(action, gone); }
  }

  lemma AllDeletedTables(action: Action, gone: set<Key>)
    requires ("parent", 1) in gone && ("parent", 2) !in gone && (("child", 1) in gone <==> action == Cascade) && action != Restrict
    ensures STORED.Keys == LeftBy(action).Keys
    ensures forall c | c in STORED :: LeftBy(action)[c] == Edited(STORED[c], Survivor(Family(action), c, gone))
  {
    forall c | c in STORED ensures LeftBy(action)[c] == Edited(STORED[c], Survivor(Family(action), c, gone)) { DeletedTables(action, gone, c); }
  }

  lemma DeletedWith(action: Action, gone: set<Key>)
    requires ("parent", 1) in gone && ("parent", 2) !in gone && (("child", 1) in gone <==> action == Cascade) && action != Restrict
    requires Doomed(LinksOf(Family(action), STORED), {("parent", 1)}) == Some(gone)
    ensures DeleteRows(Family(action), STORED, {("parent", 1)}) == Some(LeftBy(action))
  {
    AllDeletedTables(action, gone);
    DeletedIs(Family(action), STORED, {("parent", 1)}, gone, LeftBy(action));
  }

  lemma DeletedRows(action: Action)
    ensures DeleteRows(Family(action), STORED, {("parent", 1)}) == if action == Restrict then None else Some(LeftBy(action))
  {
    AdaDoomed(action);
    if action == Cascade {
      DeletedWith(action, {("parent", 1), ("child", 1)});
    } else if action != Restrict {
      DeletedWith(action, {("parent", 1)});
    }
  }

  lemma DeleteIsPossible(action: Action)
    ensures Possible(Family(action), STORED, DELETE) && OwnRow(Family(action), STORED, DELETE) == ADA
  {
    assert Find([ADA, BOB], 1) == Some(0);
  }

  /** Ada is deleted for good, unless the kid is in the way. */
  lemma DeletedAda(action: Action)
    ensures Possible(Family(action), STORED, DELETE)
    ensures Written(Family(action), STORED, DELETE)
      == if action == Restrict then Stored(STORED, false) else Stored(LeftBy(action), true)
  {
    DeleteIsPossible(action);
    DeletedRows(action);
  }

  lemma DeletedParents(action: Action, gone: set<Key>)
    requires ("parent", 1) in gone && ("parent", 2) !in gone
    ensures Edited([ADA, BOB], Survivor(Family(action), "parent", gone)) == [BOB]
  {
    var u := Family(action);
    assert [ADA, BOB][1..] == [BOB] && [BOB][1..] == [];
    assert Orphaned(u, "parent", BOB.cells, gone) == BOB.cells;
    assert Edited([BOB], Survivor(u, "parent", gone)) == [BOB] + [];
  }

  lemma KidOrphaned(action: Action, gone: set<Key>)
    requires ("parent", 1) in gone
    ensures Orphaned(Family(action), "child", KID.cells, gone) == if action == SetNull then FREED.cells else KID.cells
  {
    assert CHILD[0] == Field("of", Relation("parent")) && CHILD[0] in CHILD;
    ColumnNames();
    assert Loses(Family(action), "child", "of", 1, gone) <==> action == SetNull;
  }

  lemma DeletedKid(action: Action, gone: set<Key>)
    requires ("parent", 1) in gone
    ensures Edited([KID], Survivor(Family(action), "child", gone))
      == if ("child", 1) in gone then [] else if action == SetNull then [FREED] else [KID]
  {
    KidOrphaned(action, gone);
    assert [KID][1..] == [] && Edited([], Survivor(Family(action), "child", gone)) == [];
  }

  /** Where the foreign key is the default one, SET NULL, the freed kid still shows her name. */
  lemma DeleteLeavesStale()
    ensures Possible(Family(SetNull), STORED, DELETE) && !Harmless(Family(SetNull), STORED, DELETE)
  {
    DeleteIsPossible(SetNull);
    DeletedAda(SetNull);
    FreedIsStale(SetNull, DELETE, Written(Family(SetNull), STORED, DELETE).db);
  }

  // Ada has two kids, and the first one's formula raises.

  const GLUM := Rec(1, map["of" := Ref(1), "mood" := Text("glum"), "shown" := Text("Ada")])
  const SISTER := Rec(2, map["of" := Ref(1), "shown" := Text("Ada")])
  const MOTHER := Rec(1, map["name" := Text("Ada"), "n" := Num(2.0)])
  const RENAMED := Rec(1, map["name" := Text("Eve"), "n" := Num(2.0)])
  const SIBLINGS: Db := map["parent" := [MOTHER], "child" := [GLUM, SISTER]]
  const RENAME := Update("parent", 1, map["name" := Text("Eve")])

  lemma TwoKids(db: Db)
    requires RowsOf(db, "child") == [GLUM, SISTER]
    ensures PartValue(db, 1, RENAMED.cells, COUNT) == Num(2.0)
  {
    var kids := [GLUM, SISTER];
    assert kids[1..] == [SISTER] && [SISTER][1..] == [] && Values([], "of", 1, None) == [];
    assert Values([SISTER], "of", 1, None) == [Ref(2)] + [];
    assert Values(kids, "of", 1, None) == [Ref(1)] + [Ref(2)];
    var vs := [Ref(1), Ref(2)];
    assert vs[1..] == [Ref(2)] && [Ref(2)][1..] == [];
    assert Present([Ref(2)]) == 1 && Present(vs) == 2;
    assert [Ref(1)] + [Ref(2)] == vs;
  }

  lemma Renamed(action: Action)
    ensures Possible(Family(action), SIBLINGS, RENAME) && OwnRow(Family(action), SIBLINGS, RENAME) == RENAMED
    ensures Written(Family(action), SIBLINGS, RENAME) == Stored(SIBLINGS["parent" := [RENAMED]], true)
  {
    assert Find([MOTHER], 1) == Some(0);
    assert MOTHER.cells + map["name" := Text("Eve")] == RENAMED.cells;
    Recount(action, SIBLINGS, RENAMED);
    TwoKids(SIBLINGS);
    assert RENAMED.cells["n" := Num(2.0)] == RENAMED.cells;
    assert [MOTHER][0 := RENAMED] == [RENAMED];
  }

  lemma SiblingVisits(action: Action, db: Db)
    requires RowsOf(db, "child") == [GLUM, SISTER]
    ensures Visits(Family(action), db, "parent", 1, RENAMED.cells) == [("child", 1), ("child", 2)]
  {
    var rels, kids := [("child", "of")], [GLUM, SISTER];
    assert PARENT[1..] == [PARENT[1]] && [PARENT[1]][1..] == [];
    assert ParentVisits(RENAMED.cells, [PARENT[1]]) == [] && ParentVisits(RENAMED.cells, PARENT) == [];
    assert kids[1..] == [SISTER] && [SISTER][1..] == [] && Pointing([], "child", "of", 1) == [];
    assert Pointing([SISTER], "child", "of", 1) == [("child", 2)] + [];
    assert Pointing(kids, "child", "of", 1) == [("child", 1)] + [("child", 2)];
    assert CHILD[0] == Field("of", Relation("parent")) && CHILD[0] in CHILD;
    assert rels[..0] == [] && ChildVisits(Family(action), db, "parent", 1, []) == [];
    assert ChildVisits(Family(action), db, "parent", 1, rels) == [] + [("child", 1), ("child", 2)];
  }

  lemma GlumRaises(action: Action, db: Db)
    requires db.Keys == Family(action).tables.Keys && RowsOf(db, "child") == [GLUM, SISTER]
    ensures Raises(Family(action), db, ("child", 1))
  {
    Reshow(action, db, GLUM);
    assert Find([GLUM, SISTER], 1) == Some(0);
  }

  lemma SisterIsStale(action: Action, after: Db)
    requires RowsOf(after, "parent") == [RENAMED]
    ensures !RowAgrees(Family(action), after, "child", SISTER) && PartHit(SIBLINGS, after, SISTER, SHOWN)
  {
    ChildAgrees(action, after, SISTER);
    assert Find([RENAMED], 1) == Some(0) && Find([MOTHER], 1) == Some(0);
    assert Get(MOTHER.cells, "name") != Get(RENAMED.cells, "name");
  }

  /** Ada takes another name, all references as they were: the first kid's formula raises, and the second one still shows the old name. */
  lemma RaiseCutsShort(action: Action)
    ensures Possible(Family(action), SIBLINGS, RENAME) && KeepsLinks(Family(action), "parent", MOTHER.cells, RENAME.values)
    ensures !Harmless(Family(action), SIBLINGS, RENAME)
  {
    Renamed(action);
    var u, after := Family(action), SIBLINGS["parent" := [RENAMED]];
    SiblingVisits(action, after);
    GlumRaises(action, after);
    SisterIsStale(action, after);
    assert Reach(u, after, ToVisit(u, SIBLINGS, RENAME)) == 0;
    SisterIsExposed(action, after);
    assert SISTER in RowsOf(after, "child");
  }

  lemma SisterIsExposed(action: Action, after: Db)
    requires PartHit(SIBLINGS, after, SISTER, SHOWN)
    ensures Exposed(Family(action), SIBLINGS, after, "child", SISTER)
  {
    assert CHILD[2] in CHILD && SHOWN in CHILD[2].kind.parts;
    assert Disturbed(Family(action), SIBLINGS, after, "child", SISTER);
  }
}
