/**
  The plain cells that a create, an update or a removal of a record leaves
  (app/record_service.py), its ripple included, cell by cell.
*/
module RecordMeaning {
  import opened Wrappers
  import opened ForeignKeys
  import opened Rollups
  import opened RecordWrites

  /** There is a row `pk` in `t`, and `c` holds `v` there. */
  ghost predicate CellIs(db: Db, t: string, pk: int, c: string, v: Cell) {
    InRows(RowsOf(db, t), pk, c, v)
  }

  ghost predicate InRows(rows: seq<Rec>, pk: int, c: string, v: Cell) {
    exists r :: r in rows && r.pk == pk && Get(r.cells, c) == v
  }

  lemma SameBaseCell(u: Schema, a: Db, b: Db, t: string, pk: int, c: string, v: Cell)
    requires SameBase(u, a, b) && !IsFormula(u, t, c)
    ensures CellIs(a, t, pk, c, v) <==> CellIs(b, t, pk, c, v)
  {
    if t in a {
      assert SameRows(u, t, a[t], b[t]);
      if r :| r in a[t] && r.pk == pk && Get(r.cells, c) == v {
        var i :| 0 <= i < |a[t]| && a[t][i] == r;
        assert SameRec(u, t, a[t][i], b[t][i]) && b[t][i] in b[t];
      }
      if r :| r in b[t] && r.pk == pk && Get(r.cells, c) == v {
        var i :| 0 <= i < |b[t]| && b[t][i] == r;
        assert SameRec(u, t, a[t][i], b[t][i]) && a[t][i] in a[t];
      }
    }
  }

  lemma PlainAfter(u: Schema, db: Db, w: Write, t: string, pk: int, c: string, v: Cell)
    requires OneLevel(u) && ValidDb(u, db) && Possible(u, db, w) && !IsFormula(u, t, c)
    ensures CellIs(After(u, db, w), t, pk, c, v) <==> CellIs(PlainWrite(u, db, w), t, pk, c, v)
  {
    SameBaseSelf(u, db);
    AfterBase(u, db, db, w);
    SameBaseCell(u, PlainWrite(u, db, w), After(u, db, w), t, pk, c, v);
  }

  // ---------------------------------------------------------------- creates and updates

  lemma Replaced(rows: seq<Rec>, i: nat, x: Rec, pk: int, c: string, v: Cell)
    requires DistinctKeys(rows) && i < |rows| && x.pk == rows[i].pk
    ensures InRows(rows[i := x], pk, c, v) <==> if pk == x.pk then v == Get(x.cells, c) else InRows(rows, pk, c, v)
  {
    var now := rows[i := x];
    assert now[i] in now;
    if r :| r in rows && r.pk == pk && Get(r.cells, c) == v {
      var j :| 0 <= j < |rows| && rows[j] == r;
      assert now[j] in now;
    }
    if r :| r in now && r.pk == pk && Get(r.cells, c) == v {
      var j :| 0 <= j < |now| && now[j] == r;
      assert rows[j] in rows;
    }
  }

  lemma Appended(rows: seq<Rec>, x: Rec, pk: int, c: string, v: Cell)
    requires Find(rows, x.pk).None?
    ensures InRows(rows + [x], pk, c, v) <==> if pk == x.pk then v == Get(x.cells, c) else InRows(rows, pk, c, v)
  {
    var now := rows + [x];
    assert now[|rows|] in now;
  }

  lemma StoredCells(rows: seq<Rec>, i: nat, pk: int, c: string, v: Cell)
    requires DistinctKeys(rows) && i < |rows| && rows[i].pk == pk
    ensures InRows(rows, pk, c, v) <==> v == Get(rows[i].cells, c)
  {
    assert rows[i] in rows;
    if r :| r in rows && r.pk == pk && Get(r.cells, c) == v { OneByKey(rows, r, rows[i]); }
  }

  /** A create or update stores the values it is given, on its own row, and nothing else in any plain cell. */
  lemma WrittenCellIff(u: Schema, db: Db, w: Write, t: string, pk: int, c: string, v: Cell)
    requires OneLevel(u) && ValidDb(u, db) && Possible(u, db, w) && !w.Remove? && !IsFormula(u, t, c)
    ensures CellIs(After(u, db, w), t, pk, c, v) <==>
      if t == w.table && pk == w.key && (w.Create? || c in w.values) then v == (if c in w.values then w.values[c] else Null)
      else CellIs(db, t, pk, c, v)
  {
    PlainAfter(u, db, w, t, pk, c, v);
    var rows := db[w.table];
    if w.Create? {
      Appended(rows, Rec(w.key, w.values), pk, c, v);
    } else {
      var i := Find(rows, w.key).value;
      Replaced(rows, i, Rec(w.key, rows[i].cells + w.values), pk, c, v);
      StoredCells(rows, i, w.key, c, v);
    }
  }

  // ---------------------------------------------------------------- removals for good

  /** Row `from` refers to row `to` in column `col`. */
  ghost predicate Refers(u: Schema, db: Db, from: Key, col: string, to: Key) {
    from.0 in u.tables && Field(col, Relation(to.0)) in u.tables[from.0] && CellIs(db, from.0, from.1, col, Ref(to.1))
  }

  lemma LinkIff(u: Schema, db: Db, from: Key, col: string, to: Key, action: Action)
    requires db.Keys == u.tables.Keys
    ensures Link(from, col, to, action) in LinksOf(u, db) <==> Refers(u, db, from, col, to) && action == u.onDelete(from.0, col)
  {
    if Link(from, col, to, action) in LinksOf(u, db) {
      var c, r, f :| c in db && c in u.tables && r in db[c] && f in u.tables[c] && f.kind.Relation? && Get(r.cells, f.name).Ref?
        && Link(from, col, to, action) == Link((c, r.pk), f.name, (f.kind.table, Get(r.cells, f.name).id), u.onDelete(c, f.name));
      assert f == Field(col, Relation(to.0)) && r.pk == from.1 && Get(r.cells, col) == Ref(to.1);
    }
    if Refers(u, db, from, col, to) {
      var r :| r in RowsOf(db, from.0) && r.pk == from.1 && Get(r.cells, col) == Ref(to.1);
      var f := Field(col, Relation(to.0));
      assert f.kind.Relation? && f in u.tables[from.0] && r in db[from.0];
    }
  }

  /** From the removed row to this one, each row referring to the one before in a column that cascades. */
  ghost predicate Follows(u: Schema, db: Db, p: seq<Key>) {
    p != [] && forall i | 0 < i < |p| :: GoesWith(u, db, p[i], p[i - 1])
  }

  ghost predicate GoesWith(u: Schema, db: Db, from: Key, to: Key) {
    exists col :: Refers(u, db, from, col, to) && u.onDelete(from.0, col) == Cascade
  }

  ghost predicate Goes(u: Schema, db: Db, removed: Key, k: Key) {
    exists p :: Follows(u, db, p) && p[0] == removed && p[|p| - 1] == k
  }

  lemma DragsIff(u: Schema, db: Db, from: Key, to: Key)
    requires db.Keys == u.tables.Keys
    ensures Drags(LinksOf(u, db), to, from) <==> GoesWith(u, db, from, to)
  {
    if Drags(LinksOf(u, db), to, from) {
      var l :| l in LinksOf(u, db) && l.action == Cascade && l.to == to && l.from == from;
      LinkIff(u, db, from, l.col, to, Cascade);
    }
    if col :| Refers(u, db, from, col, to) && u.onDelete(from.0, col) == Cascade {
      LinkIff(u, db, from, col, to, Cascade);
    }
  }

  lemma GoesIff(u: Schema, db: Db, removed: Key, k: Key)
    requires db.Keys == u.tables.Keys
    ensures k in Closure(LinksOf(u, db), {removed}) <==> Goes(u, db, removed, k)
  {
    ClosureIff(LinksOf(u, db), {removed}, k);
    forall p: seq<Key> ensures Chain(LinksOf(u, db), p) <==> Follows(u, db, p) {
      forall i | 0 < i < |p| ensures Drags(LinksOf(u, db), p[i - 1], p[i]) <==> GoesWith(u, db, p[i], p[i - 1]) {
        DragsIff(u, db, p[i], p[i - 1]);
      }
    }
  }

  /** Some row has to keep a reference to a row that would go. */
  ghost predicate Held(u: Schema, db: Db, removed: Key) {
    exists from, col, to :: Refers(u, db, from, col, to) && u.onDelete(from.0, col) == Restrict && Goes(u, db, removed, to)
  }

  lemma HeldIff(u: Schema, db: Db, removed: Key)
    requires db.Keys == u.tables.Keys
    ensures Doomed(LinksOf(u, db), {removed}).None? <==> Held(u, db, removed)
  {
    var gone := Closure(LinksOf(u, db), {removed});
    forall k ensures k in gone <==> Goes(u, db, removed, k) { GoesIff(u, db, removed, k); }
    if l :| l in LinksOf(u, db) && l.action == Restrict && l.to in gone {
      LinkIff(u, db, l.from, l.col, l.to, Restrict);
    }
    if from, col, to :| Refers(u, db, from, col, to) && u.onDelete(from.0, col) == Restrict && Goes(u, db, removed, to) {
      LinkIff(u, db, from, col, to, Restrict);
      assert Link(from, col, to, Restrict).to in gone;
    }
  }

  lemma {:induction false} EditedRows(rows: seq<Rec>, e: Rec -> Option<Rec>, x: Rec)
    ensures x in Edited(rows, e) <==> exists r :: r in rows && e(r) == Some(x)
  {
    if rows != [] {
      EditedRows(rows[1..], e, x);
      assert rows == [rows[0]] + rows[1..];
    }
  }

  /** The cell refers to a row that goes, in a column that is then set to NULL. */
  ghost predicate SetFree(u: Schema, db: Db, removed: Key, t: string, c: string, v: Cell) {
    v.Ref? && t in u.tables && u.onDelete(t, c) == SetNull
    && exists to :: Field(c, Relation(to)) in u.tables[t] && Goes(u, db, removed, (to, v.id))
  }

  lemma LosesIff(u: Schema, db: Db, removed: Key, t: string, c: string, v: Cell, gone: set<Key>)
    requires t in u.tables && v.Ref? && forall k :: k in gone <==> Goes(u, db, removed, k)
    ensures Loses(u, t, c, v.id, gone) <==> SetFree(u, db, removed, t, c, v)
  {
    if to :| Field(c, Relation(to)) in u.tables[t] && Goes(u, db, removed, (to, v.id)) {
      assert Field(c, Relation(to)).name == c && (Field(c, Relation(to)).kind.table, v.id) in gone;
    }
    if f :| f in u.tables[t] && f.name == c && f.kind.Relation? && (f.kind.table, v.id) in gone {
      assert f == Field(c, Relation(f.kind.table));
    }
  }

  /** What a removal for good leaves of one cell: its row stays, and it is emptied or not. */
  ghost predicate LeftBy(u: Schema, db: Db, removed: Key, t: string, pk: int, c: string, v: Cell) {
    !Goes(u, db, removed, (t, pk))
    && exists was :: CellIs(db, t, pk, c, was) && v == if SetFree(u, db, removed, t, c, was) then Null else was
  }

  lemma SurvivorCell(u: Schema, db: Db, removed: Key, t: string, gone: set<Key>, r: Rec, c: string)
    requires t in u.tables && (forall k :: k in gone <==> Goes(u, db, removed, k)) && (t, r.pk) !in gone
    ensures var was := Get(r.cells, c);
      Get(Survivor(u, t, gone)(r).value.cells, c) == if SetFree(u, db, removed, t, c, was) then Null else was
  {
    if c in r.cells && r.cells[c].Ref? { LosesIff(u, db, removed, t, c, r.cells[c], gone); }
  }

  lemma DeletedCell(u: Schema, db: Db, removed: Key, t: string, gone: set<Key>, pk: int, c: string, v: Cell)
    requires t in u.tables && t in db && forall k :: k in gone <==> Goes(u, db, removed, k)
    ensures InRows(Edited(db[t], Survivor(u, t, gone)), pk, c, v) <==> LeftBy(u, db, removed, t, pk, c, v)
  {
    var e := Survivor(u, t, gone);
    if x :| x in Edited(db[t], e) && x.pk == pk && Get(x.cells, c) == v {
      EditedRows(db[t], e, x);
      var r :| r in db[t] && e(r) == Some(x);
      SurvivorCell(u, db, removed, t, gone, r, c);
      assert CellIs(db, t, pk, c, Get(r.cells, c));
    }
    if LeftBy(u, db, removed, t, pk, c, v) {
      var was :| CellIs(db, t, pk, c, was) && v == if SetFree(u, db, removed, t, c, was) then Null else was;
      var r :| r in db[t] && r.pk == pk && Get(r.cells, c) == was;
      SurvivorCell(u, db, removed, t, gone, r, c);
      EditedRows(db[t], e, e(r).value);
    }
  }

  /**
    A removal for good: refused, with nothing changed, exactly when some row has to keep a
    reference to a row that would go; otherwise the row goes with all that follow it along
    cascading references, and references to them are emptied where the key says so.
  */
  lemma DeletedCellIff(u: Schema, db: Db, w: Write, t: string, pk: int, c: string, v: Cell)
    requires OneLevel(u) && ValidDb(u, db) && Possible(u, db, w) && w.Remove? && !w.soft && !IsFormula(u, t, c)
    ensures Written(u, db, w).ok <==> !Held(u, db, (w.table, w.key))
    ensures CellIs(After(u, db, w), t, pk, c, v) <==>
      if Held(u, db, (w.table, w.key)) then CellIs(db, t, pk, c, v) else LeftBy(u, db, (w.table, w.key), t, pk, c, v)
  {
    var removed := (w.table, w.key);
    PlainAfter(u, db, w, t, pk, c, v);
    HeldIff(u, db, removed);
    if !Held(u, db, removed) {
      var gone := Doomed(LinksOf(u, db), {removed}).value;
      forall k ensures k in gone <==> Goes(u, db, removed, k) { GoesIff(u, db, removed, k); }
      if t in db { DeletedCell(u, db, removed, t, gone, pk, c, v); }
    }
  }

  // ---------------------------------------------------------------- removals into the trash

  /** No reference to rows of the table is required. */
  ghost predicate NoneRequired(u: Schema, t: string) {
    forall c, col | c in u.tables && Field(col, Relation(t)) in u.tables[c] :: (c, col) !in u.required
  }

  /** One of the first `n` relations, from this column to table `to`. */
  ghost predicate Among(u: Schema, rels: seq<(string, string)>, t: string, c: string, to: string) {
    (t, c) in rels && Points(u, t, c, to)
  }

  ghost predicate ReleasedCell(u: Schema, db: Db, rels: seq<(string, string)>, to: string, key: int, t: string, pk: int, c: string, v: Cell) {
    exists was :: CellIs(db, t, pk, c, was) && v == if was == Ref(key) && Among(u, rels, t, c, to) then Null else was
  }

  lemma ClearedCell(r: Rec, col: string, key: int, c: string)
    ensures var was := Get(r.cells, c);
      Get(Cleared(col, key)(r).value.cells, c) == if was == Ref(key) && c == col then Null else was
  {}

  lemma ClearedRows(rows: seq<Rec>, col: string, key: int, pk: int, c: string, v: Cell)
    ensures InRows(Edited(rows, Cleared(col, key)), pk, c, v) <==>
      exists was :: InRows(rows, pk, c, was) && v == if was == Ref(key) && c == col then Null else was
  {
    var e := Cleared(col, key);
    if x :| x in Edited(rows, e) && x.pk == pk && Get(x.cells, c) == v {
      EditedRows(rows, e, x);
      var r :| r in rows && e(r) == Some(x);
      ClearedCell(r, col, key, c);
      assert InRows(rows, pk, c, Get(r.cells, c));
    }
    if was :| InRows(rows, pk, c, was) && v == if was == Ref(key) && c == col then Null else was {
      var r :| r in rows && r.pk == pk && Get(r.cells, c) == was;
      ClearedCell(r, col, key, c);
      EditedRows(rows, e, e(r).value);
      assert e(r).value in Edited(rows, e);
    }
  }

  lemma ReleaseOneCell(u: Schema, db: Db, to: string, key: int, rel: (string, string), t: string, pk: int, c: string, v: Cell)
    requires db.Keys == u.tables.Keys && (rel in u.required ==> !Points(u, rel.0, rel.1, to))
    ensures ReleaseOne(u, db, to, key, rel).Some?
    ensures CellIs(ReleaseOne(u, db, to, key, rel).value, t, pk, c, v) <==>
      exists was :: CellIs(db, t, pk, c, was) && v == if was == Ref(key) && (t, c) == rel && Points(u, t, c, to) then Null else was
  {
    if Points(u, rel.0, rel.1, to) && t == rel.0 {
      ClearedRows(db[t], rel.1, key, pk, c, v);
      forall was ensures CellIs(db, t, pk, c, was) <==> InRows(db[t], pk, c, was) {}
    } else {
      var now := ReleaseOne(u, db, to, key, rel).value;
      assert RowsOf(now, t) == RowsOf(db, t);
      assert CellIs(now, t, pk, c, v) <==> CellIs(db, t, pk, c, v);
    }
  }

  lemma {:induction false} ReleasedIff(u: Schema, db: Db, to: string, key: int, rels: seq<(string, string)>, t: string, pk: int, c: string, v: Cell)
    requires db.Keys == u.tables.Keys && forall rel | rel in rels && rel in u.required :: !Points(u, rel.0, rel.1, to)
    ensures ReleaseAll(u, db, to, key, rels).ok
    ensures CellIs(ReleaseAll(u, db, to, key, rels).db, t, pk, c, v) <==> ReleasedCell(u, db, rels, to, key, t, pk, c, v)
    decreases |rels|
  {
    if rels == [] {
      assert ReleasedCell(u, db, rels, to, key, t, pk, c, v) <==> CellIs(db, t, pk, c, v);
    } else {
      var n := |rels| - 1;
      forall x: Cell ensures CellIs(ReleaseAll(u, db, to, key, rels[..n]).db, t, pk, c, x) <==> ReleasedCell(u, db, rels[..n], to, key, t, pk, c, x) {
        ReleasedIff(u, db, to, key, rels[..n], t, pk, c, x);
      }
      ReleasedIff(u, db, to, key, rels[..n], t, pk, c, v);
      var before := ReleaseAll(u, db, to, key, rels[..n]).db;
      assert rels[n] in rels && rels == rels[..n] + [rels[n]];
      ReleaseOneCell(u, before, to, key, rels[n], t, pk, c, v);
      ReleasedNext(u, db, before, rels, to, key, t, pk, c, v);
    }
  }

  lemma ReleasedNext(u: Schema, db: Db, before: Db, rels: seq<(string, string)>, to: string, key: int, t: string, pk: int, c: string, v: Cell)
    requires rels != [] && rels == rels[..|rels| - 1] + [rels[|rels| - 1]]
    requires forall x :: CellIs(before, t, pk, c, x) <==> ReleasedCell(u, db, rels[..|rels| - 1], to, key, t, pk, c, x)
    ensures ReleasedCell(u, db, rels, to, key, t, pk, c, v) <==>
      exists was :: CellIs(before, t, pk, c, was) && v == if was == Ref(key) && (t, c) == rels[|rels| - 1] && Points(u, t, c, to) then Null else was
  {
    var n := |rels| - 1;
    if ReleasedCell(u, db, rels, to, key, t, pk, c, v) {
      var was :| CellIs(db, t, pk, c, was) && v == if was == Ref(key) && Among(u, rels, t, c, to) then Null else was;
      var mid := if was == Ref(key) && Among(u, rels[..n], t, c, to) then Null else was;
      assert ReleasedCell(u, db, rels[..n], to, key, t, pk, c, mid);
      assert CellIs(before, t, pk, c, mid);
    }
    if mid :| CellIs(before, t, pk, c, mid) && v == if mid == Ref(key) && (t, c) == rels[n] && Points(u, t, c, to) then Null else mid {
      assert ReleasedCell(u, db, rels[..n], to, key, t, pk, c, mid);
    }
  }

  lemma StampedCell(u: Schema, db: Db, t: string, key: int, stamp: Cells, t2: string, pk: int, c: string, v: Cell)
    requires ValidDb(u, db) && t in db
    ensures CellIs(Stamped(db, t, key, stamp), t2, pk, c, v) <==>
      if (t2, pk) == (t, key) && c in stamp then v == stamp[c] && Find(db[t], key).Some? else CellIs(db, t2, pk, c, v)
  {
    var i := Find(db[t], key);
    if i.Some? {
      var row := Rec(key, db[t][i.value].cells + stamp);
      Replaced(db[t], i.value, row, pk, c, v);
      StoredCells(db[t], i.value, key, c, v);
    }
  }

  /** The cell as it was, emptied if it refers to the trashed row. */
  ghost predicate TrashLeaves(u: Schema, db: Db, to: string, key: int, t: string, pk: int, c: string, v: Cell) {
    exists was :: CellIs(db, t, pk, c, was) && v == if was == Ref(key) && t in u.tables && Field(c, Relation(to)) in u.tables[t] then Null else was
  }

  lemma AllAmong(u: Schema, t: string, c: string, to: string)
    requires OneLevel(u)
    ensures Among(u, u.relations, t, c, to) <==> t in u.tables && Field(c, Relation(to)) in u.tables[t]
  {
    if t in u.tables && Field(c, Relation(to)) in u.tables[t] { assert SoundField(u, t, Field(c, Relation(to))); }
  }

  lemma TrashedPlain(u: Schema, db: Db, w: Write, t: string, pk: int, c: string, v: Cell)
    requires OneLevel(u) && ValidDb(u, db) && Possible(u, db, w) && w.Remove? && w.soft && NoneRequired(u, w.table)
    ensures var s := ReleaseAll(u, db, w.table, w.key, u.relations);
      && s.ok && ValidDb(u, s.db) && PlainWrite(u, db, w) == Stamped(s.db, w.table, w.key, w.stamp)
      && (CellIs(s.db, t, pk, c, v) <==> TrashLeaves(u, db, w.table, w.key, t, pk, c, v))
      && Find(s.db[w.table], w.key).Some?
  {
    AllAmong(u, t, c, w.table);
    ReleaseAllReduces(u, db, w.table, w.key, u.relations);
    ReleasedIff(u, db, w.table, w.key, u.relations, t, pk, c, v);
    StillThere(u, db, w);
  }

  /**
    A removal into the trash of a row that no other row has to refer to: it stays, under
    the stamp, every reference to it is emptied, and no other cell changes.
  */
  lemma TrashedCellIff(u: Schema, db: Db, w: Write, t: string, pk: int, c: string, v: Cell)
    requires OneLevel(u) && ValidDb(u, db) && Possible(u, db, w) && w.Remove? && w.soft && !IsFormula(u, t, c)
    requires NoneRequired(u, w.table)
    ensures Written(u, db, w).ok
    ensures CellIs(After(u, db, w), t, pk, c, v) <==>
      if (t, pk) == (w.table, w.key) && c in w.stamp then v == w.stamp[c]
      else TrashLeaves(u, db, w.table, w.key, t, pk, c, v)
  {
    PlainAfter(u, db, w, t, pk, c, v);
    TrashedPlain(u, db, w, t, pk, c, v);
    StampedCell(u, ReleaseAll(u, db, w.table, w.key, u.relations).db, w.table, w.key, w.stamp, t, pk, c, v);
  }

  lemma StillThere(u: Schema, db: Db, w: Write)
    requires Possible(u, db, w) && w.Remove? && NoneRequired(u, w.table)
    ensures Find(ReleaseAll(u, db, w.table, w.key, u.relations).db[w.table], w.key).Some?
  {
    var s := ReleaseAll(u, db, w.table, w.key, u.relations);
    var row := db[w.table][Find(db[w.table], w.key).value];
    assert CellIs(db, w.table, w.key, "", Get(row.cells, ""));
    var now := if Get(row.cells, "") == Ref(w.key) && Among(u, u.relations, w.table, "", w.table) then Null else Get(row.cells, "");
    ReleasedIff(u, db, w.table, w.key, u.relations, w.table, w.key, "", now);
    assert ReleasedCell(u, db, u.relations, w.table, w.key, w.table, w.key, "", now);
    var r :| r in s.db[w.table] && r.pk == w.key;
    KeyFound(s.db[w.table], w.key);
  }

  // ---------------------------------------------------------------- the rows a ripple visits

  lemma {:induction false} ParentVisitsIff(cells: Cells, fs: seq<Field>, k: Key)
    ensures k in ParentVisits(cells, fs) <==> exists f :: f in fs && f.kind == Relation(k.0) && Get(cells, f.name) == Ref(k.1)
  {
    if fs != [] {
      ParentVisitsIff(cells, fs[1..], k);
      assert fs == [fs[0]] + fs[1..];
    }
  }

  lemma {:induction false} PointingIff(rows: seq<Rec>, c: string, col: string, pk: int, k: Key)
    ensures k in Pointing(rows, c, col, pk) <==> k.0 == c && InRows(rows, k.1, col, Ref(pk))
  {
    if rows != [] {
      PointingIff(rows[1..], c, col, pk, k);
      assert rows == [rows[0]] + rows[1..];
    }
  }

  /** The row points at `pk` of `t` through one of the relations. */
  ghost predicate PointsAt(u: Schema, db: Db, rels: seq<(string, string)>, k: Key, t: string, pk: int) {
    exists col :: (k.0, col) in rels && k.0 in u.tables && Field(col, Relation(t)) in u.tables[k.0] && CellIs(db, k.0, k.1, col, Ref(pk))
  }

  lemma {:induction false} ChildVisitsIff(u: Schema, db: Db, t: string, pk: int, rels: seq<(string, string)>, k: Key)
    ensures k in ChildVisits(u, db, t, pk, rels) <==> PointsAt(u, db, rels, k, t, pk)
  {
    if rels != [] {
      var n := |rels| - 1;
      ChildVisitsIff(u, db, t, pk, rels[..n], k);
      assert rels == rels[..n] + [rels[n]];
      PointingIff(RowsOf(db, rels[n].0), rels[n].0, rels[n].1, pk, k);
    }
  }

  /** A ripple visits exactly the rows that the row refers to and those that refer to it, the former first. */
  lemma VisitsIff(u: Schema, db: Db, t: string, pk: int, cells: Cells, k: Key)
    requires OneLevel(u) && t in u.tables
    ensures k in Visits(u, db, t, pk, cells) <==>
      || (exists f :: f in u.tables[t] && f.kind == Relation(k.0) && Get(cells, f.name) == Ref(k.1))
      || (exists col :: k.0 in u.tables && Field(col, Relation(t)) in u.tables[k.0] && CellIs(db, k.0, k.1, col, Ref(pk)))
    ensures ParentVisits(cells, u.tables[t]) <= Visits(u, db, t, pk, cells)
  {
    ParentVisitsIff(cells, u.tables[t], k);
    ChildVisitsIff(u, db, t, pk, u.relations, k);
    if k.0 in u.tables {
      forall col | Field(col, Relation(t)) in u.tables[k.0] ensures (k.0, col) in u.relations {
        assert SoundField(u, k.0, Field(col, Relation(t)));
      }
    }
  }
}
