/**
  The database after a merge (app/reconcile.py), cell by cell and link by link.
*/
module MergeMeaning {
  import opened Wrappers
  import opened Merge

  /** Null and the empty text. */
  ghost predicate Nothing(c: Cell) {
    c in {Null, Text("")}
  }

  ghost function At(ts: Tables, name: string, pk: int, c: string): Cell {
    if name in ts && pk in ts[name] && c in ts[name][pk] then ts[name][pk][c] else Null
  }

  /** A key column that refers to the table names the survivor where it named the duplicate. */
  ghost predicate Follows(m: Meta, name: string, c: string, was: Cell, now: Cell, d: int, s: int) {
    if was == Key(d) && Fk(name, c) in m.incoming then now == Key(s) else now == was
  }

  lemma PointsIff(fks: seq<Fk>, name: string, c: string)
    ensures Points(fks, name, c) <==> Fk(name, c) in fks
  {
    if Points(fks, name, c) {
      var fk :| fk in fks && fk.child == name && fk.col == c;
      assert fk == Fk(name, c);
    }
  }

  /** The cell of the survivor's row that counts: its own, unless that is nothing and the duplicate has something to fill in. */
  ghost function Taken(m: Meta, ts: Tables, d: int, s: int, c: string): Cell {
    var mine, theirs := At(ts, m.table, s, c), At(ts, m.table, d, c);
    if c in m.fillable && Nothing(mine) && !Nothing(theirs) then theirs else mine
  }

  lemma RenamedCell(m: Meta, name: string, row: Row, d: int, s: int, c: string)
    ensures Follows(m, name, c, CellOf(row, c), CellOf(ImageRow(m.incoming, name, row, d, s), c), d, s)
  {
    PointsIff(m.incoming, name, c);
  }

  /** The cells of all other rows: what they were, each reference to the duplicate turned to the survivor. */
  lemma OtherCells(m: Meta, ts: Tables, d: int, s: int, stamp: Row, name: string, pk: int, c: string)
    requires d != s && m.table in ts && d in ts[m.table] && s in ts[m.table] && (name, pk) != (m.table, s) && (name, pk) != (m.table, d)
    ensures var after := MergedTables(m, ts, d, s, stamp);
      && (name in after && pk in after[name] <==> name in ts && pk in ts[name])
      && Follows(m, name, c, At(ts, name, pk, c), At(after, name, pk, c), d, s)
  {
    NothingElseChanges(m, ts, d, s, stamp);
    if name in ts && pk in ts[name] { RenamedCell(m, name, ts[name][pk], d, s, c); }
  }

  /**
    The survivor's cells after a merge: its own, with the gaps filled from the duplicate,
    references to the duplicate turned to itself.
  */
  lemma MergedCells(m: Meta, ts: Tables, d: int, s: int, stamp: Row, c: string)
    requires d != s && m.table in ts && d in ts[m.table] && s in ts[m.table]
    ensures var after := MergedTables(m, ts, d, s, stamp);
      m.table in after && s in after[m.table] && Follows(m, m.table, c, Taken(m, ts, d, s, c), At(after, m.table, s, c), d, s)
  {
    PointsIff(m.incoming, m.table, c);
    SurvivorCells(m, ts, d, s, stamp, c);
  }

  /** The duplicate is gone or, in the trash, as it was under the stamp, its own references turned as well. */
  lemma DuplicateCells(m: Meta, ts: Tables, d: int, s: int, stamp: Row, c: string)
    requires d != s && m.table in ts && d in ts[m.table] && s in ts[m.table]
    ensures var after := MergedTables(m, ts, d, s, stamp);
      && m.table in after && (d in after[m.table] <==> m.softDelete)
      && (m.softDelete && c in stamp ==> At(after, m.table, d, c) == stamp[c])
      && (m.softDelete && c !in stamp ==> Follows(m, m.table, c, At(ts, m.table, d, c), At(after, m.table, d, c), d, s))
  {
    RenamedCell(m, m.table, ts[m.table][d], d, s, c);
  }

  /** Every link after a merge: the old ones, the duplicate replaced by the survivor on the sides that are the table's. */
  lemma MergedLinkIff(m: Meta, js: Junctions, d: int, s: int, j: string, a: int, b: int)
    requires j in js
    ensures (a, b) in ImageJunctions(m.links, js, d, s)[j] <==>
      exists x, y :: (x, y) in js[j]
        && a == (if Side(j, true) in m.links && x == d then s else x)
        && b == (if Side(j, false) in m.links && y == d then s else y)
  {
    if (a, b) in ImageJunctions(m.links, js, d, s)[j] {
      var p :| p in js[j] && (a, b) ==
        (if Sided(m.links, j, true) then Q(d, s, p.0) else p.0, if Sided(m.links, j, false) then Q(d, s, p.1) else p.1);
      assert (p.0, p.1) in js[j];
    }
  }
}
