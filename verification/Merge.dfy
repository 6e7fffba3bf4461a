/**
  Folding a duplicate record into a survivor (app/reconcile.py), over the row operations
  of app/data_service.py and the deletion of app/record_service.py.  The result is the
  database with the two records identified.

  Tables are maps from primary key to row; a junction is the set of its key pairs.
*/
module Merge {
  import opened Wrappers
  import FK = ForeignKeys

  datatype Cell = Null | Key(id: int) | Text(s: string)

  type Row = map<string, Cell>

  type Table = map<int, Row>

  type Tables = map<string, Table>

  type Pairs = set<(int, int)>

  type Junctions = map<string, Pairs>

  /** An M:1 relation pointing at the table: `_incoming_m1`. */
  datatype Fk = Fk(child: string, col: string)

  /** One direction of an M:N relation of the table: `_mn_links`; `left` is the side of this table's column. */
  datatype Side = Side(junction: string, left: bool)

  /**
    `fillable` leaves out the file columns; `notNull` are the key columns that cannot be
    empty; `others` are the key columns that refer to other tables than this one, and to
    which.  `onDelete` is what the foreign keys do where the database enforces them.
  */
  datatype Meta = Meta(table: string, fillable: set<string>, softDelete: bool, incoming: seq<Fk>, notNull: set<Fk>, links: seq<Side>,
                       others: map<Fk, string>, enforced: bool, onDelete: Fk -> FK.Action)

  /** `Refused`: a foreign key forbids the deletion; what was done before it stays done. */
  datatype MergeError = SameRecord | MissingRecord | Refused

  predicate Blank(c: Cell) {
    c == Null || c == Text("")
  }

  function CellOf(row: Row, col: string): Cell {
    if col in row then row[col] else Null
  }

  // ---------------------------------------------------------------- the quotient

  function Q(d: int, s: int, k: int): int {
    if k == d then s else k
  }

  predicate Points(fks: seq<Fk>, table: string, col: string) {
    exists fk | fk in fks :: fk.child == table && fk.col == col
  }

  /** A row with every key column among `fks` renamed by `d ↦ s`. */
  function ImageRow(fks: seq<Fk>, table: string, row: Row, d: int, s: int): Row {
    map c | c in row :: if row[c] == Key(d) && Points(fks, table, c) then Key(s) else row[c]
  }

  function ImageTable(fks: seq<Fk>, name: string, t: Table, d: int, s: int): Table {
    map pk | pk in t :: ImageRow(fks, name, t[pk], d, s)
  }

  function ImageTables(fks: seq<Fk>, ts: Tables, d: int, s: int): Tables {
    map name | name in ts :: ImageTable(fks, name, ts[name], d, s)
  }

  predicate Sided(sides: seq<Side>, j: string, left: bool) {
    Side(j, left) in sides
  }

  /** A junction with the given sides renamed by `d ↦ s`. */
  function ImagePairs(sides: seq<Side>, j: string, ps: Pairs, d: int, s: int): Pairs {
    set p | p in ps ::
      (if Sided(sides, j, true) then Q(d, s, p.0) else p.0, if Sided(sides, j, false) then Q(d, s, p.1) else p.1)
  }

  function ImageJunctions(sides: seq<Side>, js: Junctions, d: int, s: int): Junctions {
    map j | j in js :: ImagePairs(sides, j, js[j], d, s)
  }

  /** `_fills`: what the duplicate has and the survivor lacks, both rows as first read. */
  function Fills(m: Meta, survivor: Row, duplicate: Row): Row {
    map c | c in m.fillable && Blank(CellOf(survivor, c)) && !Blank(CellOf(duplicate, c)) :: CellOf(duplicate, c)
  }

  /** What should fill the survivor: the duplicate's cells with the two records identified. */
  function IdealFills(m: Meta, survivor: Row, duplicate: Row, d: int, s: int): Row {
    ImageRow(m.incoming, m.table, Fills(m, survivor, duplicate), d, s)
  }

  function Removed(m: Meta, t: Table, d: int, stamp: Row): Table {
    if !m.softDelete then t - {d}
    else if d in t then t[d := t[d] + stamp] else t
  }

  /** The database with `d` and `s` identified, the blanks of `s` filled from `d`, and `d` gone. */
  function MergedTables(m: Meta, ts: Tables, d: int, s: int, stamp: Row): Tables
    requires m.table in ts && d in ts[m.table] && s in ts[m.table]
  {
    var image := ImageTables(m.incoming, ts, d, s);
    var t := image[m.table];
    var fills := IdealFills(m, ts[m.table][s], ts[m.table][d], d, s);
    image[m.table := Removed(m, t[s := t[s] + fills], d, stamp)]
  }

  /** Column `c` of the survivor is filled with the duplicate's own key. */
  ghost predicate StaleAt(m: Meta, ts: Tables, d: int, s: int, c: string)
    requires m.table in ts && d in ts[m.table] && s in ts[m.table]
  {
    c in m.fillable && Points(m.incoming, m.table, c) && Blank(CellOf(ts[m.table][s], c)) && CellOf(ts[m.table][d], c) == Key(d)
  }

  /**
    The duplicate is not about to hand its own key to the survivor: no self-relation of
    the table has the duplicate pointing at itself where the survivor is blank.
  */
  ghost predicate NoStaleSelf(m: Meta, ts: Tables, d: int, s: int)
    requires m.table in ts && d in ts[m.table] && s in ts[m.table]
  {
    forall c :: !StaleAt(m, ts, d, s, c)
  }

  /** Some key column among `fks`, in some row, holds `d`. */
  ghost predicate Mentions(fks: seq<Fk>, ts: Tables, d: int) {
    exists name, pk, c :: MentionsAt(fks, ts, d, name, pk, c)
  }

  ghost predicate MentionsAt(fks: seq<Fk>, ts: Tables, d: int, name: string, pk: int, c: string) {
    name in ts && pk in ts[name] && Points(fks, name, c) && CellOf(ts[name][pk], c) == Key(d)
  }

  // ---------------------------------------------------------------- row operations

  function Repoint(t: Table, col: string, d: int, s: int): Table {
    map pk | pk in t :: if CellOf(t[pk], col) == Key(d) then t[pk][col := Key(s)] else t[pk]
  }

  function Others(ps: Pairs, left: bool, me: int): set<int> {
    if left then set p | p in ps && p.0 == me :: p.1 else set p | p in ps && p.1 == me :: p.0
  }

  function Pair(left: bool, me: int, other: int): (int, int) {
    if left then (me, other) else (other, me)
  }

  predicate On(p: (int, int), left: bool, me: int) {
    if left then p.0 == me else p.1 == me
  }

  function WithoutLinks(ps: Pairs, left: bool, me: int): Pairs {
    set p | p in ps && !On(p, left, me)
  }

  function WithLinks(ps: Pairs, left: bool, me: int, others: set<int>): Pairs {
    WithoutLinks(ps, left, me) + set o | o in others :: Pair(left, me, o)
  }

  function Cleared(t: Table, col: string, d: int): Table {
    map pk | pk in t :: if CellOf(t[pk], col) == Key(d) then t[pk][col := Null] else t[pk]
  }

  function Unreferenced(t: Table, col: string, d: int): Table {
    map pk | pk in t && CellOf(t[pk], col) != Key(d) :: t[pk]
  }

  // ---------------------------------------------------------------- deletion

  function ActionOf(m: Meta, fk: Fk): FK.Action {
    if m.enforced then m.onDelete(fk) else FK.Unenforced
  }

  /** The table that key column `c` of `name` refers to. */
  function ParentOf(m: Meta, name: string, c: string): Option<string> {
    if Points(m.incoming, name, c) then Some(m.table)
    else if Fk(name, c) in m.others && m.others[Fk(name, c)] != m.table then Some(m.others[Fk(name, c)])
    else None
  }

  /** Every reference that is stored. */
  function LinksOf(m: Meta, ts: Tables): set<FK.Link> {
    set name, pk, c | name in ts && pk in ts[name] && c in ts[name][pk] && ts[name][pk][c].Key? && ParentOf(m, name, c).Some? ::
      FK.Link((name, pk), c, (ParentOf(m, name, c).value, ts[name][pk][c].id), ActionOf(m, Fk(name, c)))
  }

  /** A row after the rows `gone` are deleted: its references to them are empty where the foreign key says so. */
  function Orphaned(m: Meta, name: string, row: Row, gone: set<FK.Key>): Row {
    map c | c in row :: if Freed(m, name, c, row[c], gone) then Null else row[c]
  }

  predicate Freed(m: Meta, name: string, c: string, cell: Cell, gone: set<FK.Key>) {
    && cell.Key? && ParentOf(m, name, c).Some? && ActionOf(m, Fk(name, c)) == FK.SetNull
    && (ParentOf(m, name, c).value, cell.id) in gone
  }

  function Survivors(m: Meta, name: string, t: Table, gone: set<FK.Key>): Table {
    map pk | pk in t && (name, pk) !in gone :: Orphaned(m, name, t[pk], gone)
  }

  function DoomedRows(m: Meta, ts: Tables, seeds: set<FK.Key>): Option<set<FK.Key>> {
    FK.Doomed(LinksOf(m, ts), seeds)
  }

  function Without(m: Meta, ts: Tables, gone: set<FK.Key>): (r: Tables)
    ensures r.Keys == ts.Keys
  {
    map name | name in ts :: Survivors(m, name, ts[name], gone)
  }

  /** DELETE of some rows, with the actions of the foreign keys; None when one of them forbids it. */
  function DeleteRows(m: Meta, ts: Tables, seeds: set<FK.Key>): (r: Option<Tables>)
    ensures r.Some? ==> r.value.Keys == ts.Keys
  {
    var gone := DoomedRows(m, ts, seeds);
    if gone.None? then None else Some(Without(m, ts, gone.value))
  }

  function Referring(fk: Fk, t: Table, k: int): set<FK.Key> {
    set pk | pk in t && CellOf(t[pk], fk.col) == Key(k) :: (fk.child, pk)
  }

  /** One relation at a removal into the trash: clear the references, or delete the rows that must have one. */
  function ReleaseOne(m: Meta, ts: Tables, fk: Fk, k: int): (r: Option<Tables>)
    ensures r.Some? ==> r.value.Keys == ts.Keys
  {
    if fk.child !in ts then Some(ts)
    else if fk !in m.notNull then Some(ts[fk.child := Cleared(ts[fk.child], fk.col, k)])
    else DeleteRows(m, ts, Referring(fk, ts[fk.child], k))
  }

  /** The tables, and whether the statements that led there all went through. */
  datatype Stored = Stored(tables: Tables, ok: bool)

  function ReleaseAll(m: Meta, ts: Tables, fks: seq<Fk>, k: int): (r: Stored)
    ensures r.tables.Keys == ts.Keys
  {
    if fks == [] then Stored(ts, true)
    else
      var st := ReleaseAll(m, ts, fks[..|fks| - 1], k);
      if !st.ok then st
      else
        var next := ReleaseOne(m, st.tables, fks[|fks| - 1], k);
        if next.None? then Stored(st.tables, false) else Stored(next.value, true)
  }

  function Stamped(m: Meta, ts: Tables, k: int, stamp: Row): Tables
    requires m.table in ts
  {
    if k in ts[m.table] then ts[m.table := ts[m.table][k := ts[m.table][k] + stamp]] else ts
  }

  /** The rows after `remove` of `k`, into the trash or for good. */
  function RemoveRecord(m: Meta, ts: Tables, k: int, stamp: Row): Stored
    requires m.table in ts
  {
    if m.softDelete then
      var st := ReleaseAll(m, ts, m.incoming, k);
      if st.ok then Stored(Stamped(m, st.tables, k, stamp), true) else st
    else
      var next := DeleteRows(m, ts, {(m.table, k)});
      if next.None? then Stored(ts, false) else Stored(next.value, true)
  }

  function WithoutRecord(m: Meta, ts: Tables, k: int, stamp: Row): Tables
    requires m.table in ts
  {
    RemoveRecord(m, ts, k, stamp).tables
  }

  /** The records of the table whose links go: the one removed, and those deleted with it for good. */
  function GoneRecords(m: Meta, ts: Tables, k: int): set<int> {
    if m.softDelete then {k}
    else
      var gone := DoomedRows(m, ts, {(m.table, k)});
      if m.enforced && gone.Some? then set x | x in gone.value && x.0 == m.table :: x.1 else {}
  }

  /** The junctions without any link of the given records. */
  function Unlinked(sides: seq<Side>, js: Junctions, ks: set<int>): Junctions {
    map j | j in js :: set p | p in js[j] && !(Sided(sides, j, true) && p.0 in ks) && !(Sided(sides, j, false) && p.1 in ks)
  }

  /** One side of every pair renamed by `d ↦ s`. */
  function Renamed(ps: Pairs, left: bool, d: int, s: int): Pairs {
    set p | p in ps :: RenamePair(p, left, d, s)
  }

  function RenamePair(p: (int, int), left: bool, d: int, s: int): (int, int) {
    if left then (Q(d, s, p.0), p.1) else (p.0, Q(d, s, p.1))
  }

  // ---------------------------------------------------------------- step by step

  lemma RepointStep(fks: seq<Fk>, i: nat, ts: Tables, d: int, s: int)
    requires i < |fks| && d != s
    ensures var before := ImageTables(fks[..i], ts, d, s); var fk := fks[i];
      ImageTables(fks[..i + 1], ts, d, s)
        == if fk.child in before then before[fk.child := Repoint(before[fk.child], fk.col, d, s)] else before
  {
    var before, after := ImageTables(fks[..i], ts, d, s), ImageTables(fks[..i + 1], ts, d, s);
    var fk := fks[i];
    assert fks[..i + 1] == fks[..i] + [fk];
    forall name, c ensures Points(fks[..i + 1], name, c) <==> Points(fks[..i], name, c) || (fk.child == name && fk.col == c) {
      if Points(fks[..i], name, c) {
        var x :| x in fks[..i] && x.child == name && x.col == c;
        assert x in fks[..i + 1];
      }
      assert fk in fks[..i + 1];
    }
    forall name | name in ts
      ensures after[name] == if name == fk.child then Repoint(before[name], fk.col, d, s) else before[name] {
      forall pk | pk in ts[name]
        ensures after[name][pk] == if name == fk.child then Repoint(before[name], fk.col, d, s)[pk] else before[name][pk] {
        RepointRow(fks[..i], fks[..i + 1], fk, name, ts[name][pk], d, s);
      }
    }
  }

  lemma RepointRow(fks: seq<Fk>, more: seq<Fk>, fk: Fk, name: string, row: Row, d: int, s: int)
    requires d != s
    requires forall c :: Points(more, name, c) <==> Points(fks, name, c) || (fk.child == name && fk.col == c)
    ensures var before := ImageRow(fks, name, row, d, s);
      ImageRow(more, name, row, d, s)
        == if name == fk.child && CellOf(before, fk.col) == Key(d) then before[fk.col := Key(s)] else before
  {}

  /** Moving the duplicate's links on one side of a junction renames that side. */
  lemma LinkStep(ps: Pairs, left: bool, d: int, s: int)
    requires d != s
    ensures var dups := Others(ps, left, d);
      WithoutLinks(WithLinks(ps, left, s, Others(ps, left, s) + dups), left, d)
        == Renamed(ps, left, d, s)
    ensures Others(ps, left, d) == {} ==>
      ps == Renamed(ps, left, d, s)
  {
    var image := Renamed(ps, left, d, s);
    var others := Others(ps, left, s) + Others(ps, left, d);
    var moved := WithoutLinks(WithLinks(ps, left, s, others), left, d);
    forall p | p in ps ensures RenamePair(p, left, d, s) in moved {
      var o := if left then p.1 else p.0;
      if On(p, left, d) || On(p, left, s) {
        assert o in others;
        assert Pair(left, s, o) in WithLinks(ps, left, s, others);
      }
    }
    forall q | q in moved ensures q in image {
      if On(q, left, s) {
        var o :| o in others && q == Pair(left, s, o);
        var p := if o in Others(ps, left, s) then Pair(left, s, o) else Pair(left, d, o);
        assert p in ps;
      } else {
        assert q in ps;
      }
    }
    if Others(ps, left, d) == {} {
      forall p | p in ps ensures !On(p, left, d) {
        assert (if left then p.1 else p.0) in Others(ps, left, d) || !On(p, left, d);
      }
    }
  }

  lemma JunctionStep(sides: seq<Side>, i: nat, js: Junctions, d: int, s: int)
    requires i < |sides| && d != s
    ensures var before := ImageJunctions(sides[..i], js, d, s); var x := sides[i];
      ImageJunctions(sides[..i + 1], js, d, s)
        == if x.junction !in before then before
           else before[x.junction := Renamed(before[x.junction], x.left, d, s)]
  {
    var before, after := ImageJunctions(sides[..i], js, d, s), ImageJunctions(sides[..i + 1], js, d, s);
    var x := sides[i];
    assert sides[..i + 1] == sides[..i] + [x];
    forall j, left ensures Sided(sides[..i + 1], j, left) <==> Sided(sides[..i], j, left) || x == Side(j, left) {
      assert x in sides[..i + 1];
    }
    forall j | j in js ensures after[j] ==
      if j == x.junction
      then Renamed(before[j], x.left, d, s)
      else before[j] {
      SideStep(sides[..i], sides[..i + 1], x, j, js[j], d, s);
    }
  }

  lemma SideStep(sides: seq<Side>, more: seq<Side>, x: Side, j: string, ps: Pairs, d: int, s: int)
    requires d != s
    requires forall left :: Sided(more, j, left) <==> Sided(sides, j, left) || x == Side(j, left)
    ensures var before := ImagePairs(sides, j, ps, d, s);
      ImagePairs(more, j, ps, d, s) ==
        if j == x.junction then Renamed(before, x.left, d, s)
        else before
  {
    assert Sided(more, j, true) <==> Sided(sides, j, true) || x == Side(j, true);
    assert Sided(more, j, false) <==> Sided(sides, j, false) || x == Side(j, false);
    var before := ImagePairs(sides, j, ps, d, s);
    if j == x.junction {
      var after := Renamed(before, x.left, d, s);
      forall p | p in ps ensures var p1 := (if Sided(sides, j, true) then Q(d, s, p.0) else p.0, if Sided(sides, j, false) then Q(d, s, p.1) else p.1);
        p1 in before {}
    }
  }

  /** The fills agree with the quotient exactly when no stale self-reference is copied. */
  lemma FillsIdealIff(m: Meta, ts: Tables, d: int, s: int)
    requires d != s && m.table in ts && d in ts[m.table] && s in ts[m.table]
    ensures var survivor, duplicate := ts[m.table][s], ts[m.table][d];
      Fills(m, survivor, duplicate) == IdealFills(m, survivor, duplicate, d, s) <==> NoStaleSelf(m, ts, d, s)
  {
    var survivor, duplicate := ts[m.table][s], ts[m.table][d];
    var fills, ideal := Fills(m, survivor, duplicate), IdealFills(m, survivor, duplicate, d, s);
    if !NoStaleSelf(m, ts, d, s) {
      var c :| StaleAt(m, ts, d, s, c);
      assert fills[c] == Key(d) && ideal[c] == Key(s);
    } else {
      forall c | c in fills ensures fills[c] == ideal[c] {
        assert !StaleAt(m, ts, d, s, c);
      }
    }
  }

  function Filled(m: Meta, ts: Tables, d: int, s: int): Tables
    requires m.table in ts && d in ts[m.table] && s in ts[m.table]
  {
    var image := ImageTables(m.incoming, ts, d, s);
    image[m.table := image[m.table][s := image[m.table][s] + Fills(m, ts[m.table][s], ts[m.table][d])]]
  }

  /**
    Just before the duplicate is removed, nothing points at it any more — exactly when the
    fills copied no stale self-reference.
  */
  lemma CleanBeforeRemovalIff(m: Meta, ts: Tables, d: int, s: int)
    requires d != s && m.table in ts && d in ts[m.table] && s in ts[m.table]
    ensures Mentions(m.incoming, Filled(m, ts, d, s), d) <==> !NoStaleSelf(m, ts, d, s)
  {
    var fills := Fills(m, ts[m.table][s], ts[m.table][d]);
    var after := Filled(m, ts, d, s);
    if Mentions(m.incoming, after, d) {
      var name, pk, c :| MentionsAt(m.incoming, after, d, name, pk, c);
      assert name == m.table && pk == s && c in fills;
      assert StaleAt(m, ts, d, s, c);
    }
    if !NoStaleSelf(m, ts, d, s) {
      var c :| StaleAt(m, ts, d, s, c);
      assert MentionsAt(m.incoming, after, d, m.table, s, c);
    }
  }

  // ---------------------------------------------------------------- the stored rows

  class Database {
    var tables: Tables
    var junctions: Junctions

    constructor (tables: Tables, junctions: Junctions)
      ensures this.tables == tables && this.junctions == junctions
    {
      this.tables, this.junctions := tables, junctions;
    }

    /** `repoint_fk`: one UPDATE; returns how many rows it changed. */
    method RepointFk(child: string, col: string, d: int, s: int) returns (changed: nat)
      modifies this`tables
      ensures tables == if child in old(tables)
        then old(tables)[child := Repoint(old(tables)[child], col, d, s)] else old(tables)
      ensures changed == if child in old(tables)
        then |set pk | pk in old(tables)[child] && CellOf(old(tables)[child][pk], col) == Key(d)| else 0
    {
      if child !in tables {
        return 0;
      }
      changed := |set pk | pk in tables[child] && CellOf(tables[child][pk], col) == Key(d)|;
      tables := tables[child := Repoint(tables[child], col, d, s)];
    }

    /** `set_links`: insert the missing pairs, then delete the unwanted ones. */
    method SetLinks(j: string, left: bool, me: int, wanted: set<int>)
      requires j in junctions
      modifies this`junctions
      ensures junctions == old(junctions)[j := WithLinks(old(junctions)[j], left, me, wanted)]
    {
      var existing := Others(junctions[j], left, me);
      var missing := set o | o in wanted - existing :: Pair(left, me, o);
      ghost var js, all := junctions, missing;
      while missing != {}
        invariant missing <= all
        invariant j in junctions && junctions == js[j := junctions[j]]
        invariant junctions[j] == js[j] + (all - missing)
        decreases missing
      {
        var p :| p in missing;
        missing := missing - {p};
        junctions := junctions[j := junctions[j] + {p}];
      }
      var unwanted := existing - wanted;
      var kept := set p | p in junctions[j]
        && !(On(p, left, me) && (if left then p.1 else p.0) in unwanted);
      assert kept == WithLinks(js[j], left, me, wanted) by {
        LinksReplaced(js[j], junctions[j], kept, left, me, wanted);
      }
      junctions := junctions[j := kept];
    }

    /** `delete_where` on a junction. */
    method DeleteLinks(j: string, left: bool, me: int)
      requires j in junctions
      modifies this`junctions
      ensures junctions == old(junctions)[j := WithoutLinks(old(junctions)[j], left, me)]
    {
      junctions := junctions[j := WithoutLinks(junctions[j], left, me)];
    }

    /** `update_row`. */
    method UpdateRow(table: string, pk: int, values: Row)
      modifies this`tables
      ensures tables == if table in old(tables) && pk in old(tables)[table]
        then old(tables)[table := old(tables)[table][pk := old(tables)[table][pk] + values]] else old(tables)
    {
      if table in tables && pk in tables[table] {
        tables := tables[table := tables[table][pk := tables[table][pk] + values]];
      }
    }

    /** `remove`: into the trash with its links and references dropped, or for good; false when the database refuses, which can be half-way. */
    method Remove(m: Meta, pk: int, stamp: Row) returns (ok: bool)
      requires m.table in tables && forall x | x in m.links :: x.junction in junctions
      modifies this
      ensures Stored(tables, ok) == RemoveRecord(m, old(tables), pk, stamp)
      ensures junctions == Unlinked(m.links, old(junctions), GoneRecords(m, old(tables), pk))
    {
      if !m.softDelete {
        var gone := DoomedRows(m, tables, {(m.table, pk)});
        NothingUnlinked(m.links, junctions);
        if gone.None? {
          return false;
        }
        junctions := Unlinked(m.links, junctions, GoneRecords(m, tables, pk));
        tables := Without(m, tables, gone.value);
        return true;
      }
      DropLinks(m, pk);
      ok := ReleaseRelations(m, pk);
      if !ok {
        return;
      }
      UpdateRow(m.table, pk, stamp);
      return true;
    }

    method DropLinks(m: Meta, pk: int)
      requires forall x | x in m.links :: x.junction in junctions
      modifies this`junctions
      ensures junctions == Unlinked(m.links, old(junctions), {pk})
    {
      ghost var js := junctions;
      NoSides(js, {pk});
      assert m.links[..0] == [];
      for i := 0 to |m.links|
        invariant junctions == Unlinked(m.links[..i], js, {pk})
      {
        UnlinkStep(m.links, i, js, pk);
        DeleteLinks(m.links[i].junction, m.links[i].left, pk);
      }
      assert m.links[..|m.links|] == m.links;
    }

    /** The loop over the incoming relations; false when a statement is refused. */
    method ReleaseRelations(m: Meta, pk: int) returns (ok: bool)
      modifies this`tables
      ensures Stored(tables, ok) == ReleaseAll(m, old(tables), m.incoming, pk)
    {
      ghost var ts := tables;
      for i := 0 to |m.incoming|
        invariant Stored(tables, true) == ReleaseAll(m, ts, m.incoming[..i], pk)
      {
        ReleaseNext(m, ts, m.incoming, pk, i);
        ok := ReleaseRelation(m, m.incoming[i], pk);
        if !ok {
          FailedStays(m, ts, m.incoming, pk, i + 1);
          return false;
        }
      }
      assert m.incoming[..|m.incoming|] == m.incoming;
      return true;
    }

    method ReleaseRelation(m: Meta, fk: Fk, pk: int) returns (ok: bool)
      modifies this`tables
      ensures ok <==> ReleaseOne(m, old(tables), fk, pk).Some?
      ensures tables == if ok then ReleaseOne(m, old(tables), fk, pk).value else old(tables)
    {
      if fk.child in tables {
        if fk in m.notNull {
          var next := DeleteRows(m, tables, Referring(fk, tables[fk.child], pk));
          if next.None? {
            return false;
          }
          tables := next.value;
        } else {
          tables := tables[fk.child := Cleared(tables[fk.child], fk.col, pk)];
        }
      }
      return true;
    }

    /** `merge`: fold `d` into `s`. */
    method Merge(m: Meta, s: int, d: int, stamp: Row) returns (r: Result<nat, MergeError>)
      requires m.table in tables && forall x | x in m.links :: x.junction in junctions
      modifies this
      ensures s == d ==> r == Err(SameRecord)
      ensures s != d && !(s in old(tables)[m.table] && d in old(tables)[m.table]) ==> r == Err(MissingRecord)
      ensures r == Err(SameRecord) || r == Err(MissingRecord) ==> tables == old(tables) && junctions == old(junctions)
      ensures s != d && s in old(tables)[m.table] && d in old(tables)[m.table] ==>
        var filled := Filled(m, old(tables), d, s);
        && Stored(tables, r.Ok?) == RemoveRecord(m, filled, d, stamp)
        && (r.Err? ==> r == Err(Refused))
        && (tables == MergedTables(m, old(tables), d, s, stamp) <==> NoStaleSelf(m, old(tables), d, s))
        && junctions == Unlinked(m.links, ImageJunctions(m.links, old(junctions), d, s), GoneRecords(m, filled, d))
        && (NoStaleSelf(m, old(tables), d, s) ==> r.Ok? && junctions == ImageJunctions(m.links, old(junctions), d, s))
      ensures r.Ok? ==> r.value == |Fills(m, old(tables)[m.table][s], old(tables)[m.table][d])|
    {
      if s == d {
        return Err(SameRecord);
      }
      if s !in tables[m.table] || d !in tables[m.table] {
        return Err(MissingRecord);
      }
      ghost var ts, js := tables, junctions;
      var survivor, duplicate := tables[m.table][s], tables[m.table][d];
      RepointAll(m, d, s);
      MoveAllLinks(m, d, s);
      var fills := Fills(m, survivor, duplicate);
      if fills != map[] {
        UpdateRow(m.table, s, fills);
      }
      FilledIs(m, ts, tables, d, s);
      var ok := Remove(m, d, stamp);
      MergeIsQuotientIff(m, ts, d, s, stamp);
      MergedLinks(m, ts, js, d, s);
      if !ok {
        return Err(Refused);
      }
      return Ok(|fills|);
    }

    method RepointAll(m: Meta, d: int, s: int)
      requires d != s
      modifies this`tables
      ensures tables == ImageTables(m.incoming, old(tables), d, s)
    {
      ghost var ts := tables;
      NothingRepointed(ts, d, s);
      assert m.incoming[..0] == [];
      for i := 0 to |m.incoming|
        invariant tables == ImageTables(m.incoming[..i], ts, d, s)
      {
        RepointStep(m.incoming, i, ts, d, s);
        var _ := RepointFk(m.incoming[i].child, m.incoming[i].col, d, s);
      }
      assert m.incoming[..|m.incoming|] == m.incoming;
    }

    method MoveAllLinks(m: Meta, d: int, s: int)
      requires d != s && forall x | x in m.links :: x.junction in junctions
      modifies this`junctions
      ensures junctions == ImageJunctions(m.links, old(junctions), d, s)
    {
      ghost var js := junctions;
      NothingMoved(js, d, s);
      assert m.links[..0] == [];
      for i := 0 to |m.links|
        invariant junctions == ImageJunctions(m.links[..i], js, d, s)
      {
        JunctionStep(m.links, i, js, d, s);
        MoveLinks(m.links[i], d, s);
      }
      assert m.links[..|m.links|] == m.links;
    }

    /** One junction side: the duplicate's links are united with the survivor's and dropped. */
    method MoveLinks(x: Side, d: int, s: int)
      requires d != s && x.junction in junctions
      modifies this`junctions
      ensures junctions == old(junctions)[x.junction := Renamed(old(junctions)[x.junction], x.left, d, s)]
    {
      var dupIds := Others(junctions[x.junction], x.left, d);
      LinkStep(junctions[x.junction], x.left, d, s);
      if dupIds == {} {
        return;
      }
      SetLinks(x.junction, x.left, s, Others(junctions[x.junction], x.left, s) + dupIds);
      DeleteLinks(x.junction, x.left, d);
    }
  }

  lemma LinksReplaced(before: Pairs, grown: Pairs, kept: Pairs, left: bool, me: int, wanted: set<int>)
    requires grown == before + (set o | o in wanted - Others(before, left, me) :: Pair(left, me, o))
    requires var existing := Others(before, left, me);
      kept == set p | p in grown && !(On(p, left, me) && (if left then p.1 else p.0) in existing - wanted)
    ensures kept == WithLinks(before, left, me, wanted)
  {
    var existing := Others(before, left, me);
    var target := WithLinks(before, left, me, wanted);
    forall p | p in before && On(p, left, me) ensures (if left then p.1 else p.0) in existing && p == Pair(left, me, if left then p.1 else p.0) {}
    forall p | p in kept ensures p in target {
      if On(p, left, me) {
        var o := if left then p.1 else p.0;
        assert p == Pair(left, me, o) && o in wanted;
      }
    }
    forall p | p in target ensures p in kept {
      if p !in WithoutLinks(before, left, me) {
        var o :| o in wanted && p == Pair(left, me, o);
        if o in existing { assert p in before; }
      }
    }
  }

  lemma NothingUnlinked(sides: seq<Side>, js: Junctions)
    ensures Unlinked(sides, js, {}) == js
  {
    forall j | j in js ensures Unlinked(sides, js, {})[j] == js[j] {
      forall p | p in js[j] ensures p in Unlinked(sides, js, {})[j] {}
    }
  }

  lemma NoSides(js: Junctions, ks: set<int>)
    ensures Unlinked([], js, ks) == js
  {
    forall j | j in js ensures Unlinked([], js, ks)[j] == js[j] {
      forall p | p in js[j] ensures p in Unlinked([], js, ks)[j] {}
    }
  }

  lemma UnlinkStep(sides: seq<Side>, i: nat, js: Junctions, k: int)
    requires i < |sides| && sides[i].junction in js
    ensures var before := Unlinked(sides[..i], js, {k}); var x := sides[i];
      Unlinked(sides[..i + 1], js, {k}) == before[x.junction := WithoutLinks(before[x.junction], x.left, k)]
  {
    var x, before, after := sides[i], Unlinked(sides[..i], js, {k}), Unlinked(sides[..i + 1], js, {k});
    assert sides[..i + 1] == sides[..i] + [x];
    forall j, left ensures Sided(sides[..i + 1], j, left) <==> Sided(sides[..i], j, left) || x == Side(j, left) {
      assert x in sides[..i + 1];
    }
    forall j | j in js ensures after[j] == if j == x.junction then WithoutLinks(before[j], x.left, k) else before[j] {
      forall p ensures p in after[j] <==> p in (if j == x.junction then WithoutLinks(before[j], x.left, k) else before[j]) {
        assert Sided(sides[..i + 1], j, true) <==> Sided(sides[..i], j, true) || x == Side(j, true);
        assert Sided(sides[..i + 1], j, false) <==> Sided(sides[..i], j, false) || x == Side(j, false);
      }
    }
  }

  lemma ReleaseNext(m: Meta, ts: Tables, fks: seq<Fk>, k: int, i: nat)
    requires i < |fks| && ReleaseAll(m, ts, fks[..i], k).ok
    ensures var now := ReleaseAll(m, ts, fks[..i], k).tables; var next := ReleaseOne(m, now, fks[i], k);
      ReleaseAll(m, ts, fks[..i + 1], k) == if next.None? then Stored(now, false) else Stored(next.value, true)
  {
    assert fks[..i + 1][..i] == fks[..i];
  }

  lemma {:induction false} FailedStays(m: Meta, ts: Tables, fks: seq<Fk>, k: int, i: nat)
    requires i <= |fks| && !ReleaseAll(m, ts, fks[..i], k).ok
    ensures ReleaseAll(m, ts, fks, k) == ReleaseAll(m, ts, fks[..i], k)
    decreases |fks|
  {
    if i < |fks| {
      var n := |fks| - 1;
      assert fks[..n][..i] == fks[..i];
      FailedStays(m, ts, fks[..n], k, i);
    } else {
      assert fks[..i] == fks;
    }
  }

  lemma NothingRepointed(ts: Tables, d: int, s: int)
    ensures ImageTables([], ts, d, s) == ts
  {
    forall name | name in ts ensures ImageTable([], name, ts[name], d, s) == ts[name] {
      forall pk | pk in ts[name] ensures ImageRow([], name, ts[name][pk], d, s) == ts[name][pk] {}
    }
  }

  lemma NothingMoved(js: Junctions, d: int, s: int)
    ensures ImageJunctions([], js, d, s) == js
  {
    forall j | j in js ensures ImagePairs([], j, js[j], d, s) == js[j] {
      forall p | p in js[j] ensures p in ImagePairs([], j, js[j], d, s) { assert p == (p.0, p.1); }
    }
  }

  // ---------------------------------------------------------------- removing a record nothing refers to

  lemma NoLinkTo(m: Meta, ts: Tables, k: int)
    requires !Mentions(m.incoming, ts, k)
    ensures forall l | l in LinksOf(m, ts) :: l.to != (m.table, k)
  {
    forall name, pk, c | name in ts && pk in ts[name] && c in ts[name][pk] && Points(m.incoming, name, c) ensures ts[name][pk][c] != Key(k) {
      assert !MentionsAt(m.incoming, ts, k, name, pk, c);
    }
  }

  lemma NothingFreed(m: Meta, ts: Tables, k: int, gone: set<FK.Key>, name: string, pk: int)
    requires !Mentions(m.incoming, ts, k) && gone <= {(m.table, k)} && name in ts && pk in ts[name]
    ensures Orphaned(m, name, ts[name][pk], gone) == ts[name][pk]
  {
    forall c | c in ts[name][pk] ensures !Freed(m, name, c, ts[name][pk][c], gone) {
      assert !MentionsAt(m.incoming, ts, k, name, pk, c);
    }
  }

  /** A record nothing points at is deleted without touching another row. */
  lemma DeletedAlone(m: Meta, ts: Tables, k: int, gone: set<FK.Key>)
    requires !Mentions(m.incoming, ts, k) && gone <= {(m.table, k)} && m.table in ts
    ensures DoomedRows(m, ts, gone) == Some(gone)
    ensures Without(m, ts, gone) == if (m.table, k) in gone then ts[m.table := ts[m.table] - {k}] else ts
  {
    NoLinkTo(m, ts, k);
    FK.UnreferencedGoAlone(LinksOf(m, ts), gone);
    var after := Without(m, ts, gone);
    forall name | name in ts ensures after[name] == if name == m.table && (m.table, k) in gone then ts[name] - {k} else ts[name] {
      forall pk | pk in ts[name] ensures Orphaned(m, name, ts[name][pk], gone) == ts[name][pk] {
        NothingFreed(m, ts, k, gone, name, pk);
      }
    }
  }

  lemma {:induction false} NothingReleased(m: Meta, ts: Tables, fks: seq<Fk>, k: int)
    requires !Mentions(m.incoming, ts, k) && m.table in ts && forall fk | fk in fks :: fk in m.incoming
    ensures ReleaseAll(m, ts, fks, k) == Stored(ts, true)
  {
    if fks != [] {
      var fk := fks[|fks| - 1];
      NothingReleased(m, ts, fks[..|fks| - 1], k);
      NothingToRelease(m, ts, fk, k);
    }
  }

  lemma NothingToRelease(m: Meta, ts: Tables, fk: Fk, k: int)
    requires !Mentions(m.incoming, ts, k) && m.table in ts && fk in m.incoming
    ensures ReleaseOne(m, ts, fk, k) == Some(ts)
  {
    if fk.child in ts {
      forall pk | pk in ts[fk.child] ensures CellOf(ts[fk.child][pk], fk.col) != Key(k) {
        assert !MentionsAt(m.incoming, ts, k, fk.child, pk, fk.col);
        assert Points(m.incoming, fk.child, fk.col);
      }
      assert Referring(fk, ts[fk.child], k) == {};
      assert Cleared(ts[fk.child], fk.col, k) == ts[fk.child];
      var none: set<FK.Key> := {};
      DeletedAlone(m, ts, k, none);
      assert DeleteRows(m, ts, none) == Some(ts) && ts[fk.child := ts[fk.child]] == ts;
    }
  }

  /** Removing a record nothing points at goes through, and concerns that record only. */
  lemma RemovedAlone(m: Meta, ts: Tables, k: int, stamp: Row)
    requires !Mentions(m.incoming, ts, k) && m.table in ts && k in ts[m.table]
    ensures RemoveRecord(m, ts, k, stamp) == Stored(ts[m.table := Removed(m, ts[m.table], k, stamp)], true)
    ensures GoneRecords(m, ts, k) <= {k}
  {
    NothingReleased(m, ts, m.incoming, k);
    DeletedAlone(m, ts, k, {(m.table, k)});
  }

  // ---------------------------------------------------------------- a stale self-reference

  lemma StaleFill(m: Meta, ts: Tables, d: int, s: int, c: string)
    requires d != s && m.table in ts && d in ts[m.table] && s in ts[m.table] && StaleAt(m, ts, d, s, c)
    ensures CellOf(Filled(m, ts, d, s)[m.table][s], c) == Key(d)
    ensures CellOf(IdealFills(m, ts[m.table][s], ts[m.table][d], d, s), c) == Key(s)
  {}

  lemma IdealCell(m: Meta, ts: Tables, d: int, s: int, stamp: Row, c: string)
    requires d != s && m.table in ts && d in ts[m.table] && s in ts[m.table] && StaleAt(m, ts, d, s, c)
    ensures CellOf(MergedTables(m, ts, d, s, stamp)[m.table][s], c) == Key(s)
  {
    StaleFill(m, ts, d, s, c);
  }

  /** The row `s` is gone, or its column `c` holds the key of `d` or nothing. */
  ghost predicate NotRenamed(m: Meta, ts: Tables, d: int, s: int, c: string) {
    && m.table in ts
    && (s in ts[m.table] ==> CellOf(ts[m.table][s], c) == Key(d) || CellOf(ts[m.table][s], c) == Null)
  }

  lemma DeleteNeverRenames(m: Meta, ts: Tables, seeds: set<FK.Key>, d: int, s: int, c: string)
    requires NotRenamed(m, ts, d, s, c) && DeleteRows(m, ts, seeds).Some?
    ensures NotRenamed(m, DeleteRows(m, ts, seeds).value, d, s, c)
  {}

  lemma {:induction false} ReleaseNeverRenames(m: Meta, ts: Tables, fks: seq<Fk>, d: int, s: int, c: string)
    requires NotRenamed(m, ts, d, s, c)
    ensures NotRenamed(m, ReleaseAll(m, ts, fks, d).tables, d, s, c)
  {
    if fks != [] {
      var front, fk := fks[..|fks| - 1], fks[|fks| - 1];
      ReleaseNeverRenames(m, ts, front, d, s, c);
      var st := ReleaseAll(m, ts, front, d);
      if st.ok && fk.child in st.tables && fk in m.notNull && ReleaseOne(m, st.tables, fk, d).Some? {
        DeleteNeverRenames(m, st.tables, Referring(fk, st.tables[fk.child], d), d, s, c);
      }
    }
  }

  lemma RemoveNeverRenames(m: Meta, ts: Tables, d: int, s: int, stamp: Row, c: string)
    requires d != s && NotRenamed(m, ts, d, s, c)
    ensures NotRenamed(m, WithoutRecord(m, ts, d, stamp), d, s, c)
  {
    if m.softDelete {
      ReleaseNeverRenames(m, ts, m.incoming, d, s, c);
    } else if DeleteRows(m, ts, {(m.table, d)}).Some? {
      DeleteNeverRenames(m, ts, {(m.table, d)}, d, s, c);
    }
  }

  /** The merge is the quotient exactly when no stale self-reference is copied, whatever the foreign keys do. */
  lemma MergeIsQuotientIff(m: Meta, ts: Tables, d: int, s: int, stamp: Row)
    requires d != s && m.table in ts && d in ts[m.table] && s in ts[m.table]
    ensures WithoutRecord(m, Filled(m, ts, d, s), d, stamp) == MergedTables(m, ts, d, s, stamp) <==> NoStaleSelf(m, ts, d, s)
  {
    var now := Filled(m, ts, d, s);
    if NoStaleSelf(m, ts, d, s) {
      FillsIdealIff(m, ts, d, s);
      CleanBeforeRemovalIff(m, ts, d, s);
      RemovedAlone(m, now, d, stamp);
    } else {
      var c :| StaleAt(m, ts, d, s, c);
      StaleFill(m, ts, d, s, c);
      IdealCell(m, ts, d, s, stamp, c);
      RemoveNeverRenames(m, now, d, s, stamp, c);
      SurvivorStays(m, ts, d, s, stamp);
    }
  }

  lemma SurvivorStays(m: Meta, ts: Tables, d: int, s: int, stamp: Row)
    requires d != s && m.table in ts && d in ts[m.table] && s in ts[m.table]
    ensures m.table in MergedTables(m, ts, d, s, stamp) && s in MergedTables(m, ts, d, s, stamp)[m.table]
  {}

  lemma MergedLinks(m: Meta, ts: Tables, js: Junctions, d: int, s: int)
    requires d != s && m.table in ts && d in ts[m.table] && s in ts[m.table]
    ensures NoStaleSelf(m, ts, d, s) ==>
      && Unlinked(m.links, ImageJunctions(m.links, js, d, s), GoneRecords(m, Filled(m, ts, d, s), d)) == ImageJunctions(m.links, js, d, s)
      && RemoveRecord(m, Filled(m, ts, d, s), d, map[]).ok == true
      && forall stamp :: RemoveRecord(m, Filled(m, ts, d, s), d, stamp).ok
  {
    if NoStaleSelf(m, ts, d, s) {
      CleanBeforeRemovalIff(m, ts, d, s);
      var moved := ImageJunctions(m.links, js, d, s);
      forall stamp ensures RemoveRecord(m, Filled(m, ts, d, s), d, stamp).ok { RemovedAlone(m, Filled(m, ts, d, s), d, stamp); }
      RemovedAlone(m, Filled(m, ts, d, s), d, map[]);
      NoLinksLeft(m, js, d, s, GoneRecords(m, Filled(m, ts, d, s), d));
    }
  }

  lemma FilledIs(m: Meta, ts: Tables, now: Tables, d: int, s: int)
    requires m.table in ts && d in ts[m.table] && s in ts[m.table]
    requires var image := ImageTables(m.incoming, ts, d, s); var fills := Fills(m, ts[m.table][s], ts[m.table][d]);
      now == if fills != map[] then image[m.table := image[m.table][s := image[m.table][s] + fills]] else image
    ensures now == Filled(m, ts, d, s)
  {
    var image := ImageTables(m.incoming, ts, d, s);
    var row := image[m.table][s];
    assert row + map[] == row;
    assert image[m.table][s := row] == image[m.table];
    assert image[m.table := image[m.table]] == image;
  }

  /** After the links are moved the removal finds none to drop. */
  lemma NoLinksLeft(m: Meta, js: Junctions, d: int, s: int, ks: set<int>)
    requires d != s && ks <= {d}
    ensures Unlinked(m.links, ImageJunctions(m.links, js, d, s), ks) == ImageJunctions(m.links, js, d, s)
  {
    var moved := ImageJunctions(m.links, js, d, s);
    forall j | j in js ensures Unlinked(m.links, moved, ks)[j] == moved[j] {
      forall p | p in moved[j] ensures p in Unlinked(m.links, moved, ks)[j] {}
    }
  }

  // ---------------------------------------------------------------- what the merge means

  /** After a merge no key column anywhere, and no junction of the table, names the duplicate. */
  lemma NothingNamesTheDuplicate(m: Meta, ts: Tables, js: Junctions, d: int, s: int, stamp: Row)
    requires d != s && m.table in ts && d in ts[m.table] && s in ts[m.table]
    requires forall x | x in m.links :: x.junction in js
    requires forall c | c in stamp :: !Points(m.incoming, m.table, c)
    ensures !Mentions(m.incoming, MergedTables(m, ts, d, s, stamp), d)
    ensures forall x, p | x in m.links && p in ImageJunctions(m.links, js, d, s)[x.junction] :: !On(p, x.left, d)
  {
    var after := MergedTables(m, ts, d, s, stamp);
    forall name, pk, c ensures !MentionsAt(m.incoming, after, d, name, pk, c) {
      if name in ts && pk in ts[name] && Points(m.incoming, name, c) {
        assert CellOf(ImageRow(m.incoming, name, ts[name][pk], d, s), c) != Key(d);
        assert CellOf(IdealFills(m, ts[m.table][s], ts[m.table][d], d, s), c) != Key(d) || name != m.table;
      }
    }
    forall x, p | x in m.links && p in ImageJunctions(m.links, js, d, s)[x.junction] ensures !On(p, x.left, d) {
      assert Sided(m.links, x.junction, x.left);
    }
  }

  /** No other row is lost, whether or not its reference is required, and it changes only by the renaming. */
  lemma NothingElseChanges(m: Meta, ts: Tables, d: int, s: int, stamp: Row)
    requires d != s && m.table in ts && d in ts[m.table] && s in ts[m.table]
    ensures var after := MergedTables(m, ts, d, s, stamp);
      && after.Keys == ts.Keys
      && (forall name | name in ts && name != m.table :: after[name] == ImageTable(m.incoming, name, ts[name], d, s))
      && after[m.table].Keys == (if m.softDelete then ts[m.table].Keys else ts[m.table].Keys - {d})
      && (forall pk | pk in ts[m.table] && pk != d && pk != s ::
            after[m.table][pk] == ImageRow(m.incoming, m.table, ts[m.table][pk], d, s))
  {}

  /** The survivor keeps what it had; a blank takes the duplicate's value when there is one. */
  lemma SurvivorCells(m: Meta, ts: Tables, d: int, s: int, stamp: Row, c: string)
    requires d != s && m.table in ts && d in ts[m.table] && s in ts[m.table]
    ensures var mine, theirs := CellOf(ts[m.table][s], c), CellOf(ts[m.table][d], c);
      var taken := if c in m.fillable && Blank(mine) && !Blank(theirs) then theirs else mine;
      CellOf(MergedTables(m, ts, d, s, stamp)[m.table][s], c)
        == if taken == Key(d) && Points(m.incoming, m.table, c) then Key(s) else taken
  {
    var row := ImageRow(m.incoming, m.table, ts[m.table][s], d, s);
    var fills := IdealFills(m, ts[m.table][s], ts[m.table][d], d, s);
    assert MergedTables(m, ts, d, s, stamp)[m.table][s] == row + fills;
  }

  // ---------------------------------------------------------------- what becomes of a stale self-reference

  /** The stored reference behind a stale cell. */
  lemma StaleLink(m: Meta, ts: Tables, d: int, s: int, c: string)
    requires d != s && m.table in ts && d in ts[m.table] && s in ts[m.table] && StaleAt(m, ts, d, s, c)
    ensures FK.Link((m.table, s), c, (m.table, d), ActionOf(m, Fk(m.table, c))) in LinksOf(m, Filled(m, ts, d, s))
  {
    StaleFill(m, ts, d, s, c);
  }

  /**
    Records deleted for good: the foreign key forbids the deletion and the merge stops half
    done, or the survivor goes with the duplicate, or its cell is emptied, or, without
    enforcement, it keeps the key of a record that is gone.
  */
  lemma StaleCell(m: Meta, ts: Tables, d: int, s: int, stamp: Row, c: string)
    requires d != s && m.table in ts && d in ts[m.table] && s in ts[m.table] && StaleAt(m, ts, d, s, c) && !m.softDelete
    ensures var filled := Filled(m, ts, d, s); var st := RemoveRecord(m, filled, d, stamp); var t := st.tables[m.table];
      match ActionOf(m, Fk(m.table, c))
      case Restrict => st == Stored(filled, false)
      case Cascade => st.ok ==> s !in t
      case SetNull => st.ok && s in t ==> CellOf(t[s], c) == Null
      case Unenforced => st.ok && s in t ==> CellOf(t[s], c) == Key(d)
  {
    var filled := Filled(m, ts, d, s);
    var links := LinksOf(m, filled);
    StaleLink(m, ts, d, s, c);
    StaleFill(m, ts, d, s, c);
    var l := FK.Link((m.table, s), c, (m.table, d), ActionOf(m, Fk(m.table, c)));
    var gone := FK.Closure(links, {(m.table, d)});
    assert l in links && l.to in gone;
    if l.action == FK.Cascade { assert l.from in FK.Dragged(links, gone); }
  }

  /** The survivor is gone, or its column `c` is empty. */
  ghost predicate Emptied(m: Meta, ts: Tables, s: int, c: string) {
    m.table in ts && (s in ts[m.table] ==> CellOf(ts[m.table][s], c) == Null)
  }

  lemma DeleteKeepsEmptied(m: Meta, ts: Tables, seeds: set<FK.Key>, s: int, c: string)
    requires Emptied(m, ts, s, c) && DeleteRows(m, ts, seeds).Some?
    ensures Emptied(m, DeleteRows(m, ts, seeds).value, s, c)
  {}

  lemma ReleaseEmpties(m: Meta, ts: Tables, d: int, s: int, c: string)
    requires NotRenamed(m, ts, d, s, c) && ReleaseOne(m, ts, Fk(m.table, c), d).Some?
    ensures Emptied(m, ReleaseOne(m, ts, Fk(m.table, c), d).value, s, c)
  {
    var fk := Fk(m.table, c);
    if fk in m.notNull {
      var seeds := Referring(fk, ts[m.table], d);
      var gone := DoomedRows(m, ts, seeds).value;
      assert seeds <= gone;
      if s in ts[m.table] && CellOf(ts[m.table][s], c) == Key(d) { assert (m.table, s) in seeds; }
    }
  }

  lemma {:induction false} ReleasedIsEmptied(m: Meta, ts: Tables, fks: seq<Fk>, d: int, s: int, c: string)
    requires NotRenamed(m, ts, d, s, c) && Fk(m.table, c) in fks && ReleaseAll(m, ts, fks, d).ok
    ensures Emptied(m, ReleaseAll(m, ts, fks, d).tables, s, c)
  {
    var front, fk := fks[..|fks| - 1], fks[|fks| - 1];
    ReleaseNeverRenames(m, ts, front, d, s, c);
    var now := ReleaseAll(m, ts, front, d).tables;
    if fk == Fk(m.table, c) {
      ReleaseEmpties(m, now, d, s, c);
    } else {
      ReleasedIsEmptied(m, ts, front, d, s, c);
      if fk.child in now && fk in m.notNull { DeleteKeepsEmptied(m, now, Referring(fk, now[fk.child], d), s, c); }
    }
  }

  /** Into the trash: the cell is emptied, or the survivor is deleted where the column must hold something. */
  lemma StaleCellTrashed(m: Meta, ts: Tables, d: int, s: int, stamp: Row, c: string)
    requires d != s && m.table in ts && d in ts[m.table] && s in ts[m.table] && StaleAt(m, ts, d, s, c) && m.softDelete
    ensures var st := RemoveRecord(m, Filled(m, ts, d, s), d, stamp);
      st.ok && s in st.tables[m.table] ==> CellOf(st.tables[m.table][s], c) == Null
  {
    var filled := Filled(m, ts, d, s);
    StaleFill(m, ts, d, s, c);
    if ReleaseAll(m, filled, m.incoming, d).ok {
      var fk :| fk in m.incoming && fk.child == m.table && fk.col == c;
      assert fk == Fk(m.table, c);
      ReleasedIsEmptied(m, filled, m.incoming, d, s, c);
    }
  }

  /** Only the row `s` mentions the duplicate, and not without the duplicate being there. */
  ghost predicate Tied(m: Meta, ts: Tables, d: int, s: int) {
    && m.table in ts && OnlyBy(m, ts, d, s)
    && (s in ts[m.table] ==> d in ts[m.table])
  }

  ghost predicate OnlyBy(m: Meta, ts: Tables, d: int, s: int) {
    forall name, pk, c | MentionsAt(m.incoming, ts, d, name, pk, c) :: name == m.table && pk == s
  }

  /** Before the removal the duplicate is mentioned by its stale cells alone. */
  lemma FilledMentions(m: Meta, ts: Tables, d: int, s: int, name: string, pk: int, c: string)
    requires d != s && m.table in ts && d in ts[m.table] && s in ts[m.table]
    requires MentionsAt(m.incoming, Filled(m, ts, d, s), d, name, pk, c)
    ensures name == m.table && pk == s && StaleAt(m, ts, d, s, c)
  {
    var fills := Fills(m, ts[m.table][s], ts[m.table][d]);
    assert name == m.table && pk == s && c in fills;
  }

  lemma DeleteKeepsMentions(m: Meta, ts: Tables, gone: set<FK.Key>, d: int, name: string, pk: int, c: string)
    requires MentionsAt(m.incoming, Without(m, ts, gone), d, name, pk, c)
    ensures MentionsAt(m.incoming, ts, d, name, pk, c) && (name, pk) !in gone && !Freed(m, name, c, Key(d), gone)
  {}

  lemma DeleteKeepsTied(m: Meta, ts: Tables, seeds: set<FK.Key>, d: int, s: int)
    requires Tied(m, ts, d, s) && seeds <= {(m.table, s)} && DeleteRows(m, ts, seeds).Some?
    ensures Tied(m, DeleteRows(m, ts, seeds).value, d, s)
  {
    var gone := DoomedRows(m, ts, seeds).value;
    var after := Without(m, ts, gone);
    forall name, pk, c | MentionsAt(m.incoming, after, d, name, pk, c) ensures name == m.table && pk == s {
      DeleteKeepsMentions(m, ts, gone, d, name, pk, c);
    }
    if seeds == {} {
      FK.UnreferencedGoAlone(LinksOf(m, ts), seeds);
    } else {
      assert (m.table, s) in seeds && seeds <= gone;
    }
  }

  lemma ReferringIsTied(m: Meta, ts: Tables, fk: Fk, d: int, s: int)
    requires OnlyBy(m, ts, d, s) && fk in m.incoming && fk.child in ts
    ensures Referring(fk, ts[fk.child], d) <= {(m.table, s)}
  {
    forall pk | pk in ts[fk.child] && CellOf(ts[fk.child][pk], fk.col) == Key(d) ensures fk.child == m.table && pk == s {
      assert Points(m.incoming, fk.child, fk.col);
      assert MentionsAt(m.incoming, ts, d, fk.child, pk, fk.col);
    }
  }

  lemma ReleaseOneKeepsTied(m: Meta, ts: Tables, fk: Fk, d: int, s: int)
    requires Tied(m, ts, d, s) && fk in m.incoming && ReleaseOne(m, ts, fk, d).Some?
    ensures Tied(m, ReleaseOne(m, ts, fk, d).value, d, s)
  {
    if fk.child in ts {
      if fk in m.notNull {
        ReferringIsTied(m, ts, fk, d, s);
        DeleteKeepsTied(m, ts, Referring(fk, ts[fk.child], d), d, s);
      } else {
        var after := ts[fk.child := Cleared(ts[fk.child], fk.col, d)];
        forall name, pk, c | MentionsAt(m.incoming, after, d, name, pk, c) ensures name == m.table && pk == s {
          assert MentionsAt(m.incoming, ts, d, name, pk, c);
        }
      }
    }
  }

  lemma {:induction false} ReleaseKeepsTied(m: Meta, ts: Tables, fks: seq<Fk>, d: int, s: int)
    requires Tied(m, ts, d, s) && forall fk | fk in fks :: fk in m.incoming
    ensures Tied(m, ReleaseAll(m, ts, fks, d).tables, d, s)
  {
    if fks != [] {
      var front, fk := fks[..|fks| - 1], fks[|fks| - 1];
      ReleaseKeepsTied(m, ts, front, d, s);
      var st := ReleaseAll(m, ts, front, d);
      if st.ok && ReleaseOne(m, st.tables, fk, d).Some? { ReleaseOneKeepsTied(m, st.tables, fk, d, s); }
    }
  }

  lemma StampKeepsTied(m: Meta, ts: Tables, d: int, s: int, stamp: Row)
    requires Tied(m, ts, d, s) && forall c | c in stamp :: !Points(m.incoming, m.table, c)
    ensures Tied(m, Stamped(m, ts, d, stamp), d, s)
  {
    var after := Stamped(m, ts, d, stamp);
    forall name, pk, c | MentionsAt(m.incoming, after, d, name, pk, c) ensures name == m.table && pk == s {
      assert MentionsAt(m.incoming, ts, d, name, pk, c);
    }
  }

  /** A reference to a record that is not there. */
  ghost predicate Dangles(m: Meta, ts: Tables, d: int) {
    Mentions(m.incoming, ts, d) && m.table in ts && d !in ts[m.table]
  }

  ghost predicate StaleUnder(m: Meta, ts: Tables, d: int, s: int, c: string, action: FK.Action)
    requires m.table in ts && d in ts[m.table] && s in ts[m.table]
  {
    StaleAt(m, ts, d, s, c) && ActionOf(m, Fk(m.table, c)) == action
  }

  /** The duplicate is deleted alone exactly when no stale reference to it cascades or forbids. */
  lemma DeletedForGood(m: Meta, ts: Tables, d: int, s: int)
    requires d != s && m.table in ts && d in ts[m.table] && s in ts[m.table]
    requires forall c :: !StaleUnder(m, ts, d, s, c, FK.Restrict) && !StaleUnder(m, ts, d, s, c, FK.Cascade)
    ensures DoomedRows(m, Filled(m, ts, d, s), {(m.table, d)}) == Some({(m.table, d)})
  {
    var filled := Filled(m, ts, d, s);
    forall l | l in LinksOf(m, filled) && l.to == (m.table, d) ensures l.action == FK.SetNull || l.action == FK.Unenforced {
      LinkIsStale(m, ts, d, s, l);
      assert !StaleUnder(m, ts, d, s, l.col, FK.Restrict) && !StaleUnder(m, ts, d, s, l.col, FK.Cascade);
    }
    FK.LooseGoAlone(LinksOf(m, filled), {(m.table, d)});
  }

  lemma LinkIsStale(m: Meta, ts: Tables, d: int, s: int, l: FK.Link)
    requires d != s && m.table in ts && d in ts[m.table] && s in ts[m.table]
    requires l in LinksOf(m, Filled(m, ts, d, s)) && l.to == (m.table, d)
    ensures StaleAt(m, ts, d, s, l.col) && l.action == ActionOf(m, Fk(m.table, l.col))
  {
    var filled: Tables := Filled(m, ts, d, s);
    var name: string, pk: int, c: string :| name in filled && pk in filled[name] && c in filled[name][pk] && filled[name][pk][c].Key? && ParentOf(m, name, c).Some?
      && l == FK.Link((name, pk), c, (ParentOf(m, name, c).value, filled[name][pk][c].id), ActionOf(m, Fk(name, c)));
    assert MentionsAt(m.incoming, filled, d, name, pk, c);
    FilledMentions(m, ts, d, s, name, pk, c);
  }

  /**
    A merge leaves a reference to a record that is gone exactly when records are deleted for
    good, some stale reference is not enforced, and none cascades or forbids the deletion.
  */
  lemma DanglesIff(m: Meta, ts: Tables, d: int, s: int, stamp: Row)
    requires d != s && m.table in ts && d in ts[m.table] && s in ts[m.table]
    requires forall c | c in stamp :: !Points(m.incoming, m.table, c)
    ensures Dangles(m, WithoutRecord(m, Filled(m, ts, d, s), d, stamp), d) <==>
      && !m.softDelete && (exists c :: StaleUnder(m, ts, d, s, c, FK.Unenforced))
      && forall c :: !StaleUnder(m, ts, d, s, c, FK.Restrict) && !StaleUnder(m, ts, d, s, c, FK.Cascade)
  {
    if m.softDelete {
      TrashLeavesNone(m, ts, d, s, stamp);
    } else {
      if Dangles(m, WithoutRecord(m, Filled(m, ts, d, s), d, stamp), d) { DanglingIsLoose(m, ts, d, s, stamp); }
      if (exists c :: StaleUnder(m, ts, d, s, c, FK.Unenforced))
        && forall c :: !StaleUnder(m, ts, d, s, c, FK.Restrict) && !StaleUnder(m, ts, d, s, c, FK.Cascade) {
        LooseDangles(m, ts, d, s, stamp);
      }
    }
  }

  lemma TrashLeavesNone(m: Meta, ts: Tables, d: int, s: int, stamp: Row)
    requires d != s && m.table in ts && d in ts[m.table] && s in ts[m.table] && m.softDelete
    requires forall c | c in stamp :: !Points(m.incoming, m.table, c)
    ensures !Dangles(m, WithoutRecord(m, Filled(m, ts, d, s), d, stamp), d)
  {
    var filled := Filled(m, ts, d, s);
    forall name, pk, c | MentionsAt(m.incoming, filled, d, name, pk, c) ensures name == m.table && pk == s {
      FilledMentions(m, ts, d, s, name, pk, c);
    }
    ReleaseKeepsTied(m, filled, m.incoming, d, s);
    var st := ReleaseAll(m, filled, m.incoming, d);
    if st.ok { StampKeepsTied(m, st.tables, d, s, stamp); }
    TiedNeverDangles(m, WithoutRecord(m, filled, d, stamp), d, s);
  }

  lemma TiedNeverDangles(m: Meta, ts: Tables, d: int, s: int)
    requires Tied(m, ts, d, s)
    ensures !Dangles(m, ts, d)
  {
    if Mentions(m.incoming, ts, d) {
      var name, pk, c :| MentionsAt(m.incoming, ts, d, name, pk, c);
    }
  }

  lemma DanglingIsLoose(m: Meta, ts: Tables, d: int, s: int, stamp: Row)
    requires d != s && m.table in ts && d in ts[m.table] && s in ts[m.table] && !m.softDelete
    requires Dangles(m, WithoutRecord(m, Filled(m, ts, d, s), d, stamp), d)
    ensures exists c :: StaleUnder(m, ts, d, s, c, FK.Unenforced)
    ensures forall c :: !StaleUnder(m, ts, d, s, c, FK.Restrict) && !StaleUnder(m, ts, d, s, c, FK.Cascade)
  {
    var filled := Filled(m, ts, d, s);
    var gone := DoomedRows(m, filled, {(m.table, d)}).value;
    var name, pk, c :| MentionsAt(m.incoming, Without(m, filled, gone), d, name, pk, c);
    DeleteKeepsMentions(m, filled, gone, d, name, pk, c);
    FilledMentions(m, ts, d, s, name, pk, c);
    StaleCell(m, ts, d, s, stamp, c);
    assert StaleUnder(m, ts, d, s, c, FK.Unenforced);
    forall x | StaleAt(m, ts, d, s, x) ensures !StaleUnder(m, ts, d, s, x, FK.Restrict) && !StaleUnder(m, ts, d, s, x, FK.Cascade) {
      StaleCell(m, ts, d, s, stamp, x);
    }
  }

  lemma LooseDangles(m: Meta, ts: Tables, d: int, s: int, stamp: Row)
    requires d != s && m.table in ts && d in ts[m.table] && s in ts[m.table] && !m.softDelete
    requires exists c :: StaleUnder(m, ts, d, s, c, FK.Unenforced)
    requires forall c :: !StaleUnder(m, ts, d, s, c, FK.Restrict) && !StaleUnder(m, ts, d, s, c, FK.Cascade)
    ensures Dangles(m, WithoutRecord(m, Filled(m, ts, d, s), d, stamp), d)
  {
    var c :| StaleUnder(m, ts, d, s, c, FK.Unenforced);
    DeletedForGood(m, ts, d, s);
    StaleCell(m, ts, d, s, stamp, c);
    var after := WithoutRecord(m, Filled(m, ts, d, s), d, stamp);
    assert MentionsAt(m.incoming, after, d, m.table, s, c);
  }

  // Record 2, which is its own parent, is folded into record 1, which has none.

  const PARENT := Fk("t", "parent")

  function Family(softDelete: bool, action: FK.Action): Meta {
    Meta("t", {"parent"}, softDelete, [PARENT], {}, [], map[], action != FK.Unenforced, fk => action)
  }

  const ORPHAN: Row := map["parent" := Null]
  const OWN_PARENT: Row := map["parent" := Key(2)]
  const FAMILY: Tables := map["t" := map[1 := ORPHAN, 2 := OWN_PARENT]]

  lemma FamilyIsStale(softDelete: bool, action: FK.Action)
    ensures StaleAt(Family(softDelete, action), FAMILY, 2, 1, "parent")
    ensures forall c | StaleAt(Family(softDelete, action), FAMILY, 2, 1, c) :: c == "parent"
    ensures ActionOf(Family(softDelete, action), PARENT) == action
  {
    assert PARENT in [PARENT];
  }

  lemma FamilyIdeal(softDelete: bool, action: FK.Action, stamp: Row)
    ensures CellOf(MergedTables(Family(softDelete, action), FAMILY, 2, 1, stamp)["t"][1], "parent") == Key(1)
  {
    FamilyIsStale(softDelete, action);
    IdealCell(Family(softDelete, action), FAMILY, 2, 1, stamp, "parent");
  }

  lemma FamilyLinks(action: FK.Action)
    ensures forall l | l in LinksOf(Family(false, action), Filled(Family(false, action), FAMILY, 2, 1)) :: l.action == action
  {}

  /**
    The two as one would be their own parent.  Deleted for good, the merge stops half done,
    or both records are gone, or the survivor has lost its parent, or it keeps one that is
    no longer there.
  */
  lemma StaleSelfForGood(action: FK.Action, stamp: Row)
    ensures var m := Family(false, action); var filled := Filled(m, FAMILY, 2, 1); var st := RemoveRecord(m, filled, 2, stamp); var t := st.tables["t"];
      match action
      case Restrict => st == Stored(filled, false)
      case Cascade => st.ok && 1 !in t && 2 !in t
      case SetNull => st.ok && 1 in t && 2 !in t && CellOf(t[1], "parent") == Null
      case Unenforced => st.ok && 1 in t && 2 !in t && CellOf(t[1], "parent") == Key(2)
  {
    var m := Family(false, action);
    FamilyIsStale(false, action);
    StaleCell(m, FAMILY, 2, 1, stamp, "parent");
    if action == FK.SetNull || action == FK.Unenforced {
      DeletedForGood(m, FAMILY, 2, 1);
    } else if action == FK.Cascade {
      FamilyLinks(action);
      var links := LinksOf(m, Filled(m, FAMILY, 2, 1));
      assert !FK.Forbidden(links, FK.Closure(links, {("t", 2)}));
    }
  }

  /** Into the trash, the survivor has lost its parent. */
  lemma StaleSelfIsLost(action: FK.Action, stamp: Row)
    ensures var m := Family(true, action); var st := RemoveRecord(m, Filled(m, FAMILY, 2, 1), 2, stamp);
      st.ok && 1 in st.tables["t"] && CellOf(st.tables["t"][1], "parent") == Null
  {
    var m := Family(true, action);
    var filled := Filled(m, FAMILY, 2, 1);
    FamilyIsStale(true, action);
    assert m.incoming == [PARENT] && m.incoming[..0] == [];
    assert ReleaseAll(m, filled, [], 2) == Stored(filled, true);
    assert ReleaseAll(m, filled, m.incoming, 2).ok;
    StaleCellTrashed(m, FAMILY, 2, 1, stamp, "parent");
  }
}
