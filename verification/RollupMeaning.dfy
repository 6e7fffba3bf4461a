/**
  What rollups and lookups come to (app/data_service.py, app/formula.py), told without the
  recursion that computes them, down to the cell a ripple leaves behind.
*/
module RollupMeaning {
  import opened Wrappers
  import opened ForeignKeys
  import opened Rollups
  import opened RecordWrites

  // ---------------------------------------------------------------- minimum and maximum

  lemma {:induction false} NumbersAre(cells: seq<Cell>, x: real)
    ensures x in Numbers(cells) <==> Num(x) in cells
  {
    if cells != [] {
      NumbersAre(cells[1..], x);
      assert cells == [cells[0]] + cells[1..];
    }
  }

  lemma {:induction false} LeastIs(rs: seq<real>)
    requires rs != []
    ensures Least(rs) in rs && forall r | r in rs :: Least(rs) <= r
  {
    if |rs| > 1 {
      LeastIs(rs[1..]);
      assert rs == [rs[0]] + rs[1..];
    }
  }

  lemma {:induction false} GreatestIs(rs: seq<real>)
    requires rs != []
    ensures Greatest(rs) in rs && forall r | r in rs :: r <= Greatest(rs)
  {
    if |rs| > 1 {
      GreatestIs(rs[1..]);
      assert rs == [rs[0]] + rs[1..];
    }
  }

  ghost predicate NoNumber(cells: seq<Cell>) {
    forall c | c in cells :: !c.Num?
  }

  lemma NoNumberIff(cells: seq<Cell>)
    ensures Numbers(cells) == [] <==> NoNumber(cells)
  {
    if Numbers(cells) != [] {
      NumbersAre(cells, Numbers(cells)[0]);
    }
    forall x: real ensures x in Numbers(cells) <==> Num(x) in cells { NumbersAre(cells, x); }
    if !NoNumber(cells) {
      var c :| c in cells && c.Num?;
      assert c == Num(c.r) && c.r in Numbers(cells);
    }
  }

  /** Sum, average, minimum and maximum are nothing exactly when there is no number; a count always is one. */
  lemma NothingIff(op: Op, cells: seq<Cell>)
    ensures Aggregate(op, cells) == Null <==> op != Count && NoNumber(cells)
    ensures Aggregate(op, cells) != Null ==> Aggregate(op, cells).Num?
  {
    NoNumberIff(cells);
  }

  ghost predicate Smallest(cells: seq<Cell>, x: real) {
    Num(x) in cells && forall c | c in cells && c.Num? :: x <= c.r
  }

  ghost predicate Largest(cells: seq<Cell>, x: real) {
    Num(x) in cells && forall c | c in cells && c.Num? :: c.r <= x
  }

  /** The minimum is one of the numbers, and none is smaller. */
  lemma MinMeans(cells: seq<Cell>, x: real)
    ensures Aggregate(Min, cells) == Num(x) <==> Smallest(cells, x)
  {
    forall y: real ensures y in Numbers(cells) <==> Num(y) in cells { NumbersAre(cells, y); }
    NoNumberIff(cells);
    if Numbers(cells) != [] {
      LeastIs(Numbers(cells));
      var m := Least(Numbers(cells));
      forall c | c in cells && c.Num? ensures m <= c.r { assert c == Num(c.r); }
      assert Num(m) in cells && Num(m).Num?;
    }
  }

  /** The maximum is one of the numbers, and none is larger. */
  lemma MaxMeans(cells: seq<Cell>, x: real)
    ensures Aggregate(Max, cells) == Num(x) <==> Largest(cells, x)
  {
    forall y: real ensures y in Numbers(cells) <==> Num(y) in cells { NumbersAre(cells, y); }
    NoNumberIff(cells);
    if Numbers(cells) != [] {
      GreatestIs(Numbers(cells));
      var m := Greatest(Numbers(cells));
      forall c | c in cells && c.Num? ensures c.r <= m { assert c == Num(c.r); }
      assert Num(m) in cells && Num(m).Num?;
    }
  }

  // ---------------------------------------------------------------- count, sum and average

  ghost function PresentAt(cells: seq<Cell>): set<int> {
    set i | 0 <= i < |cells| && cells[i] != Null
  }

  ghost function NumberAt(cells: seq<Cell>): set<int> {
    set i | 0 <= i < |cells| && cells[i].Num?
  }

  lemma {:induction false} TotalAppend(a: seq<Cell>, b: seq<Cell>)
    ensures Total(a + b) == Total(a) + Total(b)
  {
    if a == [] {
      assert a + b == b;
    } else {
      TotalAppend(a[1..], b);
      assert (a + b)[1..] == a[1..] + b;
    }
  }

  lemma {:induction false} NumbersAppend(a: seq<Cell>, b: seq<Cell>)
    ensures Numbers(a + b) == Numbers(a) + Numbers(b)
  {
    if a == [] {
      assert a + b == b;
    } else {
      NumbersAppend(a[1..], b);
      assert (a + b)[1..] == a[1..] + b;
    }
  }

  lemma OfOne(c: Cell)
    ensures Present([c]) == (if c == Null then 0 else 1) && |Numbers([c])| == (if c.Num? then 1 else 0)
    ensures Total([c]) == if c.Num? then c.r else 0.0
  {
    assert [c][1..] == [];
    assert Numbers([]) == [] && Total([]) == 0.0 && Present([]) == 0;
  }

  lemma {:induction false} PresentIs(cells: seq<Cell>)
    ensures Present(cells) == |PresentAt(cells)|
    decreases |cells|
  {
    if cells == [] {
      assert PresentAt(cells) == {};
    } else {
      var n := |cells| - 1;
      var front, last := cells[..n], cells[n];
      assert cells == front + [last];
      PresentIs(front);
      PresentAppend(front, [last]);
      OfOne(last);
      assert PresentAt(cells) == PresentAt(front) + if last == Null then {} else {n};
    }
  }

  lemma {:induction false} NumbersCount(cells: seq<Cell>)
    ensures |Numbers(cells)| == |NumberAt(cells)|
    decreases |cells|
  {
    if cells == [] {
      assert NumberAt(cells) == {};
    } else {
      var n := |cells| - 1;
      var front, last := cells[..n], cells[n];
      assert cells == front + [last];
      NumbersCount(front);
      NumbersAppend(front, [last]);
      OfOne(last);
      assert NumberAt(cells) == NumberAt(front) + if last.Num? then {n} else {};
    }
  }

  /** The count is how many of the cells hold something. */
  lemma CountMeans(cells: seq<Cell>)
    ensures Aggregate(Count, cells) == Num(|PresentAt(cells)| as real)
  {
    PresentIs(cells);
  }

  /** What two parts sum up to together; nothing adds nothing. */
  function Plus(a: Cell, b: Cell): Cell {
    if a.Num? && b.Num? then Num(a.r + b.r) else if a.Num? then a else b
  }

  /** The sum of one number is that number, and of two lists the sum of theirs. */
  lemma SumMeans(a: seq<Cell>, b: seq<Cell>, c: Cell)
    ensures Aggregate(Sum, [c]) == if c.Num? then c else Null
    ensures Aggregate(Sum, a + b) == Plus(Aggregate(Sum, a), Aggregate(Sum, b))
  {
    SumOfOne(c);
    SumIs(a);
    SumIs(b);
    SumIs(a + b);
    TotalAppend(a, b);
    NumbersAppend(a, b);
  }

  lemma SumOfOne(c: Cell)
    ensures Aggregate(Sum, [c]) == if c.Num? then c else Null
  {
    OfOne(c);
    assert c.Num? ==> Numbers([c]) != [];
    assert !c.Num? ==> Numbers([c]) == [];
  }

  lemma SumIs(cells: seq<Cell>)
    ensures Aggregate(Sum, cells) == if |Numbers(cells)| == 0 then Null else Num(Total(cells))
    ensures |Numbers(cells)| == 0 ==> Total(cells) == 0.0
  {
    NoTotal(cells);
  }

  lemma {:induction false} NoTotal(cells: seq<Cell>)
    ensures Numbers(cells) == [] ==> Total(cells) == 0.0
  {
    if cells != [] {
      NoTotal(cells[1..]);
    }
  }

  /** The average, times how many numbers there are, is the sum. */
  lemma AvgMeans(cells: seq<Cell>)
    requires !NoNumber(cells)
    ensures NumberAt(cells) != {} && Aggregate(Avg, cells).Num?
    ensures Aggregate(Sum, cells) == Num(Aggregate(Avg, cells).r * |NumberAt(cells)| as real)
  {
    NoNumberIff(cells);
    NumbersCount(cells);
    var n := |Numbers(cells)| as real;
    assert n > 0.0 && Total(cells) / n * n == Total(cells);
  }

  // ---------------------------------------------------------------- the order of the rows

  lemma Removed<T>(s: seq<T>, i: nat)
    requires i < |s|
    ensures s == s[..i] + [s[i]] + s[i + 1..]
    ensures multiset(s[..i] + s[i + 1..]) == multiset(s) - multiset{s[i]}
  {
    assert s == s[..i] + [s[i]] + s[i + 1..];
  }

  lemma WithOne(a: seq<Cell>, c: Cell, b: seq<Cell>)
    ensures Total(a + [c] + b) == Total([c]) + Total(a + b)
    ensures |Numbers(a + [c] + b)| == |Numbers([c])| + |Numbers(a + b)|
    ensures Present(a + [c] + b) == Present([c]) + Present(a + b)
  {
    TotalAppend(a + [c], b); TotalAppend(a, [c]); TotalAppend(a, b);
    NumbersAppend(a + [c], b); NumbersAppend(a, [c]); NumbersAppend(a, b);
    PresentAppend(a + [c], b); PresentAppend(a, [c]); PresentAppend(a, b);
  }

  /** What the aggregates but minimum and maximum see of the cells. */
  ghost predicate SameTally(a: seq<Cell>, b: seq<Cell>) {
    Total(a) == Total(b) && |Numbers(a)| == |Numbers(b)| && Present(a) == Present(b)
  }

  lemma TakenOut(a: seq<Cell>, b: seq<Cell>, i: nat)
    requires a != [] && i < |b| && b[i] == a[0] && SameTally(a[1..], b[..i] + b[i + 1..])
    ensures SameTally(a, b)
  {
    assert b == b[..i] + [b[i]] + b[i + 1..] && a == [] + [a[0]] + a[1..] && [] + a[1..] == a[1..];
    WithOne(b[..i], b[i], b[i + 1..]);
    WithOne([], a[0], a[1..]);
  }

  lemma SameRest<T>(a: seq<T>, b: seq<T>) returns (i: nat)
    requires multiset(a) == multiset(b) && a != []
    ensures i < |b| && b[i] == a[0] && multiset(a[1..]) == multiset(b[..i] + b[i + 1..])
  {
    assert a[0] in multiset(b);
    i :| 0 <= i < |b| && b[i] == a[0];
    Removed(a, 0);
    Removed(b, i);
    assert a[..0] + a[1..] == a[1..];
  }

  lemma {:induction false} Permuted(a: seq<Cell>, b: seq<Cell>)
    requires multiset(a) == multiset(b)
    ensures SameTally(a, b)
    decreases |a|
  {
    if a == [] {
      assert |b| == |multiset(b)|;
    } else {
      var i := SameRest(a, b);
      Permuted(a[1..], b[..i] + b[i + 1..]);
      TakenOut(a, b, i);
    }
  }

  /** No aggregate depends on the order of the cells. */
  lemma OrderIrrelevant(op: Op, a: seq<Cell>, b: seq<Cell>)
    requires multiset(a) == multiset(b)
    ensures Aggregate(op, a) == Aggregate(op, b)
  {
    Permuted(a, b);
    forall c: Cell ensures c in a <==> c in b { assert c in multiset(a) <==> c in multiset(b); }
    NothingIff(op, a);
    NothingIff(op, b);
    if op == Min && !NoNumber(a) {
      MinMeans(a, Aggregate(Min, a).r);
      MinMeans(b, Aggregate(Min, a).r);
    } else if op == Max && !NoNumber(a) {
      MaxMeans(a, Aggregate(Max, a).r);
      MaxMeans(b, Aggregate(Max, a).r);
    }
  }

  lemma Shuffled(a: seq<Cell>, c: seq<Cell>, b: seq<Cell>)
    ensures multiset(a + c + b) == multiset(c) + multiset(a + b)
  {
    assert multiset(a + c + b) == multiset(a) + multiset(c) + multiset(b);
  }

  lemma {:induction false} PermutedRows(a: seq<Rec>, b: seq<Rec>, fk: string, pk: int, col: Option<string>)
    requires multiset(a) == multiset(b)
    ensures multiset(Values(a, fk, pk, col)) == multiset(Values(b, fk, pk, col))
    decreases |a|
  {
    if a == [] {
      assert |b| == |multiset(b)|;
    } else {
      var i := SameRest(a, b);
      PermutedRows(a[1..], b[..i] + b[i + 1..], fk, pk, col);
      Without(b, i, fk, pk, col);
    }
  }

  lemma Without(b: seq<Rec>, i: nat, fk: string, pk: int, col: Option<string>)
    requires i < |b|
    ensures multiset(Values(b, fk, pk, col)) == multiset(Selected(b[i], fk, pk, col)) + multiset(Values(b[..i] + b[i + 1..], fk, pk, col))
  {
    assert b == b[..i] + [b[i]] + b[i + 1..];
    ValuesAround(b[..i], b[i], b[i + 1..], fk, pk, col);
    ValuesAppend(b[..i], b[i + 1..], fk, pk, col);
    Shuffled(Values(b[..i], fk, pk, col), Selected(b[i], fk, pk, col), Values(b[i + 1..], fk, pk, col));
  }

  /** Nor does a rollup depend on the order in which the database hands out the rows. */
  lemma RowOrderIrrelevant(a: Db, b: Db, pk: int, cells: Cells, child: string, fk: string, op: Op, col: Option<string>)
    requires multiset(RowsOf(a, child)) == multiset(RowsOf(b, child))
    ensures PartValue(a, pk, cells, Rollup(child, fk, op, col)) == PartValue(b, pk, cells, Rollup(child, fk, op, col))
  {
    PermutedRows(RowsOf(a, child), RowsOf(b, child), fk, pk, col);
    OrderIrrelevant(op, Values(RowsOf(a, child), fk, pk, col), Values(RowsOf(b, child), fk, pk, col));
  }

  // ---------------------------------------------------------------- what is selected

  /** The indices of the rows that point at `pk`, in order. */
  ghost predicate Picks(rows: seq<Rec>, fk: string, pk: int, idx: seq<int>) {
    && (forall i :: i in idx <==> 0 <= i < |rows| && Get(rows[i].cells, fk) == Ref(pk))
    && (forall j, k | 0 <= j < k < |idx| :: idx[j] < idx[k])
  }

  ghost predicate Shows(rows: seq<Rec>, col: Option<string>, idx: seq<int>, cells: seq<Cell>) {
    |cells| == |idx| && forall k | 0 <= k < |idx| ::
      0 <= idx[k] < |rows| && cells[k] == match col case Some(name) => Get(rows[idx[k]].cells, name) case None => Ref(rows[idx[k]].pk)
  }

  lemma PicksNext(rows: seq<Rec>, fk: string, pk: int, before: seq<int>) returns (idx: seq<int>)
    requires rows != [] && Picks(rows[..|rows| - 1], fk, pk, before)
    ensures Picks(rows, fk, pk, idx)
    ensures idx == before + if Get(rows[|rows| - 1].cells, fk) == Ref(pk) then [|rows| - 1] else []
  {
    var n := |rows| - 1;
    idx := before + if Get(rows[n].cells, fk) == Ref(pk) then [n] else [];
    forall k | 0 <= k < |before| ensures before[k] < n { assert before[k] in before; }
    forall i ensures i in idx <==> 0 <= i < |rows| && Get(rows[i].cells, fk) == Ref(pk) {
      if i == n { assert n !in before; } else { assert i in idx <==> i in before; }
    }
  }

  lemma ShowsNext(front: seq<Rec>, last: Rec, col: Option<string>, idx: seq<int>, cells: seq<Cell>)
    requires Shows(front, col, idx, cells)
    ensures Shows(front + [last], col, idx, cells)
    ensures Shows(front + [last], col, idx + [|front|], cells + [if col.Some? then Get(last.cells, col.value) else Ref(last.pk)])
  {}

  /** A rollup aggregates one cell for each row that points at the parent, in row order. */
  lemma {:induction false} SelectedAre(rows: seq<Rec>, fk: string, pk: int, col: Option<string>) returns (idx: seq<int>)
    ensures Picks(rows, fk, pk, idx) && Shows(rows, col, idx, Values(rows, fk, pk, col))
    decreases |rows|
  {
    if rows == [] {
      idx := [];
    } else {
      var front, last := rows[..|rows| - 1], rows[|rows| - 1];
      var before := SelectedAre(front, fk, pk, col);
      idx := PicksNext(rows, fk, pk, before);
      assert rows == front + [last];
      ShowsNext(front, last, col, before, Values(front, fk, pk, col));
      ValuesNext(front, last, fk, pk, col);
      if Get(last.cells, fk) != Ref(pk) {
        assert idx == before && Values(rows, fk, pk, col) == Values(front, fk, pk, col);
      }
    }
  }

  lemma ValuesNext(front: seq<Rec>, last: Rec, fk: string, pk: int, col: Option<string>)
    ensures Values(front + [last], fk, pk, col) == Values(front, fk, pk, col) + Selected(last, fk, pk, col)
  {
    ValuesAround(front, last, [], fk, pk, col);
    assert front + [last] + [] == front + [last] && Values([], fk, pk, col) == [];
  }

  /** The cells of column `name` in the rows that point at `pk`: these and no others are aggregated. */
  lemma SelectedIff(rows: seq<Rec>, fk: string, pk: int, name: string, c: Cell)
    ensures c in Values(rows, fk, pk, Some(name)) <==> exists r :: r in rows && Get(r.cells, fk) == Ref(pk) && Get(r.cells, name) == c
  {
    var idx := SelectedAre(rows, fk, pk, Some(name));
    var cells := Values(rows, fk, pk, Some(name));
    if c in cells {
      var k :| 0 <= k < |cells| && cells[k] == c;
      assert idx[k] in idx && rows[idx[k]] in rows;
    }
    if r :| r in rows && Get(r.cells, fk) == Ref(pk) && Get(r.cells, name) == c {
      var i :| 0 <= i < |rows| && rows[i] == r;
      assert i in idx;
      var k :| 0 <= k < |idx| && idx[k] == i;
      assert cells[k] == c;
    }
  }

  lemma {:induction false} AllPresent(cells: seq<Cell>)
    requires forall k | 0 <= k < |cells| :: cells[k] != Null
    ensures Present(cells) == |cells|
  {
    if cells != [] {
      AllPresent(cells[1..]);
    }
  }

  /** A row count without a column counts the rows that point at the parent. */
  lemma RowCount(rows: seq<Rec>, fk: string, pk: int)
    ensures Aggregate(Count, Values(rows, fk, pk, None)) == Num(|set i | 0 <= i < |rows| && Get(rows[i].cells, fk) == Ref(pk)| as real)
  {
    var idx := SelectedAre(rows, fk, pk, None);
    AllPresent(Values(rows, fk, pk, None));
    IndexCount(idx);
    assert (set i | 0 <= i < |rows| && Get(rows[i].cells, fk) == Ref(pk)) == set i | i in idx;
  }

  lemma {:induction false} IndexCount(idx: seq<int>)
    requires forall j, k | 0 <= j < k < |idx| :: idx[j] < idx[k]
    ensures |set i | i in idx| == |idx|
    decreases |idx|
  {
    if idx == [] {
      assert (set i | i in idx) == {};
    } else {
      var n := |idx| - 1;
      IndexCount(idx[..n]);
      assert (set i | i in idx) == (set i | i in idx[..n]) + {idx[n]};
    }
  }

  /** A lookup shows the column of the row that the link refers to, and nothing when there is none. */
  lemma LookupMeans(db: Db, pk: int, cells: Cells, link: string, parent: string, target: string)
    requires DistinctKeys(RowsOf(db, parent))
    ensures forall r | r in RowsOf(db, parent) && Get(cells, link) == Ref(r.pk) :: PartValue(db, pk, cells, Lookup(link, parent, target)) == Get(r.cells, target)
    ensures (forall r | r in RowsOf(db, parent) :: Get(cells, link) != Ref(r.pk)) ==> PartValue(db, pk, cells, Lookup(link, parent, target)) == Null
  {
    var rows := RowsOf(db, parent);
    forall r | r in rows && Get(cells, link) == Ref(r.pk) ensures PartValue(db, pk, cells, Lookup(link, parent, target)) == Get(r.cells, target) {
      var i := Find(rows, r.pk);
      assert rows[i.value] in rows;
      OneByKey(rows, r, rows[i.value]);
    }
    if Get(cells, link).Ref? && Find(rows, Get(cells, link).id).Some? {
      assert rows[Find(rows, Get(cells, link).id).value] in rows;
    }
  }

  // ---------------------------------------------------------------- the stored cell

  lemma {:induction false} ReachedFine(u: Schema, db: Db, vs: seq<Key>, k: Key)
    requires OneLevel(u) && ValidDb(u, db) && Visited(u, db, vs, k)
    ensures !Raises(u, db, k)
    decreases |vs|
  {
    var next := Recomputed(u, db, vs[0]).value;
    if k != vs[0] {
      RecomputedWorks(u, db, vs[0]);
      VisitedNext(u, db, next, vs, k);
      ReachedFine(u, next, vs[1..], k);
      RaisesOnBase(u, db, next, k);
    }
  }

  /** The formula is one call, whose answer it gives. */
  ghost predicate Just(u: Schema, f: Field, p: Part) {
    f.kind.Computed? && f.kind.parts == [p] && forall c :: u.combine(f.kind.formula, [c]) == Some(c)
  }

  /** Row `x` as a write and its ripple leave it, the ripple having got to it. */
  ghost predicate Reached(u: Schema, db: Db, w: Write, t: string, x: Rec)
    requires Possible(u, db, w)
  {
    t in u.tables && x in RowsOf(After(u, db, w), t) && Visited(u, Written(u, db, w).db, ToVisit(u, db, w), (t, x.pk))
  }

  lemma RippledAgrees(u: Schema, db: Db, vs: seq<Key>, t: string, x: Rec)
    requires OneLevel(u) && ValidDb(u, db) && t in u.tables && x in RowsOf(RippleOver(u, db, vs), t) && Visited(u, db, vs, (t, x.pk))
    ensures ValidDb(u, RippleOver(u, db, vs)) && RowAgrees(u, RippleOver(u, db, vs), t, x)
    ensures Recomputation(u, RippleOver(u, db, vs), t, x).Some?
  {
    var after := RippleOver(u, db, vs);
    RippleWorks(u, db, vs);
    var i :| 0 <= i < |after[t]| && after[t][i] == x;
    assert SameRows(u, t, db[t], after[t]) && SameRec(u, t, db[t][i], after[t][i]);
    assert Rippled(u, db, after, vs, t, i);
    ReachedFine(u, db, vs, (t, x.pk));
    RaisesOnBase(u, db, after, (t, x.pk));
    KeyFound(after[t], x.pk);
    var j := Find(after[t], x.pk);
    assert after[t][j.value] in after[t];
    OneByKey(after[t], x, after[t][j.value]);
  }

  /** A cell the ripple got to holds what its formula reads in the database as it is now. */
  lemma StoredIs(u: Schema, db: Db, w: Write, t: string, x: Rec, f: Field, p: Part)
    requires OneLevel(u) && ValidDb(u, db) && Possible(u, db, w) && Reached(u, db, w, t, x) && f in u.tables[t] && Just(u, f, p)
    ensures Get(x.cells, f.name) == PartValue(After(u, db, w), x.pk, x.cells, p)
  {
    OwnKey(u, db, w);
    ExecuteTracks(u, db, w, OwnRow(u, db, w));
    RippledAgrees(u, Written(u, db, w).db, ToVisit(u, db, w), t, x);
    AgreesIffFresh(u, After(u, db, w), t, x);
    assert PartValues(After(u, db, w), x.pk, x.cells, [p]) == [PartValue(After(u, db, w), x.pk, x.cells, p)];
  }

  /** Some row of the child table that points at `pk` holds `c` in the column. */
  ghost predicate Below(db: Db, child: string, fk: string, pk: int, name: string, c: Cell) {
    exists r :: r in RowsOf(db, child) && Get(r.cells, fk) == Ref(pk) && Get(r.cells, name) == c
  }

  /**
    A stored minimum or maximum after a write: the smallest, or largest, number among the
    children that now point at the row, and nothing exactly when none of them has a number.
  */
  lemma StoredExtreme(u: Schema, db: Db, w: Write, t: string, x: Rec, f: Field, child: string, fk: string, op: Op, name: string, m: real)
    requires OneLevel(u) && ValidDb(u, db) && Possible(u, db, w) && Reached(u, db, w, t, x)
    requires f in u.tables[t] && Just(u, f, Rollup(child, fk, op, Some(name)))
    ensures var now := After(u, db, w);
      && (op == Min ==> (Get(x.cells, f.name) == Num(m) <==>
           Below(now, child, fk, x.pk, name, Num(m)) && forall c | Below(now, child, fk, x.pk, name, c) && c.Num? :: m <= c.r))
      && (op == Max ==> (Get(x.cells, f.name) == Num(m) <==>
           Below(now, child, fk, x.pk, name, Num(m)) && forall c | Below(now, child, fk, x.pk, name, c) && c.Num? :: c.r <= m))
      && (op != Count ==> (Get(x.cells, f.name) == Null <==> forall c | Below(now, child, fk, x.pk, name, c) :: !c.Num?))
  {
    StoredIs(u, db, w, t, x, f, Rollup(child, fk, op, Some(name)));
    var now := After(u, db, w);
    var cells := Values(RowsOf(now, child), fk, x.pk, Some(name));
    forall c ensures c in cells <==> Below(now, child, fk, x.pk, name, c) { SelectedIff(RowsOf(now, child), fk, x.pk, name, c); }
    NothingIff(op, cells);
    MinMeans(cells, m);
    MaxMeans(cells, m);
  }
}
