/**
  What the database does to referring rows when rows are deleted: the action each foreign
  key was created with (app/metadata/schema_service.py, `add_relation_column`).  A
  database that does not enforce foreign keys does nothing.
*/
module ForeignKeys {
  import opened Wrappers

  datatype Action = SetNull | Cascade | Restrict | Unenforced

  /** A row: its table and its primary key. */
  type Key = (string, int)

  /** The row `from` refers to the row `to` in column `col`. */
  datatype Link = Link(from: Key, col: string, to: Key, action: Action)

  /** The rows that cascade with `gone`. */
  function Dragged(links: set<Link>, gone: set<Key>): set<Key> {
    set l | l in links && l.action == Cascade && l.to in gone :: l.from
  }

  function Closure(links: set<Link>, gone: set<Key>): (r: set<Key>)
    ensures gone <= r && Dragged(links, r) <= r
    decreases (set l | l in links :: l.from) - gone
  {
    var more := Dragged(links, gone) - gone;
    if more == {} then
      assert Dragged(links, gone) <= gone by {
        forall k | k in Dragged(links, gone) ensures k in gone { assert k !in more; }
      }
      gone
    else
      assert more <= (set l | l in links :: l.from);
      assert (set l | l in links :: l.from) - (gone + more) < (set l | l in links :: l.from) - gone by {
        var k :| k in more;
        assert k in (set l | l in links :: l.from) - gone && k !in (set l | l in links :: l.from) - (gone + more);
      }
      Closure(links, gone + more)
  }

  /** Some row must not lose what it refers to. */
  predicate Forbidden(links: set<Link>, gone: set<Key>) {
    exists l | l in links :: l.action == Restrict && l.to in gone
  }

  /** DELETE of some rows: all the rows that go with them, or None when it is refused. */
  function Doomed(links: set<Link>, seeds: set<Key>): Option<set<Key>> {
    var gone := Closure(links, seeds);
    if Forbidden(links, gone) then None else Some(gone)
  }

  /** `p` goes from row to referring row by cascading references. */
  ghost predicate Chain(links: set<Link>, p: seq<Key>) {
    p != [] && forall i | 0 < i < |p| :: Drags(links, p[i - 1], p[i])
  }

  ghost predicate Drags(links: set<Link>, to: Key, from: Key) {
    exists l :: l in links && l.action == Cascade && l.to == to && l.from == from
  }

  ghost predicate ReachedBy(links: set<Link>, seeds: set<Key>, k: Key) {
    exists p :: Chain(links, p) && p[0] in seeds && p[|p| - 1] == k
  }

  lemma {:induction false} ChainStaysIn(links: set<Link>, s: set<Key>, p: seq<Key>)
    requires Dragged(links, s) <= s && Chain(links, p) && p[0] in s
    ensures p[|p| - 1] in s
    decreases |p|
  {
    if |p| > 1 {
      ChainStaysIn(links, s, p[..|p| - 1]);
      assert Drags(links, p[|p| - 2], p[|p| - 1]);
    }
  }

  lemma ReachedNext(links: set<Link>, seeds: set<Key>, l: Link)
    requires l in links && l.action == Cascade && ReachedBy(links, seeds, l.to)
    ensures ReachedBy(links, seeds, l.from)
  {
    var p :| Chain(links, p) && p[0] in seeds && p[|p| - 1] == l.to;
    var q := p + [l.from];
    forall i | 0 < i < |q| ensures Drags(links, q[i - 1], q[i]) {
      if i < |p| { assert Drags(links, p[i - 1], p[i]); }
    }
    assert Chain(links, q) && q[0] in seeds && q[|q| - 1] == l.from;
  }

  lemma {:induction false} ClosureIsReached(links: set<Link>, seeds: set<Key>, gone: set<Key>)
    requires forall k | k in gone :: ReachedBy(links, seeds, k)
    ensures forall k | k in Closure(links, gone) :: ReachedBy(links, seeds, k)
    decreases (set l | l in links :: l.from) - gone
  {
    var more := Dragged(links, gone) - gone;
    if more != {} {
      forall k | k in more ensures ReachedBy(links, seeds, k) {
        var l :| l in links && l.action == Cascade && l.to in gone && l.from == k;
        ReachedNext(links, seeds, l);
      }
      var k :| k in more;
      assert k in (set l | l in links :: l.from) - gone && k !in (set l | l in links :: l.from) - (gone + more);
      ClosureIsReached(links, seeds, gone + more);
    }
  }

  /** What goes is exactly what the seeds reach along cascading references, however these run in circles. */
  lemma ClosureIff(links: set<Link>, seeds: set<Key>, k: Key)
    ensures k in Closure(links, seeds) <==> ReachedBy(links, seeds, k)
  {
    forall s | s in seeds ensures ReachedBy(links, seeds, s) {
      assert Chain(links, [s]);
    }
    ClosureIsReached(links, seeds, seeds);
    if ReachedBy(links, seeds, k) {
      var p :| Chain(links, p) && p[0] in seeds && p[|p| - 1] == k;
      ChainStaysIn(links, Closure(links, seeds), p);
    }
  }

  /** Rows that nothing has to follow or forbids to delete go alone. */
  lemma LooseGoAlone(links: set<Link>, seeds: set<Key>)
    requires forall l | l in links && l.to in seeds :: l.action == SetNull || l.action == Unenforced
    ensures Doomed(links, seeds) == Some(seeds)
  {
    assert Dragged(links, seeds) == {};
  }

  /** So do rows nobody refers to. */
  lemma UnreferencedGoAlone(links: set<Link>, seeds: set<Key>)
    requires forall l | l in links :: l.to !in seeds
    ensures Doomed(links, seeds) == Some(seeds)
  {
    LooseGoAlone(links, seeds);
  }

  /** One reference, and its target deleted. */
  lemma OneLinkDoomed(l: Link)
    requires l.from != l.to
    ensures Doomed({l}, {l.to}) ==
      match l.action
      case Restrict => None
      case Cascade => Some({l.to, l.from})
      case _ => Some({l.to})
  {
    var seeds := {l.to};
    assert l in {l};
    if l.action == Cascade {
      assert Dragged({l}, seeds) - seeds == {l.from};
      assert seeds + {l.from} == {l.to, l.from};
      assert Dragged({l}, {l.to, l.from}) == {l.from};
      assert Closure({l}, {l.to, l.from}) == {l.to, l.from};
      assert Closure({l}, seeds) == Closure({l}, seeds + {l.from});
    } else {
      assert Dragged({l}, seeds) == {};
    }
  }
}
