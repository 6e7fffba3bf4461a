/**
  The conditional-form rule language (app/form_rules.py): rule trees over field names,
  the depth-first ordering that rejects cycles, and the one-pass evaluation that masks
  hidden and locked values as it goes.

  A submitted scalar is known to the rules only through `text`, so a value is modelled by
  what `text` makes of it.  `Decimal(...)` is library behaviour: it is a parameter
  `dec` of every evaluation, giving the finite decimal a text denotes, or None when the
  text is not a number or is not finite.
*/
module FormRules {
  import opened Texts
  import opened Wrappers

  datatype Value = Nil | Truth(b: bool) | Scalar(str: string)

  type Decimal = string -> Option<real>

  datatype Op = Eq | Ne | Empty | NotEmpty | Contains | Gt | Gte | Lt | Lte

  datatype Node =
    | All(children: seq<Node>)
    | AnyOf(children: seq<Node>)
    | Cond(field: string, op: Op, value: Value)

  datatype Rules = Rules(show: Option<Node>, readonly: Option<Node>, require: Option<Node>)

  datatype Item = Item(rules: Rules, dtype: string, locked: bool, required: bool)

  type Config = map<string, Item>

  type Values = map<string, Value>

  datatype State = State(visible: bool, readonly: bool, required: bool)

  const NUMERIC: set<string> := {"integer", "bigint", "float", "decimal", "currency", "percent"}

  // ---------------------------------------------------------------- rule trees

  function Text(v: Value): string {
    match v
    case Nil => ""
    case Truth(b) => if b then "true" else "false"
    case Scalar(s) => s
  }

  function References(n: Node): set<string> {
    match n
    case Cond(f, _, _) => {f}
    case All(cs) => set c, f | c in cs && f in References(c) :: f
    case AnyOf(cs) => set c, f | c in cs && f in References(c) :: f
  }

  predicate Within(part: string, whole: string) {
    part <= whole || (whole != "" && Within(part, whole[1..]))
  }

  predicate CompareText(op: Op, a: string, b: string) {
    match op
    case Eq => a == b
    case Ne => a != b
    case Gt => Before(b, a)
    case Gte => !Before(a, b)
    case Lt => Before(a, b)
    case Lte => !Before(b, a)
    case _ => false
  }

  predicate CompareNumber(op: Op, a: real, b: real) {
    match op
    case Eq => a == b
    case Ne => a != b
    case Gt => a > b
    case Gte => a >= b
    case Lt => a < b
    case Lte => a <= b
    case _ => false
  }

  predicate Holds(dec: Decimal, op: Op, left: string, right: string, numeric: bool) {
    match op
    case Empty => left == ""
    case NotEmpty => left != ""
    case Contains => Within(right, left)
    case _ =>
      if numeric then
        dec(left).Some? && dec(right).Some? && CompareNumber(op, dec(left).value, dec(right).value)
      else
        CompareText(op, left, right)
  }

  function TypeOf(c: Config, name: string): string {
    if name in c then c[name].dtype else ""
  }

  predicate Matches(dec: Decimal, n: Node, values: Values, c: Config) {
    match n
    case All(cs) => forall i | 0 <= i < |cs| :: Matches(dec, cs[i], values, c)
    case AnyOf(cs) => exists i | 0 <= i < |cs| :: Matches(dec, cs[i], values, c)
    case Cond(f, op, v) =>
      f in values && Holds(dec, op, Text(values[f]), Text(v), TypeOf(c, f) in NUMERIC)
  }

  // ---------------------------------------------------------------- dependency graph

  function RefsOf(t: Option<Node>): set<string> {
    if t.Some? then References(t.value) else {}
  }

  function RuleRefs(r: Rules): set<string> {
    RefsOf(r.show) + RefsOf(r.readonly) + RefsOf(r.require)
  }

  /** The fields of the config that the rules of `name` refer to. */
  function Deps(c: Config, name: string): set<string>
    requires name in c
  {
    RuleRefs(c[name].rules) * c.Keys
  }

  ghost predicate Edge(c: Config, a: string, b: string) {
    a in c && b in Deps(c, a)
  }

  ghost predicate Walk(c: Config, p: seq<string>) {
    forall i | 0 <= i < |p| - 1 :: Edge(c, p[i], p[i + 1])
  }

  ghost predicate Closed(c: Config, p: seq<string>) {
    |p| >= 2 && Walk(c, p) && p[0] == p[|p| - 1]
  }

  /** No rule leads, directly or through other fields, back to its own field. */
  ghost predicate Acyclic(c: Config) {
    forall p :: !Closed(c, p)
  }

  ghost predicate Distinct<T>(s: seq<T>) {
    forall i, j | 0 <= i < j < |s| :: s[i] != s[j]
  }

  /** Each name at most once, and after everything it depends on. */
  ghost predicate DepsFirst(c: Config, o: seq<string>) {
    && Distinct(o)
    && (forall x | x in o :: x in c)
    && (forall i, d | 0 <= i < |o| && Edge(c, o[i], d) :: d in o[..i])
  }

  ghost predicate Ordered(c: Config, o: seq<string>) {
    DepsFirst(c, o) && forall x | x in c :: x in o
  }

  /** A walk that starts inside a dependency-first list goes strictly backwards in it. */
  lemma {:induction false} WalkGoesBack(c: Config, o: seq<string>, p: seq<string>, k: nat)
    requires DepsFirst(c, o) && Walk(c, p) && |p| >= 1 && k < |o| && p[0] == o[k]
    ensures p[|p| - 1] in o[..k + 1]
    ensures |p| >= 2 ==> p[|p| - 1] in o[..k]
    decreases |p|
  {
    if |p| >= 2 {
      assert Edge(c, p[0], p[1]);
      var j :| 0 <= j < k && o[j] == p[1];
      assert Walk(c, p[1..]) by {
        forall i | 0 <= i < |p[1..]| - 1 ensures Edge(c, p[1..][i], p[1..][i + 1]) {
          assert Edge(c, p[i + 1], p[i + 2]);
        }
      }
      WalkGoesBack(c, o, p[1..], j);
    }
  }

  lemma OrderedIsAcyclic(c: Config, o: seq<string>)
    requires Ordered(c, o)
    ensures Acyclic(c)
  {
    forall p ensures !Closed(c, p) {
      if Closed(c, p) {
        assert Edge(c, p[0], p[1]);
        var k :| 0 <= k < |o| && o[k] == p[0];
        WalkGoesBack(c, o, p, k);
        assert false;
      }
    }
  }

  lemma InPrefix(a: seq<string>, b: seq<string>)
    requires a <= b
    ensures forall x | x in a :: x in b
  {
    assert forall i | 0 <= i < |a| :: a[i] == b[i];
  }

  /**
    The inner `visit` of `order`.  `active` are the names on the recursion stack, which
    `path` spells out, so meeting an active name again closes a walk.
  */
  method Visit(c: Config, name: string, done: seq<string>, active: set<string>, ghost path: seq<string>)
    returns (r: Option<seq<string>>, ghost cycle: seq<string>)
    requires name in c && DepsFirst(c, done) && active <= c.Keys
    requires forall x | x in done :: x !in active
    requires |path| >= 1 && path[|path| - 1] == name && Walk(c, path)
    requires forall x | x in active :: exists k :: 0 <= k < |path| - 1 && path[k] == x
    ensures r.Some? ==> DepsFirst(c, r.value) && done <= r.value && name in r.value
    ensures r.Some? ==> forall x | x in r.value :: x !in active
    ensures r.None? ==> Closed(c, cycle)
    decreases c.Keys - active - (set x | x in done)
  {
    cycle := [];
    if name in active {
      ghost var k :| 0 <= k < |path| - 1 && path[k] == name;
      cycle := path[k..];
      assert Walk(c, cycle) by {
        forall i | 0 <= i < |cycle| - 1 ensures Edge(c, cycle[i], cycle[i + 1]) {
          assert Edge(c, path[k + i], path[k + i + 1]);
        }
      }
      return None, cycle;
    }
    if name in done {
      return Some(done), cycle;
    }
    var result := done;
    var todo := Deps(c, name);
    while todo != {}
      invariant todo <= Deps(c, name)
      invariant DepsFirst(c, result) && done <= result
      invariant forall x | x in result :: x !in active && x != name
      invariant forall d | d in Deps(c, name) && d !in todo :: d in result
      decreases todo
    {
      var d :| d in todo;
      todo := todo - {d};
      ghost var path' := path + [d];
      assert Walk(c, path') by {
        forall i | 0 <= i < |path'| - 1 ensures Edge(c, path'[i], path'[i + 1]) {
          if i < |path| - 1 { assert Edge(c, path[i], path[i + 1]); }
        }
      }
      forall x | x in active + {name} ensures exists k :: 0 <= k < |path'| - 1 && path'[k] == x {
        if x == name {
          assert path'[|path| - 1] == x;
        } else {
          var k :| 0 <= k < |path| - 1 && path[k] == x;
          assert path'[k] == x;
        }
      }
      assert forall x | x in done :: x in result by { InPrefix(done, result); }
      var inner;
      assert c.Keys - (active + {name}) - (set x | x in result) < c.Keys - active - (set x | x in done) by {
        assert name in c.Keys - active - (set x | x in done);
      }
      inner, cycle := Visit(c, d, result, active + {name}, path');
      if inner.None? {
        return None, cycle;
      }
      result := inner.value;
    }
    ghost var before := result;
    result := result + [name];
    assert forall i | 0 <= i < |before| :: result[..i] == before[..i];
    assert result[..|before|] == before;
    return Some(result), cycle;
  }

  /**
    `order`: the visiting order of a config whose keys come in the order `keys`.  None
    stands for the ValueError about a cycle.  `set` iteration order is arbitrary in
    Python, and so is the choice of the next dependency here.
  */
  method Order(c: Config, keys: seq<string>) returns (r: Option<seq<string>>)
    requires forall x :: x in keys <==> x in c
    ensures r.Some? <==> Acyclic(c)
    ensures r.Some? ==> Ordered(c, r.value)
  {
    var result := [];
    for k := 0 to |keys|
      invariant DepsFirst(c, result)
      invariant forall j | 0 <= j < k :: keys[j] in result
    {
      var inner, cycle := Visit(c, keys[k], result, {}, [keys[k]]);
      if inner.None? {
        return None;
      }
      result := inner.value;
    }
    OrderedIsAcyclic(c, result);
    return Some(result);
  }

  // ---------------------------------------------------------------- evaluation

  function Trusted(trusted: Values, name: string): Value {
    if name in trusted then trusted[name] else Nil
  }

  predicate Check(dec: Decimal, t: Option<Node>, values: Values, c: Config, default: bool) {
    if t.Some? then Matches(dec, t.value, values, c) else default
  }

  /** The state of one field, its rules read against `values`. */
  function Decide(dec: Decimal, c: Config, name: string, values: Values): State
    requires name in c
  {
    var item := c[name];
    var visible := Check(dec, item.rules.show, values, c, true);
    var locked := item.locked || Check(dec, item.rules.readonly, values, c, false);
    var required := item.required || Check(dec, item.rules.require, values, c, false);
    State(visible, locked, required && visible && !locked)
  }

  predicate Masked(s: State) {
    !s.visible || s.readonly
  }

  /** The values after the initial pass that overwrites permanently locked fields. */
  function Locked(c: Config, values: Values, trusted: Values): Values {
    map n | n in values.Keys + c.Keys && (n in values || c[n].locked)
      :: if n in c && c[n].locked then Trusted(trusted, n) else values[n]
  }

  /** The loop of `states` over the names in `o`, as a recursion on its last step. */
  function Settle(dec: Decimal, c: Config, values: Values, trusted: Values, o: seq<string>)
    : (r: (Values, map<string, State>))
    requires forall x | x in o :: x in c
  {
    if o == [] then (Locked(c, values, trusted), map[])
    else
      var (vals, sts) := Settle(dec, c, values, trusted, o[..|o| - 1]);
      var name := o[|o| - 1];
      var s := Decide(dec, c, name, vals);
      (if Masked(s) then vals[name := Trusted(trusted, name)] else vals, sts[name := s])
  }

  /**
    The equations `states` is meant to solve.  `fin` are the final values and `st` the
    states: every field's state is what its rules say of the final values themselves,
    and a field that is hidden or locked ends on its trusted value, any other on the
    submitted one.
  */
  ghost predicate Solves(dec: Decimal, c: Config, values: Values, trusted: Values,
                         fin: Values, st: map<string, State>) {
    && st.Keys == c.Keys
    && (forall n | n in c :: st[n] == Decide(dec, c, n, fin))
    && (forall n :: Settled(c, values, trusted, fin, st, n))
  }

  ghost predicate Settled(c: Config, values: Values, trusted: Values,
                          fin: Values, st: map<string, State>, n: string) {
    if n in c && n in st && Masked(st[n]) then n in fin && fin[n] == Trusted(trusted, n)
    else Same(fin, values, n)
  }

  ghost predicate Same(a: Values, b: Values, n: string) {
    (n in a <==> n in b) && (n in a ==> a[n] == b[n])
  }

  lemma SameEverywhere(a: Values, b: Values)
    requires forall n :: Same(a, b, n)
    ensures a == b
  {
    forall n ensures n in a <==> n in b { assert Same(a, b, n); }
    assert a.Keys == b.Keys;
    forall n | n in a ensures a[n] == b[n] { assert Same(a, b, n); }
  }

  /** A rule tree reads nothing but the fields it refers to. */
  lemma {:induction false} MatchesReads(dec: Decimal, n: Node, a: Values, b: Values, c: Config)
    requires forall f | f in References(n) :: Same(a, b, f)
    ensures Matches(dec, n, a, c) == Matches(dec, n, b, c)
  {
    match n
    case Cond(f, op, v) =>
      assert Same(a, b, f);
    case All(cs) =>
      forall i | 0 <= i < |cs| ensures Matches(dec, cs[i], a, c) == Matches(dec, cs[i], b, c) {
        MatchesReads(dec, cs[i], a, b, c);
      }
    case AnyOf(cs) =>
      forall i | 0 <= i < |cs| ensures Matches(dec, cs[i], a, c) == Matches(dec, cs[i], b, c) {
        MatchesReads(dec, cs[i], a, b, c);
      }
  }

  lemma DecideReads(dec: Decimal, c: Config, name: string, a: Values, b: Values)
    requires name in c
    requires forall f | f in RuleRefs(c[name].rules) :: Same(a, b, f)
    ensures Decide(dec, c, name, a) == Decide(dec, c, name, b)
  {
    var r := c[name].rules;
    if r.show.Some? { MatchesReads(dec, r.show.value, a, b, c); }
    if r.readonly.Some? { MatchesReads(dec, r.readonly.value, a, b, c); }
    if r.require.Some? { MatchesReads(dec, r.require.value, a, b, c); }
  }

  lemma PrefixDepsFirst(c: Config, o: seq<string>)
    requires DepsFirst(c, o) && o != []
    ensures DepsFirst(c, o[..|o| - 1]) && o[|o| - 1] !in o[..|o| - 1]
  {
    var p := o[..|o| - 1];
    forall i, d | 0 <= i < |p| && Edge(c, p[i], d) ensures d in p[..i] {
      assert o[i] == p[i] && o[..i] == p[..i];
    }
  }

  /** What the one-pass loop has achieved once the names in `o` are done. */
  ghost predicate Progress(dec: Decimal, c: Config, values: Values, trusted: Values, o: seq<string>,
                           vals: Values, sts: map<string, State>) {
    && (forall n :: n in sts <==> n in o)
    && (forall n | n in o :: n in c && sts[n] == Decide(dec, c, n, vals))
    && (forall n | n in o :: Settled(c, values, trusted, vals, sts, n))
    && (forall n | n !in o :: Same(vals, Locked(c, values, trusted), n))
  }

  lemma StepKeepsProgress(dec: Decimal, c: Config, values: Values, trusted: Values, o: seq<string>,
                          vals: Values, sts: map<string, State>, vals': Values, sts': map<string, State>)
    requires DepsFirst(c, o) && o != []
    requires Progress(dec, c, values, trusted, o[..|o| - 1], vals, sts)
    requires var name := o[|o| - 1]; var s := Decide(dec, c, name, vals);
      sts' == sts[name := s] && vals' == if Masked(s) then vals[name := Trusted(trusted, name)] else vals
    ensures Progress(dec, c, values, trusted, o, vals', sts')
  {
    var p := o[..|o| - 1];
    var name := o[|o| - 1];
    PrefixDepsFirst(c, o);
    assert o == p + [name];
    assert forall n :: n in o <==> n in p || n == name;
    assert forall n | n != name :: Same(vals, vals', n);
    forall n | n in o ensures sts'[n] == Decide(dec, c, n, vals') {
      var k :| 0 <= k < |o| && o[k] == n;
      forall f | f in RuleRefs(c[n].rules) ensures Same(vals, vals', f) {
        if f == name {
          assert Edge(c, o[k], f);
          assert false;
        }
      }
      DecideReads(dec, c, n, vals, vals');
    }
    forall n | n in o ensures Settled(c, values, trusted, vals', sts', n) {
      if n != name {
        assert Settled(c, values, trusted, vals, sts, n);
      } else {
        assert Same(vals, Locked(c, values, trusted), n);
      }
    }
    forall n | n !in o ensures Same(vals', Locked(c, values, trusted), n) {
      assert Same(vals, Locked(c, values, trusted), n) && Same(vals, vals', n);
    }
  }

  lemma {:induction false} SettleProgress(dec: Decimal, c: Config, values: Values, trusted: Values, o: seq<string>)
    requires DepsFirst(c, o)
    ensures var (vals, sts) := Settle(dec, c, values, trusted, o);
      Progress(dec, c, values, trusted, o, vals, sts)
  {
    if o != [] {
      var p := o[..|o| - 1];
      PrefixDepsFirst(c, o);
      SettleProgress(dec, c, values, trusted, p);
      var (vals, sts) := Settle(dec, c, values, trusted, p);
      var (vals', sts') := Settle(dec, c, values, trusted, o);
      StepKeepsProgress(dec, c, values, trusted, o, vals, sts, vals', sts');
    }
  }

  /** The one pass over a dependency order solves the equations. */
  lemma SettleSolves(dec: Decimal, c: Config, values: Values, trusted: Values, o: seq<string>)
    requires Ordered(c, o)
    ensures var (fin, st) := Settle(dec, c, values, trusted, o); Solves(dec, c, values, trusted, fin, st)
  {
    SettleProgress(dec, c, values, trusted, o);
    var (fin, st) := Settle(dec, c, values, trusted, o);
    forall n ensures Settled(c, values, trusted, fin, st, n) {
      if n !in c {
        assert Same(fin, Locked(c, values, trusted), n);
      }
    }
  }

  /** An acyclic config has at most one solution. */
  lemma {:induction false} SolutionUnique(dec: Decimal, c: Config, values: Values, trusted: Values, o: seq<string>,
                       f1: Values, s1: map<string, State>, f2: Values, s2: map<string, State>)
    requires Ordered(c, o)
    requires Solves(dec, c, values, trusted, f1, s1) && Solves(dec, c, values, trusted, f2, s2)
    ensures f1 == f2 && s1 == s2
  {
    AgreeUpTo(dec, c, values, trusted, o, f1, s1, f2, s2, |o|);
    forall n ensures Same(f1, f2, n) {
      if n in c {
        var k :| 0 <= k < |o| && o[k] == n;
      } else {
        assert Settled(c, values, trusted, f1, s1, n) && Settled(c, values, trusted, f2, s2, n);
      }
    }
    SameEverywhere(f1, f2);
    forall n | n in c ensures s1[n] == s2[n] {
      var k :| 0 <= k < |o| && o[k] == n;
    }
  }

  lemma {:induction false} AgreeUpTo(dec: Decimal, c: Config, values: Values, trusted: Values, o: seq<string>,
                  f1: Values, s1: map<string, State>, f2: Values, s2: map<string, State>, m: nat)
    requires Ordered(c, o) && m <= |o|
    requires Solves(dec, c, values, trusted, f1, s1) && Solves(dec, c, values, trusted, f2, s2)
    ensures forall k | 0 <= k < m :: s1[o[k]] == s2[o[k]] && Same(f1, f2, o[k])
  {
    if m > 0 {
      AgreeUpTo(dec, c, values, trusted, o, f1, s1, f2, s2, m - 1);
      var name := o[m - 1];
      forall f | f in RuleRefs(c[name].rules) ensures Same(f1, f2, f) {
        assert Settled(c, values, trusted, f1, s1, f) && Settled(c, values, trusted, f2, s2, f);
        if f in c {
          assert Edge(c, o[m - 1], f);
        }
      }
      DecideReads(dec, c, name, f1, f2);
      assert Settled(c, values, trusted, f1, s1, name) && Settled(c, values, trusted, f2, s2, name);
    }
  }

  /** Any two dependency orders of the same config give the same values and states. */
  lemma OrderIrrelevant(dec: Decimal, c: Config, values: Values, trusted: Values, o1: seq<string>, o2: seq<string>)
    requires Ordered(c, o1) && Ordered(c, o2)
    ensures Settle(dec, c, values, trusted, o1) == Settle(dec, c, values, trusted, o2)
  {
    SettleSolves(dec, c, values, trusted, o1);
    SettleSolves(dec, c, values, trusted, o2);
    var (f1, s1) := Settle(dec, c, values, trusted, o1);
    var (f2, s2) := Settle(dec, c, values, trusted, o2);
    SolutionUnique(dec, c, values, trusted, o1, f1, s1, f2, s2);
  }

  /**
    What a hidden or locked field was submitted with is irrelevant: if two submissions
    differ only in fields that end up masked, they get the same final values and states.
    (In particular the final values themselves may be submitted again.)
  */
  lemma MaskedInputIrrelevant(dec: Decimal, c: Config, v1: Values, v2: Values, trusted: Values, o: seq<string>)
    requires Ordered(c, o)
    requires var st := Settle(dec, c, v1, trusted, o).1;
      forall n :: Same(v1, v2, n) || (n in c && n in st && Masked(st[n]))
    ensures Settle(dec, c, v1, trusted, o) == Settle(dec, c, v2, trusted, o)
  {
    SettleSolves(dec, c, v1, trusted, o);
    SettleSolves(dec, c, v2, trusted, o);
    var (f1, s1) := Settle(dec, c, v1, trusted, o);
    var (f2, s2) := Settle(dec, c, v2, trusted, o);
    forall n ensures Settled(c, v2, trusted, f1, s1, n) {
      assert Settled(c, v1, trusted, f1, s1, n);
    }
    SolutionUnique(dec, c, v2, trusted, o, f1, s1, f2, s2);
  }

  /** Running `states` again on its own output values changes nothing. */
  lemma SettleIdempotent(dec: Decimal, c: Config, values: Values, trusted: Values, o: seq<string>)
    requires Ordered(c, o)
    ensures var r := Settle(dec, c, values, trusted, o); Settle(dec, c, r.0, trusted, o) == r
  {
    SettleSolves(dec, c, values, trusted, o);
    var (fin, st) := Settle(dec, c, values, trusted, o);
    forall n ensures Same(values, fin, n) || (n in c && n in st && Masked(st[n])) {
      assert Settled(c, values, trusted, fin, st, n);
    }
    MaskedInputIrrelevant(dec, c, values, fin, trusted, o);
  }

  /** Everything a dependency order yields, gathered for `States`. */
  lemma SettleIsTheSolution(dec: Decimal, c: Config, values: Values, trusted: Values, o: seq<string>)
    requires Ordered(c, o)
    ensures var (fin, st) := Settle(dec, c, values, trusted, o);
      && Solves(dec, c, values, trusted, fin, st)
      && (forall f, s :: Solves(dec, c, values, trusted, f, s) ==> f == fin && s == st)
      && (forall o2 | Ordered(c, o2) :: Settle(dec, c, values, trusted, o2) == (fin, st))
  {
    SettleSolves(dec, c, values, trusted, o);
    var (fin, st) := Settle(dec, c, values, trusted, o);
    forall f, s | Solves(dec, c, values, trusted, f, s) ensures f == fin && s == st {
      SolutionUnique(dec, c, values, trusted, o, f, s, fin, st);
    }
    forall o2 | Ordered(c, o2) ensures Settle(dec, c, values, trusted, o2) == (fin, st) {
      OrderIrrelevant(dec, c, values, trusted, o, o2);
    }
  }

  /** The first loop of `states`: permanently locked fields take their trusted value. */
  method LockFields(c: Config, keys: seq<string>, values: Values, trusted: Values) returns (r: Values)
    requires forall x :: x in keys <==> x in c
    ensures forall n | n in c && c[n].locked :: n in r && r[n] == Trusted(trusted, n)
    ensures forall n | !(n in c && c[n].locked) :: Same(r, values, n)
    ensures r == Locked(c, values, trusted)
  {
    r := values;
    for k := 0 to |keys|
      invariant forall n | n in keys[..k] :: Same(r, Locked(c, values, trusted), n)
      invariant forall n | n !in keys[..k] :: Same(r, values, n)
    {
      assert keys[..k + 1] == keys[..k] + [keys[k]];
      if c[keys[k]].locked {
        r := r[keys[k] := Trusted(trusted, keys[k])];
      }
    }
    assert keys[..|keys|] == keys;
    SameEverywhere(r, Locked(c, values, trusted));
  }

  /** `states`: None when `order` raises, otherwise the one solution of the equations. */
  method States(dec: Decimal, c: Config, keys: seq<string>, values: Values, trusted: Values)
    returns (r: Option<map<string, State>>, final: Values)
    requires forall x :: x in keys <==> x in c
    ensures r.Some? <==> Acyclic(c)
    ensures r.Some? ==> Solves(dec, c, values, trusted, final, r.value)
    ensures r.Some? ==> forall f, s :: Solves(dec, c, values, trusted, f, s) ==> f == final && s == r.value
    ensures r.Some? ==> forall o | Ordered(c, o) :: Settle(dec, c, values, trusted, o) == (final, r.value)
  {
    final := LockFields(c, keys, values, trusted);
    var o := Order(c, keys);
    if o.None? {
      return None, final;
    }
    var names := o.value;
    var result := map[];
    assert names[..0] == [];
    for k := 0 to |names|
      invariant (final, result) == Settle(dec, c, values, trusted, names[..k])
    {
      var name := names[k];
      var s := Decide(dec, c, name, final);
      result := result[name := s];
      if Masked(s) {
        final := final[name := Trusted(trusted, name)];
      }
      assert names[..k + 1][..k] == names[..k];
    }
    assert names[..|names|] == names;
    SettleIsTheSolution(dec, c, values, trusted, names);
    return Some(result), final;
  }
}
