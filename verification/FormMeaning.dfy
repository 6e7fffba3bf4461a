/**
  What a rule tree of the conditional-form language says (app/form_rules.py), spelled out
  as alternatives of conditions, and what the verdicts of an evaluation mean in those terms.
*/
module FormMeaning {
  import opened Wrappers
  import opened Texts
  import opened FormRules

  // ---------------------------------------------------------------- one condition

  /** A comparison, told by whether its left side is less than, and whether it equals, its right side. */
  predicate Relates(op: Op, less: bool, same: bool) {
    match op
    case Eq => same
    case Ne => !same
    case Lt => less
    case Lte => less || same
    case Gt => !less && !same
    case Gte => !less
    case _ => false
  }

  /**
    A condition on a field that has a value: emptiness is that of its text, containment is
    that of texts, numbers compare as decimals and not at all when one is none, anything
    else compares as text.
  */
  ghost predicate Says(dec: Decimal, op: Op, left: string, right: string, numeric: bool) {
    match op
    case Empty => |left| == 0
    case NotEmpty => |left| > 0
    case Contains => exists a, b :: left == a + right + b
    case _ =>
      if numeric then exists x, y :: dec(left) == Some(x) && dec(right) == Some(y) && Relates(op, x < y, x == y)
      else Relates(op, Before(left, right), left == right)
  }

  /** The field has one of the number types. */
  ghost predicate HoldsNumbers(c: Config, f: string) {
    && f in c
    && (c[f].dtype == "integer" || c[f].dtype == "bigint" || c[f].dtype == "float"
        || c[f].dtype == "decimal" || c[f].dtype == "currency" || c[f].dtype == "percent")
  }

  lemma NumericIff(c: Config, f: string)
    ensures TypeOf(c, f) in NUMERIC <==> HoldsNumbers(c, f)
  {}

  /** A condition of a tree: a field the values do not hold satisfies none. */
  ghost predicate True(dec: Decimal, cond: Node, values: Values, c: Config) {
    cond.Cond? && cond.field in values && Says(dec, cond.op, Text(values[cond.field]), Text(cond.value), HoldsNumbers(c, cond.field))
  }

  lemma {:induction false} WithinIff(part: string, whole: string)
    ensures Within(part, whole) <==> exists a, b :: whole == a + part + b
  {
    if part <= whole {
      assert whole == [] + part + whole[|part|..];
    } else if whole != "" {
      WithinIff(part, whole[1..]);
      if Within(part, whole[1..]) {
        var a, b :| whole[1..] == a + part + b;
        assert whole == ([whole[0]] + a) + part + b;
      }
      if exists a, b :: whole == a + part + b {
        var a, b :| whole == a + part + b;
        HeadSkipped(part, whole, a, b);
      }
    }
  }

  lemma HeadSkipped(part: string, whole: string, a: string, b: string)
    requires whole == a + part + b && whole != "" && !(part <= whole)
    ensures a != [] && whole[1..] == a[1..] + part + b
  {
    assert ([] + part + b)[..|part|] == part;
    if a != [] { assert whole[1..] == a[1..] + part + b; }
  }

  lemma HoldsIff(dec: Decimal, op: Op, left: string, right: string, numeric: bool)
    ensures Holds(dec, op, left, right, numeric) <==> Says(dec, op, left, right, numeric)
  {
    WithinIff(right, left);
    Total(left, right);
  }

  /** A truth value satisfies "equals true" exactly when it is true, and an absent field satisfies nothing. */
  lemma TruthIsItsText(dec: Decimal, f: string, op: Op, v: Value, b: bool, values: Values, c: Config)
    requires f in values && values[f] == Truth(b) && !HoldsNumbers(c, f)
    ensures Matches(dec, Cond(f, Eq, Scalar("true")), values, c) <==> b
    ensures Matches(dec, Cond(f, Eq, Scalar("false")), values, c) <==> !b
    ensures !Matches(dec, Cond(f, op, v), values - {f}, c)
  {
    NumericIff(c, f);
    assert "true"[0] != "false"[0];
  }

  /** A field that holds nothing is empty, and any other scalar is the text submitted for it. */
  lemma ScalarsAreTexts(dec: Decimal, f: string, x: string, values: Values, c: Config)
    requires f in values && !HoldsNumbers(c, f)
    ensures values[f] == Nil ==> Matches(dec, Cond(f, Empty, Nil), values, c) && !Matches(dec, Cond(f, NotEmpty, Nil), values, c)
    ensures values[f].Scalar? ==> (Matches(dec, Cond(f, Eq, Scalar(x)), values, c) <==> values[f] == Scalar(x))
    ensures values[f].Scalar? ==> (Matches(dec, Cond(f, Empty, Nil), values, c) <==> values[f] == Scalar(""))
  {
    NumericIff(c, f);
    HoldsIff(dec, Eq, Text(values[f]), x, false);
  }

  // ---------------------------------------------------------------- trees

  /** The tree as alternatives: one of them has to have all its conditions true. */
  function Alternatives(n: Node): seq<seq<Node>>
    decreases n, 1
  {
    match n
    case Cond(_, _, _) => [[n]]
    case AnyOf(cs) => Joined(cs)
    case All(cs) => Multiplied(cs)
  }

  function Joined(ns: seq<Node>): seq<seq<Node>>
    decreases ns, 0
  {
    if ns == [] then [] else Alternatives(ns[0]) + Joined(ns[1..])
  }

  function Multiplied(ns: seq<Node>): seq<seq<Node>>
    decreases ns, 0
  {
    if ns == [] then [[]] else Products(Alternatives(ns[0]), Multiplied(ns[1..]))
  }

  function Prefixed(a: seq<Node>, bs: seq<seq<Node>>): (r: seq<seq<Node>>)
    ensures |r| == |bs| && forall i | 0 <= i < |bs| :: r[i] == a + bs[i]
  {
    seq(|bs|, i requires 0 <= i < |bs| => a + bs[i])
  }

  /** Every alternative of the one with every alternative of the other. */
  function Products(xs: seq<seq<Node>>, ys: seq<seq<Node>>): seq<seq<Node>> {
    if xs == [] then [] else Prefixed(xs[0], ys) + Products(xs[1..], ys)
  }

  ghost predicate AllTrue(dec: Decimal, conds: seq<Node>, values: Values, c: Config) {
    forall i | 0 <= i < |conds| :: True(dec, conds[i], values, c)
  }

  ghost predicate SomeTrue(dec: Decimal, alts: seq<seq<Node>>, values: Values, c: Config) {
    exists k :: 0 <= k < |alts| && AllTrue(dec, alts[k], values, c)
  }

  /** The tree is satisfied. */
  ghost predicate Satisfied(dec: Decimal, n: Node, values: Values, c: Config) {
    SomeTrue(dec, Alternatives(n), values, c)
  }

  lemma SomeOfBoth(dec: Decimal, xs: seq<seq<Node>>, ys: seq<seq<Node>>, values: Values, c: Config)
    ensures SomeTrue(dec, xs + ys, values, c) <==> SomeTrue(dec, xs, values, c) || SomeTrue(dec, ys, values, c)
  {
    if SomeTrue(dec, xs, values, c) {
      var k :| 0 <= k < |xs| && AllTrue(dec, xs[k], values, c);
      assert (xs + ys)[k] == xs[k];
    }
    if SomeTrue(dec, ys, values, c) {
      var k :| 0 <= k < |ys| && AllTrue(dec, ys[k], values, c);
      assert (xs + ys)[|xs| + k] == ys[k];
    }
  }

  lemma AllOfBoth(dec: Decimal, a: seq<Node>, b: seq<Node>, values: Values, c: Config)
    ensures AllTrue(dec, a + b, values, c) <==> AllTrue(dec, a, values, c) && AllTrue(dec, b, values, c)
  {
    if AllTrue(dec, a + b, values, c) {
      forall i | 0 <= i < |a| ensures True(dec, a[i], values, c) { assert (a + b)[i] == a[i]; }
      forall i | 0 <= i < |b| ensures True(dec, b[i], values, c) { assert (a + b)[|a| + i] == b[i]; }
    }
  }

  lemma PrefixedIff(dec: Decimal, a: seq<Node>, bs: seq<seq<Node>>, values: Values, c: Config)
    ensures SomeTrue(dec, Prefixed(a, bs), values, c) <==> AllTrue(dec, a, values, c) && SomeTrue(dec, bs, values, c)
  {
    forall k | 0 <= k < |bs|
      ensures AllTrue(dec, Prefixed(a, bs)[k], values, c) <==> AllTrue(dec, a, values, c) && AllTrue(dec, bs[k], values, c) {
      AllOfBoth(dec, a, bs[k], values, c);
    }
  }

  lemma {:induction false} ProductsIff(dec: Decimal, xs: seq<seq<Node>>, ys: seq<seq<Node>>, values: Values, c: Config)
    ensures SomeTrue(dec, Products(xs, ys), values, c) <==> SomeTrue(dec, xs, values, c) && SomeTrue(dec, ys, values, c)
  {
    if xs != [] {
      ProductsIff(dec, xs[1..], ys, values, c);
      PrefixedIff(dec, xs[0], ys, values, c);
      SomeOfBoth(dec, Prefixed(xs[0], ys), Products(xs[1..], ys), values, c);
      SomeOfBoth(dec, [xs[0]], xs[1..], values, c);
      assert [xs[0]] + xs[1..] == xs;
      SomeOfOne(dec, xs[0], values, c);
    }
  }

  lemma SomeOfOne(dec: Decimal, a: seq<Node>, values: Values, c: Config)
    ensures SomeTrue(dec, [a], values, c) <==> AllTrue(dec, a, values, c)
  {
    assert [a][0] == a;
  }

  /** A tree matches exactly when one of its alternatives has all its conditions true. */
  lemma {:induction false} MatchesIff(dec: Decimal, n: Node, values: Values, c: Config)
    ensures Matches(dec, n, values, c) <==> Satisfied(dec, n, values, c)
    decreases n, 1
  {
    match n
    case Cond(f, op, v) =>
      NumericIff(c, f);
      if f in values { HoldsIff(dec, op, Text(values[f]), Text(v), HoldsNumbers(c, f)); }
      SomeOfOne(dec, [n], values, c);
      assert [n][0] == n;
    case AnyOf(cs) => JoinedIff(dec, cs, values, c);
    case All(cs) => MultipliedIff(dec, cs, values, c);
  }

  lemma {:induction false} JoinedIff(dec: Decimal, ns: seq<Node>, values: Values, c: Config)
    ensures (exists i | 0 <= i < |ns| :: Matches(dec, ns[i], values, c)) <==> SomeTrue(dec, Joined(ns), values, c)
    decreases ns, 0
  {
    if ns != [] {
      MatchesIff(dec, ns[0], values, c);
      JoinedIff(dec, ns[1..], values, c);
      SomeOfBoth(dec, Alternatives(ns[0]), Joined(ns[1..]), values, c);
      forall i | 0 < i < |ns| ensures ns[i] == ns[1..][i - 1] {}
      if exists i | 0 <= i < |ns[1..]| :: Matches(dec, ns[1..][i], values, c) {
        var i :| 0 <= i < |ns[1..]| && Matches(dec, ns[1..][i], values, c);
        assert Matches(dec, ns[i + 1], values, c);
      }
    }
  }

  lemma {:induction false} MultipliedIff(dec: Decimal, ns: seq<Node>, values: Values, c: Config)
    ensures (forall i | 0 <= i < |ns| :: Matches(dec, ns[i], values, c)) <==> SomeTrue(dec, Multiplied(ns), values, c)
    decreases ns, 0
  {
    if ns == [] {
      SomeOfOne(dec, [], values, c);
    } else {
      MatchesIff(dec, ns[0], values, c);
      MultipliedIff(dec, ns[1..], values, c);
      ProductsIff(dec, Alternatives(ns[0]), Multiplied(ns[1..]), values, c);
      if forall i | 0 <= i < |ns[1..]| :: Matches(dec, ns[1..][i], values, c) {
        forall i | 0 < i < |ns| ensures Matches(dec, ns[i], values, c) { assert ns[i] == ns[1..][i - 1]; }
      }
      if forall i | 0 <= i < |ns| :: Matches(dec, ns[i], values, c) {
        forall i | 0 <= i < |ns[1..]| ensures Matches(dec, ns[1..][i], values, c) { assert ns[1..][i] == ns[i + 1]; }
      }
    }
  }

  // ---------------------------------------------------------------- verdicts

  ghost predicate RuleTrue(dec: Decimal, t: Option<Node>, values: Values, c: Config) {
    t.Some? && Satisfied(dec, t.value, values, c)
  }

  /**
    What a solution of the rules says of field `n`, on the final values: shown unless its
    show rule is not satisfied, locked if it is locked for good or its readonly rule is
    satisfied, required if it always is or its rule is satisfied, but never while hidden or
    locked; a hidden or locked field holds its trusted value (nothing when it has none),
    and any other the submitted one.
  */
  lemma StatesMean(dec: Decimal, c: Config, values: Values, trusted: Values, fin: Values, st: map<string, State>, n: string)
    requires Solves(dec, c, values, trusted, fin, st) && n in c
    ensures n in st
    ensures st[n].visible <==> c[n].rules.show == None || RuleTrue(dec, c[n].rules.show, fin, c)
    ensures st[n].readonly <==> c[n].locked || RuleTrue(dec, c[n].rules.readonly, fin, c)
    ensures st[n].required <==> (c[n].required || RuleTrue(dec, c[n].rules.require, fin, c)) && st[n].visible && !st[n].readonly
    ensures !st[n].visible || st[n].readonly ==> n in fin && fin[n] == if n in trusted then trusted[n] else Nil
    ensures st[n].visible && !st[n].readonly ==> (n in fin <==> n in values) && (n in fin ==> fin[n] == values[n])
  {
    var r := c[n].rules;
    assert Settled(c, values, trusted, fin, st, n);
    if r.show.Some? { MatchesIff(dec, r.show.value, fin, c); }
    if r.readonly.Some? { MatchesIff(dec, r.readonly.value, fin, c); }
    if r.require.Some? { MatchesIff(dec, r.require.value, fin, c); }
  }
}
