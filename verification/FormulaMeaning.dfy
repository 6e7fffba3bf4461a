/**
  Which value a formula has (app/formula.py): what the connectives, comparisons, branches
  and calls of the language mean, told without the evaluator's own recursion.
*/
module FormulaMeaning {
  import opened Wrappers
  import opened Formula

  // ---------------------------------------------------------------- operands

  /** Every operand has its value. */
  ghost predicate Yields(lib: Lib, es: seq<Ast>, ctx: Context, vs: seq<Value>) {
    |vs| == |es| && forall i | 0 <= i < |es| :: Eval(lib, es[i], ctx) == Val(vs[i])
  }

  /** The operands before `k` have values, and `k` fails with `why`. */
  ghost predicate FailsAt(lib: Lib, es: seq<Ast>, ctx: Context, k: nat, why: Formula.Result) {
    k < |es| && (forall i | 0 <= i < k :: Eval(lib, es[i], ctx).Val?) && Eval(lib, es[k], ctx) == why && !why.Val?
  }

  lemma TailYields(lib: Lib, es: seq<Ast>, ctx: Context, vs: seq<Value>)
    requires es != [] && vs != []
    ensures Yields(lib, es, ctx, vs) <==> Eval(lib, es[0], ctx) == Val(vs[0]) && Yields(lib, es[1..], ctx, vs[1..])
  {
    if Eval(lib, es[0], ctx) == Val(vs[0]) && Yields(lib, es[1..], ctx, vs[1..]) {
      forall i | 0 <= i < |es| ensures Eval(lib, es[i], ctx) == Val(vs[i]) {
        if i > 0 { assert Eval(lib, es[1..][i - 1], ctx) == Val(vs[1..][i - 1]); }
      }
    }
    if Yields(lib, es, ctx, vs) {
      forall i | 0 <= i < |es[1..]| ensures Eval(lib, es[1..][i], ctx) == Val(vs[1..][i]) {
        assert Eval(lib, es[i + 1], ctx) == Val(vs[i + 1]);
      }
    }
  }

  /** All operands, in their order; the first failure otherwise. */
  lemma {:induction false} OperandsIff(lib: Lib, es: seq<Ast>, ctx: Context, vs: seq<Value>)
    ensures EvalAll(lib, es, ctx) == Vals(vs) <==> Yields(lib, es, ctx, vs)
    decreases |es|
  {
    if es != [] {
      if vs != [] {
        TailYields(lib, es, ctx, vs);
        OperandsIff(lib, es[1..], ctx, vs[1..]);
        assert vs == [vs[0]] + vs[1..];
      }
      if EvalAll(lib, es, ctx).Vals? { assert EvalAll(lib, es, ctx).vs[1..] == EvalAll(lib, es[1..], ctx).vs; }
    }
  }

  lemma {:induction false} FirstFailure(lib: Lib, es: seq<Ast>, ctx: Context) returns (k: nat)
    requires EvalAll(lib, es, ctx).Failed?
    ensures FailsAt(lib, es, ctx, k, EvalAll(lib, es, ctx).why)
    decreases |es|
  {
    if !Eval(lib, es[0], ctx).Val? {
      k := 0;
    } else {
      var j := FirstFailure(lib, es[1..], ctx);
      k := j + 1;
      forall i | 0 <= i < k ensures Eval(lib, es[i], ctx).Val? {
        if i > 0 { assert Eval(lib, es[1..][i - 1], ctx).Val?; }
      }
    }
  }

  // ---------------------------------------------------------------- truth

  /** Nothing, false, zero and the empty text count as false; everything else, dates included, as true. */
  lemma TruthyIff(v: Value)
    ensures Truthy(v) <==> v !in {Nil, Bool(false), Num(0.0), Text("")}
  {}

  /** `i` is the first operand that is false, or the last one when there is none. */
  ghost predicate FirstFalse(vs: seq<Value>, i: nat) {
    i < |vs| && (forall j | 0 <= j < i :: Truthy(vs[j])) && (i == |vs| - 1 || !Truthy(vs[i]))
  }

  ghost predicate FirstTrue(vs: seq<Value>, i: nat) {
    i < |vs| && (forall j | 0 <= j < i :: !Truthy(vs[j])) && (i == |vs| - 1 || Truthy(vs[i]))
  }

  lemma {:induction false} Picked(op: Token, vs: seq<Value>) returns (i: nat)
    requires vs != []
    ensures i < |vs| && PickBool(op, vs) == Val(vs[i])
    ensures op.Or? ==> FirstTrue(vs, i)
    ensures !op.Or? ==> FirstFalse(vs, i)
  {
    if |vs| == 1 || Truthy(vs[0]) == op.Or? {
      i := 0;
    } else {
      var j := Picked(op, vs[1..]);
      i := j + 1;
      forall k | 0 <= k < i ensures Truthy(vs[k]) != op.Or? {
        if k > 0 { assert vs[k] == vs[1..][k - 1]; }
      }
    }
  }

  lemma AndPicks(vs: seq<Value>)
    requires vs != []
    ensures PickBool(And, vs).Val?
    ensures exists i: nat :: FirstFalse(vs, i) && PickBool(And, vs) == Val(vs[i])
    ensures Truthy(PickBool(And, vs).v) <==> forall i | 0 <= i < |vs| :: Truthy(vs[i])
  {
    var i := Picked(And, vs);
    assert FirstFalse(vs, i);
  }

  lemma OrPicks(vs: seq<Value>)
    requires vs != []
    ensures PickBool(Or, vs).Val?
    ensures exists i: nat :: FirstTrue(vs, i) && PickBool(Or, vs) == Val(vs[i])
    ensures Truthy(PickBool(Or, vs).v) <==> exists i | 0 <= i < |vs| :: Truthy(vs[i])
  {
    var i := Picked(Or, vs);
    assert FirstTrue(vs, i);
  }

  lemma BoolOpIs(lib: Lib, op: Token, xs: seq<Ast>, ctx: Context, vs: seq<Value>)
    requires xs != [] && Yields(lib, xs, ctx, vs)
    ensures Eval(lib, BoolOp(op, xs), ctx) == PickBool(op, vs)
  {
    OperandsIff(lib, xs, ctx, vs);
  }

  /** `and` is its first false operand, or else its last one, so it is true exactly when all operands are. */
  lemma AndMeans(lib: Lib, xs: seq<Ast>, ctx: Context, vs: seq<Value>)
    requires xs != [] && Yields(lib, xs, ctx, vs)
    ensures Eval(lib, BoolOp(And, xs), ctx).Val?
    ensures exists i: nat :: FirstFalse(vs, i) && Eval(lib, BoolOp(And, xs), ctx) == Val(vs[i])
    ensures Truthy(Eval(lib, BoolOp(And, xs), ctx).v) <==> forall i | 0 <= i < |vs| :: Truthy(vs[i])
  {
    BoolOpIs(lib, And, xs, ctx, vs);
    AndPicks(vs);
  }

  /** `or` is its first true operand, or else its last one, so it is true exactly when some operand is. */
  lemma OrMeans(lib: Lib, xs: seq<Ast>, ctx: Context, vs: seq<Value>)
    requires xs != [] && Yields(lib, xs, ctx, vs)
    ensures Eval(lib, BoolOp(Or, xs), ctx).Val?
    ensures exists i: nat :: FirstTrue(vs, i) && Eval(lib, BoolOp(Or, xs), ctx) == Val(vs[i])
    ensures Truthy(Eval(lib, BoolOp(Or, xs), ctx).v) <==> exists i | 0 <= i < |vs| :: Truthy(vs[i])
  {
    BoolOpIs(lib, Or, xs, ctx, vs);
    OrPicks(vs);
  }

  /** All operands are evaluated, whichever decides: a failing one fails the whole. */
  lemma BoolOpFails(lib: Lib, op: Token, xs: seq<Ast>, ctx: Context)
    requires exists i :: 0 <= i < |xs| && !Eval(lib, xs[i], ctx).Val?
    ensures exists k: nat, why :: FailsAt(lib, xs, ctx, k, why) && Eval(lib, BoolOp(op, xs), ctx) == why
  {
    var r := EvalAll(lib, xs, ctx);
    if r.Vals? { OperandsIff(lib, xs, ctx, r.vs); }
    var k := FirstFailure(lib, xs, ctx);
    assert FailsAt(lib, xs, ctx, k, r.why);
  }

  /** `not` is true exactly of what counts as false; a sign is taken of values, and nothing stays nothing. */
  lemma UnaryMeans(lib: Lib, op: Token, x: Ast, ctx: Context, v: Value)
    requires Eval(lib, x, ctx) == Val(v)
    ensures Eval(lib, Unary(Not, x), ctx) == Val(Bool(true)) <==> v in {Nil, Bool(false), Num(0.0), Text("")}
    ensures Eval(lib, Unary(Not, x), ctx) == Val(Bool(false)) <==> v !in {Nil, Bool(false), Num(0.0), Text("")}
    ensures op == USub || op == UAdd ==> Eval(lib, Unary(op, x), ctx) == if v == Nil then Val(Nil) else Val(lib.sign(op, v))
    ensures op == Invert ==> Eval(lib, Unary(op, x), ctx) == FormulaError
  {
    TruthyIff(v);
  }

  /** Only the branch that is taken matters. */
  lemma IfMeans(lib: Lib, t: Ast, b: Ast, o: Ast, ctx: Context, v: Value)
    requires Eval(lib, t, ctx) == Val(v)
    ensures v in {Nil, Bool(false), Num(0.0), Text("")} ==> Eval(lib, IfExp(t, b, o), ctx) == Eval(lib, o, ctx)
    ensures v !in {Nil, Bool(false), Num(0.0), Text("")} ==> Eval(lib, IfExp(t, b, o), ctx) == Eval(lib, b, ctx)
  {
    TruthyIff(v);
  }

  // ---------------------------------------------------------------- arithmetic

  /** `&` joins texts, nothing included; any other operator makes nothing of nothing. */
  lemma BinaryMeans(lib: Lib, x: Ast, op: Token, y: Ast, ctx: Context, a: Value, b: Value)
    requires Eval(lib, x, ctx) == Val(a) && Eval(lib, y, ctx) == Val(b)
    ensures op == BitAnd ==> Eval(lib, Binary(x, op, y), ctx) == Val(Text(lib.text(a) + lib.text(b)))
    ensures op != BitAnd && (a == Nil || b == Nil) ==> Eval(lib, Binary(x, op, y), ctx) == Val(Nil)
  {}

  /** Of two values: dates shift by `+` and `-`, everything else is arithmetic, left and right as written. */
  lemma ArithmeticMeans(lib: Lib, x: Ast, op: Token, y: Ast, ctx: Context, a: Value, b: Value)
    requires Eval(lib, x, ctx) == Val(a) && Eval(lib, y, ctx) == Val(b) && a != Nil && b != Nil
    ensures (op == Add || op == Sub) && (a.Date? || a.Stamp? || b.Date? || b.Stamp?) ==>
      Eval(lib, Binary(x, op, y), ctx) == OfOption(lib.shift(op, a, b))
    ensures (op == Add || op == Sub) && !(a.Date? || a.Stamp? || b.Date? || b.Stamp?) ==>
      Eval(lib, Binary(x, op, y), ctx) == Val(lib.arith(op, a, b))
    ensures op == Mult || op == Div || op == FloorDiv || op == Mod || op == Pow ==>
      Eval(lib, Binary(x, op, y), ctx) == Val(lib.arith(op, a, b))
  {}

  // ---------------------------------------------------------------- comparison chains

  /** Link `i` of a chain: its operand against the one before. */
  function Link(lib: Lib, left: Value, ops: seq<Token>, ws: seq<Value>, i: nat): Option<bool>
    requires i < |ops| && i < |ws|
  {
    lib.order(ops[i], if i == 0 then left else ws[i - 1], ws[i])
  }

  /** The first `n` operands have the values `ws`, and the links between them hold. */
  ghost predicate LinksHold(lib: Lib, left: Value, ops: seq<Token>, es: seq<Ast>, ctx: Context, ws: seq<Value>, n: nat)
    requires n <= |ops| && n <= |es| && n <= |ws|
  {
    forall i | 0 <= i < n :: Eval(lib, es[i], ctx) == Val(ws[i]) && Link(lib, left, ops, ws, i) == Some(true)
  }

  ghost predicate ChainHolds(lib: Lib, left: Value, ops: seq<Token>, es: seq<Ast>, ctx: Context, ws: seq<Value>) {
    |ws| == |es| == |ops| && LinksHold(lib, left, ops, es, ctx, ws, |es|)
  }

  ghost predicate ChainBreaks(lib: Lib, left: Value, ops: seq<Token>, es: seq<Ast>, ctx: Context, ws: seq<Value>, k: nat) {
    && k < |es| == |ops| && |ws| == |es| && LinksHold(lib, left, ops, es, ctx, ws, k)
    && Eval(lib, es[k], ctx) == Val(ws[k]) && Link(lib, left, ops, ws, k) == Some(false)
  }

  lemma TailLinks(lib: Lib, left: Value, ops: seq<Token>, es: seq<Ast>, ctx: Context, ws: seq<Value>, n: nat)
    requires 0 < n <= |ops| && n <= |es| && n <= |ws|
    ensures LinksHold(lib, left, ops, es, ctx, ws, n) <==>
      Eval(lib, es[0], ctx) == Val(ws[0]) && lib.order(ops[0], left, ws[0]) == Some(true) && LinksHold(lib, ws[0], ops[1..], es[1..], ctx, ws[1..], n - 1)
  {
    forall i | 1 <= i < n
      ensures Link(lib, left, ops, ws, i) == Link(lib, ws[0], ops[1..], ws[1..], i - 1) && es[i] == es[1..][i - 1] && ws[i] == ws[1..][i - 1] {}
    if Eval(lib, es[0], ctx) == Val(ws[0]) && lib.order(ops[0], left, ws[0]) == Some(true) && LinksHold(lib, ws[0], ops[1..], es[1..], ctx, ws[1..], n - 1) {
      forall i | 0 <= i < n ensures Eval(lib, es[i], ctx) == Val(ws[i]) && Link(lib, left, ops, ws, i) == Some(true) {
        if i > 0 { assert Eval(lib, es[1..][i - 1], ctx) == Val(ws[1..][i - 1]) && Link(lib, ws[0], ops[1..], ws[1..], i - 1) == Some(true); }
      }
    }
    if LinksHold(lib, left, ops, es, ctx, ws, n) {
      assert Link(lib, left, ops, ws, 0) == Some(true);
      forall i | 0 <= i < n - 1 ensures Eval(lib, es[1..][i], ctx) == Val(ws[1..][i]) && Link(lib, ws[0], ops[1..], ws[1..], i) == Some(true) {
        assert Eval(lib, es[i + 1], ctx) == Val(ws[i + 1]) && Link(lib, left, ops, ws, i + 1) == Some(true);
      }
    }
  }

  lemma {:induction false} ChainWitness(lib: Lib, left: Value, ops: seq<Token>, es: seq<Ast>, ctx: Context) returns (ws: seq<Value>, k: nat)
    requires |ops| == |es| && EvalChain(lib, left, ops, es, ctx).Val?
    ensures EvalChain(lib, left, ops, es, ctx) == Val(Bool(true)) || EvalChain(lib, left, ops, es, ctx) == Val(Bool(false))
    ensures EvalChain(lib, left, ops, es, ctx) == Val(Bool(true)) ==> ChainHolds(lib, left, ops, es, ctx, ws)
    ensures EvalChain(lib, left, ops, es, ctx) == Val(Bool(false)) ==> ChainBreaks(lib, left, ops, es, ctx, ws, k)
    decreases |es|
  {
    k := 0;
    if es == [] {
      ws := [];
    } else {
      var w := Eval(lib, es[0], ctx).v;
      if lib.order(ops[0], left, w) == Some(false) {
        ws := [w] + seq(|es| - 1, i => Nil);
      } else {
        var rest, j := ChainWitness(lib, w, ops[1..], es[1..], ctx);
        ws, k := [w] + rest, j + 1;
        assert ws[1..] == rest;
        if EvalChain(lib, left, ops, es, ctx) == Val(Bool(true)) {
          TailLinks(lib, left, ops, es, ctx, ws, |es|);
        } else {
          TailLinks(lib, left, ops, es, ctx, ws, k);
          assert Link(lib, left, ops, ws, k) == Link(lib, w, ops[1..], rest, j);
        }
      }
    }
  }

  lemma {:induction false} ChainIs(lib: Lib, left: Value, ops: seq<Token>, es: seq<Ast>, ctx: Context, ws: seq<Value>, k: nat)
    requires forall i | 0 <= i < |ops| :: Ordering(ops[i])
    ensures ChainHolds(lib, left, ops, es, ctx, ws) ==> EvalChain(lib, left, ops, es, ctx) == Val(Bool(true))
    ensures ChainBreaks(lib, left, ops, es, ctx, ws, k) ==> EvalChain(lib, left, ops, es, ctx) == Val(Bool(false))
    decreases |es|
  {
    if es != [] && ops != [] && |ws| == |es| == |ops| {
      ChainIs(lib, ws[0], ops[1..], es[1..], ctx, ws[1..], if k > 0 then k - 1 else 0);
      TailLinks(lib, left, ops, es, ctx, ws, |es|);
      if ChainBreaks(lib, left, ops, es, ctx, ws, k) {
        if k > 0 {
          TailLinks(lib, left, ops, es, ctx, ws, k);
          assert Link(lib, left, ops, ws, k) == Link(lib, ws[0], ops[1..], ws[1..], k - 1);
          assert es[k] == es[1..][k - 1] && ws[k] == ws[1..][k - 1];
        }
      }
    }
  }

  /**
    A comparison chain is true exactly when each operand compares with the one before it,
    and false exactly when some link, after links that hold, does not; what comes after
    that link is not evaluated.
  */
  lemma CompareMeans(lib: Lib, x: Ast, ops: seq<Token>, es: seq<Ast>, ctx: Context, left: Value)
    requires Eval(lib, x, ctx) == Val(left) && |ops| == |es| && forall i | 0 <= i < |ops| :: Ordering(ops[i])
    ensures Eval(lib, Compare(x, ops, es), ctx) == Val(Bool(true)) <==> exists ws :: ChainHolds(lib, left, ops, es, ctx, ws)
    ensures Eval(lib, Compare(x, ops, es), ctx) == Val(Bool(false)) <==> exists ws, k: nat :: ChainBreaks(lib, left, ops, es, ctx, ws, k)
  {
    var result := EvalChain(lib, left, ops, es, ctx);
    if result.Val? {
      var ws, k := ChainWitness(lib, left, ops, es, ctx);
      assert result == Val(Bool(true)) ==> ChainHolds(lib, left, ops, es, ctx, ws);
      assert result == Val(Bool(false)) ==> ChainBreaks(lib, left, ops, es, ctx, ws, k);
    }
    if ws :| ChainHolds(lib, left, ops, es, ctx, ws) { ChainIs(lib, left, ops, es, ctx, ws, 0); }
    if ws, k: nat :| ChainBreaks(lib, left, ops, es, ctx, ws, k) { ChainIs(lib, left, ops, es, ctx, ws, k); }
  }

  // ---------------------------------------------------------------- names and calls

  /** A column the row does not hold is nothing. */
  lemma NameMeans(lib: Lib, id: string, ctx: Context)
    ensures id in ctx ==> Eval(lib, Name(id), ctx) == Val(ctx[id])
    ensures id !in ctx ==> Eval(lib, Name(id), ctx) == Val(Nil)
  {}

  predicate Given(v: Value) {
    v != Nil && v != Text("")
  }

  lemma {:induction false} CoalesceIs(vs: seq<Value>)
    ensures forall i | 0 <= i < |vs| && Given(vs[i]) && (forall j | 0 <= j < i :: !Given(vs[j])) :: Coalesce(vs) == vs[i]
    ensures (forall i | 0 <= i < |vs| :: !Given(vs[i])) ==> Coalesce(vs) == Nil
  {
    if vs != [] {
      CoalesceIs(vs[1..]);
      forall i | 0 < i < |vs| ensures vs[i] == vs[1..][i - 1] {}
      forall i | 0 <= i < |vs| && Given(vs[i]) && (forall j | 0 <= j < i :: !Given(vs[j])) ensures Coalesce(vs) == vs[i] {
        if i > 0 {
          assert !Given(vs[0]);
          forall j | 0 <= j < i - 1 ensures !Given(vs[1..][j]) { assert vs[1..][j] == vs[j + 1]; }
        }
      }
      if forall i | 0 <= i < |vs| :: !Given(vs[i]) {
        forall i | 0 <= i < |vs[1..]| ensures !Given(vs[1..][i]) { assert vs[1..][i] == vs[i + 1]; }
        assert !Given(vs[0]);
      }
    }
  }

  /** The first argument that is given, and nothing when none is. */
  lemma CoalesceMeans(lib: Lib, args: seq<Ast>, ctx: Context, vs: seq<Value>)
    requires Yields(lib, args, ctx, vs)
    ensures forall i | 0 <= i < |vs| && Given(vs[i]) && (forall j | 0 <= j < i :: !Given(vs[j])) ::
      Eval(lib, Call(Name("coalesce"), args, []), ctx) == Val(vs[i])
    ensures (forall i | 0 <= i < |vs| :: !Given(vs[i])) ==> Eval(lib, Call(Name("coalesce"), args, []), ctx) == Val(Nil)
  {
    OperandsIff(lib, args, ctx, vs);
    CoalesceIs(vs);
    FunctionNames("coalesce");
    assert Eval(lib, Call(Name("coalesce"), args, []), ctx) == Val(Coalesce(vs));
  }

  /** A clock reads the time. */
  lemma ClockMeans(lib: Lib, name: string, ctx: Context)
    requires name == "today" || name == "now"
    ensures Eval(lib, Call(Name(name), [], []), ctx) == Val(lib.clock(name))
  {
    FunctionNames(name);
    assert EvalAll(lib, [], ctx) == Vals([]);
  }

  /** The other functions are the library's, of the arguments in their order. */
  lemma LibraryMeans(lib: Lib, name: string, args: seq<Ast>, ctx: Context, vs: seq<Value>)
    requires Yields(lib, args, ctx, vs) && name in SAFE_FUNCS
    ensures Eval(lib, Call(Name(name), args, []), ctx) == Val(lib.safe(name, vs))
  {
    OperandsIff(lib, args, ctx, vs);
    FunctionNames(name);
  }

  /** A lookup or rollup is what the resolver answers; where there is none, nothing; with another number of arguments than the resolver takes, it raises. */
  lemma ResolverMeans(lib: Lib, name: string, args: seq<Ast>, ctx: Context, vs: seq<Value>)
    requires Yields(lib, args, ctx, vs) && (name == "lookup" || name == "rollup")
    ensures lib.resolver == None ==> Eval(lib, Call(Name(name), args, []), ctx) == Val(Nil)
    ensures lib.resolver.Some? && (if name == "lookup" then |args| == 2 else |args| == 2 || |args| == 3) ==>
      Eval(lib, Call(Name(name), args, []), ctx) == OfOption(lib.resolver.value(name, vs))
    ensures lib.resolver.Some? && !(if name == "lookup" then |args| == 2 else |args| == 2 || |args| == 3) ==>
      Eval(lib, Call(Name(name), args, []), ctx) == Raised
  {
    OperandsIff(lib, args, ctx, vs);
    FunctionNames(name);
  }

  lemma FunctionNames(name: string)
    ensures name in SAFE_FUNCS ==> name != "coalesce" && name != "today" && name != "now" && name != "lookup" && name != "rollup"
    ensures name == "coalesce" || name == "today" || name == "now" ==> name != "lookup" && name != "rollup" && name in FUNCS
    ensures name == "today" || name == "now" ==> name != "coalesce"
    ensures name == "lookup" ==> name != "rollup"
  {
    if name == "lookup" { assert name[0] == 'l'; }
    if name == "rollup" { assert name[0] == 'r'; }
    if name == "coalesce" { assert |name| == 8 && name[1] == 'o'; }
    if name == "today" { assert |name| == 5 && name[0] == 't' && name[1] == 'o'; }
  }

  // ---------------------------------------------------------------- which formulas are accepted

  /** `k` is an immediate part of `n`: an operand, an operator, an argument, or the marker of a name. */
  ghost predicate Part(n: Ast, k: Ast) {
    || (n.Expression? && k == n.root)
    || (n.Name? && k == Load)
    || (n.Unary? && (k == OpNode(n.op) || k == n.operand))
    || (n.Binary? && (k == n.left || k == OpNode(n.op) || k == n.right))
    || (n.BoolOp? && (k == OpNode(n.op) || k in n.values))
    || (n.Compare? && (k == n.left || k in n.comparators || exists t :: t in n.ops && k == OpNode(t)))
    || (n.IfExp? && (k == n.test || k == n.body || k == n.orelse))
    || (n.Call? && (k == n.func || k in n.args || k in n.keywords))
    || (n.Other? && k in n.children)
  }

  /** Down from `n` to `k`, part by part. */
  ghost predicate Descends(path: seq<Ast>) {
    path != [] && forall i | 0 < i < |path| :: Part(path[i - 1], path[i])
  }

  ghost predicate Occurs(tree: Ast, n: Ast) {
    exists path :: Descends(path) && path[0] == tree && path[|path| - 1] == n
  }

  lemma PartIff(n: Ast, k: Ast)
    ensures k in Kids(n) <==> Part(n, k)
  {
    if n.Compare? {
      if k in OpNodes(n.ops) {
        var i :| 0 <= i < |OpNodes(n.ops)| && OpNodes(n.ops)[i] == k;
        assert n.ops[i] in n.ops && k == OpNode(n.ops[i]);
      }
      if t :| t in n.ops && k == OpNode(t) {
        var i :| 0 <= i < |n.ops| && n.ops[i] == t;
        assert OpNodes(n.ops)[i] == k;
      }
    }
  }

  lemma PartOccurs(tree: Ast, k: Ast, n: Ast)
    requires Part(tree, k) && Occurs(k, n)
    ensures Occurs(tree, n)
  {
    var path :| Descends(path) && path[0] == k && path[|path| - 1] == n;
    var longer := [tree] + path;
    forall i | 0 < i < |longer| ensures Part(longer[i - 1], longer[i]) {
      if i > 1 { assert Part(path[i - 2], path[i - 1]); }
    }
    assert Descends(longer) && longer[0] == tree && longer[|longer| - 1] == n;
  }

  lemma {:induction false} NodesOccur(tree: Ast, n: Ast)
    requires n in Nodes(tree)
    ensures Occurs(tree, n)
    decreases Weight(tree), 0
  {
    if n == tree {
      assert Descends([tree]) && [tree][0] == tree;
    } else {
      KidsWeighLess(tree);
      var k := KidOf(Kids(tree), n);
      PartIff(tree, k);
      NodesOccur(k, n);
      PartOccurs(tree, k, n);
    }
  }

  lemma {:induction false} KidOf(ns: seq<Ast>, n: Ast) returns (k: Ast)
    requires n in NodesOf(ns)
    ensures k in ns && n in Nodes(k) && Weight(k) <= Weights(ns)
  {
    if n in Nodes(ns[0]) { k := ns[0]; } else { k := KidOf(ns[1..], n); }
  }

  lemma {:induction false} PathInNodes(tree: Ast, path: seq<Ast>)
    requires Descends(path) && path[0] == tree
    ensures path[|path| - 1] in Nodes(tree)
    decreases |path|
  {
    if |path| > 1 {
      var rest := path[1..];
      forall i | 0 < i < |rest| ensures Part(rest[i - 1], rest[i]) { assert Part(path[i], path[i + 1]); }
      PathInNodes(path[1], rest);
      PartIff(tree, path[1]);
      var i :| 0 <= i < |Kids(tree)| && Kids(tree)[i] == path[1];
      KidNodes(tree, i);
    }
  }

  /** The nodes the walk visits are what occurs in the tree. */
  lemma NodesIff(tree: Ast, n: Ast)
    ensures n in Nodes(tree) <==> Occurs(tree, n)
  {
    if n in Nodes(tree) { NodesOccur(tree, n); }
    if Occurs(tree, n) {
      var path :| Descends(path) && path[0] == tree && path[|path| - 1] == n;
      PathInNodes(tree, path);
    }
  }

  /** The first argument is a text, and one of the known names where they are known. */
  ghost predicate Refers(args: seq<Ast>, known: Option<set<string>>) {
    exists s :: args != [] && args[0] == Constant(Text(s)) && (known == None || s in known.value)
  }

  /** The functions of the language. */
  ghost predicate Known(name: string) {
    || name == "round" || name == "abs" || name == "min" || name == "max" || name == "len" || name == "upper" || name == "lower"
    || name == "trim" || name == "str" || name == "int" || name == "float" || name == "contains"
    || name == "today" || name == "now" || name == "coalesce" || name == "lookup" || name == "rollup"
  }

  /** Plain syntax, and calls of known functions by name, lookups and rollups of a quoted known relation. */
  ghost predicate Plain(n: Ast, lookups: Option<set<string>>, rollups: Option<set<string>>) {
    && !n.Other? && n !in {OpNode(Invert), OpNode(OtherBinary), OpNode(OtherCompare)}
    && (n.Call? ==>
          && n.keywords == [] && (exists name :: n.func == Name(name) && Known(name))
          && (n.func == Name("lookup") ==> Refers(n.args, lookups)) && (n.func == Name("rollup") ==> Refers(n.args, rollups)))
  }

  lemma RefersIff(args: seq<Ast>, known: Option<set<string>>, func: string)
    ensures CheckRef(args, known, func).None? <==> Refers(args, known)
  {
    if args != [] && args[0].Constant? && args[0].value.Text? { assert args[0] == Constant(Text(args[0].value.s)); }
  }

  lemma PlainIff(n: Ast, lookups: Option<set<string>>, rollups: Option<set<string>>)
    ensures CheckNode(n, lookups, rollups).None? <==> Plain(n, lookups, rollups)
    ensures forall f | CheckNode(n, lookups, rollups) == Some(NotQuoted(f)) || CheckNode(n, lookups, rollups) == Some(UnknownReference(f)) ::
      n.Call? && n.func == Name(f) && (f == "lookup" || f == "rollup")
  {
    if n.Call? && n.func.Name? {
      assert n.func == Name(n.func.id);
      assert n.func.id in FUNCS + RELATION_FUNCS <==> Known(n.func.id);
      RefersIff(n.args, lookups, "lookup");
      RefersIff(n.args, rollups, "rollup");
    }
  }

  lemma CalledIff(tree: Ast, id: string)
    ensures id in Called(Nodes(tree)) <==> exists args, keywords :: Occurs(tree, Call(Name(id), args, keywords))
  {
    if id in Called(Nodes(tree)) {
      var n :| n in Nodes(tree) && n.Call? && n.func.Name? && n.func.id == id;
      assert n == Call(Name(id), n.args, n.keywords);
      NodesIff(tree, n);
    }
    if args, keywords :| Occurs(tree, Call(Name(id), args, keywords)) {
      NodesIff(tree, Call(Name(id), args, keywords));
    }
  }

  ghost predicate PlainThroughout(tree: Ast, lookups: Option<set<string>>, rollups: Option<set<string>>) {
    forall n | Occurs(tree, n) :: Plain(n, lookups, rollups)
  }

  lemma CleanIff(tree: Ast, lookups: Option<set<string>>, rollups: Option<set<string>>)
    ensures PlainThroughout(tree, lookups, rollups) <==> forall n | n in Nodes(tree) :: CheckNode(n, lookups, rollups).None?
  {
    forall n ensures n in Nodes(tree) <==> Occurs(tree, n) { NodesIff(tree, n); }
    forall n ensures CheckNode(n, lookups, rollups).None? <==> Plain(n, lookups, rollups) { PlainIff(n, lookups, rollups); }
  }

  /** The name is a column, or called somewhere in the formula. */
  ghost predicate Covered(tree: Ast, columns: set<string>, id: string) {
    id in columns || exists args, keywords :: Occurs(tree, Call(Name(id), args, keywords))
  }

  lemma CoveredIff(tree: Ast, columns: set<string>)
    ensures (forall id | Occurs(tree, Name(id)) :: Covered(tree, columns, id)) <==>
      forall n | n in Nodes(tree) && n.Name? :: n.id in Called(Nodes(tree)) || n.id in columns
  {
    forall n ensures n in Nodes(tree) <==> Occurs(tree, n) { NodesIff(tree, n); }
    forall id ensures Covered(tree, columns, id) <==> id in Called(Nodes(tree)) || id in columns { CalledIff(tree, id); }
    forall n: Ast | n.Name? ensures n == Name(n.id) {}
  }

  /**
    A formula is accepted exactly when everything in it is plain and each name in it is a
    column or, somewhere in it, called.
  */
  lemma AcceptableIff(tree: Ast, columns: set<string>, lookups: Option<set<string>>, rollups: Option<set<string>>)
    ensures Acceptable(tree, columns, lookups, rollups) <==>
      PlainThroughout(tree, lookups, rollups) && forall id | Occurs(tree, Name(id)) :: Covered(tree, columns, id)
  {
    CleanIff(tree, lookups, rollups);
    CoveredIff(tree, columns);
  }
}
