/**
  Computed-field formulas (app/formula.py): the validator, which walks every node of a
  parsed expression with a worklist, and the recursive evaluator, which visits only what
  it needs.  Parsing is library behaviour: the model starts from a parsed tree.

  Decimal arithmetic, date shifts, comparison, the built-in text and number functions,
  the clock and the database resolver are library behaviour too, and come in as `Lib`.
*/
module Formula {
  import opened Wrappers

  datatype Value = Nil | Bool(b: bool) | Num(r: real) | Text(s: string) | Date(day: int) | Stamp(us: int)

  datatype Token =
    | Add | Sub | Mult | Div | FloorDiv | Mod | Pow | BitAnd | OtherBinary
    | UAdd | USub | Not | Invert
    | And | Or
    | Eq | NotEq | Lt | LtE | Gt | GtE | OtherCompare

  datatype Ast =
    | Expression(root: Ast)
    | Constant(value: Value)
    | Name(id: string)
    | Unary(op: Token, operand: Ast)
    | Binary(left: Ast, op: Token, right: Ast)
    | BoolOp(op: Token, values: seq<Ast>)
    | Compare(left: Ast, ops: seq<Token>, comparators: seq<Ast>)
    | IfExp(test: Ast, body: Ast, orelse: Ast)
    | Call(func: Ast, args: seq<Ast>, keywords: seq<Ast>)
    | OpNode(token: Token)
    | Load
    | Other(children: seq<Ast>)

  /** `calc` may give no value (None stands for an exception other than FormulaError). */
  datatype Lib = Lib(arith: (Token, Value, Value) -> Value,
                     shift: (Token, Value, Value) -> Option<Value>,
                     sign: (Token, Value) -> Value,
                     order: (Token, Value, Value) -> Option<bool>,
                     text: Value -> string,
                     clock: string -> Value,
                     safe: (string, seq<Value>) -> Value,
                     resolver: Option<(string, seq<Value>) -> Option<Value>>)

  datatype Result = Val(v: Value) | FormulaError | Raised

  type Context = map<string, Value>

  const SAFE_FUNCS: set<string> :=
    {"round", "abs", "min", "max", "len", "upper", "lower", "trim", "str", "int", "float", "contains"}
  const FUNCS: set<string> := SAFE_FUNCS + {"today", "now", "coalesce"}
  const RELATION_FUNCS: set<string> := {"lookup", "rollup"}

  // ---------------------------------------------------------------- evaluation

  predicate Truthy(v: Value) {
    match v
    case Nil => false
    case Bool(b) => b
    case Num(r) => r != 0.0
    case Text(s) => s != ""
    case _ => true
  }

  predicate Temporal(v: Value) {
    v.Date? || v.Stamp?
  }

  predicate Arithmetic(t: Token) {
    t.Add? || t.Sub? || t.Mult? || t.Div? || t.FloorDiv? || t.Mod? || t.Pow?
  }

  predicate Ordering(t: Token) {
    t.Eq? || t.NotEq? || t.Lt? || t.LtE? || t.Gt? || t.GtE?
  }

  function OfOption(v: Option<Value>): Result {
    if v.Some? then Val(v.value) else Raised
  }

  /** `_binop`. */
  function BinOp(lib: Lib, t: Token, a: Value, b: Value): Result {
    if t.BitAnd? then Val(Text(lib.text(a) + lib.text(b)))
    else if a.Nil? || b.Nil? then Val(Nil)
    else if (t.Add? || t.Sub?) && (Temporal(a) || Temporal(b)) then OfOption(lib.shift(t, a, b))
    else if !Arithmetic(t) then FormulaError
    else Val(lib.arith(t, a, b))
  }

  function Coalesce(args: seq<Value>): Value {
    if args == [] then Nil
    else if args[0] != Nil && args[0] != Text("") then args[0]
    else Coalesce(args[1..])
  }

  /** `Resolver.lookup` takes two arguments, `Resolver.rollup` two or three. */
  predicate ArityFits(name: string, count: nat) {
    if name == "lookup" then count == 2 else 2 <= count <= 3
  }

  function CallNamed(lib: Lib, name: string, args: seq<Value>): Result {
    if name in RELATION_FUNCS then
      if lib.resolver.None? then Val(Nil)
      else if !ArityFits(name, |args|) then Raised
      else OfOption(lib.resolver.value(name, args))
    else if name !in FUNCS then FormulaError
    else if name == "coalesce" then Val(Coalesce(args))
    else if name == "today" || name == "now" then (if args == [] then Val(lib.clock(name)) else Raised)
    else Val(lib.safe(name, args))
  }

  datatype Results = Vals(vs: seq<Value>) | Failed(why: Result)

  /** `_eval` with `_eval_call`. */
  function Eval(lib: Lib, e: Ast, ctx: Context): Result
    decreases e, 0
  {
    match e
    case Expression(root) => Eval(lib, root, ctx)
    case Constant(v) => Val(v)
    case Name(id) => Val(if id in ctx then ctx[id] else Nil)
    case Unary(op, x) =>
      if !(op.UAdd? || op.USub? || op.Not?) then FormulaError
      else
        var r := Eval(lib, x, ctx);
        if !r.Val? then r
        else if op.Not? then Val(Bool(!Truthy(r.v)))
        else if r.v.Nil? then r
        else Val(lib.sign(op, r.v))
    case Binary(x, op, y) =>
      var a := Eval(lib, x, ctx);
      if !a.Val? then a
      else
        var b := Eval(lib, y, ctx);
        if !b.Val? then b else BinOp(lib, op, a.v, b.v)
    case BoolOp(op, xs) =>
      var vs := EvalAll(lib, xs, ctx);
      if vs.Failed? then vs.why else PickBool(op, vs.vs)
    case Compare(x, ops, ys) =>
      var a := Eval(lib, x, ctx);
      if !a.Val? then a else EvalChain(lib, a.v, ops, ys, ctx)
    case IfExp(test, body, orelse) =>
      var t := Eval(lib, test, ctx);
      if !t.Val? then t else if Truthy(t.v) then Eval(lib, body, ctx) else Eval(lib, orelse, ctx)
    case Call(func, args, keywords) =>
      if !func.Name? || keywords != [] then FormulaError
      else
        var vs := EvalAll(lib, args, ctx);
        if vs.Failed? then vs.why else CallNamed(lib, func.id, vs.vs)
    case _ => FormulaError
  }

  /** The operands, left to right, all of them; the first failure wins. */
  function EvalAll(lib: Lib, es: seq<Ast>, ctx: Context): (r: Results)
    ensures r.Vals? ==> |r.vs| == |es|
    ensures r.Failed? ==> !r.why.Val?
    decreases es, 1
  {
    if es == [] then Vals([])
    else
      var first := Eval(lib, es[0], ctx);
      if !first.Val? then Failed(first)
      else
        var rest := EvalAll(lib, es[1..], ctx);
        if rest.Failed? then rest else Vals([first.v] + rest.vs)
  }

  /** `and` / `or` over the values: the first that decides, else the last. */
  function PickBool(op: Token, vs: seq<Value>): Result {
    if vs == [] then Raised
    else if |vs| == 1 || Truthy(vs[0]) == op.Or? then Val(vs[0])
    else PickBool(op, vs[1..])
  }

  /** A comparison chain; operands after the first false link are not evaluated. */
  function EvalChain(lib: Lib, left: Value, ops: seq<Token>, es: seq<Ast>, ctx: Context): Result
    decreases es, 1
  {
    if ops == [] || es == [] then Val(Bool(true))
    else
      var right := Eval(lib, es[0], ctx);
      if !right.Val? then right
      else if !Ordering(ops[0]) then FormulaError
      else
        var ok := lib.order(ops[0], left, right.v);
        if ok.None? then Raised
        else if !ok.value then Val(Bool(false))
        else EvalChain(lib, right.v, ops[1..], es[1..], ctx)
  }

  // ---------------------------------------------------------------- the tree as the walk sees it

  function OpNodes(ts: seq<Token>): (r: seq<Ast>)
    ensures |r| == |ts| && forall i | 0 <= i < |ts| :: r[i] == OpNode(ts[i])
  {
    seq(|ts|, i requires 0 <= i < |ts| => OpNode(ts[i]))
  }

  /** `ast.iter_child_nodes`. */
  function Kids(n: Ast): seq<Ast> {
    match n
    case Expression(root) => [root]
    case Name(_) => [Load]
    case Unary(op, x) => [OpNode(op), x]
    case Binary(x, op, y) => [x, OpNode(op), y]
    case BoolOp(op, xs) => [OpNode(op)] + xs
    case Compare(x, ops, ys) => [x] + OpNodes(ops) + ys
    case IfExp(t, b, o) => [t, b, o]
    case Call(f, args, keywords) => [f] + args + keywords
    case Other(cs) => cs
    case _ => []
  }

  /** Nodes counted so that a node outweighs its children together. */
  function Weight(n: Ast): (w: nat)
    ensures w >= 1
    decreases n, 1
  {
    match n
    case Expression(root) => 1 + Weight(root)
    case Name(_) => 2
    case Unary(_, x) => 2 + Weight(x)
    case Binary(x, _, y) => 2 + Weight(x) + Weight(y)
    case BoolOp(_, xs) => 2 + Weights(xs)
    case Compare(x, ops, ys) => 1 + Weight(x) + |ops| + Weights(ys)
    case IfExp(t, b, o) => 1 + Weight(t) + Weight(b) + Weight(o)
    case Call(f, args, keywords) => 1 + Weight(f) + Weights(args) + Weights(keywords)
    case Other(cs) => 1 + Weights(cs)
    case _ => 1
  }

  function Weights(ns: seq<Ast>): nat
    decreases ns, 0
  {
    if ns == [] then 0 else Weight(ns[0]) + Weights(ns[1..])
  }

  lemma {:induction false} WeightsAppend(a: seq<Ast>, b: seq<Ast>)
    ensures Weights(a + b) == Weights(a) + Weights(b)
  {
    if a == [] {
      assert a + b == b;
    } else {
      WeightsAppend(a[1..], b);
      assert (a + b)[1..] == a[1..] + b;
    }
  }

  lemma {:induction false} OpWeights(ts: seq<Token>)
    ensures Weights(OpNodes(ts)) == |ts|
  {
    if ts != [] {
      OpWeights(ts[1..]);
      assert OpNodes(ts)[1..] == OpNodes(ts[1..]);
    }
  }

  lemma WeightsOne(n: Ast)
    ensures Weights([n]) == Weight(n)
  {
    assert [n][1..] == [];
  }

  lemma WeightsTwo(a: Ast, b: Ast)
    ensures Weights([a, b]) == Weight(a) + Weight(b)
  {
    assert [a, b][1..] == [b];
    WeightsOne(b);
  }

  lemma WeightsThree(a: Ast, b: Ast, c: Ast)
    ensures Weights([a, b, c]) == Weight(a) + Weight(b) + Weight(c)
  {
    assert [a, b, c][1..] == [b, c];
    WeightsTwo(b, c);
  }

  lemma WeightsFirst(n: Ast, rest: seq<Ast>)
    ensures Weights([n] + rest) == Weight(n) + Weights(rest)
  {
    assert ([n] + rest)[1..] == rest;
  }

  lemma KidsWeighLess(n: Ast)
    ensures Weights(Kids(n)) == Weight(n) - 1
  {
    match n
    case Expression(root) => WeightsOne(root);
    case Name(_) => WeightsOne(Load);
    case Unary(op, x) => WeightsTwo(OpNode(op), x);
    case Binary(x, op, y) => WeightsThree(x, OpNode(op), y);
    case BoolOp(op, xs) => WeightsFirst(OpNode(op), xs);
    case Compare(x, ops, ys) =>
      OpWeights(ops);
      WeightsAppend([x] + OpNodes(ops), ys);
      WeightsFirst(x, OpNodes(ops));
    case IfExp(t, b, o) => WeightsThree(t, b, o);
    case Call(f, args, keywords) =>
      WeightsAppend([f] + args, keywords);
      WeightsFirst(f, args);
    case _ =>
  }

  /** All nodes of a tree. */
  function Nodes(n: Ast): set<Ast>
    decreases Weight(n), 0
  {
    KidsWeighLess(n);
    {n} + NodesOf(Kids(n))
  }

  function NodesOf(ns: seq<Ast>): set<Ast>
    decreases Weights(ns), 1
  {
    if ns == [] then {} else Nodes(ns[0]) + NodesOf(ns[1..])
  }

  // ---------------------------------------------------------------- validation

  datatype Message =
    | Empty | NotAllowed | UnknownFunction | Keywords | NotQuoted(func: string) | UnknownReference(func: string)
    | UnknownField(id: string)

  predicate AllowedToken(t: Token) {
    Arithmetic(t) || t.BitAnd? || t.USub? || t.UAdd? || t.Not? || t.And? || t.Or? || Ordering(t)
  }

  predicate AllowedNode(n: Ast) {
    !n.Other? && (n.OpNode? ==> AllowedToken(n.token))
  }

  /** `_check_ref`: the first argument names a known link field or relation in quotes. */
  function CheckRef(args: seq<Ast>, allowed: Option<set<string>>, func: string): Option<Message> {
    if args == [] || !args[0].Constant? || !args[0].value.Text? then Some(NotQuoted(func))
    else if allowed.Some? && args[0].value.s !in allowed.value then Some(UnknownReference(func))
    else None
  }

  /** What the first walk has to say about one node. */
  function CheckNode(n: Ast, lookups: Option<set<string>>, rollups: Option<set<string>>): Option<Message> {
    if !AllowedNode(n) then Some(NotAllowed)
    else if !n.Call? then None
    else if !n.func.Name? || n.func.id !in FUNCS + RELATION_FUNCS then Some(UnknownFunction)
    else if n.keywords != [] then Some(Keywords)
    else if n.func.id == "lookup" then CheckRef(n.args, lookups, "lookup")
    else if n.func.id == "rollup" then CheckRef(n.args, rollups, "rollup")
    else None
  }

  /** The names of the functions the formula calls. */
  function Called(ns: set<Ast>): set<string> {
    set n | n in ns && n.Call? && n.func.Name? :: n.func.id
  }

  /** The tree passes both walks. */
  ghost predicate Acceptable(tree: Ast, columns: set<string>, lookups: Option<set<string>>, rollups: Option<set<string>>) {
    && (forall n | n in Nodes(tree) :: CheckNode(n, lookups, rollups).None?)
    && (forall n | n in Nodes(tree) && n.Name? :: n.id in Called(Nodes(tree)) || n.id in columns)
  }

  /** The first walk: a worklist over the whole tree; also collects the called names. */
  method WalkNodes(tree: Ast, lookups: Option<set<string>>, rollups: Option<set<string>>)
    returns (error: Option<Message>, funcNames: set<string>)
    ensures error.None? <==> forall n | n in Nodes(tree) :: CheckNode(n, lookups, rollups).None?
    ensures error.Some? ==> exists n | n in Nodes(tree) :: CheckNode(n, lookups, rollups) == error
    ensures error.None? ==> funcNames == Called(Nodes(tree))
  {
    var todo := [tree];
    funcNames := {};
    ghost var seen: set<Ast> := {};
    assert NodesOf([tree]) == Nodes(tree) by { assert [tree][1..] == []; }
    while todo != []
      invariant Nodes(tree) == seen + NodesOf(todo)
      invariant forall n | n in seen :: CheckNode(n, lookups, rollups).None?
      invariant funcNames == Called(seen)
      decreases Weights(todo)
    {
      var n := todo[0];
      KidsWeighLess(n);
      WeightsAppend(todo[1..], Kids(n));
      NodesAppend(todo[1..], Kids(n));
      assert n in Nodes(tree);
      var e := CheckNode(n, lookups, rollups);
      if e.Some? {
        return e, funcNames;
      }
      if n.Call? {
        funcNames := funcNames + {n.func.id};
      }
      CalledOneMore(seen, n);
      seen := seen + {n};
      todo := todo[1..] + Kids(n);
    }
    return None, funcNames;
  }

  lemma CalledOneMore(seen: set<Ast>, n: Ast)
    ensures Called(seen + {n}) == Called(seen) + if n.Call? && n.func.Name? then {n.func.id} else {}
  {}

  lemma {:induction false} NodesAppend(a: seq<Ast>, b: seq<Ast>)
    ensures NodesOf(a + b) == NodesOf(a) + NodesOf(b)
  {
    if a == [] {
      assert a + b == b;
    } else {
      NodesAppend(a[1..], b);
      assert (a + b)[1..] == a[1..] + b;
    }
  }

  /** `validate`, after parsing: no message exactly when the tree passes both walks. */
  method Validate(tree: Ast, columns: set<string>, lookups: Option<set<string>>, rollups: Option<set<string>>)
    returns (error: Option<Message>)
    ensures error.None? <==> Acceptable(tree, columns, lookups, rollups)
  {
    var funcNames;
    error, funcNames := WalkNodes(tree, lookups, rollups);
    if error.Some? {
      return;
    }
    var todo := [tree];
    ghost var seen: set<Ast> := {};
    assert NodesOf([tree]) == Nodes(tree) by { assert [tree][1..] == []; }
    while todo != []
      invariant Nodes(tree) == seen + NodesOf(todo)
      invariant forall n | n in seen && n.Name? :: n.id in funcNames || n.id in columns
      decreases Weights(todo)
    {
      var n := todo[0];
      KidsWeighLess(n);
      WeightsAppend(todo[1..], Kids(n));
      NodesAppend(todo[1..], Kids(n));
      assert n in Nodes(tree);
      if n.Name? && n.id !in funcNames && n.id !in columns {
        return Some(UnknownField(n.id));
      }
      seen := seen + {n};
      todo := todo[1..] + Kids(n);
    }
    return None;
  }

  // ---------------------------------------------------------------- soundness

  predicate IsExpr(n: Ast) {
    !n.OpNode? && !n.Load? && !n.Expression?
  }

  /** The shape every parsed expression has: expressions in expression positions, fitting operators. */
  predicate Shaped(n: Ast) {
    match n
    case Expression(root) => IsExpr(root) && Shaped(root)
    case Unary(op, x) => (op.UAdd? || op.USub? || op.Not? || op.Invert?) && IsExpr(x) && Shaped(x)
    case Binary(x, op, y) =>
      && (Arithmetic(op) || op.BitAnd? || op.OtherBinary?) && IsExpr(x) && Shaped(x) && IsExpr(y) && Shaped(y)
    case BoolOp(op, xs) => (op.And? || op.Or?) && xs != [] && forall i | 0 <= i < |xs| :: IsExpr(xs[i]) && Shaped(xs[i])
    case Compare(x, ops, ys) =>
      && (forall i | 0 <= i < |ops| :: Ordering(ops[i]) || ops[i].OtherCompare?) && |ops| == |ys|
      && IsExpr(x) && Shaped(x) && forall i | 0 <= i < |ys| :: IsExpr(ys[i]) && Shaped(ys[i])
    case IfExp(t, b, o) => IsExpr(t) && Shaped(t) && IsExpr(b) && Shaped(b) && IsExpr(o) && Shaped(o)
    case Call(f, args, _) => IsExpr(f) && Shaped(f) && forall i | 0 <= i < |args| :: IsExpr(args[i]) && Shaped(args[i])
    case _ => true
  }

  ghost predicate Clean(n: Ast, lookups: Option<set<string>>, rollups: Option<set<string>>) {
    forall m | m in Nodes(n) :: CheckNode(m, lookups, rollups).None?
  }

  lemma KidNodes(n: Ast, i: nat)
    requires i < |Kids(n)|
    ensures n in Nodes(n) && Nodes(Kids(n)[i]) <= Nodes(n)
  {
    NodesOfMember(Kids(n), i);
  }

  lemma {:induction false} NodesOfMember(ns: seq<Ast>, i: nat)
    requires i < |ns|
    ensures Nodes(ns[i]) <= NodesOf(ns)
  {
    if i > 0 { NodesOfMember(ns[1..], i - 1); }
  }

  lemma CleanKid(n: Ast, k: Ast, i: nat, lookups: Option<set<string>>, rollups: Option<set<string>>)
    requires Clean(n, lookups, rollups) && i < |Kids(n)| && Kids(n)[i] == k
    ensures CheckNode(n, lookups, rollups).None? && Clean(k, lookups, rollups)
  {
    KidNodes(n, i);
  }

  lemma CleanOp(n: Ast, t: Token, i: nat, lookups: Option<set<string>>, rollups: Option<set<string>>)
    requires Clean(n, lookups, rollups) && i < |Kids(n)| && Kids(n)[i] == OpNode(t)
    ensures AllowedToken(t)
  {
    CleanKid(n, OpNode(t), i, lookups, rollups);
    assert OpNode(t) in Nodes(OpNode(t));
    assert CheckNode(OpNode(t), lookups, rollups).None?;
  }

  /** `es` are the children of `n` from position `from` on. */
  ghost predicate RunAt(n: Ast, es: seq<Ast>, from: nat) {
    from + |es| <= |Kids(n)| && forall i | 0 <= i < |es| :: Kids(n)[from + i] == es[i]
  }

  lemma OperandRuns(n: Ast)
    ensures n.BoolOp? ==> RunAt(n, n.values, 1)
    ensures n.Compare? ==> RunAt(n, n.comparators, 1 + |n.ops|)
    ensures n.Call? ==> RunAt(n, n.args, 1)
  {}

  lemma CleanRun(n: Ast, es: seq<Ast>, from: nat, lookups: Option<set<string>>, rollups: Option<set<string>>)
    requires Clean(n, lookups, rollups) && RunAt(n, es, from)
    ensures forall i | 0 <= i < |es| :: Clean(es[i], lookups, rollups)
  {
    forall i | 0 <= i < |es| ensures Clean(es[i], lookups, rollups) {
      CleanKid(n, es[i], from + i, lookups, rollups);
    }
  }

  /** Nor does one of its children. */
  lemma {:induction false} NoErrorInKid(lib: Lib, n: Ast, x: Ast, i: nat, ctx: Context, lookups: Option<set<string>>, rollups: Option<set<string>>)
    requires Clean(n, lookups, rollups) && i < |Kids(n)| && Kids(n)[i] == x && x < n && IsExpr(x) && Shaped(x)
    ensures Eval(lib, x, ctx) != FormulaError
    decreases n, 0, 0
  {
    CleanKid(n, x, i, lookups, rollups);
    NoFormulaError(lib, x, ctx, lookups, rollups);
  }

  /** Operands of `n`: smaller, well-shaped and clean expressions. */
  ghost predicate Operands(n: Ast, es: seq<Ast>, lookups: Option<set<string>>, rollups: Option<set<string>>) {
    forall i | 0 <= i < |es| :: es[i] < n && IsExpr(es[i]) && Shaped(es[i]) && Clean(es[i], lookups, rollups)
  }

  ghost predicate ShapedOperands(n: Ast, es: seq<Ast>) {
    forall i | 0 <= i < |es| :: es[i] < n && IsExpr(es[i]) && Shaped(es[i])
  }

  lemma ShapedParts(n: Ast)
    requires Shaped(n)
    ensures n.BoolOp? ==> ShapedOperands(n, n.values)
    ensures n.Call? ==> ShapedOperands(n, n.args)
    ensures n.Compare? ==> ShapedOperands(n, n.comparators)
  {}

  lemma CleanOperands(n: Ast, es: seq<Ast>, from: nat, lookups: Option<set<string>>, rollups: Option<set<string>>)
    requires ShapedOperands(n, es) && Clean(n, lookups, rollups) && RunAt(n, es, from)
    ensures Operands(n, es, lookups, rollups)
  {
    CleanRun(n, es, from, lookups, rollups);
  }

  lemma {:induction false} NoErrorInBoolOp(lib: Lib, n: Ast, ctx: Context, lookups: Option<set<string>>, rollups: Option<set<string>>)
    requires n.BoolOp? && Operands(n, n.values, lookups, rollups)
    ensures Eval(lib, n, ctx) != FormulaError
    decreases n, 1, 0
  {
    NoErrorInAll(lib, n, n.values, ctx, lookups, rollups);
    var vs := EvalAll(lib, n.values, ctx);
    if vs.Vals? && vs.vs != [] { PickBoolPicks(n.op, vs.vs); }
  }

  lemma CleanOps(n: Ast, lookups: Option<set<string>>, rollups: Option<set<string>>)
    requires n.Compare? && Shaped(n) && Clean(n, lookups, rollups)
    ensures |n.ops| == |n.comparators| && forall i | 0 <= i < |n.ops| :: Ordering(n.ops[i])
  {
    forall i | 0 <= i < |n.ops| ensures Ordering(n.ops[i]) {
      CleanOp(n, n.ops[i], i + 1, lookups, rollups);
    }
  }

  lemma {:induction false} NoErrorInCompare(lib: Lib, n: Ast, ctx: Context, lookups: Option<set<string>>, rollups: Option<set<string>>)
    requires n.Compare? && Eval(lib, n.left, ctx) != FormulaError && Operands(n, n.comparators, lookups, rollups)
    requires |n.ops| == |n.comparators| && forall i | 0 <= i < |n.ops| :: Ordering(n.ops[i])
    ensures Eval(lib, n, ctx) != FormulaError
    decreases n, 1, 0
  {
    var x := Eval(lib, n.left, ctx);
    if x.Val? {
      NoErrorInChain(lib, n, x.v, n.ops, n.comparators, ctx, lookups, rollups);
    }
  }

  lemma {:induction false} BinaryCase(lib: Lib, n: Ast, ctx: Context, lookups: Option<set<string>>, rollups: Option<set<string>>)
    requires n.Binary? && Shaped(n) && Clean(n, lookups, rollups)
    ensures Eval(lib, n, ctx) != FormulaError
    decreases n, 1, 0
  {
    NoErrorInKid(lib, n, n.left, 0, ctx, lookups, rollups);
    CleanOp(n, n.op, 1, lookups, rollups);
    NoErrorInKid(lib, n, n.right, 2, ctx, lookups, rollups);
  }

  lemma {:induction false} IfExpCase(lib: Lib, n: Ast, ctx: Context, lookups: Option<set<string>>, rollups: Option<set<string>>)
    requires n.IfExp? && Shaped(n) && Clean(n, lookups, rollups)
    ensures Eval(lib, n, ctx) != FormulaError
    decreases n, 1, 0
  {
    NoErrorInKid(lib, n, n.test, 0, ctx, lookups, rollups);
    NoErrorInKid(lib, n, n.body, 1, ctx, lookups, rollups);
    NoErrorInKid(lib, n, n.orelse, 2, ctx, lookups, rollups);
  }

  lemma {:induction false} NoErrorInCall(lib: Lib, n: Ast, ctx: Context, lookups: Option<set<string>>, rollups: Option<set<string>>)
    requires n.Call? && CheckNode(n, lookups, rollups).None? && Operands(n, n.args, lookups, rollups)
    ensures Eval(lib, n, ctx) != FormulaError
    decreases n, 1, 0
  {
    NoErrorInAll(lib, n, n.args, ctx, lookups, rollups);
    var vs := EvalAll(lib, n.args, ctx);
    if vs.Vals? { KnownFunction(lib, n.func.id, vs.vs); }
  }

  lemma KnownFunction(lib: Lib, name: string, vs: seq<Value>)
    requires name in FUNCS + RELATION_FUNCS
    ensures CallNamed(lib, name, vs) != FormulaError
  {}

  lemma CleanSelf(n: Ast, lookups: Option<set<string>>, rollups: Option<set<string>>)
    requires Clean(n, lookups, rollups)
    ensures CheckNode(n, lookups, rollups).None?
  {
    assert n in Nodes(n);
  }

  lemma {:induction false} UnaryCase(lib: Lib, n: Ast, ctx: Context, lookups: Option<set<string>>, rollups: Option<set<string>>)
    requires n.Unary? && Shaped(n) && Clean(n, lookups, rollups)
    ensures Eval(lib, n, ctx) != FormulaError
    decreases n, 1, 1
  {
    CleanOp(n, n.op, 0, lookups, rollups);
    NoErrorInKid(lib, n, n.operand, 1, ctx, lookups, rollups);
  }

  lemma {:induction false} BoolOpCase(lib: Lib, n: Ast, ctx: Context, lookups: Option<set<string>>, rollups: Option<set<string>>)
    requires n.BoolOp? && Shaped(n) && Clean(n, lookups, rollups)
    ensures Eval(lib, n, ctx) != FormulaError
    decreases n, 1, 1
  {
    ShapedParts(n);
    OperandRuns(n);
    CleanOperands(n, n.values, 1, lookups, rollups);
    NoErrorInBoolOp(lib, n, ctx, lookups, rollups);
  }

  lemma {:induction false} CompareCase(lib: Lib, n: Ast, ctx: Context, lookups: Option<set<string>>, rollups: Option<set<string>>)
    requires n.Compare? && Shaped(n) && Clean(n, lookups, rollups)
    ensures Eval(lib, n, ctx) != FormulaError
    decreases n, 1, 1
  {
    ShapedParts(n);
    OperandRuns(n);
    NoErrorInKid(lib, n, n.left, 0, ctx, lookups, rollups);
    CleanOperands(n, n.comparators, 1 + |n.ops|, lookups, rollups);
    CleanOps(n, lookups, rollups);
    NoErrorInCompare(lib, n, ctx, lookups, rollups);
  }

  lemma {:induction false} CallCase(lib: Lib, n: Ast, ctx: Context, lookups: Option<set<string>>, rollups: Option<set<string>>)
    requires n.Call? && Shaped(n) && Clean(n, lookups, rollups)
    ensures Eval(lib, n, ctx) != FormulaError
    decreases n, 1, 1
  {
    ShapedParts(n);
    OperandRuns(n);
    CleanSelf(n, lookups, rollups);
    CleanOperands(n, n.args, 1, lookups, rollups);
    NoErrorInCall(lib, n, ctx, lookups, rollups);
  }

  /** An expression the first walk accepts never makes the evaluator raise a FormulaError. */
  lemma {:induction false} NoFormulaError(lib: Lib, n: Ast, ctx: Context, lookups: Option<set<string>>, rollups: Option<set<string>>)
    requires Shaped(n) && !n.OpNode? && !n.Load? && Clean(n, lookups, rollups)
    ensures Eval(lib, n, ctx) != FormulaError
    decreases n, 2, 0
  {
    match n
    case Expression(root) => NoErrorInKid(lib, n, root, 0, ctx, lookups, rollups);
    case Constant(_) =>
    case Name(_) =>
    case Unary(_, _) => UnaryCase(lib, n, ctx, lookups, rollups);
    case Binary(_, _, _) => BinaryCase(lib, n, ctx, lookups, rollups);
    case BoolOp(_, _) => BoolOpCase(lib, n, ctx, lookups, rollups);
    case Compare(_, _, _) => CompareCase(lib, n, ctx, lookups, rollups);
    case IfExp(_, _, _) => IfExpCase(lib, n, ctx, lookups, rollups);
    case Call(_, _, _) => CallCase(lib, n, ctx, lookups, rollups);
    case Other(_) => CleanSelf(n, lookups, rollups);
  }

  lemma {:induction false} NoErrorInAll(lib: Lib, n: Ast, es: seq<Ast>, ctx: Context,
                                        lookups: Option<set<string>>, rollups: Option<set<string>>)
    requires Operands(n, es, lookups, rollups)
    ensures EvalAll(lib, es, ctx) != Failed(FormulaError)
    decreases n, 0, |es|
  {
    if es != [] {
      NoFormulaError(lib, es[0], ctx, lookups, rollups);
      NoErrorInAll(lib, n, es[1..], ctx, lookups, rollups);
    }
  }

  lemma {:induction false} NoErrorInChain(lib: Lib, n: Ast, left: Value, ops: seq<Token>, es: seq<Ast>, ctx: Context,
                                          lookups: Option<set<string>>, rollups: Option<set<string>>)
    requires |ops| == |es| && Operands(n, es, lookups, rollups) && forall i | 0 <= i < |ops| :: Ordering(ops[i])
    ensures EvalChain(lib, left, ops, es, ctx) != FormulaError
    decreases n, 0, |es|
  {
    if es != [] {
      NoFormulaError(lib, es[0], ctx, lookups, rollups);
      if Eval(lib, es[0], ctx).Val? {
        NoErrorInChain(lib, n, Eval(lib, es[0], ctx).v, ops[1..], es[1..], ctx, lookups, rollups);
      }
    }
  }

  lemma {:induction false} PickBoolPicks(op: Token, vs: seq<Value>)
    requires vs != []
    ensures exists v | v in vs :: PickBool(op, vs) == Val(v)
  {
    if !(|vs| == 1 || Truthy(vs[0]) == op.Or?) {
      PickBoolPicks(op, vs[1..]);
      var v :| v in vs[1..] && PickBool(op, vs[1..]) == Val(v);
      assert v in vs;
    } else {
      assert vs[0] in vs;
    }
  }

  /** Validator soundness: no row, clock or resolver can bring an accepted formula to a FormulaError. */
  lemma ValidatedNeverFails(lib: Lib, tree: Ast, columns: set<string>, lookups: Option<set<string>>,
                            rollups: Option<set<string>>, ctx: Context)
    requires tree.Expression? && Shaped(tree) && Acceptable(tree, columns, lookups, rollups)
    ensures Eval(lib, tree, ctx) != FormulaError
  {
    NoFormulaError(lib, tree, ctx, lookups, rollups);
  }

  // ---------------------------------------------------------------- when a formula has a value

  /** What the evaluation of a formula asks of its surroundings, and may get no answer to. */
  datatype Query =
    | Shift(op: Token, a: Value, b: Value)
    | Order(op: Token, a: Value, b: Value)
    | Invoke(name: string, args: seq<Value>)

  predicate Answered(lib: Lib, q: Query) {
    match q
    case Shift(op, a, b) => lib.shift(op, a, b).Some?
    case Order(op, a, b) => lib.order(op, a, b).Some?
    case Invoke(name, args) =>
      if name in RELATION_FUNCS then
        lib.resolver.None? || (ArityFits(name, |args|) && lib.resolver.value(name, args).Some?)
      else args == []
  }

  predicate Asks(name: string) {
    name in RELATION_FUNCS || name == "today" || name == "now"
  }

  /** What `_eval` asks on this row, in the branches it takes and up to its first failure. */
  function Queries(lib: Lib, e: Ast, ctx: Context): set<Query>
    decreases e, 0
  {
    match e
    case Expression(root) => Queries(lib, root, ctx)
    case Unary(op, x) => if op.UAdd? || op.USub? || op.Not? then Queries(lib, x, ctx) else {}
    case Binary(x, op, y) =>
      var a, b := Eval(lib, x, ctx), Eval(lib, y, ctx);
      Queries(lib, x, ctx)
        + (if a.Val? then Queries(lib, y, ctx) else {})
        + (if a.Val? && b.Val? then BinQueries(op, a.v, b.v) else {})
    case BoolOp(op, xs) => QueriesAll(lib, xs, ctx)
    case Compare(x, ops, ys) =>
      var a := Eval(lib, x, ctx);
      Queries(lib, x, ctx) + if a.Val? then QueriesChain(lib, a.v, ops, ys, ctx) else {}
    case IfExp(test, body, orelse) =>
      var t := Eval(lib, test, ctx);
      Queries(lib, test, ctx)
        + if !t.Val? then {} else if Truthy(t.v) then Queries(lib, body, ctx) else Queries(lib, orelse, ctx)
    case Call(func, args, keywords) =>
      if !func.Name? || keywords != [] then {}
      else
        var vs := EvalAll(lib, args, ctx);
        QueriesAll(lib, args, ctx) + if vs.Vals? && Asks(func.id) then {Invoke(func.id, vs.vs)} else {}
    case _ => {}
  }

  function BinQueries(op: Token, a: Value, b: Value): set<Query> {
    if !a.Nil? && !b.Nil? && (op.Add? || op.Sub?) && (Temporal(a) || Temporal(b)) then {Shift(op, a, b)} else {}
  }

  function QueriesAll(lib: Lib, es: seq<Ast>, ctx: Context): set<Query>
    decreases es, 1
  {
    if es == [] then {}
    else Queries(lib, es[0], ctx) + if Eval(lib, es[0], ctx).Val? then QueriesAll(lib, es[1..], ctx) else {}
  }

  function QueriesChain(lib: Lib, left: Value, ops: seq<Token>, es: seq<Ast>, ctx: Context): set<Query>
    decreases es, 1
  {
    if ops == [] || es == [] then {}
    else
      var right := Eval(lib, es[0], ctx);
      Queries(lib, es[0], ctx)
        + if !right.Val? || !Ordering(ops[0]) then {}
          else
            {Order(ops[0], left, right.v)}
            + if lib.order(ops[0], left, right.v) == Some(true) then QueriesChain(lib, right.v, ops[1..], es[1..], ctx) else {}
  }

  ghost predicate AllAnswered(lib: Lib, qs: set<Query>) {
    forall q | q in qs :: Answered(lib, q)
  }

  /** An expression raises exactly when something it asks has no answer. */
  lemma {:induction false} RaisesIff(lib: Lib, n: Ast, ctx: Context)
    requires Shaped(n)
    ensures Eval(lib, n, ctx) == Raised <==> !AllAnswered(lib, Queries(lib, n, ctx))
    decreases n, 1, 0
  {
    match n
    case Expression(root) => RaisesIff(lib, root, ctx);
    case Unary(_, x) => RaisesIff(lib, x, ctx);
    case Binary(x, op, y) =>
      RaisesIff(lib, x, ctx);
      RaisesIff(lib, y, ctx);
    case BoolOp(op, xs) =>
      ShapedParts(n);
      RaisesInAllIff(lib, n, xs, ctx);
      var vs := EvalAll(lib, xs, ctx);
      if vs.Vals? { PickBoolPicks(op, vs.vs); }
    case Compare(x, ops, ys) =>
      ShapedParts(n);
      RaisesIff(lib, x, ctx);
      if Eval(lib, x, ctx).Val? { RaisesInChainIff(lib, n, Eval(lib, x, ctx).v, ops, ys, ctx); }
    case IfExp(t, b, o) =>
      RaisesIff(lib, t, ctx);
      RaisesIff(lib, b, ctx);
      RaisesIff(lib, o, ctx);
    case Call(_, args, _) =>
      ShapedParts(n);
      RaisesInAllIff(lib, n, args, ctx);
    case _ =>
  }

  lemma {:induction false} RaisesInAllIff(lib: Lib, n: Ast, es: seq<Ast>, ctx: Context)
    requires ShapedOperands(n, es)
    ensures EvalAll(lib, es, ctx) == Failed(Raised) <==> !AllAnswered(lib, QueriesAll(lib, es, ctx))
    decreases n, 0, |es|
  {
    if es != [] {
      RaisesIff(lib, es[0], ctx);
      RaisesInAllIff(lib, n, es[1..], ctx);
    }
  }

  lemma {:induction false} RaisesInChainIff(lib: Lib, n: Ast, left: Value, ops: seq<Token>, es: seq<Ast>, ctx: Context)
    requires ShapedOperands(n, es)
    ensures EvalChain(lib, left, ops, es, ctx) == Raised <==> !AllAnswered(lib, QueriesChain(lib, left, ops, es, ctx))
    decreases n, 0, |es|
  {
    if es != [] && ops != [] {
      RaisesIff(lib, es[0], ctx);
      var right := Eval(lib, es[0], ctx);
      if right.Val? { RaisesInChainIff(lib, n, right.v, ops[1..], es[1..], ctx); }
    }
  }

  /** An accepted formula has a value on a row exactly when everything it asks there has an answer. */
  lemma AcceptedHasValueIff(lib: Lib, tree: Ast, columns: set<string>, lookups: Option<set<string>>,
                            rollups: Option<set<string>>, ctx: Context)
    requires tree.Expression? && Shaped(tree) && Acceptable(tree, columns, lookups, rollups)
    ensures Eval(lib, tree, ctx).Val? <==> forall q | q in Queries(lib, tree, ctx) :: Answered(lib, q)
  {
    ValidatedNeverFails(lib, tree, columns, lookups, rollups, ctx);
    RaisesIff(lib, tree, ctx);
  }

  // ---------------------------------------------------------------- calls that cannot be answered

  /** A call no surroundings can answer: a clock with arguments, a lookup or rollup with too few or too many. */
  predicate Misused(n: Ast) {
    && n.Call? && n.func.Name?
    && if n.func.id in RELATION_FUNCS then !ArityFits(n.func.id, |n.args|)
       else (n.func.id == "today" || n.func.id == "now") && n.args != []
  }

  /** Somewhere below `n` this call is written, with as many arguments. */
  ghost predicate Written(n: Ast, q: Query) {
    q.Invoke? ==> exists m :: m in Nodes(n) && CallsFor(m, q)
  }

  ghost predicate AllWritten(n: Ast, qs: set<Query>) {
    forall q | q in qs :: Written(n, q)
  }

  predicate CallsFor(m: Ast, q: Query)
    requires q.Invoke?
  {
    m.Call? && m.func.Name? && m.func.id == q.name && |m.args| == |q.args| && Asks(q.name)
  }

  lemma {:induction false} WrittenInKid(lib: Lib, n: Ast, x: Ast, i: nat, ctx: Context)
    requires i < |Kids(n)| && Kids(n)[i] == x && x < n
    ensures AllWritten(n, Queries(lib, x, ctx))
    decreases n, 0, 0
  {
    QueriesAreWritten(lib, x, ctx);
    KidNodes(n, i);
    forall q | q in Queries(lib, x, ctx) ensures Written(n, q) {
      assert Written(x, q);
    }
  }

  lemma RunTail(n: Ast, es: seq<Ast>, from: nat)
    requires RunAt(n, es, from) && es != []
    ensures Kids(n)[from] == es[0] && RunAt(n, es[1..], from + 1)
  {
    assert Kids(n)[from + 0] == es[0];
    forall i | 0 <= i < |es[1..]| ensures Kids(n)[from + 1 + i] == es[1..][i] {
      assert Kids(n)[from + (i + 1)] == es[i + 1];
    }
  }

  lemma {:induction false} WrittenInRun(lib: Lib, n: Ast, es: seq<Ast>, from: nat, ctx: Context)
    requires RunAt(n, es, from) && forall i | 0 <= i < |es| :: es[i] < n
    ensures AllWritten(n, QueriesAll(lib, es, ctx))
    decreases n, 0, 1 + |es|
  {
    if es != [] {
      RunTail(n, es, from);
      WrittenInKid(lib, n, es[0], from, ctx);
      WrittenInRun(lib, n, es[1..], from + 1, ctx);
    }
  }

  lemma {:induction false} WrittenInChain(lib: Lib, n: Ast, left: Value, ops: seq<Token>, es: seq<Ast>, from: nat, ctx: Context)
    requires RunAt(n, es, from) && forall i | 0 <= i < |es| :: es[i] < n
    ensures AllWritten(n, QueriesChain(lib, left, ops, es, ctx))
    decreases n, 0, 1 + |es|
  {
    if es != [] && ops != [] {
      RunTail(n, es, from);
      WrittenInKid(lib, n, es[0], from, ctx);
      var right := Eval(lib, es[0], ctx);
      if right.Val? { WrittenInChain(lib, n, right.v, ops[1..], es[1..], from + 1, ctx); }
    }
  }

  lemma {:induction false} BinaryWritten(lib: Lib, n: Ast, ctx: Context)
    requires n.Binary?
    ensures AllWritten(n, Queries(lib, n, ctx))
    decreases n, 0, 1
  {
    WrittenInKid(lib, n, n.left, 0, ctx);
    WrittenInKid(lib, n, n.right, 2, ctx);
  }

  lemma {:induction false} CompareWritten(lib: Lib, n: Ast, ctx: Context)
    requires n.Compare?
    ensures AllWritten(n, Queries(lib, n, ctx))
    decreases n, 1, 0
  {
    OperandRuns(n);
    WrittenInKid(lib, n, n.left, 0, ctx);
    var a := Eval(lib, n.left, ctx);
    if a.Val? { WrittenInChain(lib, n, a.v, n.ops, n.comparators, 1 + |n.ops|, ctx); }
  }

  lemma {:induction false} BranchWritten(lib: Lib, n: Ast, ctx: Context)
    requires n.IfExp?
    ensures AllWritten(n, Queries(lib, n, ctx))
    decreases n, 0, 1
  {
    WrittenInKid(lib, n, n.test, 0, ctx);
    WrittenInKid(lib, n, n.body, 1, ctx);
    WrittenInKid(lib, n, n.orelse, 2, ctx);
  }

  lemma {:induction false} OperandsWritten(lib: Lib, n: Ast, ctx: Context)
    requires n.BoolOp? || n.Call?
    ensures AllWritten(n, Queries(lib, n, ctx))
    decreases n, 1, 0
  {
    OperandRuns(n);
    WrittenInRun(lib, n, if n.Call? then n.args else n.values, 1, ctx);
    assert n in Nodes(n);
  }

  /** Every call that is asked for is written in the formula. */
  lemma {:induction false} QueriesAreWritten(lib: Lib, n: Ast, ctx: Context)
    ensures AllWritten(n, Queries(lib, n, ctx))
    decreases n, 2, 0
  {
    match n
    case Expression(root) => WrittenInKid(lib, n, root, 0, ctx);
    case Unary(_, x) => WrittenInKid(lib, n, x, 1, ctx);
    case Binary(_, _, _) => BinaryWritten(lib, n, ctx);
    case BoolOp(_, _) => OperandsWritten(lib, n, ctx);
    case Compare(_, _, _) => CompareWritten(lib, n, ctx);
    case IfExp(_, _, _) => BranchWritten(lib, n, ctx);
    case Call(_, _, _) => OperandsWritten(lib, n, ctx);
    case _ =>
  }

  /** What the tree asks of its library on this row, and of its resolver with a fitting number of arguments, is answered. */
  ghost predicate LibraryAnswers(lib: Lib, tree: Ast, ctx: Context) {
    forall q | q in Queries(lib, tree, ctx) :: Answered(lib, q)
      || (q.Invoke? && if q.name in RELATION_FUNCS then !ArityFits(q.name, |q.args|) else q.args != [])
  }

  /**
    What a designer can check of a formula: if no call in it is misused, it has a value on
    every row where its date shifts and comparisons can be made and its lookups and rollups
    answer.  A misused call in a branch that is not taken does no harm, so this is one way.
  */
  lemma AcceptedHasValue(lib: Lib, tree: Ast, columns: set<string>, lookups: Option<set<string>>,
                         rollups: Option<set<string>>, ctx: Context)
    requires tree.Expression? && Shaped(tree) && Acceptable(tree, columns, lookups, rollups)
    requires forall n | n in Nodes(tree) :: !Misused(n)
    requires LibraryAnswers(lib, tree, ctx)
    ensures Eval(lib, tree, ctx).Val?
  {
    QueriesAreWritten(lib, tree, ctx);
    forall q | q in Queries(lib, tree, ctx) ensures Answered(lib, q) {
      assert Written(tree, q);
      if q.Invoke? {
        var m :| m in Nodes(tree) && CallsFor(m, q);
        assert !Misused(m);
      }
    }
    AcceptedHasValueIff(lib, tree, columns, lookups, rollups, ctx);
  }

  // ---------------------------------------------------------------- what a formula depends on

  /** The names the evaluator may look up: those in expression positions, not the called functions. */
  function Reads(n: Ast): set<string>
    decreases n, 1
  {
    match n
    case Expression(root) => Reads(root)
    case Name(id) => {id}
    case Unary(_, x) => Reads(x)
    case Binary(x, _, y) => Reads(x) + Reads(y)
    case BoolOp(_, xs) => ReadsAll(xs)
    case Compare(x, _, ys) => Reads(x) + ReadsAll(ys)
    case IfExp(t, b, o) => Reads(t) + Reads(b) + Reads(o)
    case Call(_, args, _) => ReadsAll(args)
    case _ => {}
  }

  function ReadsAll(ns: seq<Ast>): set<string>
    decreases ns, 0
  {
    if ns == [] then {} else Reads(ns[0]) + ReadsAll(ns[1..])
  }

  ghost predicate SameOn(a: Context, b: Context, names: set<string>) {
    forall x | x in names :: (x in a <==> x in b) && (x in a ==> a[x] == b[x])
  }

  lemma Narrower(a: Context, b: Context, names: set<string>, more: set<string>)
    requires SameOn(a, b, more) && names <= more
    ensures SameOn(a, b, names)
  {}

  lemma {:induction false} KidReadsOnly(lib: Lib, n: Ast, x: Ast, a: Context, b: Context)
    requires SameOn(a, b, Reads(n)) && Reads(x) <= Reads(n) && x < n
    ensures Eval(lib, x, a) == Eval(lib, x, b)
    decreases n, 0, 0
  {
    Narrower(a, b, Reads(x), Reads(n));
    EvalReadsOnly(lib, x, a, b);
  }

  lemma {:induction false} CompareReadsOnly(lib: Lib, n: Ast, a: Context, b: Context)
    requires n.Compare? && SameOn(a, b, Reads(n))
    ensures Eval(lib, n, a) == Eval(lib, n, b)
    decreases n, 1, 0
  {
    KidReadsOnly(lib, n, n.left, a, b);
    if Eval(lib, n.left, a).Val? {
      Narrower(a, b, ReadsAll(n.comparators), Reads(n));
      EvalChainReadsOnly(lib, n, Eval(lib, n.left, a).v, n.ops, n.comparators, a, b);
    }
  }

  lemma {:induction false} BranchReadsOnly(lib: Lib, n: Ast, a: Context, b: Context)
    requires n.IfExp? && SameOn(a, b, Reads(n))
    ensures Eval(lib, n, a) == Eval(lib, n, b)
    decreases n, 1, 0
  {
    KidReadsOnly(lib, n, n.test, a, b);
    KidReadsOnly(lib, n, n.body, a, b);
    KidReadsOnly(lib, n, n.orelse, a, b);
  }

  /** Rows that agree on the names a formula reads give it the same result. */
  lemma {:induction false} EvalReadsOnly(lib: Lib, n: Ast, a: Context, b: Context)
    requires SameOn(a, b, Reads(n))
    ensures Eval(lib, n, a) == Eval(lib, n, b)
    decreases n, 2, 0
  {
    match n
    case Expression(root) => KidReadsOnly(lib, n, root, a, b);
    case Unary(_, x) => KidReadsOnly(lib, n, x, a, b);
    case Binary(x, _, y) =>
      KidReadsOnly(lib, n, x, a, b);
      KidReadsOnly(lib, n, y, a, b);
    case BoolOp(_, xs) => EvalAllReadsOnly(lib, n, xs, a, b);
    case Compare(_, _, _) => CompareReadsOnly(lib, n, a, b);
    case IfExp(_, _, _) => BranchReadsOnly(lib, n, a, b);
    case Call(_, args, _) => EvalAllReadsOnly(lib, n, args, a, b);
    case _ =>
  }

  lemma {:induction false} EvalAllReadsOnly(lib: Lib, n: Ast, es: seq<Ast>, a: Context, b: Context)
    requires SameOn(a, b, ReadsAll(es)) && forall i | 0 <= i < |es| :: es[i] < n
    ensures EvalAll(lib, es, a) == EvalAll(lib, es, b)
    decreases n, 0, |es|
  {
    if es != [] {
      EvalReadsOnly(lib, es[0], a, b);
      EvalAllReadsOnly(lib, n, es[1..], a, b);
    }
  }

  lemma {:induction false} EvalChainReadsOnly(lib: Lib, n: Ast, left: Value, ops: seq<Token>, es: seq<Ast>, a: Context, b: Context)
    requires SameOn(a, b, ReadsAll(es)) && forall i | 0 <= i < |es| :: es[i] < n
    ensures EvalChain(lib, left, ops, es, a) == EvalChain(lib, left, ops, es, b)
    decreases n, 0, |es|
  {
    if es != [] && ops != [] {
      EvalReadsOnly(lib, es[0], a, b);
      if Eval(lib, es[0], a).Val? {
        EvalChainReadsOnly(lib, n, Eval(lib, es[0], a).v, ops[1..], es[1..], a, b);
      }
    }
  }

  /** The names that occur in a tree, called functions included. */
  function NamesIn(ns: set<Ast>): set<string> {
    set m | m in ns && m.Name? :: m.id
  }

  lemma {:induction false} ReadsOfKid(n: Ast, k: Ast, i: nat)
    requires i < |Kids(n)| && Kids(n)[i] == k && k < n
    ensures Reads(k) <= NamesIn(Nodes(n))
    decreases n, 1, 0
  {
    ReadsAreNames(k);
    KidNodes(n, i);
  }

  lemma {:induction false} ReadsAllWithin(es: seq<Ast>, names: set<string>)
    requires forall i | 0 <= i < |es| :: Reads(es[i]) <= names
    ensures ReadsAll(es) <= names
  {
    if es != [] {
      ReadsAllWithin(es[1..], names);
    }
  }

  lemma {:induction false} ReadsOfRun(n: Ast, es: seq<Ast>, from: nat)
    requires RunAt(n, es, from) && forall i | 0 <= i < |es| :: es[i] < n
    ensures ReadsAll(es) <= NamesIn(Nodes(n))
    decreases n, 2, 0
  {
    forall i | 0 <= i < |es| ensures Reads(es[i]) <= NamesIn(Nodes(n)) {
      ReadsOfKid(n, es[i], from + i);
    }
    ReadsAllWithin(es, NamesIn(Nodes(n)));
  }

  lemma {:induction false} CompareReads(n: Ast)
    requires n.Compare?
    ensures Reads(n) <= NamesIn(Nodes(n))
    decreases n, 2, 1
  {
    OperandRuns(n);
    ReadsOfKid(n, n.left, 0);
    ReadsOfRun(n, n.comparators, 1 + |n.ops|);
  }

  lemma {:induction false} BranchReads(n: Ast)
    requires n.IfExp?
    ensures Reads(n) <= NamesIn(Nodes(n))
    decreases n, 2, 1
  {
    ReadsOfKid(n, n.test, 0);
    ReadsOfKid(n, n.body, 1);
    ReadsOfKid(n, n.orelse, 2);
  }

  lemma {:induction false} OperandReads(n: Ast)
    requires n.BoolOp? || n.Call?
    ensures Reads(n) <= NamesIn(Nodes(n))
    decreases n, 2, 1
  {
    OperandRuns(n);
    ReadsOfRun(n, if n.Call? then n.args else n.values, 1);
  }

  lemma {:induction false} BinaryReads(n: Ast)
    requires n.Binary?
    ensures Reads(n) <= NamesIn(Nodes(n))
    decreases n, 2, 1
  {
    ReadsOfKid(n, n.left, 0);
    ReadsOfKid(n, n.right, 2);
  }

  lemma {:induction false} ReadsAreNames(n: Ast)
    ensures Reads(n) <= NamesIn(Nodes(n))
    decreases n, 3, 0
  {
    match n
    case Expression(root) => ReadsOfKid(n, root, 0);
    case Name(_) => assert n in Nodes(n);
    case Unary(_, x) => ReadsOfKid(n, x, 1);
    case Binary(_, _, _) => BinaryReads(n);
    case BoolOp(_, _) => OperandReads(n);
    case Compare(_, _, _) => CompareReads(n);
    case IfExp(_, _, _) => BranchReads(n);
    case Call(_, _, _) => OperandReads(n);
    case _ =>
  }

  /**
    What an accepted formula depends on: the columns it names, plus any function name it
    calls and also uses as a value.  It depends on columns alone exactly when it does not
    do the latter with a name that is not a column.
  */
  lemma ValidatedReadsColumns(lib: Lib, tree: Ast, columns: set<string>, lookups: Option<set<string>>,
                              rollups: Option<set<string>>)
    requires Acceptable(tree, columns, lookups, rollups)
    ensures Reads(tree) <= columns + Called(Nodes(tree))
    ensures Reads(tree) <= columns <==> Reads(tree) * (Called(Nodes(tree)) - columns) == {}
    ensures forall a, b | SameOn(a, b, columns + Called(Nodes(tree))) :: Eval(lib, tree, a) == Eval(lib, tree, b)
  {
    ReadsAreNames(tree);
    forall a, b | SameOn(a, b, columns + Called(Nodes(tree))) ensures Eval(lib, tree, a) == Eval(lib, tree, b) {
      EvalReadsOnly(lib, tree, a, b);
    }
  }

  const LEN := Name("len")

  const LEN_OF_LEN := Call(LEN, [LEN], [])

  lemma LenNodes()
    ensures Nodes(LEN_OF_LEN) == {LEN_OF_LEN, LEN, Load}
  {
    NamedNodes("len");
    assert Kids(LEN_OF_LEN) == [LEN, LEN];
    assert [LEN, LEN][1..] == [LEN] && [LEN][1..] == [];
    assert NodesOf([LEN]) == Nodes(LEN);
  }

  lemma LenChecked(n: Ast)
    requires n in {Expression(LEN_OF_LEN), LEN_OF_LEN, LEN, Load}
    ensures CheckNode(n, None, None).None?
  {
    assert "len" in FUNCS && "len" != "lookup" && "len" != "rollup" by {
      assert |"len"| != |"lookup"| && |"len"| != |"rollup"|;
    }
  }

  lemma LenTree()
    ensures Nodes(Expression(LEN_OF_LEN)) == {Expression(LEN_OF_LEN), LEN_OF_LEN, LEN, Load}
  {
    LenNodes();
    assert [LEN_OF_LEN][1..] == [];
    assert NodesOf([LEN_OF_LEN]) == Nodes(LEN_OF_LEN);
  }

  lemma LenReads()
    ensures Reads(Expression(LEN_OF_LEN)) == {"len"} && Shaped(Expression(LEN_OF_LEN))
  {
    assert [LEN][1..] == [];
    assert ReadsAll([LEN]) == {"len"};
  }

  /** `len(len)`: accepted without any column, though it reads the unknown field `len`. */
  lemma FunctionNameSlipsThrough()
    ensures var tree := Expression(LEN_OF_LEN); Shaped(tree) && Acceptable(tree, {}, None, None) && Reads(tree) == {"len"}
  {
    var tree := Expression(LEN_OF_LEN);
    LenTree();
    forall n | n in Nodes(tree) ensures CheckNode(n, None, None).None? {
      LenChecked(n);
    }
    assert LEN_OF_LEN in Nodes(tree);
    LenReads();
  }

  const TODAY_OF_NIL := Call(Name("today"), [Constant(Nil)], [])

  lemma TodayNodes()
    ensures Nodes(TODAY_OF_NIL) == {TODAY_OF_NIL, Name("today"), Load, Constant(Nil)}
  {
    var arg := Constant(Nil);
    NamedNodes("today");
    assert Kids(TODAY_OF_NIL) == [Name("today"), arg];
    assert [Name("today"), arg][1..] == [arg] && [arg][1..] == [];
    assert Nodes(arg) == {arg};
    assert NodesOf([arg]) == {arg};
  }

  lemma TodayChecked(n: Ast)
    requires n in {Expression(TODAY_OF_NIL), TODAY_OF_NIL, Name("today"), Load, Constant(Nil)}
    ensures CheckNode(n, None, None).None?
  {
    assert "today" in FUNCS;
    assert "today" != "lookup" && "today" != "rollup" by {
      assert "today"[0] == 't' && "lookup"[0] == 'l' && "rollup"[0] == 'r';
    }
  }

  /** `today(None)` is accepted … */
  lemma TodayAccepted()
    ensures Acceptable(Expression(TODAY_OF_NIL), {}, None, None)
  {
    var tree := Expression(TODAY_OF_NIL);
    TodayNodes();
    assert [TODAY_OF_NIL][1..] == [];
    assert NodesOf([TODAY_OF_NIL]) == Nodes(TODAY_OF_NIL);
    assert Nodes(tree) == {tree, TODAY_OF_NIL, Name("today"), Load, Constant(Nil)};
    assert TODAY_OF_NIL in Nodes(tree);
    forall n | n in Nodes(tree) ensures CheckNode(n, None, None).None? {
      TodayChecked(n);
    }
  }

  /** … yet its evaluation raises, though not a FormulaError. */
  lemma TodayRaises(lib: Lib, ctx: Context)
    ensures Shaped(Expression(TODAY_OF_NIL)) && Eval(lib, Expression(TODAY_OF_NIL), ctx) == Raised
  {
    assert [Constant(Nil)][1..] == [];
    assert EvalAll(lib, [Constant(Nil)], ctx) == Vals([Nil] + []);
    assert Eval(lib, TODAY_OF_NIL, ctx) == Raised;
  }

  lemma NamedNodes(id: string)
    ensures Nodes(Name(id)) == {Name(id), Load}
  {
    assert [Load][1..] == [];
    assert Nodes(Load) == {Load};
    assert NodesOf([Load]) == {Load};
  }

  const LONE_LOOKUP := Call(Name("lookup"), [Constant(Text("customer"))], [])

  lemma LoneNodes()
    ensures Nodes(LONE_LOOKUP) == {LONE_LOOKUP, Name("lookup"), Load, Constant(Text("customer"))}
  {
    var arg := Constant(Text("customer"));
    NamedNodes("lookup");
    assert Kids(LONE_LOOKUP) == [Name("lookup"), arg];
    assert [Name("lookup"), arg][1..] == [arg] && [arg][1..] == [];
    assert Nodes(arg) == {arg};
    assert NodesOf([arg]) == {arg};
  }

  lemma LoneChecked(n: Ast, rollups: Option<set<string>>)
    requires n in {Expression(LONE_LOOKUP), LONE_LOOKUP, Name("lookup"), Load, Constant(Text("customer"))}
    ensures CheckNode(n, Some({"customer"}), rollups).None?
  {
    assert "lookup" in RELATION_FUNCS;
  }

  /** `lookup('customer')`, without the field to show, is accepted whatever link fields there are … */
  lemma LoneLookupAccepted(rollups: Option<set<string>>)
    ensures Acceptable(Expression(LONE_LOOKUP), {}, Some({"customer"}), rollups)
  {
    var tree := Expression(LONE_LOOKUP);
    LoneNodes();
    assert [LONE_LOOKUP][1..] == [];
    assert NodesOf([LONE_LOOKUP]) == Nodes(LONE_LOOKUP);
    assert Nodes(tree) == {tree, LONE_LOOKUP, Name("lookup"), Load, Constant(Text("customer"))};
    assert LONE_LOOKUP in Nodes(tree);
    forall n | n in Nodes(tree) ensures CheckNode(n, Some({"customer"}), rollups).None? {
      LoneChecked(n, rollups);
    }
  }

  /** … and raises on every row, whatever the resolver. */
  lemma LoneLookupRaises(lib: Lib, ctx: Context)
    requires lib.resolver.Some?
    ensures Shaped(Expression(LONE_LOOKUP)) && Eval(lib, Expression(LONE_LOOKUP), ctx) == Raised
  {
    var arg := Constant(Text("customer"));
    assert [arg][1..] == [];
    assert EvalAll(lib, [arg], ctx) == Vals([Text("customer")] + []);
    assert Eval(lib, LONE_LOOKUP, ctx) == Raised;
  }
}
