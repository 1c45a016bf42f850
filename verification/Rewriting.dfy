/** What the optimizer makes of statements, as functions: the specification of class Optimizer. */
module Rewriting {
  import opened Bytes
  import opened Lang
  import opened Folding
  import opened ExprKeys

  // ---- which variables statements set ----

  // As the optimizer sees it: it does not look inside switches.
  function Modified(s: Stmt): set<Str>
    decreases s, 0
  {
    match s
    case Assign(x, _) => {x}
    case Reassign(x, _) => {x}
    case If(_, t, e) => ModifiedBlock(t) + ModifiedBlock(e)
    case While(_, body) => ModifiedBlock(body)
    case _ => {}
  }

  function ModifiedBlock(stmts: seq<Stmt>): set<Str>
    decreases stmts, 0
  {
    if stmts == [] then {} else Modified(stmts[0]) + ModifiedBlock(stmts[1..])
  }

  function ModifiedCases(cases: seq<Case>): set<Str>
    decreases cases, 0
  {
    if cases == [] then {} else ModifiedBlock(cases[0].body) + ModifiedCases(cases[1..])
  }

  function Used(e: Expr): set<Str> {
    match e
    case Variable(name) => {name}
    case Binary(_, l, r) => Used(l) + Used(r)
    case Unary(_, r) => Used(r)
    case Literal(_) => {}
  }

  // ---- facts ----

  function Forget(f: Facts, names: set<Str>): Facts {
    Facts(f.constants - names, f.copies - names, f.expressions - names)
  }

  // The rewritten right side of an assignment to x, and what is known after it.
  function OptimizedAssign(level: Level, f: Facts, x: Str, e: Expr): (Expr, Facts) {
    var v := OptimizedExpr(level, f, e);
    if v.Variable? then (v, f.(copies := f.copies[x := v.name], constants := f.constants - {x}))
    else
      var key := if level.OptAggressive? then ExprKey(v) else [];
      if key != [] && key in f.expressions then
        (Variable(f.expressions[key]),
         f.(copies := f.copies[x := f.expressions[key]], constants := f.constants - {x}))
      else
        (v, Facts(if v.Literal? then f.constants[x := v.value] else f.constants - {x},
                  f.copies - {x},
                  if key != [] then f.expressions[key := x] else f.expressions))
  }

  // ---- loops ----

  predicate Hoistable(s: Stmt, modified: set<Str>, inCondition: set<Str>) {
    s.Assign? && Used(s.value) !! modified && s.target !in inCondition
  }

  // The body's assignments that move in front of the loop, and what stays.
  function Hoisted(body: seq<Stmt>, modified: set<Str>, inCondition: set<Str>): (r: (seq<Stmt>, seq<Stmt>))
    ensures WeightBlock(r.0) <= WeightBlock(body) && WeightBlock(r.1) <= WeightBlock(body)
  {
    if body == [] then ([], [])
    else
      var (out, rest) := Hoisted(body[1..], modified, inCondition);
      if Hoistable(body[0], modified, inCondition) then
        assert ([body[0]] + out)[1..] == out;
        ([body[0]] + out, rest)
      else
        assert ([body[0]] + rest)[1..] == rest;
        (out, [body[0]] + rest)
  }

  // ---- statements ----

  function Weight(s: Stmt): (n: nat)
    ensures n > 0
    decreases s, 0
  {
    match s
    case If(_, t, e) => 1 + WeightBlock(t) + WeightBlock(e)
    case While(_, body) => 1 + WeightBlock(body)
    case _ => 1
  }

  function WeightBlock(stmts: seq<Stmt>): nat
    decreases stmts, 0
  {
    if stmts == [] then 0 else Weight(stmts[0]) + WeightBlock(stmts[1..])
  }

  function OptimizedStmt(level: Level, f: Facts, s: Stmt): (seq<Stmt>, Facts)
    decreases Weight(s), 0
  {
    match s
    case Assign(x, e) =>
      var (v, f') := OptimizedAssign(level, f, x, e);
      ([Assign(x, v)], f')
    case Reassign(x, e) =>
      var (v, f') := OptimizedAssign(level, f, x, e);
      ([Reassign(x, v)], f')
    case Return(e) => ([Return(OptimizedExpr(level, f, e))], f)
    case If(c, t, e) =>
      var c' := OptimizedExpr(level, f, c);
      if c' == Literal(Bool(true)) then OptimizedBlock(level, f, t)
      else if c' == Literal(Bool(false)) then OptimizedBlock(level, f, e)
      else
        var (t', f1) := OptimizedBlock(level, f, t);
        var (e', f2) := OptimizedBlock(level, f1, e);
        ([If(c', t', e')], f2)
    case While(c, body) =>
      var modified := ModifiedBlock(body);
      var (out, rest) := if level.OptAggressive? then Hoisted(body, modified, Used(c)) else ([], body);
      var (out', f1) := OptimizedBlock(level, Forget(f, modified), out);
      var (rest', f2) := OptimizedBlock(level, f1, rest);
      (out' + [While(OptimizedExpr(level, f1, c), rest')], f2)
    case Switch(_, cases, dflt) => ([s], Forget(f, ModifiedCases(cases) + ModifiedBlock(dflt)))
    case ExprStmt(_) => ([s], f)
    case Validation(_) => ([s], f)
    case Break => ([s], f)
    case Continue => ([s], f)
  }

  // Statements behind a return are dropped.
  function OptimizedBlock(level: Level, f: Facts, stmts: seq<Stmt>): (seq<Stmt>, Facts)
    decreases WeightBlock(stmts), 1
  {
    if level.OptNone? || stmts == [] then (stmts, f)
    else
      var (first, f1) := OptimizedStmt(level, f, stmts[0]);
      if stmts[0].Return? then (first, f1)
      else
        var (rest, f2) := OptimizedBlock(level, f1, stmts[1..]);
        (first + rest, f2)
  }
}
