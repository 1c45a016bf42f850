/** Expression rewriting: copy and constant propagation, constant folding, algebraic simplification. */
module Folding {
  import opened Bytes
  import opened Lang
  import opened Interpreter

  datatype Level = OptNone | OptBasic | OptAggressive

  // What the optimizer believes so far: values of variables, variables equal to others, and which
  // variable holds the value of which expression (by its key).
  datatype Facts = Facts(constants: map<Str, Value>, copies: map<Str, Str>, expressions: map<Str, Str>)

  const NOTHING_KNOWN := Facts(map[], map[], map[])

  // The end of a chain of copies. A chain that closes on itself ends where it was entered again.
  function Root(copies: map<Str, Str>, name: Str, visited: set<Str>): Str
    decreases |copies.Keys - visited|
  {
    if name in visited || name !in copies then name
    else
      assert copies.Keys - (visited + {name}) == (copies.Keys - visited) - {name};
      Root(copies, copies[name], visited + {name})
  }

  function OptimizedExpr(level: Level, f: Facts, e: Expr): Expr {
    if level.OptNone? then e
    else
      match e
      case Variable(name) =>
        var root := Root(f.copies, name, {});
        if root in f.constants then Literal(f.constants[root]) else Variable(root)
      case Binary(op, l, r) => FoldBinary(level, op, OptimizedExpr(level, f, l), OptimizedExpr(level, f, r))
      case Unary(_, _) => e
      case Literal(_) => e
  }

  function FoldBinary(level: Level, op: BinOp, l: Expr, r: Expr): Expr {
    if level.OptAggressive? && l == r && l.Literal? && l.value.Int? && SameOperands(op).Some? then
      Literal(SameOperands(op).value)
    else if l.Literal? && r.Literal? then FoldLiterals(op, l.value, r.value)
    else if l.Literal? then Simplify(level, op, l.value, r, true)
    else if r.Literal? then Simplify(level, op, r.value, l, false)
    else Binary(op, l, r)
  }

  // The value of an operator applied to the same integer twice, where it does not depend on it.
  function SameOperands(op: BinOp): Option<Value> {
    match op
    case Sub => Some(Int(0))
    case Eq => Some(Bool(true))
    case Ne => Some(Bool(false))
    case Le => Some(Bool(true))
    case Ge => Some(Bool(true))
    case Lt => Some(Bool(false))
    case Gt => Some(Bool(false))
    case _ => None
  }

  function FoldLiterals(op: BinOp, a: Value, b: Value): Expr {
    if a.Int? && b.Int? then
      match op
      case Add => Literal(Int(Wrap64(a.i + b.i)))
      case Sub => Literal(Int(Wrap64(a.i - b.i)))
      case Mul => Literal(Int(Wrap64(a.i * b.i)))
      case Div =>
        if b.i != 0 then Literal(Int(Wrap64(TruncDiv(a.i, b.i)))) else Binary(op, Literal(a), Literal(b))
      case Mod =>
        if b.i != 0 then Literal(Int(Wrap64(TruncMod(a.i, b.i)))) else Binary(op, Literal(a), Literal(b))
      case Eq => Literal(Bool(a.i == b.i))
      case Ne => Literal(Bool(a.i != b.i))
      case Lt => Literal(Bool(a.i < b.i))
      case Le => Literal(Bool(a.i <= b.i))
      case Gt => Literal(Bool(a.i > b.i))
      case Ge => Literal(Bool(a.i >= b.i))
      case And => Binary(op, Literal(a), Literal(b))
      case Or => Binary(op, Literal(a), Literal(b))
    else if a.Bool? && b.Bool? then
      match op
      case And => Literal(Bool(a.b && b.b))
      case Or => Literal(Bool(a.b || b.b))
      case Eq => Literal(Bool(a.b == b.b))
      case Ne => Literal(Bool(a.b != b.b))
      case _ => Binary(op, Literal(a), Literal(b))
    else Binary(op, Literal(a), Literal(b))
  }

  // One literal operand, on the left or on the right of the other one.
  function Simplify(level: Level, op: BinOp, lit: Value, other: Expr, onLeft: bool): Expr {
    var same := if onLeft then Binary(op, Literal(lit), other) else Binary(op, other, Literal(lit));
    match op
    case Add => if lit == Int(0) then other else same
    case Sub => if !onLeft && lit == Int(0) then other else same
    case Mul =>
      if lit == Int(0) then Literal(Int(0))
      else if lit == Int(1) then other
      else if lit == Int(2) && level.OptAggressive? then Binary(Add, other, other)
      else same
    case Div => if !onLeft && lit == Int(1) then other else same
    case And => if lit == Bool(true) then other else if lit == Bool(false) then Literal(Bool(false)) else same
    case Or => if lit == Bool(true) then Literal(Bool(true)) else if lit == Bool(false) then other else same
    case _ => same
  }

  // ---- meaning ----

  // The known constant and the known copy of a variable in scope are right.
  predicate FactHolds(f: Facts, x: Str, env: Env) {
    && (x in f.constants ==> Get(env, x) == Ok(f.constants[x]))
    && (x in f.copies ==> Has(env, f.copies[x]) && Get(env, f.copies[x]) == Get(env, x))
  }

  ghost predicate Holds(f: Facts, env: Env) {
    forall x | Has(env, x) :: FactHolds(f, x, env)
  }

  // Every variable along a chain of copies has the value of the first.
  lemma {:induction false} RootSame(f: Facts, x: Str, visited: set<Str>, env: Env)
    requires Holds(f, env) && Has(env, x)
    ensures var root := Root(f.copies, x, visited); Has(env, root) && Get(env, root) == Get(env, x)
    decreases |f.copies.Keys - visited|
  {
    assert FactHolds(f, x, env);
    if x !in visited && x in f.copies {
      assert f.copies.Keys - (visited + {x}) == (f.copies.Keys - visited) - {x};
      RootSame(f, f.copies[x], visited + {x}, env);
    }
  }

  lemma WrapsKept(i: Int64)
    ensures Wrap64(i) == i && TruncDiv(i, 1) == i
  {
  }

  lemma FoldLiteralsRefines(reading: Reading, op: BinOp, a: Value, b: Value, env: Env)
    ensures Eval(reading, FoldLiterals(op, a, b), env) == Eval(reading, Binary(op, Literal(a), Literal(b)), env)
  {
    assert Eval(reading, Literal(a), env) == Ok(a);
    assert Eval(reading, Literal(b), env) == Ok(b);
  }

  // Neutral and absorbing operands, on either side.
  lemma IntegerLaws(v: Value)
    ensures v.Int? ==>
              && ApplyBinary(Add, v, Int(0)) == ApplyBinary(Add, Int(0), v) == ApplyBinary(Sub, v, Int(0)) == Ok(v)
              && ApplyBinary(Mul, v, Int(0)) == ApplyBinary(Mul, Int(0), v) == Ok(Int(0))
              && ApplyBinary(Mul, v, Int(1)) == ApplyBinary(Mul, Int(1), v) == ApplyBinary(Div, v, Int(1)) == Ok(v)
              && ApplyBinary(Mul, v, Int(2)) == ApplyBinary(Mul, Int(2), v) == ApplyBinary(Add, v, v)
    ensures !v.Int? ==>
              && ApplyBinary(Add, v, Int(0)).Err? && ApplyBinary(Add, Int(0), v).Err? && ApplyBinary(Sub, v, Int(0)).Err?
              && (forall i :: ApplyBinary(Mul, v, Int(i)).Err? && ApplyBinary(Mul, Int(i), v).Err?)
              && ApplyBinary(Div, v, Int(1)).Err?
  {
    if v.Int? {
      WrapsKept(v.i);
    }
  }

  lemma BooleanLaws(v: Value)
    ensures ApplyBinary(And, v, Bool(true)) == ApplyBinary(And, Bool(true), v) == ApplyBinary(Or, v, Bool(false))
            == ApplyBinary(Or, Bool(false), v) == (if v.Bool? then Ok(v) else Err(TypeError))
    ensures ApplyBinary(And, v, Bool(false)) == ApplyBinary(And, Bool(false), v) == (if v.Bool? then Ok(Bool(false)) else Err(TypeError))
    ensures ApplyBinary(Or, v, Bool(true)) == ApplyBinary(Or, Bool(true), v) == (if v.Bool? then Ok(Bool(true)) else Err(TypeError))
  {
  }

  lemma SimplifyRefines(reading: Reading, level: Level, op: BinOp, lit: Value, other: Expr, onLeft: bool, env: Env)
    requires var e := if onLeft then Binary(op, Literal(lit), other) else Binary(op, other, Literal(lit));
             Eval(reading, e, env).Ok?
    ensures var e := if onLeft then Binary(op, Literal(lit), other) else Binary(op, other, Literal(lit));
            Eval(reading, Simplify(level, op, lit, other, onLeft), env) == Eval(reading, e, env)
  {
    hide ApplyBinary;
    assert Eval(reading, Literal(lit), env) == Ok(lit);
    if Eval(reading, other, env).Ok? {
      var v := Eval(reading, other, env).value;
      IntegerLaws(v);
      BooleanLaws(v);
      assert Eval(reading, Binary(Add, other, other), env) == ApplyBinary(Add, v, v);
    }
  }

  lemma FoldBinaryRefines(reading: Reading, level: Level, op: BinOp, l: Expr, r: Expr, env: Env)
    requires Eval(reading, Binary(op, l, r), env).Ok?
    ensures Eval(reading, FoldBinary(level, op, l, r), env) == Eval(reading, Binary(op, l, r), env)
  {
    hide Simplify, FoldLiterals;
    if l.Literal? && r.Literal? {
      FoldLiteralsRefines(reading, op, l.value, r.value, env);
      assert Eval(reading, l, env) == Ok(l.value) && Eval(reading, r, env) == Ok(r.value);
      if SameOperands(op).Some? {
        assert Eval(reading, Literal(SameOperands(op).value), env) == Ok(SameOperands(op).value);
      }
    } else if l.Literal? {
      SimplifyRefines(reading, level, op, l.value, r, true, env);
    } else if r.Literal? {
      SimplifyRefines(reading, level, op, r.value, l, false, env);
    }
  }

  lemma VariableRefined(level: Level, f: Facts, x: Str, env: Env, reading: Reading)
    requires Holds(f, env) && Has(env, x)
    ensures Eval(reading, OptimizedExpr(level, f, Variable(x)), env) == Get(env, x)
  {
    RootSame(f, x, {}, env);
    assert FactHolds(f, Root(f.copies, x, {}), env);
  }

  // Rewriting an expression keeps its value, wherever it has one and the facts hold. It need not
  // keep failures: see FailureFolded.
  lemma {:induction false} ExprRefined(reading: Reading, level: Level, f: Facts, e: Expr, env: Env)
    requires Holds(f, env) && Eval(reading, e, env).Ok?
    ensures Eval(reading, OptimizedExpr(level, f, e), env) == Eval(reading, e, env)
    decreases e
  {
    hide FoldBinary, Root, Holds;
    match e
    case Variable(x) =>
      HasGets(env, x);
      VariableRefined(level, f, x, env, reading);
    case Binary(op, l, r) =>
      if !level.OptNone? {
        ExprRefined(reading, level, f, l, env);
        if Eval(reading, r, env).Ok? {
          ExprRefined(reading, level, f, r, env);
        }
        FoldBinaryRefines(reading, level, op, OptimizedExpr(level, f, l), OptimizedExpr(level, f, r), env);
      }
    case Unary(_, _) =>
    case Literal(_) =>
  }

  // Some failures go: a zero factor hides that the other one is undefined.
  lemma FailureFolded(reading: Reading, f: Facts, env: Env, x: Str)
    requires !Has(env, x) && x !in f.copies && x !in f.constants
    ensures var e := Binary(Mul, Variable(x), Literal(Int(0)));
            && Eval(reading, e, env) == Err(UndefinedVariable(x))
            && Eval(reading, OptimizedExpr(OptBasic, f, e), env) == Ok(Int(0))
  {
    HasGets(env, x);
    var e := Binary(Mul, Variable(x), Literal(Int(0)));
    assert OptimizedExpr(OptBasic, f, Variable(x)) == Variable(x);
    assert OptimizedExpr(OptBasic, f, Literal(Int(0))) == Literal(Int(0));
    assert Simplify(OptBasic, Mul, Int(0), Variable(x), false) == Literal(Int(0));
  }
}
