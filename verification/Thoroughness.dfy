/** What the optimizer does not leave undone: constants are folded, neutral operands go, what is known is
  * used, decided branches and statements behind a return disappear. */
module Thoroughness {
  import opened Bytes
  import opened Lang
  import opened Interpreter
  import opened Folding
  import opened ExprKeys
  import opened Rewriting
  import opened Hoisting
  import opened Safety

  // ---- constants ----

  // Integers and truth values under operators, with no equality between the two kinds.
  predicate Constant(e: Expr) {
    match e
    case Literal(v) => v.Int? || v.Bool?
    case Binary(_, l, r) =>
      && Constant(l) && Constant(r)
      && var a, b := Eval(AsCompiled, l, []), Eval(AsCompiled, r, []);
         a.Ok? && b.Ok? ==> a.value.Int? == b.value.Int? && a.value.Bool? == b.value.Bool?
    case Variable(_) => false
    case Unary(_, _) => false
  }

  // A constant expression that has a value is folded into it, however deep it is.
  lemma {:induction false} ConstantFolded(level: Level, f: Facts, e: Expr)
    requires !level.OptNone? && Constant(e) && Eval(AsCompiled, e, []).Ok?
    ensures var v := Eval(AsCompiled, e, []).value;
            OptimizedExpr(level, f, e) == Literal(v) && (v.Int? || v.Bool?)
    decreases e
  {
    hide ApplyBinary, FoldBinary;
    match e
    case Literal(_) =>
    case Binary(op, l, r) => {
      ConstantFolded(level, f, l);
      ConstantFolded(level, f, r);
      var a, b := Eval(AsCompiled, l, []).value, Eval(AsCompiled, r, []).value;
      assert Eval(AsCompiled, e, []) == ApplyBinary(op, a, b);
      LiteralsFolded(level, op, a, b);
    }
  }

  lemma LiteralsFolded(level: Level, op: BinOp, a: Value, b: Value)
    requires ApplyBinary(op, a, b).Ok? && ((a.Int? && b.Int?) || (a.Bool? && b.Bool?))
    ensures var v := ApplyBinary(op, a, b).value;
            FoldBinary(level, op, Literal(a), Literal(b)) == Literal(v) && (v.Int? || v.Bool?)
  {
    hide TruncDiv, TruncMod;
    if a.Int? && b.Int? {
      WrapsKept(a.i);
    }
  }

  // ---- neutral operands ----

  // Of an operand that does not become a literal, the rules leave this.
  lemma NeutralNumbers(level: Level, f: Facts, e: Expr)
    requires !level.OptNone? && !OptimizedExpr(level, f, e).Literal?
    ensures var e' := OptimizedExpr(level, f, e);
            && OptimizedExpr(level, f, Binary(Add, e, Literal(Int(0)))) == e'
            && OptimizedExpr(level, f, Binary(Add, Literal(Int(0)), e)) == e'
            && OptimizedExpr(level, f, Binary(Sub, e, Literal(Int(0)))) == e'
            && OptimizedExpr(level, f, Binary(Mul, e, Literal(Int(0)))) == Literal(Int(0))
            && OptimizedExpr(level, f, Binary(Mul, Literal(Int(0)), e)) == Literal(Int(0))
            && OptimizedExpr(level, f, Binary(Mul, e, Literal(Int(1)))) == e'
            && OptimizedExpr(level, f, Binary(Mul, Literal(Int(1)), e)) == e'
            && OptimizedExpr(level, f, Binary(Div, e, Literal(Int(1)))) == e'
    ensures var e' := OptimizedExpr(level, f, e);
            level.OptAggressive? ==>
              && OptimizedExpr(level, f, Binary(Mul, e, Literal(Int(2)))) == Binary(Add, e', e')
              && OptimizedExpr(level, f, Binary(Mul, Literal(Int(2)), e)) == Binary(Add, e', e')
  {
    hide OptimizedExpr;
    LiteralBeside(level, f, e);
  }

  lemma NeutralTruths(level: Level, f: Facts, e: Expr)
    requires !level.OptNone? && !OptimizedExpr(level, f, e).Literal?
    ensures var e' := OptimizedExpr(level, f, e);
            && OptimizedExpr(level, f, Binary(And, e, Literal(Bool(true)))) == e'
            && OptimizedExpr(level, f, Binary(And, Literal(Bool(true)), e)) == e'
            && OptimizedExpr(level, f, Binary(And, e, Literal(Bool(false)))) == Literal(Bool(false))
            && OptimizedExpr(level, f, Binary(And, Literal(Bool(false)), e)) == Literal(Bool(false))
            && OptimizedExpr(level, f, Binary(Or, e, Literal(Bool(false)))) == e'
            && OptimizedExpr(level, f, Binary(Or, Literal(Bool(false)), e)) == e'
            && OptimizedExpr(level, f, Binary(Or, e, Literal(Bool(true)))) == Literal(Bool(true))
            && OptimizedExpr(level, f, Binary(Or, Literal(Bool(true)), e)) == Literal(Bool(true))
  {
    hide OptimizedExpr;
    LiteralBeside(level, f, e);
  }

  lemma LiteralBeside(level: Level, f: Facts, e: Expr)
    requires !level.OptNone? && !OptimizedExpr(level, f, e).Literal?
    ensures forall op, v :: OptimizedExpr(level, f, Binary(op, e, Literal(v))) == Simplify(level, op, v, OptimizedExpr(level, f, e), false)
    ensures forall op, v :: OptimizedExpr(level, f, Binary(op, Literal(v), e)) == Simplify(level, op, v, OptimizedExpr(level, f, e), true)
  {
    hide *;
    forall op, v ensures OptimizedExpr(level, f, Binary(op, e, Literal(v))) == Simplify(level, op, v, OptimizedExpr(level, f, e), false)
                 ensures OptimizedExpr(level, f, Binary(op, Literal(v), e)) == Simplify(level, op, v, OptimizedExpr(level, f, e), true)
    {
      OneLiteral(level, f, op, e, v);
    }
  }

  lemma OneLiteral(level: Level, f: Facts, op: BinOp, e: Expr, v: Value)
    requires !level.OptNone? && !OptimizedExpr(level, f, e).Literal?
    ensures var e' := OptimizedExpr(level, f, e);
            && OptimizedExpr(level, f, Binary(op, e, Literal(v))) == Simplify(level, op, v, e', false)
            && OptimizedExpr(level, f, Binary(op, Literal(v), e)) == Simplify(level, op, v, e', true)
  {
    hide Simplify, FoldLiterals, SameOperands;
    assert OptimizedExpr(level, f, Literal(v)) == Literal(v);
  }

  // ---- what is known is used ----

  // A variable set to a literal is replaced by it.
  lemma ConstantUsed(level: Level, f: Facts, x: Str, v: Value)
    requires !level.OptNone?
    ensures var f' := OptimizedAssign(level, f, x, Literal(v)).1;
            OptimizedExpr(level, f', Variable(x)) == Literal(v)
  {
    assert OptimizedExpr(level, f, Literal(v)) == Literal(v);
  }

  // A variable set to another one is replaced by that one, or by what that one is known to be.
  lemma CopyUsed(level: Level, f: Facts, x: Str, y: Str)
    requires !level.OptNone? && x != y && y !in f.copies && y !in f.constants
    ensures var f' := OptimizedAssign(level, f, x, Variable(y)).1;
            OptimizedExpr(level, f', Variable(x)) == Variable(y)
  {
    assert OptimizedExpr(level, f, Variable(y)) == Variable(y);
    var f' := OptimizedAssign(level, f, x, Variable(y)).1;
    assert Root(f'.copies, y, {} + {x}) == y;
  }

  // An expression computed for x and computed again, nothing about its variables having become known in
  // between, is replaced by x.
  lemma ExpressionUsed(f: Facts, g: Facts, x: Str, y: Str, e: Expr)
    requires var v := OptimizedExpr(OptAggressive, f, e);
             && ExprKey(v) != [] && ExprKey(v) !in f.expressions
             && g.expressions == OptimizedAssign(OptAggressive, f, x, e).1.expressions
             && OptimizedExpr(OptAggressive, g, e) == v
    ensures OptimizedAssign(OptAggressive, g, y, e).0 == Variable(x)
  {
    hide OptimizedExpr;
    KeyOfBinaryOnly(OptimizedExpr(OptAggressive, f, e));
  }

  lemma KeyOfBinaryOnly(e: Expr)
    ensures ExprKey(e) != [] ==> e.Binary?
  {
  }

  // ---- dead code ----

  // Outside switches, no branch of an if is decided by a literal.
  predicate Undecided(s: Stmt)
    decreases s, 0
  {
    match s
    case If(c, t, e) => !(c.Literal? && c.value.Bool?) && UndecidedBlock(t) && UndecidedBlock(e)
    case While(_, body) => UndecidedBlock(body)
    case _ => true
  }

  predicate UndecidedBlock(stmts: seq<Stmt>)
    decreases stmts, 0
  {
    stmts == [] || (Undecided(stmts[0]) && UndecidedBlock(stmts[1..]))
  }

  lemma {:induction false} UndecidedAppend(a: seq<Stmt>, b: seq<Stmt>)
    ensures UndecidedBlock(a + b) <==> UndecidedBlock(a) && UndecidedBlock(b)
    decreases |a|
  {
    if a == [] {
      assert a + b == b;
    } else {
      assert (a + b)[1..] == a[1..] + b;
      UndecidedAppend(a[1..], b);
    }
  }

  lemma UndecidedOne(s: Stmt)
    ensures UndecidedBlock([s]) <==> Undecided(s)
  {
    assert [s][1..] == [];
  }

  lemma {:induction false} StmtUndecided(level: Level, f: Facts, s: Stmt)
    requires !level.OptNone?
    ensures UndecidedBlock(OptimizedStmt(level, f, s).0)
    decreases Weight(s), 0
  {
    hide OptimizedExpr, OptimizedAssign, OptimizedBlock, UndecidedBlock;
    var out := OptimizedStmt(level, f, s).0;
    if |out| == 1 {
      UndecidedOne(out[0]);
    }
    match s
    case If(c, t, e) =>
      BlockUndecided(level, f, t);
      BlockUndecided(level, f, e);
      BlockUndecided(level, OptimizedBlock(level, f, t).1, e);
    case While(_, _) => LoopUndecided(level, f, s);
    case _ =>
  }

  lemma {:induction false} LoopUndecided(level: Level, f: Facts, s: Stmt)
    requires !level.OptNone? && s.While?
    ensures UndecidedBlock(OptimizedStmt(level, f, s).0)
    decreases Weight(s), 0, 0
  {
    hide OptimizedExpr, OptimizedBlock, OptimizedStmt, UndecidedBlock, Parts, ModifiedBlock;
    LoopShape(level, f, s);
    HoistedWeight(level, s);
    var (out, rest) := Parts(level, s);
    var f0 := Forget(f, ModifiedBlock(s.body));
    var (out', f1) := OptimizedBlock(level, f0, out);
    BlockUndecided(level, f0, out);
    BlockUndecided(level, f1, rest);
    var loop := While(OptimizedExpr(level, f1, s.cond), OptimizedBlock(level, f1, rest).0);
    UndecidedOne(loop);
    UndecidedAppend(out', [loop]);
  }

  // Of every program: no if is left that could have been decided.
  lemma {:induction false} BlockUndecided(level: Level, f: Facts, stmts: seq<Stmt>)
    requires !level.OptNone?
    ensures UndecidedBlock(OptimizedBlock(level, f, stmts).0)
    decreases WeightBlock(stmts), 1
  {
    hide OptimizedStmt;
    if stmts != [] {
      var (first, f1) := OptimizedStmt(level, f, stmts[0]);
      StmtUndecided(level, f, stmts[0]);
      BlockUndecided(level, f1, stmts[1..]);
      UndecidedAppend(first, OptimizedBlock(level, f1, stmts[1..]).0);
    }
  }

  // What stands behind a return makes no difference to the rewritten block, nor to what is known.
  lemma {:induction false} BehindReturn(level: Level, f: Facts, front: seq<Stmt>, e: Expr, behind: seq<Stmt>)
    requires !level.OptNone?
    ensures OptimizedBlock(level, f, front + [Return(e)] + behind) == OptimizedBlock(level, f, front + [Return(e)])
    decreases |front|
  {
    hide OptimizedStmt;
    var whole, short := front + [Return(e)] + behind, front + [Return(e)];
    if front == [] {
      assert whole[0] == short[0] == Return(e);
    } else {
      assert whole[1..] == front[1..] + [Return(e)] + behind && short[1..] == front[1..] + [Return(e)];
      BehindReturn(level, OptimizedStmt(level, f, front[0]).1, front[1..], e, behind);
    }
  }

  // ---- what moves ----

  // In front of a loop go exactly the declarations in its body whose values use nothing the loop sets and
  // whose names its condition does not use.
  predicate Invariant(s: Stmt, t: Stmt)
    requires s.While?
  {
    t.Assign? && (forall x | x in Used(t.value) :: x !in ModifiedBlock(s.body)) && t.target !in Used(s.cond)
  }

  lemma {:induction false} Divided(s: Stmt, body: seq<Stmt>, t: Stmt)
    requires s.While?
    ensures var (out, rest) := Hoisted(body, ModifiedBlock(s.body), Used(s.cond));
            && (t in out <==> t in body && Invariant(s, t)) && (t in rest <==> t in body && !Invariant(s, t))
            && |out| + |rest| == |body|
    decreases |body|
  {
    hide ModifiedBlock, Used;
    if body != [] {
      Divided(s, body[1..], t);
      assert t in body <==> t == body[0] || t in body[1..];
    }
  }

  lemma MovedExactly(s: Stmt, t: Stmt)
    requires s.While?
    ensures t in MovedOut(s) <==> t in s.body && Invariant(s, t)
    ensures t in Remaining(s) <==> t in s.body && !Invariant(s, t)
    ensures |MovedOut(s)| + |Remaining(s)| == |s.body|
  {
    hide *;
    Divided(s, s.body, t);
    MovedIs(s);
  }

  lemma MovedIs(s: Stmt)
    requires s.While?
    ensures Hoisted(s.body, ModifiedBlock(s.body), Used(s.cond)) == (MovedOut(s), Remaining(s))
  {
  }
}
