/** Programs the compiler accepts as they are written and rejects once the optimizer has rewritten them. */
module Redeclarations {
  import opened Bytes
  import opened Lang
  import opened Interpreter
  import opened CodeGen
  import opened Folding
  import opened Rewriting
  import opened Frames
  import opened Safety
  import opened Preservation
  import opened Acceptance
  import opened Splicing
  import opened Theorems
  import opened Readings
  import opened OptimizedUnits

  // ---- a spliced branch ----

  // if true { x = v };  x = w;  return x
  function DeclaredTwice(x: Str, v: Value, w: Value): Unit {
    Unit([], [], [If(Literal(Bool(true)), [Assign(x, Literal(v))], []), Assign(x, Literal(w)), Return(Variable(x))], false)
  }

  // Whatever the values: as it is written it compiles, and returns w in the interpreter; rewritten, safe
  // as the rewriting is, it is rejected.
  lemma SplicedRedeclared(x: Str, v: Value, w: Value, limit: nat)
    requires PlainName(x)
    ensures var u := DeclaredTwice(x, v, w);
            && EmitUnit(u).Ok? && SafeUnit(u) && Interpreted(u, map[], limit) == Returned(w)
            && EmitUnit(OptimizedUnit(u)) == Err(Redeclared(x))
  {
    hide EmitUnit, PlainName;
    var u := DeclaredTwice(x, v, w);
    var n := Names({}, {});
    assert Entry(u) == n;
    DeclaredTwicePlain(x, v, w);
    UnitRejected(u);
    TwiceAccepted(x, v, w);
    TwiceSafe(x, v, w);
    TwiceReturns(x, v, w, limit);
    UnitRejected(OptimizedUnit(u));
    TwiceRewritten(x, v, w);
  }

  lemma DeclaredTwicePlain(x: Str, v: Value, w: Value)
    requires PlainName(x)
    ensures PlainBlock(DeclaredTwice(x, v, w).body) && PlainBlock(OptimizedUnit(DeclaredTwice(x, v, w)).body)
  {
    hide OptimizedBlock, IsTemp;
    var body := DeclaredTwice(x, v, w).body;
    assert body[1..] == [body[1], body[2]] && body[1..][1..] == [body[2]] && body[1..][1..][1..] == [];
    var once := [Assign(x, Literal(v))];
    assert once[1..] == [] && PlainStmt(once[0]);
    LiteralPlain(Bool(true));
    assert PlainBlock(once) && PlainBlock([]);
    assert body[0] == If(Literal(Bool(true)), once, []) && PlainStmt(body[0]);
    assert PlainStmt(body[1]) && PlainStmt(body[2]);
    assert PlainBlock([body[2]]) && PlainBlock(body[1..]) && PlainBlock(body);
    NothingCopied({});
    BlockPlain(NOTHING_KNOWN, body);
  }

  lemma LiteralPlain(v: Value)
    ensures PlainExpr(Literal(v))
  {
  }

  lemma TwiceAccepted(x: Str, v: Value, w: Value)
    ensures RejectedBlock(Names({}, {}), false, DeclaredTwice(x, v, w).body) == None
  {
    var body := DeclaredTwice(x, v, w).body;
    var n := Names({}, {});
    var once := [Assign(x, Literal(v))];
    assert once[1..] == [] && RejectedBlock(Inner(n), false, once) == None;
    assert Rejected(n, false, body[0]) == None && Declared(n, body[0]) == n;
    assert body[1..] == [body[1], body[2]] && body[1..][1..] == [body[2]] && body[1..][1..][1..] == [];
    var n1 := Declared(n, body[1]);
    assert RejectedBlock(n1, false, [body[2]]) == None;
    assert RejectedBlock(n, false, body[1..]) == None;
  }

  lemma TwiceSafe(x: Str, v: Value, w: Value)
    ensures SafeBlock(OptBasic, NOTHING_KNOWN, {}, DeclaredTwice(x, v, w).body)
    ensures var body := DeclaredTwice(x, v, w).body;
            OptimizedStmt(OptBasic, NOTHING_KNOWN, body[0]) == ([Assign(x, Literal(v))], Facts(map[x := v], map[], map[]))
  {
    var body := DeclaredTwice(x, v, w).body;
    var once := [Assign(x, Literal(v))];
    var f1 := Facts(map[x := v], map[], map[]);
    assert once[1..] == [];
    assert OptimizedStmt(OptBasic, NOTHING_KNOWN, once[0]) == (once, f1);
    assert OptimizedBlock(OptBasic, f1, []) == ([], f1) && once + [] == once;
    assert OptimizedBlock(OptBasic, NOTHING_KNOWN, once) == (once, f1);
    assert SafeBlock(OptBasic, f1, {} + Opened(OptBasic, NOTHING_KNOWN, once[0]), once[1..]);
    assert SafeBlock(OptBasic, NOTHING_KNOWN, {}, once);
    assert Safe(OptBasic, NOTHING_KNOWN, {}, body[0]);
    assert body[1..] == [body[1], body[2]] && body[1..][1..] == [body[2]];
    var f2 := OptimizedStmt(OptBasic, f1, body[1]).1;
    assert SafeBlock(OptBasic, f2, {x}, [body[2]]);
    assert SafeBlock(OptBasic, f1, {x}, body[1..]);
    assert AssignedBlock(once) == {x} && Opened(OptBasic, NOTHING_KNOWN, body[0]) == {x} && {} + {x} == {x};
  }

  lemma TwiceReturns(x: Str, v: Value, w: Value, limit: nat)
    ensures Interpreted(DeclaredTwice(x, v, w), map[], limit) == Returned(w)
  {
    var body := DeclaredTwice(x, v, w).body;
    var env := Initially(map[]);
    var once := [Assign(x, Literal(v))];
    assert Eval(AsWritten, Literal(v), env + [map[]]) == Ok(v);
    assert ExecBlock(AsWritten, limit, once, env + [map[]]) == Exec(AsWritten, limit, once[0], env + [map[]]);
    assert !Has(env + [map[]], x) by {
      HasLevel(env + [map[]], x);
    }
    assert Pop(AssignVar(env + [map[]], x, v)) == env;
    assert Eval(AsWritten, Literal(Bool(true)), env) == Ok(Bool(true));
    assert Exec(AsWritten, limit, body[0], env) == Normal(env, v);
    assert body[1..] == [body[1], body[2]] && body[1..][1..] == [body[2]];
    assert Eval(AsWritten, Literal(w), env) == Ok(w);
    var env1 := AssignVar(env, x, w);
    AssignGet(env, x, w, x);
    assert Eval(AsWritten, Variable(x), env1) == Ok(w);
    assert ExecBlock(AsWritten, limit, [body[2]], env1) == Returned(w);
    assert ExecBlock(AsWritten, limit, body[1..], env) == Returned(w);
  }

  lemma TwiceRewritten(x: Str, v: Value, w: Value)
    ensures RejectedBlock(Names({}, {}), false, OptimizedUnit(DeclaredTwice(x, v, w)).body) == Some(Redeclared(x))
  {
    var body := DeclaredTwice(x, v, w).body;
    TwiceSafe(x, v, w);
    var f1 := Facts(map[x := v], map[], map[]);
    var first, second := [Assign(x, Literal(v))], [Assign(x, Literal(w))];
    assert body[1..][0] == body[1];
    assert OptimizedStmt(OptBasic, f1, body[1]).0 == second;
    var rest := OptimizedBlock(OptBasic, OptimizedStmt(OptBasic, f1, body[1]).1, body[1..][1..]).0;
    assert OptimizedBlock(OptBasic, f1, body[1..]).0 == second + rest;
    var n := Names({}, {});
    RejectedOne(n, false, first[0]);
    RejectedOne(Names({x}, {x}), false, second[0]);
    RejectedAppend(Names({x}, {x}), false, second, rest);
    RejectedAppend(n, false, first, second + rest);
  }

  // ---- hoisted loops ----

  // while false { x = v }
  function Never(x: Str, v: Value): Stmt {
    While(Literal(Bool(false)), [Assign(x, Literal(v))])
  }

  // Hoisting puts the loop's own variable into the scope around it.
  lemma NeverMoved(f: Facts, x: Str, v: Value) returns (e: Expr)
    ensures var (out, f1) := OptimizedStmt(OptAggressive, f, Never(x, v));
            && out == [Assign(x, e)] + [While(Literal(Bool(false)), [])]
            && f1.expressions.Values <= f.expressions.Values + {x}
    ensures e == Literal(v) || (e.Variable? && e.name in f.expressions.Values)
  {
    hide ExprKeys.ExprKey;
    var put := Assign(x, Literal(v));
    var body := [put];
    assert body[1..] == [] && Hoistable(put, {x}, {});
    assert Hoisted([], {x}, {}) == ([], []);
    assert ModifiedBlock(body) == {x} && Hoisted(body, {x}, Used(Literal(Bool(false)))) == (body, []) by {
      assert [put] + [] == [put];
    }
    var f0 := Forget(f, {x});
    var (e', f1) := OptimizedAssign(OptAggressive, f0, x, Literal(v));
    e := e';
    assert OptimizedBlock(OptAggressive, f1, []) == ([], f1) && [Assign(x, e)] + [] == [Assign(x, e)];
    assert OptimizedBlock(OptAggressive, f0, body) == ([Assign(x, e)], f1);
  }

  // Two loops, each with a variable of its own: accepted as written, rejected once both are hoisted.
  lemma HoistedRedeclared(x: Str, v: Value, w: Value)
    requires PlainName(x)
    ensures var u := Unit([], [], [Never(x, v), Never(x, w)], false);
            && EmitUnit(u).Ok?
            && EmitUnit(u.(body := OptimizedBlock(OptAggressive, NOTHING_KNOWN, u.body).0)) == Err(Redeclared(x))
  {
    hide EmitUnit, PlainName, OptimizedStmt, PlainBlock, RejectedBlock;
    var u := Unit([], [], [Never(x, v), Never(x, w)], false);
    var n := Names({}, {});
    assert Entry(u) == n;
    var f1 := OptimizedStmt(OptAggressive, NOTHING_KNOWN, u.body[0]).1;
    var e1 := NeverMoved(NOTHING_KNOWN, x, v);
    var e2 := NeverMoved(f1, x, w);
    assert u.body[1..] == [u.body[1]] && u.body[1..][1..] == [];
    var idle := While(Literal(Bool(false)), []);
    var first, second := [Assign(x, e1)] + [idle], [Assign(x, e2)] + [idle];
    assert OptimizedBlock(OptAggressive, f1, u.body[1..]).0 == second + [];
    assert second + [] == second;
    assert OptimizedBlock(OptAggressive, NOTHING_KNOWN, u.body).0 == first + second;
    NeverAccepted(x, v, w);
    UnitRejected(u);
    MovedRejected(x, e1, e2);
    UnitRejected(u.(body := first + second));
  }

  lemma NeverAccepted(x: Str, v: Value, w: Value)
    requires PlainName(x)
    ensures var body := [Never(x, v), Never(x, w)];
            PlainBlock(body) && RejectedBlock(Names({}, {}), false, body) == None
  {
    hide PlainName;
    var body := [Never(x, v), Never(x, w)];
    var n := Names({}, {});
    forall c: Value ensures PlainStmt(Never(x, c)) && Rejected(n, false, Never(x, c)) == None {
      LiteralPlain(c);
      LiteralPlain(Bool(false));
      var inner := [Assign(x, Literal(c))];
      assert inner[1..] == [] && PlainStmt(inner[0]) && PlainBlock(inner);
      RejectedOne(Inner(n), true, inner[0]);
      UnknownUsed({}, Literal(Bool(false)));
      assert Never(x, c).cond == Literal(Bool(false));
    }
    assert body[1..] == [Never(x, w)] && body[1..][1..] == [];
    assert PlainBlock(body[1..]);
    assert Declared(n, body[0]) == n;
    RejectedOne(n, false, body[1]);
  }

  lemma MovedRejected(x: Str, e1: Expr, e2: Expr)
    requires PlainName(x) && e1.Literal? && (e2.Literal? || e2 == Variable(x))
    ensures var idle := While(Literal(Bool(false)), []);
            var whole := [Assign(x, e1)] + [idle] + ([Assign(x, e2)] + [idle]);
            PlainBlock(whole) && RejectedBlock(Names({}, {}), false, whole) == Some(Redeclared(x))
  {
    hide PlainName;
    var idle := While(Literal(Bool(false)), []);
    var n, n1 := Names({}, {}), Names({x}, {x});
    LiteralPlain(Bool(false));
    assert PlainStmt(idle) && PlainStmt(Assign(x, e1)) && PlainStmt(Assign(x, e2));
    forall s | PlainStmt(s) ensures PlainBlock([s]) {
      assert [s][1..] == [];
    }
    PlainAppend([Assign(x, e1)], [idle]);
    PlainAppend([Assign(x, e2)], [idle]);
    PlainAppend([Assign(x, e1)] + [idle], [Assign(x, e2)] + [idle]);
    UnknownUsed({}, e1);
    UnknownUsed({x}, Literal(Bool(false)));
    RejectedOne(n, false, Assign(x, e1));
    RejectedOne(n1, false, idle);
    RejectedOne(n1, false, Assign(x, e2));
    RejectedAppend(n, false, [Assign(x, e1)], [idle]);
    RejectedAppend(n1, false, [Assign(x, e2)], [idle]);
    RejectedAppend(n, false, [Assign(x, e1)] + [idle], [Assign(x, e2)] + [idle]);
  }
}
