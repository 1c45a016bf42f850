/** Aggressive optimization of straight-line code: an expression computed before is not computed again. */
module Reuse {
  import opened Bytes
  import opened Lang
  import opened Interpreter
  import opened Folding
  import opened ExprKeys
  import opened Rewriting
  import opened Frames
  import opened Safety
  import opened Preservation

  // No control flow, every target new, no string literals.
  ghost predicate Straight(scope: set<Str>, stmts: seq<Stmt>)
    decreases |stmts|
  {
    stmts == [] ||
    match stmts[0]
    case Assign(x, e) => x !in scope && Keyable(e) && Word(x) && Straight(scope + {x}, stmts[1..])
    case Return(e) => Keyable(e)
    case ExprStmt(_) => Straight(scope, stmts[1..])
    case Validation(_) => Straight(scope, stmts[1..])
    case _ => false
  }

  // Every expression with names for variables and no strings that is remembered.
  ghost function Memory(f: Facts): iset<Expr> {
    iset e: Expr | Keyable(e) && ExprKey(e) != [] && ExprKey(e) in f.expressions
  }

  // They all still have the value of the variable remembered for them.
  ghost predicate Tracked(reading: Reading, f: Facts, env: Env) {
    Recalls(reading, f, Memory(f), env)
  }

  // Facts speak of words and of values that are no strings.
  ghost predicate KeyableFacts(f: Facts) {
    && (forall x | x in f.constants :: !f.constants[x].Text?)
    && (forall x | x in f.copies :: Word(f.copies[x]))
    && (forall k | k in f.expressions :: Word(f.expressions[k]))
  }

  lemma {:induction false} RootWord(copies: map<Str, Str>, x: Str, visited: set<Str>)
    requires Word(x) && forall y | y in copies :: Word(copies[y])
    ensures Word(Root(copies, x, visited))
    decreases |copies.Keys - visited|
  {
    if x !in visited && x in copies {
      assert copies.Keys - (visited + {x}) == (copies.Keys - visited) - {x};
      RootWord(copies, copies[x], visited + {x});
    }
  }

  lemma {:induction false} FoldedKeyable(level: Level, f: Facts, e: Expr)
    requires KeyableFacts(f) && Keyable(e)
    ensures Keyable(OptimizedExpr(level, f, e))
    decreases e
  {
    hide Word;
    match e
    case Variable(x) => RootWord(f.copies, x, {});
    case Binary(op, l, r) =>
      FoldedKeyable(level, f, l);
      FoldedKeyable(level, f, r);
      if !level.OptNone? {
        FoldKeyable(level, op, OptimizedExpr(level, f, l), OptimizedExpr(level, f, r));
      }
    case Unary(_, _) =>
    case Literal(_) =>
  }

  lemma FoldKeyable(level: Level, op: BinOp, l: Expr, r: Expr)
    requires Keyable(l) && Keyable(r)
    ensures Keyable(FoldBinary(level, op, l, r))
  {
    hide Word;
  }

  lemma FreshSeen(env: Env, x: Str, v: Value)
    requires env != [] && !Has(env, x)
    ensures SeenIn(env, AssignVar(env, x, v))
  {
    forall y | Has(env, y) ensures Has(AssignVar(env, x, v), y) && Get(AssignVar(env, x, v), y) == Get(env, y) {
      AssignGet(env, x, v, y);
    }
  }

  // A new variable falsifies nothing that is known.
  lemma HoldsExtended(f: Facts, env: Env, env1: Env, x: Str)
    requires Holds(f, env) && SeenIn(env, env1) && forall y | Has(env1, y) && y != x :: Has(env, y)
    ensures HoldsExcept(f, env1, {x})
  {
    forall y | Has(env1, y) && y != x ensures FactHolds(f, y, env1) {
      assert FactHolds(f, y, env);
    }
  }

  // x is new and has y's value.
  lemma CopyKnown(reading: Reading, f: Facts, x: Str, y: Str, env: Env, v: Value)
    requires env != [] && !Has(env, x) && Word(y) && KeyableFacts(f)
    requires Holds(f, env) && Tracked(reading, f, env) && Get(env, y) == Ok(v)
    ensures var f' := f.(copies := f.copies[x := y], constants := f.constants - {x});
            var env1 := AssignVar(env, x, v);
            Holds(f', env1) && Tracked(reading, f', env1) && KeyableFacts(f')
  {
    hide AssignVar, Get, Keyable, ExprKey, Word, Tracked, SeenIn;
    var f' := f.(copies := f.copies[x := y], constants := f.constants - {x});
    var env1 := AssignVar(env, x, v);
    NewVariable(env, x, v);
    HoldsExtended(f, env, env1, x);
    HasGets(env, y);
    AssignGet(env, x, v, y);
    AssignGet(env, x, v, x);
    forall z | Has(env1, z) ensures FactHolds(f', z, env1) {
      if z != x {
        assert FactHolds(f, z, env1);
      }
    }
    TrackedExtended(reading, f, f', env, env1);
  }

  lemma NewVariable(env: Env, x: Str, v: Value)
    requires env != [] && !Has(env, x)
    ensures SeenIn(env, AssignVar(env, x, v)) && forall y | Has(AssignVar(env, x, v), y) && y != x :: Has(env, y)
  {
    FreshSeen(env, x, v);
    forall y | Has(AssignVar(env, x, v), y) && y != x ensures Has(env, y) {
      AssignGet(env, x, v, y);
    }
  }

  lemma TrackedExtended(reading: Reading, f: Facts, f': Facts, env: Env, env1: Env)
    requires Tracked(reading, f, env) && SeenIn(env, env1) && f'.expressions == f.expressions
    ensures Tracked(reading, f', env1)
  {
    hide Keyable, ExprKey;
    forall e: Expr | Keyable(e) && ExprKey(e) != [] && ExprKey(e) in f.expressions
      ensures Has(env1, f.expressions[ExprKey(e)]) && Eval(reading, e, env1) == Get(env1, f.expressions[ExprKey(e)])
    {
      HasGets(env, f.expressions[ExprKey(e)]);
      EvalSeen(reading, e, env, env1);
    }
  }

  // x is new and has w's value, which no variable has yet.
  lemma ValueKnown(reading: Reading, f: Facts, x: Str, w: Expr, env: Env, v: Value)
    requires env != [] && !Has(env, x) && Keyable(w) && Word(x) && KeyableFacts(f)
    requires Holds(f, env) && Tracked(reading, f, env) && Eval(reading, w, env) == Ok(v)
    ensures var f' := Facts(if w.Literal? then f.constants[x := w.value] else f.constants - {x},
                            f.copies - {x},
                            if ExprKey(w) != [] then f.expressions[ExprKey(w) := x] else f.expressions);
            var env1 := AssignVar(env, x, v);
            Holds(f', env1) && Tracked(reading, f', env1) && KeyableFacts(f')
  {
    hide AssignVar, Get, ExprKey, Word, Tracked, SeenIn;
    var f' := Facts(if w.Literal? then f.constants[x := w.value] else f.constants - {x},
                    f.copies - {x},
                    if ExprKey(w) != [] then f.expressions[ExprKey(w) := x] else f.expressions);
    var env1 := AssignVar(env, x, v);
    NewVariable(env, x, v);
    HoldsExtended(f, env, env1, x);
    AssignGet(env, x, v, x);
    forall z | Has(env1, z) ensures FactHolds(f', z, env1) {
      if z != x {
        assert FactHolds(f, z, env1);
      }
    }
    if ExprKey(w) == [] {
      TrackedExtended(reading, f, f', env, env1);
    } else {
      TrackedNew(reading, f, f', w, x, env, env1);
    }
  }

  lemma TrackedNew(reading: Reading, f: Facts, f': Facts, w: Expr, x: Str, env: Env, env1: Env)
    requires Tracked(reading, f, env) && SeenIn(env, env1) && Keyable(w) && ExprKey(w) != []
    requires f'.expressions == f.expressions[ExprKey(w) := x]
    requires Has(env1, x) && Eval(reading, w, env).Ok? && Get(env1, x) == Eval(reading, w, env)
    ensures Tracked(reading, f', env1)
  {
    hide Keyable, ExprKey;
    forall e: Expr | Keyable(e) && ExprKey(e) != [] && ExprKey(e) in f'.expressions
      ensures Has(env1, f'.expressions[ExprKey(e)]) && Eval(reading, e, env1) == Get(env1, f'.expressions[ExprKey(e)])
    {
      if ExprKey(e) == ExprKey(w) {
        KeyInjective(e, w);
        EvalSeen(reading, w, env, env1);
      } else {
        HasGets(env, f.expressions[ExprKey(e)]);
        EvalSeen(reading, e, env, env1);
      }
    }
  }

  // The rewritten assignment to a new variable: same value, and everything known afterwards is true.
  lemma ReuseKeeps(reading: Reading, f: Facts, x: Str, e: Expr, env: Env, v: Value)
    requires env != [] && !Has(env, x) && Keyable(e) && Word(x) && KeyableFacts(f)
    requires Holds(f, env) && Tracked(reading, f, env) && Eval(reading, e, env) == Ok(v)
    ensures var (e', f') := OptimizedAssign(OptAggressive, f, x, e);
            && Eval(reading, e', env) == Ok(v)
            && Holds(f', AssignVar(env, x, v)) && Tracked(reading, f', AssignVar(env, x, v)) && KeyableFacts(f')
  {
    hide OptimizedExpr, AssignVar, Has, Get, ExprKey, Word, Holds, KeyableFacts, SeenIn;
    var w := OptimizedExpr(OptAggressive, f, e);
    ExprRefined(reading, OptAggressive, f, e, env);
    FoldedKeyable(OptAggressive, f, e);
    var key := ExprKey(w);
    if w.Variable? {
      CopyKnown(reading, f, x, w.name, env, v);
    } else if key != [] && key in f.expressions {
      assert Eval(reading, w, env) == Get(env, f.expressions[key]);
      TrackedWord(f, key);
      CopyKnown(reading, f, x, f.expressions[key], env, v);
    } else {
      ValueKnown(reading, f, x, w, env, v);
    }
  }

  lemma TrackedWord(f: Facts, key: Str)
    requires KeyableFacts(f) && key in f.expressions
    ensures Word(f.expressions[key])
  {
  }

  // Straight-line code that sets every variable once keeps its meaning under aggressive
  // optimization: what it returns and every variable it leaves.
  lemma {:induction false} StraightPreserved(reading: Reading, limit: nat, f: Facts, scope: set<Str>, stmts: seq<Stmt>, env: Env, env': Env)
    requires Straight(scope, stmts) && env != [] && env' != [] && SeenIn(env, env') && InScope(env', scope)
    requires KeyableFacts(f) && Holds(f, env') && Tracked(reading, f, env')
    ensures Refined(ExecBlock(reading, limit, stmts, env),
                    ExecBlock(reading, limit, OptimizedBlock(OptAggressive, f, stmts).0, env'))
    decreases |stmts|
  {
    hide OptimizedStmt, Exec, SeenIn, InScope, Holds, Tracked, KeyableFacts, Keyable, Word;
    if stmts != [] {
      var s := stmts[0];
      var (first, f1) := OptimizedStmt(OptAggressive, f, s);
      var (rest, _) := OptimizedBlock(OptAggressive, f1, stmts[1..]);
      StepPreserved(reading, limit, f, scope, s, env, env');
      BlockAppend(reading, limit, first, rest, env');
      var o := Exec(reading, limit, s, env);
      if s.Return? {
        ReturnNotNormal(reading, limit, s, env);
      } else if o.Normal? && |stmts| > 1 {
        var scope' := if s.Assign? then scope + {s.target} else scope;
        StraightPreserved(reading, limit, f1, scope', stmts[1..], o.env, ExecBlock(reading, limit, first, env').env);
      } else if o.Normal? {
        assert stmts[1..] == [];
      }
    }
  }

  lemma StepPreserved(reading: Reading, limit: nat, f: Facts, scope: set<Str>, s: Stmt, env: Env, env': Env)
    requires Straight(scope, [s]) && env != [] && env' != [] && SeenIn(env, env') && InScope(env', scope)
    requires KeyableFacts(f) && Holds(f, env') && Tracked(reading, f, env')
    ensures var o := Exec(reading, limit, s, env);
            var o' := ExecBlock(reading, limit, OptimizedStmt(OptAggressive, f, s).0, env');
            var f' := OptimizedStmt(OptAggressive, f, s).1;
            && Refined(o, o')
            && (o.Normal? ==> InScope(o'.env, if s.Assign? then scope + {s.target} else scope)
                              && KeyableFacts(f') && Holds(f', o'.env) && Tracked(reading, f', o'.env))
  {
    hide OptimizedExpr, OptimizedAssign, Eval, SeenIn, Holds, Tracked, AssignVar, Has, KeyableFacts, Keyable, Word, ExecBlock;
    var out := OptimizedStmt(OptAggressive, f, s).0;
    assert out == [out[0]];
    BlockOfOne(reading, limit, out[0], env');
    match s
    case Assign(x, e) =>
      EvalNoLimit(reading, e, env);
      if Eval(reading, e, env).Ok? {
        var v := Eval(reading, e, env).value;
        EvalSeen(reading, e, env, env');
        ReuseKeeps(reading, f, x, e, env', v);
        AssignSeen(env, env', x, v);
        NewVariable(env', x, v);
      }
    case Return(e) =>
      EvalNoLimit(reading, e, env);
      if Eval(reading, e, env).Ok? {
        EvalSeen(reading, e, env, env');
        ExprRefined(reading, OptAggressive, f, e, env');
      }
    case ExprStmt(e) =>
      EvalNoLimit(reading, e, env);
      if Eval(reading, e, env).Ok? {
        EvalSeen(reading, e, env, env');
      }
    case Validation(test) =>
      if Eval(reading, test, env).Ok? {
        EvalSeen(reading, test, env, env');
      }
  }

  // The same, from a fresh optimizer.
  lemma StraightUnit(reading: Reading, limit: nat, stmts: seq<Stmt>, env: Env, scope: set<Str>)
    requires env != [] && InScope(env, scope) && Straight(scope, stmts)
    ensures Refined(ExecBlock(reading, limit, stmts, env),
                    ExecBlock(reading, limit, OptimizedBlock(OptAggressive, NOTHING_KNOWN, stmts).0, env))
  {
    hide ExecBlock, OptimizedBlock, Straight;
    StraightPreserved(reading, limit, NOTHING_KNOWN, scope, stmts, env, env);
  }
}
