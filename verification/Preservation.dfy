/** That the optimizer's rewriting of statements keeps their meaning, at either level, under the
  * conditions of module Safety. */
module Preservation {
  import opened Bytes
  import opened Lang
  import opened Interpreter
  import opened Folding
  import opened ExprKeys
  import opened Rewriting
  import opened Frames
  import opened Hoisting
  import opened Safety

  // ---- facts along a run ----

  ghost predicate HoldsExcept(f: Facts, env: Env, names: set<Str>) {
    forall x | Has(env, x) && x !in names :: FactHolds(f, x, env)
  }

  // The rewritten run against the original: the same returned value or way out, with every variable in
  // scope, and no end within the loop limit if the original had none. Folding may remove other errors,
  // and a normal end may have another result.
  ghost predicate Refined(o: Outcome, o': Outcome) {
    match o
    case Failed(e) => e == LoopLimitExceeded ==> o' == o
    case Returned(v) => o' == Returned(v)
    case Normal(e, _) => o'.Normal? && SeenIn(e, o'.env)
    case Broke(e) => o'.Broke? && SeenIn(e, o'.env)
    case Continued(e) => o'.Continued? && SeenIn(e, o'.env)
  }

  // That, and what is known: after a normal end the facts hold; after a jump out, those about variables
  // the statements cannot have learned anything about.
  ghost predicate Preserved(o: Outcome, o': Outcome, f: Facts, modified: set<Str>) {
    match o
    case Failed(e) => e == LoopLimitExceeded ==> o' == o
    case Returned(v) => o' == Returned(v)
    case Normal(e, _) => o'.Normal? && SeenIn(e, o'.env) && Holds(f, o'.env)
    case Broke(e) => o'.Broke? && SeenIn(e, o'.env) && HoldsExcept(f, o'.env, modified)
    case Continued(e) => o'.Continued? && SeenIn(e, o'.env) && HoldsExcept(f, o'.env, modified)
  }

  // ---- assignments ----

  // The rewritten assignment stores the same value, the new facts hold, and what is remembered is right.
  lemma AssignKeeps(reading: Reading, level: Level, f: Facts, trusted: iset<Expr>, scope: set<Str>, x: Str, e: Expr, env: Env,
                    v: Value)
    requires env != [] && Holds(f, env) && InScope(env, scope) && NotCopied(f, scope, x)
    requires Recalls(reading, f, trusted, env) && FreshAssign(level, f, trusted, e) && Eval(reading, e, env) == Ok(v)
    ensures var (e', f') := OptimizedAssign(level, f, x, e);
            && Eval(reading, e', env) == Ok(v) && Holds(f', AssignVar(env, x, v))
            && Recalls(reading, f', TrustedAssign(level, f, trusted, x, e), AssignVar(env, x, v))
  {
    hide OptimizedExpr, AssignVar, Holds, Recalls, FreshAssign, ExprKey, InScope, NotCopied, Has, Get;
    var w := OptimizedExpr(level, f, e);
    ExprRefined(reading, level, f, e, env);
    var key := if level.OptAggressive? then ExprKey(w) else [];
    if !w.Variable? && key != [] && key in f.expressions {
      ReusedValue(reading, f, trusted, w, env);
      ReuseTrusted(level, f, trusted, e);
      CopyHolds(f, scope, x, f.expressions[key], env, v);
    } else if w.Variable? {
      VariableValue(reading, w.name, env);
      CopyHolds(f, scope, x, w.name, env, v);
    } else {
      ValueHolds(reading, f, scope, x, w, key, env, v);
    }
    TrustedStays(reading, level, f, trusted, x, e, env, v);
  }

  lemma VariableValue(reading: Reading, y: Str, env: Env)
    ensures Eval(reading, Variable(y), env) == Get(env, y)
  {
  }

  lemma ReuseTrusted(level: Level, f: Facts, trusted: iset<Expr>, e: Expr)
    requires FreshAssign(level, f, trusted, e)
    ensures var w := OptimizedExpr(level, f, e);
            level.OptAggressive? && ExprKey(w) != [] && ExprKey(w) in f.expressions ==> w in trusted
  {
  }

  lemma ReusedValue(reading: Reading, f: Facts, trusted: iset<Expr>, w: Expr, env: Env)
    requires Recalls(reading, f, trusted, env)
    ensures w in trusted ==>
              ExprKey(w) in f.expressions && Eval(reading, w, env) == Get(env, f.expressions[ExprKey(w)])
  {
  }

  // x is set to y's value.
  lemma CopyHolds(f: Facts, scope: set<Str>, x: Str, y: Str, env: Env, v: Value)
    requires env != [] && Holds(f, env) && InScope(env, scope) && NotCopied(f, scope, x) && Get(env, y) == Ok(v)
    ensures Holds(f.(copies := f.copies[x := y], constants := f.constants - {x}), AssignVar(env, x, v))
  {
    var f' := f.(copies := f.copies[x := y], constants := f.constants - {x});
    var env1 := AssignVar(env, x, v);
    HasGets(env, y);
    AssignGet(env, x, v, y);
    forall z | Has(env1, z) ensures FactHolds(f', z, env1) {
      hide AssignVar, Has, Get;
      AssignGet(env, x, v, z);
      if z != x {
        assert FactHolds(f, z, env);
        if z in f.copies {
          AssignGet(env, x, v, f.copies[z]);
        }
      }
    }
  }

  // x is set to the value of an expression; only a literal is known afterwards.
  lemma ValueHolds(reading: Reading, f: Facts, scope: set<Str>, x: Str, w: Expr, key: Str, env: Env, v: Value)
    requires env != [] && Holds(f, env) && InScope(env, scope) && NotCopied(f, scope, x) && Eval(reading, w, env) == Ok(v)
    ensures Holds(Facts(if w.Literal? then f.constants[x := w.value] else f.constants - {x}, f.copies - {x},
                        if key != [] then f.expressions[key := x] else f.expressions), AssignVar(env, x, v))
  {
    var f' := Facts(if w.Literal? then f.constants[x := w.value] else f.constants - {x}, f.copies - {x},
                    if key != [] then f.expressions[key := x] else f.expressions);
    var env1 := AssignVar(env, x, v);
    forall z | Has(env1, z) ensures FactHolds(f', z, env1) {
      hide AssignVar, Has, Get;
      AssignGet(env, x, v, z);
      if z != x {
        assert FactHolds(f, z, env);
        if z in f.copies {
          AssignGet(env, x, v, f.copies[z]);
        }
      }
    }
  }

  // What is trusted and does not involve x keeps its value; what is newly remembered for x has it.
  lemma TrustedStays(reading: Reading, level: Level, f: Facts, trusted: iset<Expr>, x: Str, e: Expr, env: Env, v: Value)
    requires env != [] && Recalls(reading, f, trusted, env) && Eval(reading, OptimizedExpr(level, f, e), env) == Ok(v)
    ensures var f' := OptimizedAssign(level, f, x, e).1;
            Recalls(reading, f', TrustedAssign(level, f, trusted, x, e), AssignVar(env, x, v))
  {
    hide OptimizedExpr, AssignVar, ExprKey, Has, Get, Used;
    var w := OptimizedExpr(level, f, e);
    var f' := OptimizedAssign(level, f, x, e).1;
    var env1 := AssignVar(env, x, v);
    forall z ensures Get(env1, z) == (if z == x then Ok(v) else Get(env, z)) && (Has(env1, z) <==> z == x || Has(env, z)) {
      AssignGet(env, x, v, z);
    }
    forall t | t in TrustedAssign(level, f, trusted, x, e)
      ensures ExprKey(t) != [] && ExprKey(t) in f'.expressions && Has(env1, f'.expressions[ExprKey(t)])
      ensures Eval(reading, t, env1) == Get(env1, f'.expressions[ExprKey(t)])
    {
      if t in Surviving(f, f', trusted, {x}) {
        HasGets(env, f.expressions[ExprKey(t)]);
        EvalKept(reading, t, env, env1);
      } else {
        KeyOfBinary(w);
        EvalKept(reading, w, env, env1);
      }
    }
  }

  lemma KeyOfBinary(w: Expr)
    ensures ExprKey(w) != [] ==> w.Binary?
  {
  }

  // Running statements that set only these names leaves trusted what survives them.
  lemma RecallsLater(reading: Reading, f: Facts, g: Facts, trusted: iset<Expr>, names: set<Str>, env: Env, e: Env, d: set<Str>,
                     w: set<Str>)
    requires Recalls(reading, f, trusted, env) && Grown(env, e, d, w) && w <= names
    ensures Recalls(reading, g, Surviving(f, g, trusted, names), e)
  {
    hide ExprKey, Has, Get, Used;
    forall t | t in Surviving(f, g, trusted, names)
      ensures Has(e, g.expressions[ExprKey(t)]) && Eval(reading, t, e) == Get(e, g.expressions[ExprKey(t)])
    {
      var y := f.expressions[ExprKey(t)];
      HasGets(env, y);
      GrownHas(env, e, d, w, y);
      forall x | x in Used(t) && Has(env, x) ensures Has(e, x) && Get(e, x) == Get(env, x) {
        GrownHas(env, e, d, w, x);
      }
      EvalKept(reading, t, env, e);
    }
  }

  lemma RecallsSame(reading: Reading, f: Facts, g: Facts, trusted: iset<Expr>, env: Env)
    requires Recalls(reading, f, trusted, env)
    ensures Recalls(reading, g, Surviving(f, g, trusted, {}), env)
  {
    hide ExprKey, Has, Get, Used;
  }

  lemma RecallsPush(reading: Reading, f: Facts, trusted: iset<Expr>, env: Env)
    requires Recalls(reading, f, trusted, env)
    ensures Recalls(reading, f, trusted, env + [map[]])
  {
    hide ExprKey, Has, Get, Used;
    forall t | t in trusted
      ensures Has(env + [map[]], f.expressions[ExprKey(t)])
      ensures Eval(reading, t, env + [map[]]) == Get(env + [map[]], f.expressions[ExprKey(t)])
    {
      var y := f.expressions[ExprKey(t)];
      PushHas(env, y);
      HasGets(env, y);
      forall x | x in Used(t) && Has(env, x) ensures Has(env + [map[]], x) && Get(env + [map[]], x) == Get(env, x) {
        PushHas(env, x);
      }
      EvalKept(reading, t, env, env + [map[]]);
    }
  }

  // ---- facts at the edges of blocks ----

  lemma HoldsPush(f: Facts, env: Env, scope: set<Str>)
    requires Holds(f, env) && InScope(env, scope)
    ensures Holds(f, env + [map[]]) && InScope(env + [map[]], scope)
  {
    forall x ensures Has(env + [map[]], x) <==> Has(env, x)
             ensures Get(env + [map[]], x) == Get(env, x)
    {
      PushHas(env, x);
    }
    forall x | Has(env, x) ensures FactHolds(f, x, env + [map[]]) {
      assert FactHolds(f, x, env);
    }
  }

  // Facts that are not new about a variable in scope survive leaving the block's own scope.
  lemma FactsClosed(g: Facts, f: Facts, scope: set<Str>, env: Env, e: Env, d: set<Str>, w: set<Str>, names: set<Str>)
    requires env != [] && Grown(env + [map[]], e, d, w) && InScope(env, scope)
    requires Holds(f, env) && Within(g, f, scope) && HoldsExcept(g, e, names)
    ensures HoldsExcept(g, Pop(e), names) && InScope(Pop(e), scope)
  {
    GrownClosed(env, e, d, w);
    forall x | Has(Pop(e), x) && x !in names ensures FactHolds(g, x, Pop(e)) {
      PopGet(e, x);
      assert FactHolds(g, x, e) && FactHolds(f, x, env);
      if x in g.copies {
        PopGet(e, g.copies[x]);
      }
    }
  }

  lemma HoldsNarrow(h: Facts, g: Facts, scope: set<Str>, e: Env, names: set<Str>, names': set<Str>)
    requires Within(h, g, scope) && InScope(e, scope) && HoldsExcept(g, e, names) && names <= names'
    ensures HoldsExcept(h, e, names')
  {
    forall x | Has(e, x) && x !in names' ensures FactHolds(h, x, e) {
      assert FactHolds(g, x, e);
    }
  }

  // Facts already known when the names' own were forgotten say nothing about the names.
  lemma HoldsAll(f: Facts, f0: Facts, scope: set<Str>, e: Env, names: set<Str>)
    requires InScope(e, scope) && HoldsExcept(f, e, names) && Within(f, f0, scope)
    requires forall x | x in names :: x !in f0.constants && x !in f0.copies
    ensures Holds(f, e)
  {
    forall x | Has(e, x) ensures FactHolds(f, x, e) {
    }
  }

  lemma HoldsExceptNone(f: Facts, e: Env)
    ensures Holds(f, e) <==> HoldsExcept(f, e, {})
  {
  }

  lemma HoldsLater(h: Facts, g: Facts, e: Env, m1: set<Str>, m2: set<Str>, names: set<Str>)
    requires HoldsExcept(g, e, m1) && Learned(h, g, m2) && m1 <= names && m2 <= names
    ensures HoldsExcept(h, e, names)
  {
    forall x | Has(e, x) && x !in names ensures FactHolds(h, x, e) {
      assert FactHolds(g, x, e);
    }
  }

  // Running the untouched switch falsifies nothing.
  lemma HoldsThrough(f: Facts, scope: set<Str>, env: Env, e: Env, w: set<Str>)
    requires Holds(f, env) && InScope(env, scope) && Unaffected(f, scope, w) && Grown(env, e, {}, w)
    ensures Holds(f, e)
  {
    forall x | Has(e, x) ensures FactHolds(f, x, e) {
      GrownHas(env, e, {}, w, x);
      assert FactHolds(f, x, env);
      if x in f.copies {
        GrownHas(env, e, {}, w, f.copies[x]);
      }
    }
  }

  lemma HoldsForget(f: Facts, env: Env, names: set<Str>)
    requires Holds(f, env)
    ensures Holds(Forget(f, names), env)
  {
    forall x | Has(env, x) ensures FactHolds(Forget(f, names), x, env) {
      assert FactHolds(f, x, env);
    }
  }

  // ---- the theorem ----

  // Rewritten statements do what the original ones do, whenever those do not fail: the same
  // returned value or the same way out, and every variable in scope has its value. After a normal end
  // what is known and what is remembered is right.
  lemma {:induction false} BlockPreserved(reading: Reading, limit: nat, level: Level, f: Facts, trusted: iset<Expr>, scope: set<Str>,
                                          stmts: seq<Stmt>, env: Env, env': Env)
    requires !level.OptNone? && SafeBlock(level, f, scope, stmts) && FreshBlock(level, f, trusted, stmts)
    requires env != [] && env' != [] && Distinct(env) && Distinct(env') && MovesBlock(reading, limit, level, stmts, env)
    requires SeenIn(env, env') && InScope(env', scope) && Holds(f, env') && Recalls(reading, f, trusted, env')
    ensures var o := ExecBlock(reading, limit, stmts, env);
            var o' := ExecBlock(reading, limit, OptimizedBlock(level, f, stmts).0, env');
            var f' := OptimizedBlock(level, f, stmts).1;
            && Preserved(o, o', f', ModifiedBlock(stmts))
            && (o.Normal? ==> Recalls(reading, f', TrustedBlock(level, f, trusted, stmts), o'.env))
    decreases WeightBlock(stmts), 3, 0
  {
    hide OptimizedStmt, Modified, Exec, Safe, Fresh, Trusted, Moves, Opened, Distinct, InScope, SeenIn, Holds, HoldsExcept,
      Learned, Recalls;
    if stmts != [] {
      var (first, f1) := OptimizedStmt(level, f, stmts[0]);
      var (rest, f2) := OptimizedBlock(level, f1, stmts[1..]);
      var o := Exec(reading, limit, stmts[0], env);
      var o' := ExecBlock(reading, limit, first, env');
      StmtPreserved(reading, limit, level, f, trusted, scope, stmts[0], env, env');
      if !stmts[0].Return? {
        BlockAppend(reading, limit, first, rest, env');
        BlockLearns(level, f1, stmts[1..]);
        if o.Normal? && |stmts| > 1 {
          StmtOpens(reading, limit, level, f, scope, stmts[0], env');
          ExecDistinct(reading, limit, stmts[0], env);
          BlockPreserved(reading, limit, level, f1, Trusted(level, f, trusted, stmts[0]), scope + Opened(level, f, stmts[0]),
                         stmts[1..], o.env, o'.env);
          WeakenPreserved(ExecBlock(reading, limit, stmts[1..], o.env), ExecBlock(reading, limit, rest, o'.env),
                          f2, ModifiedBlock(stmts[1..]), ModifiedBlock(stmts));
          PreservedSame(ExecBlock(reading, limit, stmts[1..], o.env), ExecBlock(reading, limit, rest, o'.env),
                        ExecBlock(reading, limit, first + rest, env'), f2, ModifiedBlock(stmts));
        } else if o.Normal? {
          assert stmts[1..] == [];
        } else if Continues(o) {
          HoldsLater(f2, f1, o'.env, Modified(stmts[0]), ModifiedBlock(stmts[1..]), ModifiedBlock(stmts));
        }
      } else {
        ReturnNotNormal(reading, limit, stmts[0], env);
      }
    }
  }

  lemma ExecDistinct(reading: Reading, limit: nat, s: Stmt, env: Env)
    requires env != [] && Distinct(env)
    ensures var o := Exec(reading, limit, s, env); Continues(o) ==> o.env != [] && Distinct(o.env)
  {
    hide Exec, Distinct, Grown;
    ExecLeaves(reading, limit, s, env);
    var o := Exec(reading, limit, s, env);
    if Continues(o) {
      GrownDistinct(env, o.env, Defined(s), Assigned(s));
    }
  }

  lemma PreservedSame(o: Outcome, o1: Outcome, o2: Outcome, f: Facts, names: set<Str>)
    requires Preserved(o, o1, f, names) && SameRun(o1, o2)
    ensures Preserved(o, o2, f, names)
  {
  }

  lemma ReturnNotNormal(reading: Reading, limit: nat, s: Stmt, env: Env)
    requires env != [] && s.Return?
    ensures Exec(reading, limit, s, env).Returned? || Exec(reading, limit, s, env).Failed?
  {
  }

  lemma WeakenPreserved(o: Outcome, o': Outcome, f: Facts, m: set<Str>, names: set<Str>)
    requires Preserved(o, o', f, m) && m <= names
    ensures Preserved(o, o', f, names)
  {
  }

  lemma {:induction false} StmtPreserved(reading: Reading, limit: nat, level: Level, f: Facts, trusted: iset<Expr>, scope: set<Str>,
                                         s: Stmt, env: Env, env': Env)
    requires !level.OptNone? && Safe(level, f, scope, s) && Fresh(level, f, trusted, s)
    requires env != [] && env' != [] && Distinct(env) && Distinct(env') && Moves(reading, limit, level, s, env)
    requires SeenIn(env, env') && InScope(env', scope) && Holds(f, env') && Recalls(reading, f, trusted, env')
    ensures var o := Exec(reading, limit, s, env);
            var o' := ExecBlock(reading, limit, OptimizedStmt(level, f, s).0, env');
            var f' := OptimizedStmt(level, f, s).1;
            && Preserved(o, o', f', Modified(s))
            && (o.Normal? ==> Recalls(reading, f', Trusted(level, f, trusted, s), o'.env))
    decreases Weight(s), 2, 0
  {
    hide *;
    var o, o' := Exec(reading, limit, s, env), ExecBlock(reading, limit, OptimizedStmt(level, f, s).0, env');
    match s
    case If(_, _, _) =>
      IfPreserved(reading, limit, level, f, trusted, scope, s, env, env');
      RewrittenRecalls(reading, limit, level, f, trusted, s, env, env');
      NormalPreserved(o, o', OptimizedStmt(level, f, s).1, Modified(s));
    case While(_, _) => LoopPreserved(reading, limit, level, f, trusted, scope, s, env, env');
    case Switch(_, _, _) =>
      SwitchPreserved(reading, limit, level, f, scope, s, env, env');
      RewrittenRecalls(reading, limit, level, f, trusted, s, env, env');
      NormalPreserved(o, o', OptimizedStmt(level, f, s).1, Modified(s));
    case Assign(_, _) => AssignPreserved(reading, limit, level, f, trusted, scope, s, env, env');
    case Reassign(_, _) => AssignPreserved(reading, limit, level, f, trusted, scope, s, env, env');
    case _ =>
      SimplePreserved(reading, limit, level, f, s, env, env');
      RewrittenRecalls(reading, limit, level, f, trusted, s, env, env');
      NormalPreserved(o, o', OptimizedStmt(level, f, s).1, Modified(s));
  }

  // What survives a statement is recalled behind it.
  lemma RewrittenRecalls(reading: Reading, limit: nat, level: Level, f: Facts, trusted: iset<Expr>, s: Stmt, env: Env, env': Env)
    requires env' != [] && Distinct(env') && Recalls(reading, f, trusted, env') && !s.Assign? && !s.Reassign? && !s.While?
    ensures var o' := ExecBlock(reading, limit, OptimizedStmt(level, f, s).0, env');
            o'.Normal? ==> Recalls(reading, OptimizedStmt(level, f, s).1, Trusted(level, f, trusted, s), o'.env)
  {
    hide ExecBlock, OptimizedStmt, Distinct, Recalls, Surviving, AssignedBlock, Assigned, Grown;
    var out := OptimizedStmt(level, f, s).0;
    StmtWrites(level, f, s);
    BlockLeaves(reading, limit, out, env');
    var o' := ExecBlock(reading, limit, out, env');
    if o'.Normal? {
      RecallsLater(reading, f, OptimizedStmt(level, f, s).1, trusted, Assigned(s), env', o'.env, AssignedBlock(out), AssignedBlock(out));
    }
  }

  lemma AssignPreserved(reading: Reading, limit: nat, level: Level, f: Facts, trusted: iset<Expr>, scope: set<Str>, s: Stmt,
                        env: Env, env': Env)
    requires (s.Assign? || s.Reassign?) && Safe(level, f, scope, s) && Fresh(level, f, trusted, s) && env != [] && env' != []
    requires SeenIn(env, env') && InScope(env', scope) && Holds(f, env') && Recalls(reading, f, trusted, env')
    ensures var o := Exec(reading, limit, s, env);
            var o' := ExecBlock(reading, limit, OptimizedStmt(level, f, s).0, env');
            var f' := OptimizedStmt(level, f, s).1;
            && Preserved(o, o', f', Modified(s))
            && (o.Normal? ==> Recalls(reading, f', Trusted(level, f, trusted, s), o'.env))
  {
    hide OptimizedExpr, OptimizedAssign, Eval, SeenIn, InScope, Holds, HoldsExcept, AssignVar, SetExisting, NotCopied, Has, ExecBlock;
    hide Recalls, TrustedAssign, FreshAssign;
    var out := OptimizedStmt(level, f, s).0;
    assert out == [out[0]];
    BlockOfOne(reading, limit, out[0], env');
    EvalNoLimit(reading, s.value, env);
    if Eval(reading, s.value, env).Ok? && (s.Assign? || Has(env, s.target)) {
      var v := Eval(reading, s.value, env).value;
      EvalSeen(reading, s.value, env, env');
      AssignKeeps(reading, level, f, trusted, scope, s.target, s.value, env', v);
      AssignSeen(env, env', s.target, v);
      if s.Reassign? {
        SeenHas(env, env', s.target);
        ReassignAssigns(env, s.target, v);
        ReassignAssigns(env', s.target, v);
      }
    }
  }

  lemma SimplePreserved(reading: Reading, limit: nat, level: Level, f: Facts, s: Stmt, env: Env, env': Env)
    requires env != [] && env' != [] && !s.If? && !s.While? && !s.Switch? && !s.Assign? && !s.Reassign?
    requires SeenIn(env, env') && Holds(f, env')
    ensures Preserved(Exec(reading, limit, s, env),
                      ExecBlock(reading, limit, OptimizedStmt(level, f, s).0, env'),
                      OptimizedStmt(level, f, s).1, Modified(s))
  {
    hide OptimizedExpr, Eval, SeenIn, Holds, HoldsExcept, ExecBlock;
    var out := OptimizedStmt(level, f, s).0;
    assert out == [out[0]];
    BlockOfOne(reading, limit, out[0], env');
    HoldsExceptNone(f, env');
    match s
    case Return(e) =>
      EvalNoLimit(reading, e, env);
      if Eval(reading, e, env).Ok? {
        EvalSeen(reading, e, env, env');
        ExprRefined(reading, level, f, e, env');
      }
    case ExprStmt(e) =>
      EvalNoLimit(reading, e, env);
      if Eval(reading, e, env).Ok? {
        EvalSeen(reading, e, env, env');
      }
    case Validation(test) =>
      if Eval(reading, test, env).Ok? {
        EvalSeen(reading, test, env, env');
      }
    case Break =>
    case Continue =>
  }

  lemma SeenHas(env: Env, env': Env, x: Str)
    requires SeenIn(env, env') && Has(env, x)
    ensures Has(env', x)
  {
  }

  // A block in a scope of its own, in both runs.
  lemma {:induction false} BranchPreserved(reading: Reading, limit: nat, level: Level, f: Facts, trusted: iset<Expr>, scope: set<Str>,
                                           block: seq<Stmt>, env: Env, env': Env)
    requires !level.OptNone? && SafeBlock(level, f, scope, block) && FreshBlock(level, f, trusted, block)
    requires env != [] && env' != [] && Distinct(env) && Distinct(env') && MovesBlock(reading, limit, level, block, env + [map[]])
    requires SeenIn(env, env') && InScope(env', scope) && Holds(f, env') && Recalls(reading, f, trusted, env')
    requires Within(OptimizedBlock(level, f, block).1, f, scope)
    ensures var o := CloseScope(ExecBlock(reading, limit, block, env + [map[]]));
            var (block', f') := OptimizedBlock(level, f, block);
            var o' := CloseScope(ExecBlock(reading, limit, block', env' + [map[]]));
            && Preserved(o, o', f', ModifiedBlock(block))
            && (Continues(o) ==> InScope(o'.env, scope) && Distinct(o.env) && Distinct(o'.env))
    decreases WeightBlock(block), 4, 0
  {
    hide OptimizedBlock, ExecBlock, SafeBlock, FreshBlock, MovesBlock, Distinct, InScope, SeenIn, Holds, HoldsExcept, Within, Grown, Pop;
    hide AssignedBlock, ModifiedBlock, Recalls;
    var (block', f') := OptimizedBlock(level, f, block);
    PushDistinct(env);
    PushDistinct(env');
    SeenPush(env, env');
    HoldsPush(f, env', scope);
    RecallsPush(reading, f, trusted, env');
    BlockPreserved(reading, limit, level, f, trusted, scope, block, env + [map[]], env' + [map[]]);
    BlockLeaves(reading, limit, block, env + [map[]]);
    BlockLeaves(reading, limit, block', env' + [map[]]);
    var o := ExecBlock(reading, limit, block, env + [map[]]);
    var o' := ExecBlock(reading, limit, block', env' + [map[]]);
    if Continues(o) {
      var w := AssignedBlock(block);
      var w' := AssignedBlock(block');
      SeenClosed(env, env', o.env, o'.env, w, w, w', w');
      HoldsExceptNone(f', o'.env);
      HoldsExceptNone(f', Pop(o'.env));
      FactsClosed(f', f, scope, env', o'.env, w', w', if o.Normal? then {} else ModifiedBlock(block));
      GrownClosed(env, o.env, w, w);
      GrownClosed(env', o'.env, w', w');
      GrownDistinct(env, Pop(o.env), {}, w);
      GrownDistinct(env', Pop(o'.env), {}, w');
    }
  }

  // The only branch that can run, spliced in without its scope.
  lemma {:induction false} SplicePreserved(reading: Reading, limit: nat, level: Level, f: Facts, trusted: iset<Expr>, scope: set<Str>,
                                           block: seq<Stmt>, env: Env, env': Env)
    requires !level.OptNone? && SafeBlock(level, f, scope, block) && FreshBlock(level, f, trusted, block)
    requires env != [] && env' != [] && Distinct(env) && Distinct(env') && MovesBlock(reading, limit, level, block, env + [map[]])
    requires SeenIn(env, env') && InScope(env', scope) && Holds(f, env') && Recalls(reading, f, trusted, env')
    ensures var (block', f') := OptimizedBlock(level, f, block);
            Preserved(CloseScope(ExecBlock(reading, limit, block, env + [map[]])),
                      ExecBlock(reading, limit, block', env'), f', ModifiedBlock(block))
    decreases WeightBlock(block), 4, 0
  {
    hide OptimizedBlock, ExecBlock, SafeBlock, FreshBlock, MovesBlock, Distinct, InScope, SeenIn, Holds, HoldsExcept, Grown, Pop;
    hide AssignedBlock, ModifiedBlock, Recalls;
    PushDistinct(env);
    SeenPush(env, env');
    BlockPreserved(reading, limit, level, f, trusted, scope, block, env + [map[]], env');
    BlockLeaves(reading, limit, block, env + [map[]]);
    var o := ExecBlock(reading, limit, block, env + [map[]]);
    var o' := ExecBlock(reading, limit, OptimizedBlock(level, f, block).0, env');
    if Continues(o) {
      SeenHalfClosed(env, o.env, o'.env, AssignedBlock(block), AssignedBlock(block));
    }
  }

  lemma NarrowPreserved(o: Outcome, o': Outcome, g: Facts, h: Facts, scope: set<Str>, m: set<Str>, names: set<Str>)
    requires Preserved(o, o', g, m) && Within(h, g, scope) && m <= names
    requires Continues(o) ==> InScope(o'.env, scope)
    ensures Preserved(o, o', h, names)
  {
    hide Holds, HoldsExcept, Within, InScope, SeenIn;
    if Continues(o) {
      HoldsExceptNone(g, o'.env);
      HoldsExceptNone(h, o'.env);
      HoldsNarrow(h, g, scope, o'.env, if o.Normal? then {} else m, if o.Normal? then {} else names);
    }
  }

  // Which branch runs, and that what it needs holds.
  lemma TakenBranch(reading: Reading, limit: nat, level: Level, s: Stmt, env: Env, b: bool)
    requires s.If? && env != [] && Moves(reading, limit, level, s, env) && Eval(reading, s.cond, env) == Ok(Bool(b))
    ensures MovesBlock(reading, limit, level, if b then s.thenBlock else s.elseBlock, env + [map[]])
    ensures Exec(reading, limit, s, env) == CloseScope(ExecBlock(reading, limit, if b then s.thenBlock else s.elseBlock, env + [map[]]))
  {
    hide ExecBlock, Eval;
    if level.OptAggressive? {
    } else {
      NothingMoves(reading, limit, level, if b then s.thenBlock else s.elseBlock, env + [map[]]);
    }
  }

  lemma {:induction false} NothingMoves(reading: Reading, limit: nat, level: Level, stmts: seq<Stmt>, env: Env)
    requires env != [] && !level.OptAggressive?
    ensures MovesBlock(reading, limit, level, stmts, env)
    decreases |stmts|
  {
    hide Exec;
    if stmts != [] {
      var o := Exec(reading, limit, stmts[0], env);
      if o.Normal? {
        NothingMoves(reading, limit, level, stmts[1..], o.env);
      }
    }
  }

  lemma {:induction false} IfPreserved(reading: Reading, limit: nat, level: Level, f: Facts, trusted: iset<Expr>, scope: set<Str>,
                                       s: Stmt, env: Env, env': Env)
    requires s.If? && !level.OptNone? && Safe(level, f, scope, s) && Fresh(level, f, trusted, s)
    requires env != [] && env' != [] && Distinct(env) && Distinct(env') && Moves(reading, limit, level, s, env)
    requires SeenIn(env, env') && InScope(env', scope) && Holds(f, env') && Recalls(reading, f, trusted, env')
    ensures Preserved(Exec(reading, limit, s, env),
                      ExecBlock(reading, limit, OptimizedStmt(level, f, s).0, env'),
                      OptimizedStmt(level, f, s).1, Modified(s))
    decreases Weight(s), 1, 0
  {
    hide OptimizedExpr, OptimizedBlock, ExecBlock, SafeBlock, FreshBlock, MovesBlock, Distinct, InScope, SeenIn, Holds, HoldsExcept,
      Within, ModifiedBlock, CloseScope, Preserved, Recalls, Moves, Surviving;
    var c' := OptimizedExpr(level, f, s.cond);
    if Eval(reading, s.cond, env).Ok? && Eval(reading, s.cond, env).value.Bool? {
      EvalSeen(reading, s.cond, env, env');
      ExprRefined(reading, level, f, s.cond, env');
      var b := Eval(reading, s.cond, env).value.b;
      TakenBranch(reading, limit, level, s, env, b);
      var branch := if b then s.thenBlock else s.elseBlock;
      var o := CloseScope(ExecBlock(reading, limit, branch, env + [map[]]));
      if c' == Literal(Bool(true)) || c' == Literal(Bool(false)) {
        assert c' == Literal(Bool(b));
        SplicePreserved(reading, limit, level, f, trusted, scope, branch, env, env');
        var (block', f') := OptimizedBlock(level, f, branch);
        WeakenPreserved(o, ExecBlock(reading, limit, block', env'), f', ModifiedBlock(branch), Modified(s));
      } else {
        var (t', f1) := OptimizedBlock(level, f, s.thenBlock);
        var (e', f2) := OptimizedBlock(level, f1, s.elseBlock);
        BlockOfOne(reading, limit, If(c', t', e'), env');
        if b {
          BranchPreserved(reading, limit, level, f, trusted, scope, s.thenBlock, env, env');
          NarrowPreserved(o, CloseScope(ExecBlock(reading, limit, t', env' + [map[]])), f1, f2, scope, ModifiedBlock(branch), Modified(s));
        } else {
          HoldsWithin(f1, f, scope, env');
          RecallsSame(reading, f, f1, trusted, env');
          BranchPreserved(reading, limit, level, f1, Surviving(f, f1, trusted, {}), scope, s.elseBlock, env, env');
          WeakenPreserved(o, CloseScope(ExecBlock(reading, limit, e', env' + [map[]])), f2, ModifiedBlock(branch), Modified(s));
        }
      }
    } else {
      EvalNoLimit(reading, s.cond, env);
      FailedPreserved(Exec(reading, limit, s, env), ExecBlock(reading, limit, OptimizedStmt(level, f, s).0, env'),
                      OptimizedStmt(level, f, s).1, Modified(s));
    }
  }

  lemma FailedPreserved(o: Outcome, o': Outcome, f: Facts, names: set<Str>)
    requires o.Failed? && o.error != LoopLimitExceeded
    ensures Preserved(o, o', f, names)
  {
  }

  lemma HoldsWithin(g: Facts, f: Facts, scope: set<Str>, env: Env)
    requires Holds(f, env) && Within(g, f, scope) && InScope(env, scope)
    ensures Holds(g, env)
  {
    HoldsExceptNone(f, env);
    HoldsExceptNone(g, env);
    HoldsNarrow(g, f, scope, env, {}, {});
  }

  lemma SwitchPreserved(reading: Reading, limit: nat, level: Level, f: Facts, scope: set<Str>, s: Stmt, env: Env, env': Env)
    requires Safe(level, f, scope, s) && s.Switch? && env != [] && env' != [] && Distinct(env) && Distinct(env')
    requires SeenIn(env, env') && InScope(env', scope) && Holds(f, env')
    ensures Preserved(Exec(reading, limit, s, env),
                      ExecBlock(reading, limit, OptimizedStmt(level, f, s).0, env'),
                      OptimizedStmt(level, f, s).1, Modified(s))
  {
    hide Exec, ExecBlock, Distinct, InScope, SeenIn, Holds, HoldsExcept, Unaffected, Assigned, Grown;
    var f' := OptimizedStmt(level, f, s).1;
    BlockOfOne(reading, limit, s, env');
    NamesHas(env');
    ExecMirrored(reading, limit, s, env, env', Names(env'));
    ExecLeaves(reading, limit, s, env');
    HoldsForget(f, env', ModifiedCases(s.cases) + ModifiedBlock(s.defaultBlock));
    var o' := Exec(reading, limit, s, env');
    if Continues(o') {
      HoldsThrough(f', scope, env', o'.env, Assigned(s));
      HoldsExceptNone(f', o'.env);
    }
  }

  // ---- loops ----

  // What is known at a loop's head says nothing about what the loop sets.
  ghost predicate Untouched(f: Facts, trusted: iset<Expr>, body: seq<Stmt>) {
    && (forall x | x in ModifiedBlock(body) :: x !in f.constants && x !in f.copies)
    && Surviving(f, f, trusted, AssignedBlock(body)) == trusted
  }

  // What a loop may learn nothing new about, and starts every round with.
  ghost predicate Steady(level: Level, f: Facts, scope: set<Str>, body: seq<Stmt>) {
    var f1 := OptimizedBlock(level, f, body).1;
    Within(f1, f, scope) && Within(f, f1, scope)
  }

  // The loop from its n-th round on. What is known at its head holds every time.
  lemma {:induction false} WhilePreserved(reading: Reading, limit: nat, level: Level, f: Facts, trusted: iset<Expr>, scope: set<Str>,
                                          s: Stmt, env: Env, env': Env, n: nat, last: Value, last': Value)
    requires s.While? && n <= limit && env != [] && env' != [] && Distinct(env) && Distinct(env') && !level.OptNone?
    requires SafeBlock(level, f, scope, s.body) && FreshBlock(level, f, trusted, s.body)
    requires Steady(level, f, scope, s.body) && Untouched(f, trusted, s.body)
    requires MovesRounds(reading, limit, level, s, env, n)
    requires SeenIn(env, env') && InScope(env', scope) && Holds(f, env') && Recalls(reading, f, trusted, env')
    ensures var (body', f1) := OptimizedBlock(level, f, s.body);
            var s' := While(OptimizedExpr(level, f, s.cond), body');
            Preserved(ExecWhile(reading, limit, s, env, n, last), ExecWhile(reading, limit, s', env', n, last'), f1, Modified(s))
    decreases WeightBlock(s.body), 6, limit - n
  {
    hide OptimizedExpr, OptimizedBlock, ExecBlock, SafeBlock, FreshBlock, MovesBlock, Distinct, InScope, SeenIn, Holds, HoldsExcept,
      Within, ModifiedBlock, Eval, CloseScope, Recalls, Untouched;
    var (body', f1) := OptimizedBlock(level, f, s.body);
    HoldsWithin(f1, f, scope, env');
    EvalNoLimit(reading, s.cond, env);
    if n < limit && Eval(reading, s.cond, env).Ok? {
      EvalSeen(reading, s.cond, env, env');
      ExprRefined(reading, level, f, s.cond, env');
      if Eval(reading, s.cond, env).value == Bool(true) {
        RoundPreserved(reading, limit, level, f, trusted, scope, s.body, env, env');
        var o := CloseScope(ExecBlock(reading, limit, s.body, env + [map[]]));
        var o' := CloseScope(ExecBlock(reading, limit, body', env' + [map[]]));
        if o.Normal? || o.Continued? {
          WhilePreserved(reading, limit, level, f, trusted, scope, s, o.env, o'.env, n + 1, RoundResult(o), RoundResult(o'));
        }
      }
    }
  }

  // One round of the body, after which what was known at the loop's head holds again.
  lemma {:induction false} RoundPreserved(reading: Reading, limit: nat, level: Level, f: Facts, trusted: iset<Expr>, scope: set<Str>,
                                          body: seq<Stmt>, env: Env, env': Env)
    requires env != [] && env' != [] && Distinct(env) && Distinct(env') && !level.OptNone?
    requires SafeBlock(level, f, scope, body) && FreshBlock(level, f, trusted, body)
    requires Steady(level, f, scope, body) && Untouched(f, trusted, body)
    requires MovesBlock(reading, limit, level, body, env + [map[]])
    requires SeenIn(env, env') && InScope(env', scope) && Holds(f, env') && Recalls(reading, f, trusted, env')
    ensures var (body', f1) := OptimizedBlock(level, f, body);
            var o := CloseScope(ExecBlock(reading, limit, body, env + [map[]]));
            var o' := CloseScope(ExecBlock(reading, limit, body', env' + [map[]]));
            && Refined(o, o')
            && (Continues(o) ==>
                  && o.env != [] && o'.env != [] && Distinct(o.env) && Distinct(o'.env)
                  && InScope(o'.env, scope) && Holds(f, o'.env) && Holds(f1, o'.env) && Recalls(reading, f, trusted, o'.env))
    decreases WeightBlock(body), 5, 0
  {
    hide OptimizedBlock, ExecBlock, SafeBlock, FreshBlock, MovesBlock, Distinct, InScope, SeenIn, Holds, HoldsExcept, Within,
      ModifiedBlock, CloseScope, Recalls, Surviving;
    var (body', f1) := OptimizedBlock(level, f, body);
    BranchPreserved(reading, limit, level, f, trusted, scope, body, env, env');
    var o := CloseScope(ExecBlock(reading, limit, body, env + [map[]]));
    var o' := CloseScope(ExecBlock(reading, limit, body', env' + [map[]]));
    if Continues(o) {
      DepthKept(reading, limit, body, env);
      DepthKept(reading, limit, body', env');
      if !o.Normal? {
        HoldsAll(f1, f, scope, o'.env, ModifiedBlock(body));
      }
      HoldsWithin(f, f1, scope, o'.env);
      RoundRecalls(reading, limit, level, f, trusted, body, env');
    }
  }

  lemma RoundRecalls(reading: Reading, limit: nat, level: Level, f: Facts, trusted: iset<Expr>, body: seq<Stmt>, env': Env)
    requires env' != [] && Distinct(env') && Untouched(f, trusted, body) && Recalls(reading, f, trusted, env')
    ensures var o' := CloseScope(ExecBlock(reading, limit, OptimizedBlock(level, f, body).0, env' + [map[]]));
            Continues(o') ==> Recalls(reading, f, trusted, o'.env)
  {
    hide OptimizedBlock, ExecBlock, Distinct, CloseScope, Recalls, Surviving, AssignedBlock, ModifiedBlock, Grown;
    var body' := OptimizedBlock(level, f, body).0;
    BlockWrites(level, f, body);
    ClosedLeaves(reading, limit, body', env', AssignedBlock(body'));
    var o' := CloseScope(ExecBlock(reading, limit, body', env' + [map[]]));
    if Continues(o') {
      RecallsLater(reading, f, f, trusted, AssignedBlock(body), env', o'.env, {}, AssignedBlock(body'));
    }
  }

  // The rewritten loop against the rewritten one that runs: what has moved out of it runs first.
  ghost predicate Chained(o: Outcome, p: Outcome) {
    match o
    case Failed(e) => e == LoopLimitExceeded ==> p == o
    case Returned(v) => p == o
    case Normal(e, _) => p.Normal? && SeenIn(e, p.env)
    case Broke(e) => p.Broke? && SeenIn(e, p.env)
    case Continued(e) => p.Continued? && SeenIn(e, p.env)
  }

  lemma ChainedPreserved(o: Outcome, p: Outcome, o': Outcome, f: Facts, names: set<Str>)
    requires Chained(o, p) && Preserved(p, o', f, names)
    ensures Preserved(o, o', f, names)
  {
    hide Holds, HoldsExcept;
  }

  lemma MirroredChained(o: Outcome, p: Outcome, extra: set<Str>)
    requires Mirrored(o, p, extra)
    ensures Chained(o, p)
  {
  }

  // A loop without what has moved, run behind it: the environment it starts from and how the whole
  // stands to the loop as it was.
  lemma MovedFirst(reading: Reading, limit: nat, level: Level, s: Stmt, env: Env) returns (e: Env)
    requires s.While? && env != [] && Distinct(env) && Moves(reading, limit, level, s, env)
    requires var (out, rest) := Parts(level, s); Independent(out, rest) && Local(out, env)
    ensures var (out, rest) := Parts(level, s);
            var o := ExecBlock(reading, limit, out, env);
            && o.Normal? && o.env == e && e != [] && Distinct(e)
            && MovesRounds(reading, limit, level, While(s.cond, rest), e, 0)
            && Chained(Exec(reading, limit, s, env), ExecWhile(reading, limit, While(s.cond, rest), e, 0, Null))
  {
    hide ExecBlock, ExecWhile, Distinct, Independent, Local, Total, Targets, Misses, MovesRounds, Beside, Settled, Mirrored,
      Chained, Hoisted;
    PartsAre(level, s);
    var (out, rest) := Parts(level, s);
    var loop := While(s.cond, rest);
    if level.OptAggressive? {
      IndependentAlone(out, rest);
      e := RunMoved(reading, limit, out, |out|, env);
      assert out[..|out|] == out;
      LoopMirrored(reading, limit, s, env, e, 0, Null, Null);
      MirroredChained(Exec(reading, limit, s, env), ExecWhile(reading, limit, loop, e, 0, Null), Targets(out));
    } else {
      e := env;
      NothingFirst(reading, limit, env);
      assert loop == s;
      NothingMovesRounds(reading, limit, level, s, env, 0);
      ChainedSame(Exec(reading, limit, s, env));
    }
  }

  lemma NothingFirst(reading: Reading, limit: nat, env: Env)
    requires env != []
    ensures ExecBlock(reading, limit, [], env) == Normal(env, Null)
  {
  }

  lemma ChainedSame(o: Outcome)
    ensures Chained(o, o)
  {
  }

  lemma {:induction false} NothingMovesRounds(reading: Reading, limit: nat, level: Level, loop: Stmt, env: Env, n: nat)
    requires loop.While? && env != [] && n <= limit && !level.OptAggressive?
    ensures MovesRounds(reading, limit, level, loop, env, n)
    decreases limit - n
  {
    hide ExecBlock, Eval, CloseScope, MovesBlock;
    if n < limit {
      NothingMoves(reading, limit, level, loop.body, env + [map[]]);
      DepthKept(reading, limit, loop.body, env);
      var o := CloseScope(ExecBlock(reading, limit, loop.body, env + [map[]]));
      if o.Normal? || o.Continued? {
        NothingMovesRounds(reading, limit, level, loop, o.env, n + 1);
      }
    }
  }

  // What the safety of a loop says of its parts, at either level.
  lemma SafeLoop(level: Level, f: Facts, scope: set<Str>, s: Stmt)
    requires s.While? && Safe(level, f, scope, s)
    ensures var (out, rest) := Parts(level, s);
            var f0 := Forget(f, ModifiedBlock(s.body));
            var f1 := OptimizedBlock(level, f0, out).1;
            var inner := scope + AssignedBlock(out);
            && Independent(out, rest) && AssignedBlock(out) !! scope && SafeBlock(level, f0, scope, out)
            && SafeBlock(level, f1, inner, rest) && Steady(level, f1, inner, rest)
  {
    hide Hoisted, Within, ModifiedBlock;
    PartsAre(level, s);
    if !level.OptAggressive? {
      assert AssignedBlock([]) == {} && scope + {} == scope;
      assert OptimizedBlock(level, Forget(f, ModifiedBlock(s.body)), []).1 == Forget(f, ModifiedBlock(s.body));
    }
  }

  lemma {:induction false} TargetAssigned(out: seq<Stmt>, s: Stmt)
    requires s in out && s.Assign?
    ensures s.target in AssignedBlock(out)
    decreases |out|
  {
    if out[0] != s {
      TargetAssigned(out[1..], s);
    }
  }

  lemma NewThere(out: seq<Stmt>, scope: set<Str>, env: Env, env': Env)
    requires (forall s | s in out :: s.Assign?) && AssignedBlock(out) !! scope && SeenIn(env, env') && InScope(env', scope)
    ensures Local(out, env)
  {
    forall s | s in out ensures !Has(env, s.target) {
      TargetAssigned(out, s);
    }
  }

  lemma {:induction false} AssignsMove(reading: Reading, limit: nat, level: Level, out: seq<Stmt>, env: Env)
    requires env != [] && forall s | s in out :: s.Assign?
    ensures MovesBlock(reading, limit, level, out, env)
    decreases |out|
  {
    hide Exec;
    if out != [] {
      assert out[0] in out && forall s | s in out[1..] :: s in out;
      var o := Exec(reading, limit, out[0], env);
      if o.Normal? {
        AssignsMove(reading, limit, level, out[1..], o.env);
      }
    }
  }

  lemma HeadUntouched(level: Level, f: Facts, trusted: iset<Expr>, s: Stmt)
    requires s.While? && var (out, rest) := Parts(level, s); Independent(out, rest)
    ensures var (out, rest) := Parts(level, s);
            var f1 := OptimizedBlock(level, Forget(f, ModifiedBlock(s.body)), out).1;
            Untouched(f1, TrustedAtHead(level, f, trusted, s), rest)
  {
    hide OptimizedBlock, TrustedBlock, ExprKey, Parts, Used, AssignedBlock, ModifiedBlock;
    var (out, rest) := Parts(level, s);
    var f0 := Forget(f, ModifiedBlock(s.body));
    var f1 := OptimizedBlock(level, f0, out).1;
    PartsSet(level, s);
    BlockLearns(level, f0, out);
    ModifiedBlockAssigned(rest);
    MovedApart(out, rest);
    forall x | x in ModifiedBlock(rest) ensures x !in f1.constants && x !in f1.copies {
      assert x !in ModifiedBlock(out);
    }
    var head := TrustedAtHead(level, f, trusted, s);
    assert Surviving(f1, f1, head, AssignedBlock(rest)) == head;
  }

  lemma {:induction false} MovedApart(out: seq<Stmt>, rest: seq<Stmt>)
    requires forall s | s in out :: s.Assign? && s.target !in AssignedBlock(rest)
    ensures AssignedBlock(out) !! AssignedBlock(rest)
    decreases |out|
  {
    if out != [] {
      assert out[0] in out && forall s | s in out[1..] :: s in out;
      MovedApart(out[1..], rest);
    }
  }

  // Both programs in front of the loop: what moves has run, and what is known and remembered there is right.
  lemma {:induction false} FrontPreserved(reading: Reading, limit: nat, level: Level, f: Facts, trusted: iset<Expr>, scope: set<Str>,
                                          s: Stmt, env: Env, env': Env, e: Env) returns (e': Env)
    requires s.While? && !level.OptNone? && Safe(level, f, scope, s) && Fresh(level, f, trusted, s)
    requires env != [] && env' != [] && Distinct(env) && Distinct(env')
    requires SeenIn(env, env') && InScope(env', scope) && Holds(f, env') && Recalls(reading, f, trusted, env')
    requires var o := ExecBlock(reading, limit, Parts(level, s).0, env); o.Normal? && o.env == e
    ensures var out := Parts(level, s).0;
            var (out', f1) := OptimizedBlock(level, Forget(f, ModifiedBlock(s.body)), out);
            var o' := ExecBlock(reading, limit, out', env');
            && o'.Normal? && o'.env == e' && e' != [] && Distinct(e') && SeenIn(e, e') && Holds(f1, e')
            && InScope(e', scope + AssignedBlock(out)) && Recalls(reading, f1, TrustedAtHead(level, f, trusted, s), e')
    decreases Weight(s), 0, 0
  {
    hide OptimizedBlock, ExecBlock, SafeBlock, FreshBlock, MovesBlock, Distinct, InScope, SeenIn, Holds, HoldsExcept, Recalls,
      Safe, Parts, AssignedBlock, ModifiedBlock, Surviving, TrustedBlock, Independent, Steady;
    var (out, rest) := Parts(level, s);
    var f0 := Forget(f, ModifiedBlock(s.body));
    var (out', f1) := OptimizedBlock(level, f0, out);
    SafeLoop(level, f, scope, s);
    PartsSet(level, s);
    HoistedWeight(level, s);
    HoldsForget(f, env', ModifiedBlock(s.body));
    RecallsSame(reading, f, f0, trusted, env');
    AssignsMove(reading, limit, level, out, env);
    BlockPreserved(reading, limit, level, f0, Surviving(f, f0, trusted, {}), scope, out, env, env');
    BlockWrites(level, f0, out);
    BlockOpens(reading, limit, out', env', scope, AssignedBlock(out));
    e' := ExecBlock(reading, limit, out', env').env;
    GrownSame(e');
    RecallsLater(reading, f1, f1, TrustedBlock(level, f0, Surviving(f, f0, trusted, {}), out), AssignedBlock(rest), e', e', {}, {});
  }

  // A loop, whatever moves in front of it.
  lemma {:induction false} LoopPreserved(reading: Reading, limit: nat, level: Level, f: Facts, trusted: iset<Expr>, scope: set<Str>,
                                         s: Stmt, env: Env, env': Env)
    requires s.While? && !level.OptNone? && Safe(level, f, scope, s) && Fresh(level, f, trusted, s)
    requires env != [] && env' != [] && Distinct(env) && Distinct(env') && Moves(reading, limit, level, s, env)
    requires SeenIn(env, env') && InScope(env', scope) && Holds(f, env') && Recalls(reading, f, trusted, env')
    ensures var o := Exec(reading, limit, s, env);
            var o' := ExecBlock(reading, limit, OptimizedStmt(level, f, s).0, env');
            var f' := OptimizedStmt(level, f, s).1;
            && Preserved(o, o', f', Modified(s))
            && (o.Normal? ==> Recalls(reading, f', Trusted(level, f, trusted, s), o'.env))
    decreases Weight(s), 1, 0
  {
    hide OptimizedExpr, OptimizedBlock, OptimizedStmt, Exec, ExecBlock, ExecWhile, SafeBlock, FreshBlock, MovesBlock, Moves,
      MovesRounds, Distinct, InScope, SeenIn, Holds, HoldsExcept, Recalls, Safe, Parts, AssignedBlock, ModifiedBlock, Surviving,
      TrustedAtHead, Independent, Steady, Preserved, Chained, Local, Untouched;
    var (out, rest) := Parts(level, s);
    var (out', f1) := OptimizedBlock(level, Forget(f, ModifiedBlock(s.body)), out);
    var (rest', f2) := OptimizedBlock(level, f1, rest);
    var head := TrustedAtHead(level, f, trusted, s);
    var loop, loop' := While(s.cond, rest), While(OptimizedExpr(level, f1, s.cond), rest');
    SafeLoop(level, f, scope, s);
    LoopShape(level, f, s);
    PartsSet(level, s);
    HoistedWeight(level, s);
    NewThere(out, scope, env, env');
    HeadUntouched(level, f, trusted, s);
    var e := MovedFirst(reading, limit, level, s, env);
    var e' := FrontPreserved(reading, limit, level, f, trusted, scope, s, env, env', e);
    WhilePreserved(reading, limit, level, f1, head, scope + AssignedBlock(out), loop, e, e', 0, Null, Null);
    BlockAppend(reading, limit, out', [loop'], env');
    BlockOfOne(reading, limit, loop', e');
    LoopRuns(reading, limit, loop', e');
    var p, p' := ExecWhile(reading, limit, loop, e, 0, Null), ExecWhile(reading, limit, loop', e', 0, Null);
    ChainedPreserved(Exec(reading, limit, s, env), p, p', f2, Modified(loop));
    LoopModifies(loop);
    WeakenPreserved(Exec(reading, limit, s, env), p', f2, Modified(loop), Modified(s));
    LoopRecalls(reading, limit, level, f1, head, rest, loop', e');
    NormalPreserved(Exec(reading, limit, s, env), p', f2, Modified(s));
  }

  lemma LoopRuns(reading: Reading, limit: nat, loop: Stmt, env: Env)
    requires loop.While? && env != []
    ensures Exec(reading, limit, loop, env) == ExecWhile(reading, limit, loop, env, 0, Null)
  {
  }

  lemma LoopModifies(loop: Stmt)
    requires loop.While?
    ensures Modified(loop) == ModifiedBlock(loop.body)
  {
  }

  lemma NormalPreserved(o: Outcome, o': Outcome, f: Facts, names: set<Str>)
    requires Preserved(o, o', f, names)
    ensures o.Normal? ==> o'.Normal?
  {
  }

  lemma LoopRecalls(reading: Reading, limit: nat, level: Level, f1: Facts, head: iset<Expr>, rest: seq<Stmt>, loop': Stmt, e': Env)
    requires e' != [] && Distinct(e') && Recalls(reading, f1, head, e')
    requires loop'.While? && loop'.body == OptimizedBlock(level, f1, rest).0
    ensures var p' := ExecWhile(reading, limit, loop', e', 0, Null);
            var f2 := OptimizedBlock(level, f1, rest).1;
            p'.Normal? ==> Recalls(reading, f2, Surviving(f1, f2, head, AssignedBlock(rest)), p'.env)
  {
    hide OptimizedBlock, ExecWhile, Distinct, Recalls, Surviving, AssignedBlock, Grown;
    BlockWrites(level, f1, rest);
    WhileLeaves(reading, limit, loop', e', 0, Null);
    var p' := ExecWhile(reading, limit, loop', e', 0, Null);
    if p'.Normal? {
      RecallsLater(reading, f1, OptimizedBlock(level, f1, rest).1, head, AssignedBlock(rest), e', p'.env, {}, Assigned(loop'));
    }
  }

  // ---- from the start ----

  // At the basic level the safety of the block is all it takes.
  lemma BasicPreserved(reading: Reading, limit: nat, f: Facts, scope: set<Str>, stmts: seq<Stmt>, env: Env, env': Env)
    requires SafeBlock(OptBasic, f, scope, stmts) && env != [] && env' != [] && Distinct(env) && Distinct(env')
    requires SeenIn(env, env') && InScope(env', scope) && Holds(f, env')
    ensures Preserved(ExecBlock(reading, limit, stmts, env),
                      ExecBlock(reading, limit, OptimizedBlock(OptBasic, f, stmts).0, env'),
                      OptimizedBlock(OptBasic, f, stmts).1, ModifiedBlock(stmts))
  {
    hide *;
    BasicFreshBlock(f, iset{}, stmts);
    BasicMoves(reading, limit, stmts, env);
    NothingRecalled(reading, f, env');
    BlockPreserved(reading, limit, OptBasic, f, iset{}, scope, stmts, env, env');
  }

  lemma NothingRecalled(reading: Reading, f: Facts, env: Env)
    ensures Recalls(reading, f, iset{}, env)
  {
  }
}
