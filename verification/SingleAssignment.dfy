/** Programs that set every variable once: the basic optimizer keeps the meaning of all of them. */
module SingleAssignment {
  import opened Bytes
  import opened Lang
  import opened Interpreter
  import opened Folding
  import opened ExprKeys
  import opened Rewriting
  import opened Frames
  import opened Safety
  import opened Preservation

  // Every assignment is to a name not in `seen`, every name an assignment reads is; `seen` grows by
  // all names assigned so far.
  ghost predicate Single(seen: set<Str>, s: Stmt)
    decreases s, 0
  {
    match s
    case Assign(x, e) => x !in seen && Used(e) <= seen
    case Reassign(x, e) => x !in seen && Used(e) <= seen
    case If(_, t, e) => SingleBlock(seen, t) && SingleBlock(seen + AssignedBlock(t), e)
    case While(_, body) => SingleBlock(seen, body)
    case Switch(_, _, _) => Assigned(s) !! seen
    case _ => true
  }

  ghost predicate SingleBlock(seen: set<Str>, stmts: seq<Stmt>)
    decreases stmts, 0
  {
    stmts == [] || (Single(seen, stmts[0]) && SingleBlock(seen + Assigned(stmts[0]), stmts[1..]))
  }

  ghost predicate CopiesFrom(f: Facts, seen: set<Str>) {
    forall x | x in f.copies :: f.copies[x] in seen
  }

  // A copy that is seen is a copy of something seen.
  ghost predicate CopiesSeen(f: Facts, seen: set<Str>) {
    forall x | x in f.copies && x in seen :: f.copies[x] in seen
  }

  lemma {:induction false} RootFrom(copies: map<Str, Str>, x: Str, visited: set<Str>, seen: set<Str>)
    requires x in seen && forall y | y in copies && y in seen :: copies[y] in seen
    ensures Root(copies, x, visited) in seen
    decreases |copies.Keys - visited|
  {
    if x !in visited && x in copies {
      assert copies.Keys - (visited + {x}) == (copies.Keys - visited) - {x};
      RootFrom(copies, copies[x], visited + {x}, seen);
    }
  }

  lemma {:induction false} FoldedUses(level: Level, f: Facts, e: Expr, seen: set<Str>)
    requires CopiesSeen(f, seen) && Used(e) <= seen
    ensures Used(OptimizedExpr(level, f, e)) <= seen
    decreases e
  {
    match e
    case Variable(x) => RootFrom(f.copies, x, {}, seen);
    case Binary(op, l, r) =>
      FoldedUses(level, f, l, seen);
      FoldedUses(level, f, r, seen);
      if !level.OptNone? {
        FoldUses(level, op, OptimizedExpr(level, f, l), OptimizedExpr(level, f, r));
      }
    case Unary(_, _) =>
    case Literal(_) =>
  }

  lemma FoldUses(level: Level, op: BinOp, l: Expr, r: Expr)
    ensures Used(FoldBinary(level, op, l, r)) <= Used(l) + Used(r)
  {
    hide FoldLiterals, Simplify;
    if l.Literal? && r.Literal? {
      LiteralsUseNone(op, l.value, r.value);
    } else if l.Literal? {
      SimplifyUses(level, op, l.value, r, true);
    } else if r.Literal? {
      SimplifyUses(level, op, r.value, l, false);
    }
  }

  lemma LiteralsUseNone(op: BinOp, a: Value, b: Value)
    ensures Used(FoldLiterals(op, a, b)) == {}
  {
    hide Wrap64, TruncDiv, TruncMod;
  }

  lemma SimplifyUses(level: Level, op: BinOp, lit: Value, other: Expr, onLeft: bool)
    ensures Used(Simplify(level, op, lit, other, onLeft)) <= Used(other)
  {
  }

  lemma {:induction false} ModifiedCasesAssigned(cases: seq<Case>)
    ensures ModifiedCases(cases) <= AssignedCases(cases)
    decreases |cases|
  {
    if cases != [] {
      ModifiedBlockAssigned(cases[0].body);
      ModifiedCasesAssigned(cases[1..]);
    }
  }

  lemma {:induction false} SingleApart(seen: set<Str>, s: Stmt)
    requires Single(seen, s)
    ensures Assigned(s) !! seen
    decreases s, 0
  {
    match s
    case If(_, t, e) =>
      SingleBlockApart(seen, t);
      SingleBlockApart(seen + AssignedBlock(t), e);
    case While(_, body) => SingleBlockApart(seen, body);
    case _ =>
  }

  lemma {:induction false} SingleBlockApart(seen: set<Str>, stmts: seq<Stmt>)
    requires SingleBlock(seen, stmts)
    ensures AssignedBlock(stmts) !! seen
    decreases stmts, 0
  {
    if stmts != [] {
      SingleApart(seen, stmts[0]);
      SingleBlockApart(seen + Assigned(stmts[0]), stmts[1..]);
    }
  }

  // Facts about names the statements do not assign are not lost.
  lemma {:induction false} StmtRetains(f: Facts, s: Stmt)
    ensures Learned(f, OptimizedStmt(OptBasic, f, s).1, Assigned(s))
    decreases s, 0
  {
    hide OptimizedExpr, ExprKey;
    match s
    case If(c, t, e) =>
      hide Learned, OptimizedBlock, AssignedBlock;
      var f1 := OptimizedBlock(OptBasic, f, t).1;
      BlockRetains(f, t);
      BlockRetains(f1, e);
      BlockRetains(f, e);
      LearnedMore(f, f1, AssignedBlock(t), Assigned(s));
      LearnedMore(f, OptimizedBlock(OptBasic, f, e).1, AssignedBlock(e), Assigned(s));
      LearnedOn(f, f1, OptimizedBlock(OptBasic, f1, e).1, AssignedBlock(e), AssignedBlock(t), Assigned(s));
    case While(c, body) =>
      hide Learned, OptimizedBlock, AssignedBlock, ModifiedBlock;
      var f0 := Forget(f, ModifiedBlock(body));
      WhileShape(f, s);
      BlockRetains(f0, body);
      ModifiedBlockAssigned(body);
      ForgetRetains(f, ModifiedBlock(body));
      LearnedOn(f, f0, OptimizedBlock(OptBasic, f0, body).1, AssignedBlock(body), ModifiedBlock(body), Assigned(s));
    case Switch(_, cases, dflt) =>
      ModifiedCasesAssigned(cases);
      ModifiedBlockAssigned(dflt);
    case _ =>
  }

  lemma ForgetRetains(f: Facts, names: set<Str>)
    ensures Learned(f, Forget(f, names), names)
  {
  }

  lemma {:induction false} BlockRetains(f: Facts, stmts: seq<Stmt>)
    ensures Learned(f, OptimizedBlock(OptBasic, f, stmts).1, AssignedBlock(stmts))
    decreases stmts, 0
  {
    hide OptimizedStmt, Assigned, Learned;
    if stmts == [] {
      LearnedSame(f, AssignedBlock(stmts));
    } else {
      var f1 := OptimizedStmt(OptBasic, f, stmts[0]).1;
      StmtRetains(f, stmts[0]);
      LearnedMore(f, f1, Assigned(stmts[0]), AssignedBlock(stmts));
      BlockRetains(f1, stmts[1..]);
      LearnedOn(f, f1, OptimizedBlock(OptBasic, f1, stmts[1..]).1, AssignedBlock(stmts[1..]), Assigned(stmts[0]), AssignedBlock(stmts));
    }
  }

  lemma LearnedSame(f: Facts, names: set<Str>)
    ensures Learned(f, f, names)
  {
  }

  lemma LearnedWithin(g: Facts, f: Facts, names: set<Str>, scope: set<Str>)
    requires Learned(g, f, names) && names !! scope
    ensures Within(g, f, scope)
  {
  }

  // Copies are always of names seen before.
  lemma {:induction false} StmtCopies(f: Facts, seen: set<Str>, s: Stmt)
    requires CopiesFrom(f, seen) && Single(seen, s)
    ensures CopiesFrom(OptimizedStmt(OptBasic, f, s).1, seen + Assigned(s))
    decreases s, 0
  {
    hide OptimizedExpr;
    match s
    case Assign(x, e) => FoldedUses(OptBasic, f, e, seen);
    case Reassign(x, e) => FoldedUses(OptBasic, f, e, seen);
    case If(c, t, e) =>
      hide OptimizedBlock;
      var f1 := OptimizedBlock(OptBasic, f, t).1;
      var more := seen + AssignedBlock(t);
      BlockCopies(f, seen, t);
      BlockCopies(f1, more, e);
      assert more + AssignedBlock(e) == seen + Assigned(s);
      BlockCopies(f, more, e);
    case While(c, body) =>
      WhileShape(f, s);
      BlockCopies(Forget(f, ModifiedBlock(body)), seen, body);
    case _ =>
  }

  lemma {:induction false} BlockCopies(f: Facts, seen: set<Str>, stmts: seq<Stmt>)
    requires CopiesFrom(f, seen) && SingleBlock(seen, stmts)
    ensures CopiesFrom(OptimizedBlock(OptBasic, f, stmts).1, seen + AssignedBlock(stmts))
    decreases stmts, 0
  {
    hide OptimizedStmt, Assigned, Single;
    if stmts != [] {
      StmtCopies(f, seen, stmts[0]);
      var more := seen + Assigned(stmts[0]);
      BlockCopies(OptimizedStmt(OptBasic, f, stmts[0]).1, more, stmts[1..]);
      assert more + AssignedBlock(stmts[1..]) == seen + AssignedBlock(stmts);
    }
  }

  lemma OpenedAssigned(f: Facts, s: Stmt)
    ensures Opened(OptBasic, f, s) <= Assigned(s)
  {
  }

  lemma {:induction false} SingleIsSafe(f: Facts, scope: set<Str>, seen: set<Str>, s: Stmt)
    requires CopiesFrom(f, seen) && Single(seen, s) && scope <= seen
    ensures Safe(OptBasic, f, scope, s)
    decreases s, 0
  {
    match s
    case If(c, t, e) =>
      hide OptimizedBlock, SafeBlock, Within, Learned, SingleBlock, AssignedBlock, ModifiedBlock, OptimizedExpr;
      var more := seen + AssignedBlock(t);
      var f1 := OptimizedBlock(OptBasic, f, t).1;
      BlockCopies(f, seen, t);
      SingleBlockIsSafe(f, scope, seen, t);
      SingleBlockIsSafe(f, scope, more, e);
      SingleBlockIsSafe(f1, scope, more, e);
      SingleBlockApart(seen, t);
      SingleBlockApart(more, e);
      ModifiedBlockAssigned(t);
      ModifiedBlockAssigned(e);
      BlockLearns(OptBasic, f, t);
      BlockLearns(OptBasic, f1, e);
      LearnedWithin(f1, f, ModifiedBlock(t), scope);
      LearnedWithin(OptimizedBlock(OptBasic, f1, e).1, f1, ModifiedBlock(e), scope);
    case While(c, body) =>
      hide OptimizedBlock, SafeBlock, Within, Learned, SingleBlock, AssignedBlock, ModifiedBlock;
      var f0 := Forget(f, ModifiedBlock(body));
      var f1 := OptimizedBlock(OptBasic, f0, body).1;
      SingleBlockIsSafe(f0, scope, seen, body);
      SingleBlockApart(seen, body);
      ModifiedBlockAssigned(body);
      BlockLearns(OptBasic, f0, body);
      BlockRetains(f0, body);
      LearnedWithin(f1, f0, ModifiedBlock(body), scope);
      LearnedWithin(f0, f1, AssignedBlock(body), scope);
    case _ =>
  }

  lemma {:induction false} SingleBlockIsSafe(f: Facts, scope: set<Str>, seen: set<Str>, stmts: seq<Stmt>)
    requires CopiesFrom(f, seen) && SingleBlock(seen, stmts) && scope <= seen
    ensures SafeBlock(OptBasic, f, scope, stmts)
    decreases stmts, 0
  {
    hide OptimizedStmt, Assigned, Single, Safe, Opened;
    if stmts != [] {
      SingleIsSafe(f, scope, seen, stmts[0]);
      StmtCopies(f, seen, stmts[0]);
      OpenedAssigned(f, stmts[0]);
      var f1 := OptimizedStmt(OptBasic, f, stmts[0]).1;
      SingleBlockIsSafe(f1, scope + Opened(OptBasic, f, stmts[0]), seen + Assigned(stmts[0]), stmts[1..]);
    }
  }

  // A fresh optimizer, on a program over `inputs` that sets every variable once: branches, loops
  // and switches included, the rewritten program ends as the original does.
  lemma SinglePreserved(reading: Reading, limit: nat, stmts: seq<Stmt>, env: Env)
    requires env != [] && Distinct(env) && SingleBlock(Names(env), stmts)
    ensures Refined(ExecBlock(reading, limit, stmts, env),
                    ExecBlock(reading, limit, OptimizedBlock(OptBasic, NOTHING_KNOWN, stmts).0, env))
  {
    hide ExecBlock, SingleBlock, SafeBlock, OptimizedBlock;
    NamesHas(env);
    SingleBlockIsSafe(NOTHING_KNOWN, Names(env), Names(env), stmts);
    BasicPreserved(reading, limit, NOTHING_KNOWN, Names(env), stmts, env, env);
  }
}
