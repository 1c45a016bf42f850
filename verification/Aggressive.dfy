/** Whole programs under the aggressive optimizer, loops included: conditions on their form under which
  * it keeps their meaning, loops it must treat right, and what goes wrong without the conditions. */
module Aggressive {
  import opened Bytes
  import opened Lang
  import opened Interpreter
  import opened Folding
  import opened ExprKeys
  import opened Rewriting
  import opened Frames
  import opened Hoisting
  import opened Safety
  import opened Preservation
  import Arithmetic
  import StaleFacts

  // ---- from a fresh optimizer ----

  // A block that is safe, reuses no stale expression and moves nothing that fails: the rewritten program
  // ends as the original does, at either level.
  lemma UnitPreserved(reading: Reading, limit: nat, level: Level, stmts: seq<Stmt>, env: Env)
    requires env != [] && Distinct(env) && !level.OptNone? && SafeBlock(level, NOTHING_KNOWN, Names(env), stmts)
    requires FreshBlock(level, NOTHING_KNOWN, iset{}, stmts) && MovesBlock(reading, limit, level, stmts, env)
    ensures Refined(ExecBlock(reading, limit, stmts, env),
                    ExecBlock(reading, limit, OptimizedBlock(level, NOTHING_KNOWN, stmts).0, env))
  {
    hide ExecBlock, SafeBlock, FreshBlock, MovesBlock, OptimizedBlock, Holds, HoldsExcept;
    NamesHas(env);
    NothingHolds(env);
    NothingRecalled(reading, NOTHING_KNOWN, env);
    BlockPreserved(reading, limit, level, NOTHING_KNOWN, iset{}, Names(env), stmts, env, env);
  }

  lemma NothingHolds(env: Env)
    ensures Holds(NOTHING_KNOWN, env)
  {
  }

  // An expression that never fails.
  predicate Sure(e: Expr) {
    match e
    case Literal(_) => true
    case Binary(op, l, r) => (op.Eq? || op.Ne?) && Sure(l) && Sure(r)
    case Variable(_) => false
    case Unary(_, _) => false
  }

  // What moves in front of a loop never fails. Nothing may move at all.
  predicate SureStmt(s: Stmt)
    decreases Weight(s), 0
  {
    match s
    case If(_, t, e) => SureBlock(t) && SureBlock(e)
    case While(_, body) =>
      var (out, rest) := Hoisted(body, ModifiedBlock(body), Used(s.cond));
      (forall m | m in out :: m.Assign? ==> Sure(m.value)) && SureBlock(rest)
    case _ => true
  }

  predicate SureBlock(stmts: seq<Stmt>)
    decreases WeightBlock(stmts), 1
  {
    stmts == [] || (SureStmt(stmts[0]) && SureBlock(stmts[1..]))
  }

  lemma {:induction false} SureEvaluates(reading: Reading, e: Expr, env: Env)
    requires Sure(e)
    ensures Eval(reading, e, env).Ok?
    decreases e
  {
    match e
    case Literal(_) =>
    case Binary(_, l, r) =>
      SureEvaluates(reading, l, env);
      SureEvaluates(reading, r, env);
  }

  lemma {:induction false} SureMoves(reading: Reading, limit: nat, level: Level, s: Stmt, env: Env)
    requires env != [] && SureStmt(s)
    ensures Moves(reading, limit, level, s, env)
    decreases Weight(s), 2, 0
  {
    hide ExecBlock, Eval, Hoisted, MovesBlock, MovesRounds;
    if s.If? {
      SureBlockMoves(reading, limit, level, s.thenBlock, env + [map[]]);
      SureBlockMoves(reading, limit, level, s.elseBlock, env + [map[]]);
    } else if s.While? {
      HoistedWeight(OptAggressive, s);
      HoistedSets(s.body, ModifiedBlock(s.body), Used(s.cond));
      forall m | m in MovedOut(s) ensures Eval(reading, m.value, env).Ok? {
        SureEvaluates(reading, m.value, env);
      }
      var o := ExecBlock(reading, limit, MovedOut(s), env);
      if o.Normal? {
        SureRounds(reading, limit, level, While(s.cond, Remaining(s)), o.env, 0);
      }
    }
  }

  lemma {:induction false} SureBlockMoves(reading: Reading, limit: nat, level: Level, stmts: seq<Stmt>, env: Env)
    requires env != [] && SureBlock(stmts)
    ensures MovesBlock(reading, limit, level, stmts, env)
    decreases WeightBlock(stmts), 3, 0
  {
    hide Exec, Moves, SureStmt;
    if stmts != [] {
      SureMoves(reading, limit, level, stmts[0], env);
      var o := Exec(reading, limit, stmts[0], env);
      if o.Normal? {
        SureBlockMoves(reading, limit, level, stmts[1..], o.env);
      }
    }
  }

  lemma {:induction false} SureRounds(reading: Reading, limit: nat, level: Level, loop: Stmt, env: Env, n: nat)
    requires loop.While? && env != [] && n <= limit && SureBlock(loop.body)
    ensures MovesRounds(reading, limit, level, loop, env, n)
    decreases Weight(loop), 1, limit - n
  {
    hide ExecBlock, Eval, MovesBlock, SureBlock, CloseScope;
    if n < limit {
      SureBlockMoves(reading, limit, level, loop.body, env + [map[]]);
      DepthKept(reading, limit, loop.body, env);
      var o := CloseScope(ExecBlock(reading, limit, loop.body, env + [map[]]));
      if o.Normal? || o.Continued? {
        SureRounds(reading, limit, level, loop, o.env, n + 1);
      }
    }
  }

  // Then conditions on the form of the program alone are enough, for every input and every limit.
  lemma SureUnit(reading: Reading, limit: nat, stmts: seq<Stmt>, env: Env)
    requires env != [] && Distinct(env) && SafeBlock(OptAggressive, NOTHING_KNOWN, Names(env), stmts)
    requires FreshBlock(OptAggressive, NOTHING_KNOWN, iset{}, stmts) && SureBlock(stmts)
    ensures Refined(ExecBlock(reading, limit, stmts, env),
                    ExecBlock(reading, limit, OptimizedBlock(OptAggressive, NOTHING_KNOWN, stmts).0, env))
  {
    hide *;
    SureBlockMoves(reading, limit, OptAggressive, stmts, env);
    UnitPreserved(reading, limit, OptAggressive, stmts, env);
  }

  // ---- loops ----

  lemma RewriteFirst(f: Facts, s: Stmt, rest: seq<Stmt>)
    requires !s.Return?
    ensures var (first, f1) := OptimizedStmt(OptAggressive, f, s);
            var (others, f2) := OptimizedBlock(OptAggressive, f1, rest);
            OptimizedBlock(OptAggressive, f, [s] + rest) == (first + others, f2)
  {
    assert ([s] + rest)[1..] == rest;
  }

  lemma RewriteOnly(f: Facts, s: Stmt)
    ensures OptimizedBlock(OptAggressive, f, [s]) == OptimizedStmt(OptAggressive, f, s)
  {
    var (first, f1) := OptimizedStmt(OptAggressive, f, s);
    assert [s][1..] == [];
    assert first + [] == first;
  }

  lemma SafeFirst(f: Facts, scope: set<Str>, trusted: iset<Expr>, s: Stmt, rest: seq<Stmt>)
    requires Safe(OptAggressive, f, scope, s) && Fresh(OptAggressive, f, trusted, s) && SureStmt(s) && !s.Return?
    requires var f1 := OptimizedStmt(OptAggressive, f, s).1;
             && SafeBlock(OptAggressive, f1, scope + Opened(OptAggressive, f, s), rest)
             && FreshBlock(OptAggressive, f1, Trusted(OptAggressive, f, trusted, s), rest)
    requires SureBlock(rest)
    ensures SafeBlock(OptAggressive, f, scope, [s] + rest) && FreshBlock(OptAggressive, f, trusted, [s] + rest)
    ensures SureBlock([s] + rest)
  {
    assert ([s] + rest)[1..] == rest;
  }

  function Next(i: Str, step: Int64): Expr {
    Binary(Add, Variable(i), Literal(Int(step)))
  }

  function Below(i: Str, n: Str): Expr {
    Binary(Lt, Variable(i), Variable(n))
  }

  // while i < n { i = i + step }
  function Count(i: Str, n: Str, step: Int64): Stmt {
    While(Below(i, n), [Reassign(i, Next(i, step))])
  }

  // i = 0;  while i < n { i = i + step };  return i
  function Counting(i: Str, n: Str, step: Int64): seq<Stmt> {
    [Assign(i, Literal(Int(0)))] + ([Count(i, n, step)] + [Return(Variable(i))])
  }

  // An expression over variables nothing is known of stays as it is.
  lemma NextStays(f: Facts, i: Str, step: Int64)
    requires i !in f.constants && i !in f.copies && step != 0
    ensures OptimizedExpr(OptAggressive, f, Next(i, step)) == Next(i, step)
  {
    assert OptimizedExpr(OptAggressive, f, Variable(i)) == Variable(i);
    assert OptimizedExpr(OptAggressive, f, Literal(Int(step))) == Literal(Int(step));
  }

  lemma BelowStays(f: Facts, i: Str, n: Str)
    requires i !in f.constants && i !in f.copies && n !in f.constants && n !in f.copies
    ensures OptimizedExpr(OptAggressive, f, Below(i, n)) == Below(i, n)
  {
    assert OptimizedExpr(OptAggressive, f, Variable(i)) == Variable(i);
    assert OptimizedExpr(OptAggressive, f, Variable(n)) == Variable(n);
  }

  // The facts behind the loop: the counter's new value is remembered, and nothing about variables.
  function Behind(i: Str, step: Int64): Facts {
    Facts(map[], map[], map[ExprKey(Next(i, step)) := i])
  }

  // Nothing moves out of the loop, and its rewriting starts with nothing known.
  lemma CountParts(i: Str, n: Str, step: Int64)
    requires i != n && step != 0
    ensures var s, f := Count(i, n, step), Facts(map[i := Int(0)], map[], map[]);
            && ModifiedBlock(s.body) == {i} == AssignedBlock(s.body) && Forget(f, ModifiedBlock(s.body)) == NOTHING_KNOWN
            && Hoisted(s.body, ModifiedBlock(s.body), Used(s.cond)) == ([], s.body)
            && OptimizedBlock(OptAggressive, NOTHING_KNOWN, []) == ([], NOTHING_KNOWN)
            && OptimizedBlock(OptAggressive, NOTHING_KNOWN, s.body) == (s.body, Behind(i, step))
  {
    hide ExprKey;
    var s, put := Count(i, n, step), Reassign(i, Next(i, step));
    assert s.body[1..] == [];
    assert Hoisted(s.body, {i}, Used(s.cond)) == ([], [put] + []);
    assert [put] + [] == s.body;
    NextStays(NOTHING_KNOWN, i, step);
    KeyOfNext(i, step);
    NothingToDrop(i);
    assert OptimizedStmt(OptAggressive, NOTHING_KNOWN, put) == ([put], Behind(i, step));
    RewriteOnly(NOTHING_KNOWN, put);
  }

  // The counter is not taken for 0 in the loop, although it is 0 in front of it.
  lemma CountRewritten(i: Str, n: Str, step: Int64)
    requires i != n && step != 0
    ensures var f := Facts(map[i := Int(0)], map[], map[]);
            OptimizedStmt(OptAggressive, f, Count(i, n, step)) == ([Count(i, n, step)], Behind(i, step))
  {
    hide ExprKey, OptimizedBlock, Hoisted, ModifiedBlock, OptimizedExpr, OptimizedStmt, Used;
    var s := Count(i, n, step);
    CountParts(i, n, step);
    LoopShape(OptAggressive, Facts(map[i := Int(0)], map[], map[]), s);
    BelowStays(NOTHING_KNOWN, i, n);
    assert [] + [s] == [s];
  }

  lemma KeyOfNext(i: Str, step: Int64)
    ensures ExprKey(Next(i, step)) != []
  {
  }

  lemma NothingToDrop(i: Str)
    ensures NOTHING_KNOWN.constants - {i} == map[] && NOTHING_KNOWN.copies - {i} == map[] && NOTHING_KNOWN.expressions - {i} == map[]
  {
  }

  // Counting loops come out as they are, and meet all the conditions.
  lemma CountingKept(i: Str, n: Str, step: Int64, scope: set<Str>)
    requires i != n && step != 0
    ensures OptimizedBlock(OptAggressive, NOTHING_KNOWN, Counting(i, n, step)).0 == Counting(i, n, step)
    ensures SafeBlock(OptAggressive, NOTHING_KNOWN, scope, Counting(i, n, step))
    ensures FreshBlock(OptAggressive, NOTHING_KNOWN, iset{}, Counting(i, n, step)) && SureBlock(Counting(i, n, step))
  {
    hide ExprKey, OptimizedBlock, OptimizedStmt, SafeBlock, FreshBlock, SureBlock, Safe, Fresh, SureStmt, Trusted;
    var set0, s, ret := Assign(i, Literal(Int(0))), Count(i, n, step), Return(Variable(i));
    var f := Facts(map[i := Int(0)], map[], map[]);
    SetZero(i);
    CountRewritten(i, n, step);
    ReturnRewritten(Behind(i, step), i);
    RewriteFirst(NOTHING_KNOWN, set0, [s] + [ret]);
    RewriteFirst(f, s, [ret]);
    RewriteOnly(Behind(i, step), ret);
    var scope1 := scope + Opened(OptAggressive, NOTHING_KNOWN, set0);
    var trusted1 := Trusted(OptAggressive, NOTHING_KNOWN, iset{}, set0);
    CountSafe(i, n, step, scope1, trusted1);
    ReturnSafe(Behind(i, step), scope1 + Opened(OptAggressive, f, s), Trusted(OptAggressive, f, trusted1, s), ret);
    SafeFirst(f, scope1, trusted1, s, [ret]);
    SetSafe(scope, set0);
    SafeFirst(NOTHING_KNOWN, scope, iset{}, set0, [s] + [ret]);
  }

  lemma SetZero(i: Str)
    ensures OptimizedStmt(OptAggressive, NOTHING_KNOWN, Assign(i, Literal(Int(0)))) ==
              ([Assign(i, Literal(Int(0)))], Facts(map[i := Int(0)], map[], map[]))
  {
    NothingToDrop(i);
    assert OptimizedExpr(OptAggressive, NOTHING_KNOWN, Literal(Int(0))) == Literal(Int(0));
  }

  lemma ReturnRewritten(f: Facts, i: Str)
    requires i !in f.constants && i !in f.copies
    ensures OptimizedStmt(OptAggressive, f, Return(Variable(i))) == ([Return(Variable(i))], f)
  {
    assert OptimizedExpr(OptAggressive, f, Variable(i)) == Variable(i);
  }

  lemma ReturnSafe(f: Facts, scope: set<Str>, trusted: iset<Expr>, s: Stmt)
    requires s.Return?
    ensures SafeBlock(OptAggressive, f, scope, [s]) && FreshBlock(OptAggressive, f, trusted, [s]) && SureBlock([s])
  {
    assert [s][1..] == [];
  }

  lemma SetSafe(scope: set<Str>, s: Stmt)
    requires s.Assign? && s.value.Literal?
    ensures Safe(OptAggressive, NOTHING_KNOWN, scope, s) && Fresh(OptAggressive, NOTHING_KNOWN, iset{}, s) && SureStmt(s)
  {
  }

  lemma CountSafe(i: Str, n: Str, step: Int64, scope: set<Str>, trusted: iset<Expr>)
    requires i != n && step != 0
    ensures var f := Facts(map[i := Int(0)], map[], map[]);
            && Safe(OptAggressive, f, scope, Count(i, n, step)) && Fresh(OptAggressive, f, trusted, Count(i, n, step))
            && SureStmt(Count(i, n, step))
  {
    hide ExprKey, OptimizedBlock, Hoisted, ModifiedBlock, OptimizedExpr, OptimizedStmt, Used, AssignedBlock, SafeBlock, FreshBlock,
      Surviving, SureBlock, TrustedAtHead;
    var f := Facts(map[i := Int(0)], map[], map[]);
    var s, put := Count(i, n, step), Reassign(i, Next(i, step));
    CountParts(i, n, step);
    NothingSafe(scope, Surviving(f, NOTHING_KNOWN, trusted, {}));
    PutSafe(put, scope + AssignedBlock([]), TrustedAtHead(OptAggressive, f, trusted, s));
  }

  lemma NothingSafe(scope: set<Str>, trusted: iset<Expr>)
    ensures SafeBlock(OptAggressive, NOTHING_KNOWN, scope, []) && FreshBlock(OptAggressive, NOTHING_KNOWN, trusted, [])
    ensures AssignedBlock([]) == {}
  {
  }

  lemma PutSafe(put: Stmt, scope: set<Str>, trusted: iset<Expr>)
    requires put.Reassign?
    ensures SafeBlock(OptAggressive, NOTHING_KNOWN, scope, [put]) && FreshBlock(OptAggressive, NOTHING_KNOWN, trusted, [put])
    ensures SureBlock([put])
  {
    hide OptimizedExpr, ExprKey;
    assert [put][1..] == [];
  }

  // ---- a loop out of which an assignment moves ----

  // while i < n { t = k;  i = i + t }
  function Stepping(i: Str, n: Str, t: Str, k: Int64): Stmt {
    While(Below(i, n), [Assign(t, Literal(Int(k)))] + [Reassign(i, Binary(Add, Variable(i), Variable(t)))])
  }

  // In front of the loop t is known to be k.
  function KnownStep(t: Str, k: Int64): Facts {
    Facts(map[t := Int(k)], map[], map[])
  }

  function BehindStepping(i: Str, t: Str, k: Int64): Facts {
    Facts(map[t := Int(k)], map[], map[ExprKey(Next(i, k)) := i])
  }

  lemma SteppingMoves(i: Str, n: Str, t: Str, k: Int64)
    requires i != n && t != i && t != n
    ensures var s, f := Stepping(i, n, t, k), Facts(map[i := Int(0)], map[], map[]);
            && ModifiedBlock(s.body) == {t, i} && Forget(f, ModifiedBlock(s.body)) == NOTHING_KNOWN
            && Hoisted(s.body, ModifiedBlock(s.body), Used(s.cond)) ==
                 ([Assign(t, Literal(Int(k)))], [Reassign(i, Binary(Add, Variable(i), Variable(t)))])
  {
    var s := Stepping(i, n, t, k);
    var put, add := Assign(t, Literal(Int(k))), Reassign(i, Binary(Add, Variable(i), Variable(t)));
    assert s.body[1..] == [add] && [add][1..] == [];
    assert ModifiedBlock([add]) == {i};
    assert Hoisted([add], {t, i}, Used(s.cond)) == ([], [add] + []);
    assert Hoisted(s.body, {t, i}, Used(s.cond)) == ([put] + [], [add] + []);
    assert [add] + [] == [add] && [put] + [] == [put];
  }

  lemma SteppingParts(i: Str, t: Str, k: Int64)
    requires t != i && k != 0
    ensures OptimizedBlock(OptAggressive, NOTHING_KNOWN, [Assign(t, Literal(Int(k)))]) ==
              ([Assign(t, Literal(Int(k)))], KnownStep(t, k))
    ensures OptimizedBlock(OptAggressive, KnownStep(t, k), [Reassign(i, Binary(Add, Variable(i), Variable(t)))]) ==
              ([Reassign(i, Next(i, k))], BehindStepping(i, t, k))
  {
    hide ExprKey;
    var put, add := Assign(t, Literal(Int(k))), Reassign(i, Binary(Add, Variable(i), Variable(t)));
    var f1 := KnownStep(t, k);
    NothingToDrop(t);
    assert OptimizedExpr(OptAggressive, NOTHING_KNOWN, Literal(Int(k))) == Literal(Int(k));
    assert ExprKey(Literal(Int(k))) == [] by { KeyOfLiteral(Int(k)); }
    assert OptimizedStmt(OptAggressive, NOTHING_KNOWN, put) == ([put], f1);
    RewriteOnly(NOTHING_KNOWN, put);
    assert OptimizedExpr(OptAggressive, f1, Variable(i)) == Variable(i);
    assert OptimizedExpr(OptAggressive, f1, Variable(t)) == Literal(Int(k));
    assert OptimizedExpr(OptAggressive, f1, Binary(Add, Variable(i), Variable(t))) == Next(i, k);
    KeyOfNext(i, k);
    assert f1.constants - {i} == f1.constants && f1.copies - {i} == f1.copies;
    assert OptimizedStmt(OptAggressive, f1, add) == ([Reassign(i, Next(i, k))], BehindStepping(i, t, k));
    RewriteOnly(f1, add);
  }

  lemma KeyOfLiteral(v: Value)
    ensures ExprKey(Literal(v)) == []
  {
  }

  // The assignment moves, and its value goes into the loop.
  lemma SteppingRewritten(i: Str, n: Str, t: Str, k: Int64)
    requires i != n && t != i && t != n && k != 0
    ensures OptimizedStmt(OptAggressive, Facts(map[i := Int(0)], map[], map[]), Stepping(i, n, t, k)) ==
              ([Assign(t, Literal(Int(k)))] + [Count(i, n, k)], BehindStepping(i, t, k))
  {
    hide ExprKey, OptimizedBlock, Hoisted, ModifiedBlock, OptimizedExpr, OptimizedStmt, Used;
    SteppingMoves(i, n, t, k);
    SteppingParts(i, t, k);
    LoopShape(OptAggressive, Facts(map[i := Int(0)], map[], map[]), Stepping(i, n, t, k));
    BelowStays(KnownStep(t, k), i, n);
  }

  lemma SteppingSafe(i: Str, n: Str, t: Str, k: Int64, scope: set<Str>, trusted: iset<Expr>)
    requires i != n && t != i && t != n && k != 0 && t !in scope
    ensures var f, s := Facts(map[i := Int(0)], map[], map[]), Stepping(i, n, t, k);
            Safe(OptAggressive, f, scope, s) && Fresh(OptAggressive, f, trusted, s) && SureStmt(s)
  {
    hide ExprKey, OptimizedBlock, Hoisted, ModifiedBlock, OptimizedExpr, OptimizedStmt, Used, AssignedBlock, SafeBlock, FreshBlock,
      Surviving, SureBlock, TrustedAtHead, Independent;
    var f, s := Facts(map[i := Int(0)], map[], map[]), Stepping(i, n, t, k);
    var put, add := Assign(t, Literal(Int(k))), Reassign(i, Binary(Add, Variable(i), Variable(t)));
    SteppingMoves(i, n, t, k);
    SteppingParts(i, t, k);
    AssignedOne(put);
    AssignedOne(add);
    MovedAlone(put, add);
    OneSafe(NOTHING_KNOWN, scope, Surviving(f, NOTHING_KNOWN, trusted, {}), put);
    OneSafe(KnownStep(t, k), scope + {t}, TrustedAtHead(OptAggressive, f, trusted, s), add);
  }

  lemma MovedAlone(put: Stmt, add: Stmt)
    requires put.Assign? && put.value.Literal? && add.Reassign? && put.target != add.target
    ensures Independent([put], [add])
  {
    AssignedOne(add);
  }

  lemma OneSafe(f: Facts, scope: set<Str>, trusted: iset<Expr>, s: Stmt)
    requires (s.Assign? || s.Reassign?) && f.copies == map[] && f.expressions == map[]
    ensures SafeBlock(OptAggressive, f, scope, [s]) && FreshBlock(OptAggressive, f, trusted, [s])
    ensures SureBlock([s])
  {
    hide OptimizedExpr, ExprKey;
    assert [s][1..] == [];
  }

  // i = 0;  while i < n { t = k;  i = i + t };  return i  comes out as
  // i = 0;  t = k;  while i < n { i = i + k };  return i, and does the same wherever t is new.
  lemma StepMoved(reading: Reading, limit: nat, i: Str, n: Str, t: Str, k: Int64, env: Env)
    requires i != n && t != i && t != n && k != 0 && env != [] && Distinct(env) && !Has(env, t)
    ensures var set0, ret := Assign(i, Literal(Int(0))), Return(Variable(i));
            var program := [set0] + ([Stepping(i, n, t, k)] + [ret]);
            var program' := [set0] + ([Assign(t, Literal(Int(k)))] + [Count(i, n, k)] + [ret]);
            && OptimizedBlock(OptAggressive, NOTHING_KNOWN, program).0 == program'
            && Refined(ExecBlock(reading, limit, program, env), ExecBlock(reading, limit, program', env))
  {
    hide ExprKey, OptimizedBlock, OptimizedStmt, SafeBlock, FreshBlock, SureBlock, Safe, Fresh, SureStmt, Trusted, ExecBlock, Stepping;
    var set0, s, ret := Assign(i, Literal(Int(0))), Stepping(i, n, t, k), Return(Variable(i));
    var f := Facts(map[i := Int(0)], map[], map[]);
    SetZero(i);
    SteppingRewritten(i, n, t, k);
    ReturnRewritten(BehindStepping(i, t, k), i);
    RewriteFirst(NOTHING_KNOWN, set0, [s] + [ret]);
    SteppingIsLoop(i, n, t, k);
    RewriteFirst(f, s, [ret]);
    RewriteOnly(BehindStepping(i, t, k), ret);
    NamesHas(env);
    var scope := Names(env) + Opened(OptAggressive, NOTHING_KNOWN, set0);
    var trusted := Trusted(OptAggressive, NOTHING_KNOWN, iset{}, set0);
    SteppingSafe(i, n, t, k, scope, trusted);
    ReturnSafe(BehindStepping(i, t, k), scope + Opened(OptAggressive, f, s), Trusted(OptAggressive, f, trusted, s), ret);
    SafeFirst(f, scope, trusted, s, [ret]);
    SetSafe(Names(env), set0);
    SafeFirst(NOTHING_KNOWN, Names(env), iset{}, set0, [s] + [ret]);
    SureUnit(reading, limit, [set0] + ([s] + [ret]), env);
  }

  lemma SteppingIsLoop(i: Str, n: Str, t: Str, k: Int64)
    ensures Stepping(i, n, t, k).While?
  {
  }

  // ---- a stale expression ----

  function Product(x: Str, y: Str): Expr {
    Binary(Mul, Variable(x), Variable(y))
  }

  // x = x + 1;  b = x * y;  return b, where a was set to x * y before
  function ChangeAndReuse(x: Str, y: Str, b: Str, reused: Expr, result: Str): seq<Stmt> {
    [Reassign(x, Next(x, 1))] + ([Assign(b, reused)] + [Return(Variable(result))])
  }

  function Reused(a: Str, b: Str, x: Str, y: Str): seq<Stmt> {
    [Assign(a, Product(x, y))] + ChangeAndReuse(x, y, b, Product(x, y), b)
  }

  lemma ProductStays(f: Facts, x: Str, y: Str)
    requires f.constants == map[] && f.copies == map[]
    ensures OptimizedExpr(OptAggressive, f, Product(x, y)) == Product(x, y) && ExprKey(Product(x, y)) != []
  {
    assert OptimizedExpr(OptAggressive, f, Variable(x)) == Variable(x);
    assert OptimizedExpr(OptAggressive, f, Variable(y)) == Variable(y);
  }

  lemma KeysDiffer(x: Str, y: Str)
    ensures ExprKey(Product(x, y)) != ExprKey(Next(x, 1))
  {
    var k, k' := ExprKey(Product(x, y)), ExprKey(Next(x, 1));
    assert k[1] == OpText(Mul)[0] && k'[1] == OpText(Add)[0];
  }

  // The product is remembered for a although x has changed.
  lemma ReusedRewritten(a: Str, b: Str, x: Str, y: Str)
    requires |{a, b, x, y}| == 4
    ensures OptimizedBlock(OptAggressive, NOTHING_KNOWN, Reused(a, b, x, y)).0 ==
              [Assign(a, Product(x, y))] + ChangeAndReuse(x, y, b, Variable(a), a)
  {
    hide ExprKey;
    var put, change, reuse, ret := Assign(a, Product(x, y)), Reassign(x, Next(x, 1)), Assign(b, Product(x, y)), Return(Variable(b));
    var k, k' := ExprKey(Product(x, y)), ExprKey(Next(x, 1));
    var f1 := Facts(map[], map[], map[k := a]);
    var f2 := Facts(map[], map[], map[k := a][k' := x]);
    var f3 := Facts(map[], map[b := a], f2.expressions);
    NothingToDrop(a);
    NothingToDrop(x);
    NothingToDrop(b);
    KeysDiffer(x, y);
    KeyOfNext(x, 1);
    ProductStays(NOTHING_KNOWN, x, y);
    assert OptimizedStmt(OptAggressive, NOTHING_KNOWN, put) == ([put], f1);
    NextStays(f1, x, 1);
    assert OptimizedStmt(OptAggressive, f1, change) == ([change], f2);
    ProductStays(f2, x, y);
    assert OptimizedStmt(OptAggressive, f2, reuse) == ([Assign(b, Variable(a))], f3);
    assert Root(f3.copies, a, {} + {b}) == a;
    assert OptimizedExpr(OptAggressive, f3, Variable(b)) == Variable(a);
    RewriteFirst(NOTHING_KNOWN, put, [change] + ([reuse] + [ret]));
    RewriteFirst(f1, change, [reuse] + [ret]);
    RewriteFirst(f2, reuse, [ret]);
    RewriteOnly(f3, ret);
  }

  // What the program returns from each of its two forms, a's value and b's apart.
  lemma ReuseRuns(reading: Reading, limit: nat, x: Str, y: Str, a: Str, b: Str, env: Env, p: Int64, q: Int64)
    requires |{a, b, x, y}| == 4 && env != [] && Get(env, x) == Ok(Int(p)) && Get(env, y) == Ok(Int(q))
    ensures ExecBlock(reading, limit, Reused(a, b, x, y), env) == Returned(Int(Wrap64(Wrap64(p + 1) * q)))
    ensures ExecBlock(reading, limit, [Assign(a, Product(x, y))] + ChangeAndReuse(x, y, b, Variable(a), a), env) ==
              Returned(Int(Wrap64(p * q)))
  {
    hide Exec, ExecBlock, AssignVar, Wrap64;
    var v, w := Int(Wrap64(p * q)), Int(Wrap64(p + 1));
    var env1 := AssignVar(env, a, v);
    var env2 := AssignVar(env1, x, w);
    SetRuns(reading, limit, a, Product(x, y), env, v);
    forall z ensures Get(env1, z) == if z == a then Ok(v) else Get(env, z) {
      AssignGet(env, a, v, z);
    }
    HasGets(env1, x);
    assert Eval(reading, Next(x, 1), env1) == Ok(w);
    ChangeRuns(reading, limit, x, Next(x, 1), env1, w);
    forall z ensures Get(env2, z) == if z == x then Ok(w) else Get(env1, z) {
      AssignGet(env1, x, w, z);
    }
    var u := Int(Wrap64(w.i * q));
    assert Eval(reading, Product(x, y), env2) == Ok(u);
    assert Eval(reading, Variable(a), env2) == Ok(v);
    ReuseEnds(reading, limit, x, y, b, Product(x, y), b, env1, env2, u, u);
    ReuseEnds(reading, limit, x, y, b, Variable(a), a, env1, env2, v, v);
    StaleFacts.RunFirst(reading, limit, Assign(a, Product(x, y)), ChangeAndReuse(x, y, b, Product(x, y), b), env);
    StaleFacts.RunFirst(reading, limit, Assign(a, Product(x, y)), ChangeAndReuse(x, y, b, Variable(a), a), env);
  }

  lemma SetRuns(reading: Reading, limit: nat, x: Str, e: Expr, env: Env, v: Value)
    requires env != [] && Eval(reading, e, env) == Ok(v)
    ensures Exec(reading, limit, Assign(x, e), env) == Normal(AssignVar(env, x, v), v)
  {
  }

  lemma ChangeRuns(reading: Reading, limit: nat, x: Str, e: Expr, env: Env, v: Value)
    requires env != [] && Has(env, x) && Eval(reading, e, env) == Ok(v)
    ensures Exec(reading, limit, Reassign(x, e), env) == Normal(AssignVar(env, x, v), v)
  {
    ReassignAssigns(env, x, v);
  }

  lemma ReuseEnds(reading: Reading, limit: nat, x: Str, y: Str, b: Str, e: Expr, result: Str, env1: Env, env2: Env, v: Value, r: Value)
    requires env1 != [] && env2 != [] && Exec(reading, limit, Reassign(x, Next(x, 1)), env1).Normal?
    requires Exec(reading, limit, Reassign(x, Next(x, 1)), env1).env == env2
    requires Eval(reading, e, env2) == Ok(v) && (if result == b then r == v else Get(env2, result) == Ok(r))
    ensures ExecBlock(reading, limit, ChangeAndReuse(x, y, b, e, result), env1) == Returned(r)
  {
    hide Exec, ExecBlock, AssignVar;
    var env3 := AssignVar(env2, b, v);
    SetRuns(reading, limit, b, e, env2, v);
    AssignGet(env2, b, v, result);
    StaleFacts.RunFirst(reading, limit, Reassign(x, Next(x, 1)), [Assign(b, e)] + [Return(Variable(result))], env1);
    StaleFacts.RunFirst(reading, limit, Assign(b, e), [Return(Variable(result))], env2);
    StaleFacts.RunReturn(reading, limit, Variable(result), env3, r);
  }

  // p * q is (p + 1) * q, in 64 bits, exactly if q is 0.
  lemma ProductsMeet(p: Int64, q: Int64)
    ensures Wrap64(Wrap64(p + 1) * q) == Wrap64(p * q) <==> q == 0
  {
    hide Wrap64;
    var s := Wrap64(p + 1);
    Arithmetic.WrapIsWord(p + 1);
    Arithmetic.WrapIsWord(s * q);
    Arithmetic.WrapIsWord(p * q);
    var m := (p + 1 - s) / TWO64;
    assert s == p + 1 - m * TWO64;
    Multiplied(p, q, s, m);
    if q == 0 {
      assert s * q == 0 == p * q;
    } else if Wrap64(s * q) == Wrap64(p * q) {
      var j, k := (s * q - Wrap64(s * q)) / TWO64, (p * q - Wrap64(p * q)) / TWO64;
      assert s * q - p * q == (j - k) * TWO64;
      Apart(q, j - k + m * q);
    }
  }

  lemma Multiplied(p: int, q: int, s: int, m: int)
    requires s == p + 1 - m * TWO64
    ensures s * q == p * q + q - (m * q) * TWO64
  {
  }

  lemma Apart(q: Int64, k: int)
    requires q != 0
    ensures q != k * TWO64
  {
  }

  // A remembered product of a variable that has changed since is believed: kept exactly if the other
  // factor is 0.
  lemma StaleExpression(reading: Reading, limit: nat, x: Str, y: Str, a: Str, b: Str, env: Env, p: Int64, q: Int64)
    requires |{a, b, x, y}| == 4 && env != [] && Get(env, x) == Ok(Int(p)) && Get(env, y) == Ok(Int(q))
    ensures ExecBlock(reading, limit, OptimizedBlock(OptAggressive, NOTHING_KNOWN, Reused(a, b, x, y)).0, env)
              == ExecBlock(reading, limit, Reused(a, b, x, y), env)
            <==> q == 0
  {
    hide ExecBlock, OptimizedBlock, Wrap64, Reused, ChangeAndReuse;
    ReusedRewritten(a, b, x, y);
    ReuseRuns(reading, limit, x, y, a, b, env, p, q);
    ProductsMeet(p, q);
  }
}
