/** The conditions under which the optimizer's rewriting keeps the meaning of statements, at either level,
  * and what rewriting learns and writes. */
module Safety {
  import opened Bytes
  import opened Lang
  import opened Interpreter
  import opened Folding
  import opened ExprKeys
  import opened Rewriting
  import opened Frames
  import opened Hoisting

  // ---- facts about variables ----

  // No fact about a variable of the scope is new in g.
  ghost predicate Within(g: Facts, f: Facts, scope: set<Str>) {
    forall x | x in scope ::
      && (x in g.constants ==> x in f.constants && g.constants[x] == f.constants[x])
      && (x in g.copies ==> x in f.copies && g.copies[x] == f.copies[x])
  }

  // Nothing is known that involves the names.
  ghost predicate Unaffected(f: Facts, scope: set<Str>, names: set<Str>) {
    forall x | x in scope ::
      && (x in names ==> x !in f.constants && x !in f.copies)
      && (x in f.copies ==> f.copies[x] !in names)
  }

  // What moves in front of a loop, and what stays: below the aggressive level, nothing moves.
  function Parts(level: Level, s: Stmt): (seq<Stmt>, seq<Stmt>)
    requires s.While?
  {
    if level.OptAggressive? then Hoisted(s.body, ModifiedBlock(s.body), Used(s.cond)) else ([], s.body)
  }

  // The names a rewritten statement may add to the scope it stands in: its own target; for an if
  // whose condition has become a constant, what the spliced-in branch defines; for a loop, what moves
  // in front of it.
  function Opened(level: Level, f: Facts, s: Stmt): set<Str> {
    match s
    case Assign(x, _) => {x}
    case If(c, t, e) =>
      var c' := OptimizedExpr(level, f, c);
      if c' == Literal(Bool(true)) then AssignedBlock(t)
      else if c' == Literal(Bool(false)) then AssignedBlock(e)
      else {}
    case While(_, _) => AssignedBlock(Parts(level, s).0)
    case _ => {}
  }

  // Rewriting s, knowing f, in a scope whose variables are all in `scope`, never keeps a fact
  // that the run can make false:
  // - a variable that others are known to be copies of is not set again;
  // - the branches of an if leave the facts about the variables in scope as they were or fewer;
  // - a loop's body leaves them exactly as they are when it starts;
  // - what moves in front of a loop is new there, and nothing else in the loop sets it or what it reads;
  // - a switch sets no variable something is known about.
  ghost predicate Safe(level: Level, f: Facts, scope: set<Str>, s: Stmt)
    decreases Weight(s), 0
  {
    match s
    case Assign(x, _) => NotCopied(f, scope, x)
    case Reassign(x, _) => NotCopied(f, scope, x)
    case If(c, t, e) =>
      var c' := OptimizedExpr(level, f, c);
      if c' == Literal(Bool(true)) then SafeBlock(level, f, scope, t)
      else if c' == Literal(Bool(false)) then SafeBlock(level, f, scope, e)
      else
        var f1 := OptimizedBlock(level, f, t).1;
        var f2 := OptimizedBlock(level, f1, e).1;
        && SafeBlock(level, f, scope, t) && Within(f1, f, scope)
        && SafeBlock(level, f1, scope, e) && Within(f2, f1, scope)
    case While(_, body) =>
      var f0 := Forget(f, ModifiedBlock(body));
      if level.OptAggressive? then
        var (out, rest) := Hoisted(body, ModifiedBlock(body), Used(s.cond));
        var f1 := OptimizedBlock(level, f0, out).1;
        var f2 := OptimizedBlock(level, f1, rest).1;
        var inner := scope + AssignedBlock(out);
        && Independent(out, rest) && AssignedBlock(out) !! scope && SafeBlock(level, f0, scope, out)
        && SafeBlock(level, f1, inner, rest) && Within(f2, f1, inner) && Within(f1, f2, inner)
      else
        var f1 := OptimizedBlock(level, f0, body).1;
        SafeBlock(level, f0, scope, body) && Within(f1, f0, scope) && Within(f0, f1, scope)
    case Switch(_, cases, dflt) =>
      Unaffected(Forget(f, ModifiedCases(cases) + ModifiedBlock(dflt)), scope, Assigned(s))
    case _ => true
  }

  ghost predicate SafeBlock(level: Level, f: Facts, scope: set<Str>, stmts: seq<Stmt>)
    decreases WeightBlock(stmts), 1
  {
    stmts == [] ||
    (Safe(level, f, scope, stmts[0]) &&
     (stmts[0].Return? ||
      SafeBlock(level, OptimizedStmt(level, f, stmts[0]).1, scope + Opened(level, f, stmts[0]), stmts[1..])))
  }

  ghost predicate NotCopied(f: Facts, scope: set<Str>, x: Str) {
    x in scope ==> forall y | y in f.copies && y in scope :: f.copies[y] == x ==> y == x
  }

  // ---- remembered expressions ----

  // Each of these expressions is remembered, and still has the value of the variable remembered for it.
  ghost predicate Recalls(reading: Reading, f: Facts, trusted: iset<Expr>, env: Env) {
    forall e | e in trusted ::
      && ExprKey(e) != [] && ExprKey(e) in f.expressions
      && Has(env, f.expressions[ExprKey(e)]) && Eval(reading, e, env) == Get(env, f.expressions[ExprKey(e)])
  }

  // Those that are remembered as they were, and that setting the names leaves as they are.
  ghost function Surviving(f: Facts, g: Facts, trusted: iset<Expr>, names: set<Str>): iset<Expr> {
    iset e: Expr | e in trusted && ExprKey(e) in f.expressions && ExprKey(e) in g.expressions
                   && g.expressions[ExprKey(e)] == f.expressions[ExprKey(e)]
                   && f.expressions[ExprKey(e)] !in names && Used(e) !! names
  }

  // An expression newly remembered for x can be trusted if x is not in it.
  ghost function TrustedAssign(level: Level, f: Facts, trusted: iset<Expr>, x: Str, e: Expr): iset<Expr> {
    var v := OptimizedExpr(level, f, e);
    Surviving(f, OptimizedAssign(level, f, x, e).1, trusted, {x})
    + if level.OptAggressive? && ExprKey(v) != [] && ExprKey(v) !in f.expressions && x !in Used(v) then iset{v} else iset{}
  }

  // What can be trusted when a loop starts a round.
  ghost function TrustedAtHead(level: Level, f: Facts, trusted: iset<Expr>, s: Stmt): iset<Expr>
    requires s.While?
    decreases Weight(s), 0
  {
    var (out, rest) := Parts(level, s);
    var f0 := Forget(f, ModifiedBlock(s.body));
    var f1 := OptimizedBlock(level, f0, out).1;
    HoistedWeight(level, s);
    Surviving(f1, f1, TrustedBlock(level, f0, Surviving(f, f0, trusted, {}), out), AssignedBlock(rest))
  }

  // What can be trusted behind statements.
  ghost function Trusted(level: Level, f: Facts, trusted: iset<Expr>, s: Stmt): iset<Expr>
    decreases Weight(s), 1
  {
    match s
    case Assign(x, e) => TrustedAssign(level, f, trusted, x, e)
    case Reassign(x, e) => TrustedAssign(level, f, trusted, x, e)
    case While(_, _) =>
      var (out, rest) := Parts(level, s);
      var f1 := OptimizedBlock(level, Forget(f, ModifiedBlock(s.body)), out).1;
      Surviving(f1, OptimizedBlock(level, f1, rest).1, TrustedAtHead(level, f, trusted, s), AssignedBlock(rest))
    case _ => Surviving(f, OptimizedStmt(level, f, s).1, trusted, Assigned(s))
  }

  ghost function TrustedBlock(level: Level, f: Facts, trusted: iset<Expr>, stmts: seq<Stmt>): iset<Expr>
    decreases WeightBlock(stmts), 2
  {
    if stmts == [] then trusted
    else
      var trusted' := Trusted(level, f, trusted, stmts[0]);
      if stmts[0].Return? then trusted' else TrustedBlock(level, OptimizedStmt(level, f, stmts[0]).1, trusted', stmts[1..])
  }

  // An expression that is replaced by the variable remembered for it can be trusted.
  ghost predicate FreshAssign(level: Level, f: Facts, trusted: iset<Expr>, e: Expr) {
    var v := OptimizedExpr(level, f, e);
    level.OptAggressive? && ExprKey(v) != [] && ExprKey(v) in f.expressions ==> v in trusted
  }

  ghost predicate Fresh(level: Level, f: Facts, trusted: iset<Expr>, s: Stmt)
    decreases Weight(s), 1
  {
    match s
    case Assign(_, e) => FreshAssign(level, f, trusted, e)
    case Reassign(_, e) => FreshAssign(level, f, trusted, e)
    case If(c, t, e) =>
      var c' := OptimizedExpr(level, f, c);
      if c' == Literal(Bool(true)) then FreshBlock(level, f, trusted, t)
      else if c' == Literal(Bool(false)) then FreshBlock(level, f, trusted, e)
      else
        var f1 := OptimizedBlock(level, f, t).1;
        FreshBlock(level, f, trusted, t) && FreshBlock(level, f1, Surviving(f, f1, trusted, {}), e)
    case While(_, body) =>
      var (out, rest) := Parts(level, s);
      var f0 := Forget(f, ModifiedBlock(body));
      HoistedWeight(level, s);
      && FreshBlock(level, f0, Surviving(f, f0, trusted, {}), out)
      && FreshBlock(level, OptimizedBlock(level, f0, out).1, TrustedAtHead(level, f, trusted, s), rest)
    case _ => true
  }

  ghost predicate FreshBlock(level: Level, f: Facts, trusted: iset<Expr>, stmts: seq<Stmt>)
    decreases WeightBlock(stmts), 2
  {
    stmts == [] ||
    (Fresh(level, f, trusted, stmts[0]) &&
     (stmts[0].Return? ||
      FreshBlock(level, OptimizedStmt(level, f, stmts[0]).1, Trusted(level, f, trusted, stmts[0]), stmts[1..])))
  }

  lemma HoistedWeight(level: Level, s: Stmt)
    requires s.While?
    ensures WeightBlock(Parts(level, s).0) < Weight(s) && WeightBlock(Parts(level, s).1) < Weight(s)
  {
  }

  // ---- what moves can be evaluated ----

  // Along the run, wherever a loop is reached, what moves in front of it can be evaluated there. The loop
  // is followed as it runs once that has been moved.
  ghost predicate Moves(reading: Reading, limit: nat, level: Level, s: Stmt, env: Env)
    requires env != []
    decreases Weight(s), 2, 0
  {
    level.OptAggressive? ==>
      match s
      case If(c, t, e) =>
        var b := Eval(reading, c, env);
        b.Ok? && b.value.Bool? ==> MovesBlock(reading, limit, level, if b.value.b then t else e, env + [map[]])
      case While(c, _) =>
        HoistedWeight(level, s);
        var o := ExecBlock(reading, limit, MovedOut(s), env);
        && Total(reading, MovedOut(s), env)
        && (o.Normal? ==> MovesRounds(reading, limit, level, While(c, Remaining(s)), o.env, 0))
      case _ => true
  }

  ghost predicate MovesBlock(reading: Reading, limit: nat, level: Level, stmts: seq<Stmt>, env: Env)
    requires env != []
    decreases WeightBlock(stmts), 3, 0
  {
    stmts == [] ||
    (&& Moves(reading, limit, level, stmts[0], env)
     && var o := Exec(reading, limit, stmts[0], env);
        o.Normal? ==> MovesBlock(reading, limit, level, stmts[1..], o.env))
  }

  ghost predicate MovesRounds(reading: Reading, limit: nat, level: Level, loop: Stmt, env: Env, n: nat)
    requires loop.While? && env != [] && n <= limit
    decreases Weight(loop), 1, limit - n
  {
    n < limit && Eval(reading, loop.cond, env) == Ok(Bool(true)) ==>
      && MovesBlock(reading, limit, level, loop.body, env + [map[]])
      && var o := CloseScope(ExecBlock(reading, limit, loop.body, env + [map[]]));
         o.Normal? || o.Continued? ==> MovesRounds(reading, limit, level, loop, o.env, n + 1)
  }

  // ---- shapes ----

  lemma PartsAre(level: Level, s: Stmt)
    requires s.While?
    ensures level.OptAggressive? ==> Parts(level, s) == (MovedOut(s), Remaining(s))
    ensures !level.OptAggressive? ==> Parts(level, s) == ([], s.body)
  {
  }

  lemma LoopShape(level: Level, f: Facts, s: Stmt)
    requires s.While?
    ensures var (out, rest) := Parts(level, s);
            var (out', f1) := OptimizedBlock(level, Forget(f, ModifiedBlock(s.body)), out);
            var (rest', f2) := OptimizedBlock(level, f1, rest);
            OptimizedStmt(level, f, s) == (out' + [While(OptimizedExpr(level, f1, s.cond), rest')], f2)
  {
    hide OptimizedExpr, ModifiedBlock, Hoisted;
  }

  // At the basic level a loop is only rewritten inside.
  lemma WhileShape(f: Facts, s: Stmt)
    requires s.While?
    ensures var f0 := Forget(f, ModifiedBlock(s.body));
            OptimizedStmt(OptBasic, f, s) ==
              ([While(OptimizedExpr(OptBasic, f0, s.cond), OptimizedBlock(OptBasic, f0, s.body).0)],
               OptimizedBlock(OptBasic, f0, s.body).1)
  {
    hide OptimizedExpr, ModifiedBlock;
    var f0 := Forget(f, ModifiedBlock(s.body));
    LoopShape(OptBasic, f, s);
    assert OptimizedBlock(OptBasic, f0, []) == ([], f0);
    var w := [While(OptimizedExpr(OptBasic, f0, s.cond), OptimizedBlock(OptBasic, f0, s.body).0)];
    assert [] + w == w;
  }

  lemma {:induction false} ModifiedAssigned(s: Stmt)
    ensures Modified(s) <= Assigned(s)
    decreases s, 0
  {
    match s
    case If(_, t, e) =>
      ModifiedBlockAssigned(t);
      ModifiedBlockAssigned(e);
    case While(_, body) => ModifiedBlockAssigned(body);
    case _ =>
  }

  lemma {:induction false} ModifiedBlockAssigned(stmts: seq<Stmt>)
    ensures ModifiedBlock(stmts) <= AssignedBlock(stmts)
    decreases stmts, 0
  {
    if stmts != [] {
      ModifiedAssigned(stmts[0]);
      ModifiedBlockAssigned(stmts[1..]);
    }
  }

  // The parts of a loop set no variable the loop does not.
  lemma {:induction false} HoistedSets(body: seq<Stmt>, modified: set<Str>, used: set<Str>)
    ensures var (out, rest) := Hoisted(body, modified, used);
            && ModifiedBlock(out) <= ModifiedBlock(body) && ModifiedBlock(rest) <= ModifiedBlock(body)
            && AssignedBlock(out) <= AssignedBlock(body) && AssignedBlock(rest) <= AssignedBlock(body)
            && ModifiedBlock(out) == AssignedBlock(out) && (forall s | s in out :: s.Assign?)
  {
    if body != [] {
      HoistedSets(body[1..], modified, used);
      var (out, rest) := Hoisted(body[1..], modified, used);
      assert ([body[0]] + rest)[1..] == rest;
      assert ([body[0]] + out)[1..] == out;
    }
  }

  lemma PartsSet(level: Level, s: Stmt)
    requires s.While?
    ensures var (out, rest) := Parts(level, s);
            && ModifiedBlock(out) <= Modified(s) && ModifiedBlock(rest) <= Modified(s)
            && AssignedBlock(out) <= Assigned(s) && AssignedBlock(rest) <= Assigned(s)
            && ModifiedBlock(out) == AssignedBlock(out) && (forall t | t in out :: t.Assign?)
  {
    HoistedSets(s.body, ModifiedBlock(s.body), Used(s.cond));
  }

  // ---- what rewriting learns ----

  // Outside the names, g knows nothing that f does not.
  ghost predicate Learned(g: Facts, f: Facts, names: set<Str>) {
    forall x | x !in names ::
      && (x in g.constants ==> x in f.constants && g.constants[x] == f.constants[x])
      && (x in g.copies ==> x in f.copies && g.copies[x] == f.copies[x])
  }

  lemma LearnedOn(h: Facts, g: Facts, f: Facts, m1: set<Str>, m2: set<Str>, names: set<Str>)
    requires Learned(g, f, m1) && Learned(h, g, m2) && m1 <= names && m2 <= names
    ensures Learned(h, f, names)
  {
  }

  lemma LearnedMore(g: Facts, f: Facts, m: set<Str>, names: set<Str>)
    requires Learned(g, f, m) && m <= names
    ensures Learned(g, f, names)
  {
  }

  lemma ForgetLearns(f: Facts, names: set<Str>)
    ensures Learned(Forget(f, names), f, {})
  {
  }

  lemma {:induction false} StmtLearns(level: Level, f: Facts, s: Stmt)
    ensures Learned(OptimizedStmt(level, f, s).1, f, Modified(s))
    decreases Weight(s), 0
  {
    hide OptimizedExpr, ExprKey, Hoisted;
    match s
    case If(c, t, e) =>
      hide Learned, OptimizedBlock, ModifiedBlock;
      BlockLearns(level, f, t);
      var f1 := OptimizedBlock(level, f, t).1;
      BlockLearns(level, f1, e);
      BlockLearns(level, f, e);
      LearnedMore(f1, f, ModifiedBlock(t), Modified(s));
      LearnedMore(OptimizedBlock(level, f, e).1, f, ModifiedBlock(e), Modified(s));
      LearnedOn(OptimizedBlock(level, f1, e).1, f1, f, ModifiedBlock(t), ModifiedBlock(e), Modified(s));
    case While(c, body) => LoopLearns(level, f, s);
    case _ =>
  }

  lemma {:induction false} LoopLearns(level: Level, f: Facts, s: Stmt)
    requires s.While?
    ensures Learned(OptimizedStmt(level, f, s).1, f, Modified(s))
    decreases Weight(s), 0, 0
  {
    hide Learned, OptimizedBlock, OptimizedStmt, ModifiedBlock, Parts, AssignedBlock;
    LoopShape(level, f, s);
    PartsSet(level, s);
    HoistedWeight(level, s);
    var (out, rest) := Parts(level, s);
    var f0 := Forget(f, ModifiedBlock(s.body));
    var f1 := OptimizedBlock(level, f0, out).1;
    var f2 := OptimizedBlock(level, f1, rest).1;
    ForgetLearns(f, ModifiedBlock(s.body));
    BlockLearns(level, f0, out);
    BlockLearns(level, f1, rest);
    LearnedOn(f1, f0, f, {}, ModifiedBlock(out), Modified(s));
    LearnedOn(f2, f1, f, Modified(s), ModifiedBlock(rest), Modified(s));
  }

  lemma {:induction false} BlockLearns(level: Level, f: Facts, stmts: seq<Stmt>)
    ensures Learned(OptimizedBlock(level, f, stmts).1, f, ModifiedBlock(stmts))
    decreases WeightBlock(stmts), 1
  {
    hide OptimizedStmt, Modified;
    if stmts == [] {
    } else {
      StmtLearns(level, f, stmts[0]);
      var f1 := OptimizedStmt(level, f, stmts[0]).1;
      BlockLearns(level, f1, stmts[1..]);
      LearnedMore(f1, f, Modified(stmts[0]), ModifiedBlock(stmts));
      LearnedOn(OptimizedBlock(level, f1, stmts[1..]).1, f1, f, Modified(stmts[0]), ModifiedBlock(stmts[1..]), ModifiedBlock(stmts));
    }
  }

  // ---- what rewritten statements write ----

  // Rewritten statements set no variable the original ones do not.
  lemma {:induction false} StmtWrites(level: Level, f: Facts, s: Stmt)
    ensures AssignedBlock(OptimizedStmt(level, f, s).0) <= Assigned(s)
    decreases Weight(s), 0
  {
    hide OptimizedExpr, OptimizedAssign, AssignedBlock, OptimizedBlock;
    var out := OptimizedStmt(level, f, s).0;
    if |out| == 1 {
      AssignedOne(out[0]);
    }
    match s
    case If(c, t, e) =>
      BlockWrites(level, f, t);
      BlockWrites(level, f, e);
      BlockWrites(level, OptimizedBlock(level, f, t).1, e);
    case While(c, body) => LoopWrites(level, f, s);
    case _ =>
  }

  lemma {:induction false} LoopWrites(level: Level, f: Facts, s: Stmt)
    requires s.While?
    ensures AssignedBlock(OptimizedStmt(level, f, s).0) <= Assigned(s)
    decreases Weight(s), 0, 0
  {
    hide OptimizedExpr, OptimizedStmt, AssignedBlock, OptimizedBlock, Parts, ModifiedBlock;
    LoopShape(level, f, s);
    PartsSet(level, s);
    HoistedWeight(level, s);
    var (out, rest) := Parts(level, s);
    var (out', f1) := OptimizedBlock(level, Forget(f, ModifiedBlock(s.body)), out);
    var rest' := OptimizedBlock(level, f1, rest).0;
    BlockWrites(level, Forget(f, ModifiedBlock(s.body)), out);
    BlockWrites(level, f1, rest);
    var loop := While(OptimizedExpr(level, f1, s.cond), rest');
    AssignedAppend(out', [loop]);
    AssignedOne(loop);
  }

  lemma {:induction false} BlockWrites(level: Level, f: Facts, stmts: seq<Stmt>)
    ensures AssignedBlock(OptimizedBlock(level, f, stmts).0) <= AssignedBlock(stmts)
    decreases WeightBlock(stmts), 1
  {
    hide OptimizedStmt, Assigned;
    if stmts != [] {
      StmtWrites(level, f, stmts[0]);
      var (first, f1) := OptimizedStmt(level, f, stmts[0]);
      BlockWrites(level, f1, stmts[1..]);
      AssignedAppend(first, OptimizedBlock(level, f1, stmts[1..]).0);
    }
  }

  // ---- which names are in scope after a rewritten statement ----

  ghost predicate InScope(env: Env, scope: set<Str>) {
    forall x | Has(env, x) :: x in scope
  }

  lemma ScopeGrown(env: Env, e: Env, d: set<Str>, w: set<Str>, scope: set<Str>, more: set<Str>)
    requires Grown(env, e, d, w) && InScope(env, scope) && d <= more
    ensures InScope(e, scope + more)
  {
    forall x | Has(e, x) ensures x in scope + more {
      GrownHas(env, e, d, w, x);
    }
  }

  lemma BlockOpens(reading: Reading, limit: nat, stmts: seq<Stmt>, env: Env, scope: set<Str>, more: set<Str>)
    requires env != [] && Distinct(env) && InScope(env, scope) && AssignedBlock(stmts) <= more
    ensures var o := ExecBlock(reading, limit, stmts, env);
            Continues(o) ==> Distinct(o.env) && o.env != [] && InScope(o.env, scope + more)
  {
    hide ExecBlock, Distinct, Grown, AssignedBlock, InScope;
    BlockLeaves(reading, limit, stmts, env);
    var o := ExecBlock(reading, limit, stmts, env);
    if Continues(o) {
      GrownDistinct(env, o.env, AssignedBlock(stmts), AssignedBlock(stmts));
      ScopeGrown(env, o.env, AssignedBlock(stmts), AssignedBlock(stmts), scope, more);
    }
  }

  lemma OneOpens(reading: Reading, limit: nat, s: Stmt, env: Env, scope: set<Str>, more: set<Str>)
    requires env != [] && Distinct(env) && InScope(env, scope) && Defined(s) <= more
    ensures var o := ExecBlock(reading, limit, [s], env);
            Continues(o) ==> Distinct(o.env) && o.env != [] && InScope(o.env, scope + more)
  {
    hide ExecBlock, Exec, Distinct, Grown, InScope;
    BlockOfOne(reading, limit, s, env);
    ExecLeaves(reading, limit, s, env);
    var o := ExecBlock(reading, limit, [s], env);
    if Continues(o) {
      GrownDistinct(env, o.env, Defined(s), Assigned(s));
      ScopeGrown(env, o.env, Defined(s), Assigned(s), scope, more);
    }
  }

  lemma LoopOpens(reading: Reading, limit: nat, level: Level, f: Facts, scope: set<Str>, s: Stmt, env: Env)
    requires s.While? && env != [] && Distinct(env) && InScope(env, scope)
    ensures var o := ExecBlock(reading, limit, OptimizedStmt(level, f, s).0, env);
            Continues(o) ==> Distinct(o.env) && o.env != [] && InScope(o.env, scope + Opened(level, f, s))
  {
    hide ExecBlock, Distinct, InScope, OptimizedBlock, OptimizedStmt, OptimizedExpr, AssignedBlock, ModifiedBlock, Parts;
    LoopShape(level, f, s);
    var (out', f1) := OptimizedBlock(level, Forget(f, ModifiedBlock(s.body)), Parts(level, s).0);
    var loop := While(OptimizedExpr(level, f1, s.cond), OptimizedBlock(level, f1, Parts(level, s).1).0);
    var more := AssignedBlock(Parts(level, s).0);
    BlockWrites(level, Forget(f, ModifiedBlock(s.body)), Parts(level, s).0);
    BlockOpens(reading, limit, out', env, scope, more);
    BlockAppend(reading, limit, out', [loop], env);
    var o := ExecBlock(reading, limit, out', env);
    if o.Normal? {
      OneOpens(reading, limit, loop, o.env, scope + more, {});
      assert scope + more + {} == scope + more;
    }
  }

  lemma StmtOpens(reading: Reading, limit: nat, level: Level, f: Facts, scope: set<Str>, s: Stmt, env: Env)
    requires env != [] && Distinct(env) && InScope(env, scope)
    ensures var o := ExecBlock(reading, limit, OptimizedStmt(level, f, s).0, env);
            Continues(o) ==> Distinct(o.env) && o.env != [] && InScope(o.env, scope + Opened(level, f, s))
  {
    hide OptimizedExpr, OptimizedAssign, ExecBlock, Distinct, InScope, OptimizedBlock, AssignedBlock;
    var out := OptimizedStmt(level, f, s).0;
    if s.While? {
      LoopOpens(reading, limit, level, f, scope, s, env);
    } else if |out| == 1 && Defined(out[0]) <= Opened(level, f, s) {
      assert out == [out[0]];
      OneOpens(reading, limit, out[0], env, scope, Opened(level, f, s));
    } else {
      BlockWrites(level, f, s.thenBlock);
      BlockWrites(level, f, s.elseBlock);
      BlockOpens(reading, limit, out, env, scope, Opened(level, f, s));
    }
  }

  // ---- at the basic level ----

  // Nothing is remembered at the basic level, and nothing moves.
  lemma {:induction false} BasicFresh(f: Facts, trusted: iset<Expr>, s: Stmt)
    ensures Fresh(OptBasic, f, trusted, s)
    decreases Weight(s), 0
  {
    match s
    case If(c, t, e) =>
      BasicFreshBlock(f, trusted, t);
      BasicFreshBlock(f, trusted, e);
      var f1 := OptimizedBlock(OptBasic, f, t).1;
      BasicFreshBlock(f1, Surviving(f, f1, trusted, {}), e);
    case While(_, body) =>
      var f0 := Forget(f, ModifiedBlock(body));
      HoistedWeight(OptBasic, s);
      BasicFreshBlock(OptimizedBlock(OptBasic, f0, []).1, TrustedAtHead(OptBasic, f, trusted, s), body);
    case _ =>
  }

  lemma {:induction false} BasicFreshBlock(f: Facts, trusted: iset<Expr>, stmts: seq<Stmt>)
    ensures FreshBlock(OptBasic, f, trusted, stmts)
    decreases WeightBlock(stmts), 1
  {
    if stmts != [] {
      BasicFresh(f, trusted, stmts[0]);
      BasicFreshBlock(OptimizedStmt(OptBasic, f, stmts[0]).1, Trusted(OptBasic, f, trusted, stmts[0]), stmts[1..]);
    }
  }

  lemma {:induction false} BasicMoves(reading: Reading, limit: nat, stmts: seq<Stmt>, env: Env)
    requires env != []
    ensures MovesBlock(reading, limit, OptBasic, stmts, env)
    decreases |stmts|
  {
    hide Exec;
    if stmts != [] {
      var o := Exec(reading, limit, stmts[0], env);
      if o.Normal? {
        BasicMoves(reading, limit, stmts[1..], o.env);
      }
    }
  }
}
