/** The optimizer's facts can outlive their truth. Three families of programs, and for each exactly
  * the runs on which the optimized program still does what the original does. */
module StaleFacts {
  import opened Bytes
  import opened Lang
  import opened Interpreter
  import opened Folding
  import opened Rewriting
  import opened Frames
  import opened Safety
  import opened Preservation

  function Optimized(stmts: seq<Stmt>): seq<Stmt> {
    OptimizedBlock(OptBasic, NOTHING_KNOWN, stmts).0
  }

  lemma RunFirst(reading: Reading, limit: nat, s: Stmt, rest: seq<Stmt>, env: Env)
    requires env != [] && rest != []
    ensures var o := Exec(reading, limit, s, env);
            ExecBlock(reading, limit, [s] + rest, env) == (if o.Normal? then ExecBlock(reading, limit, rest, o.env) else o)
  {
    BlockAppend(reading, limit, [s], rest, env);
    BlockOfOne(reading, limit, s, env);
  }

  lemma RewriteFirst(f: Facts, s: Stmt, rest: seq<Stmt>)
    requires !s.Return?
    ensures var (first, f1) := OptimizedStmt(OptBasic, f, s);
            var (others, f2) := OptimizedBlock(OptBasic, f1, rest);
            OptimizedBlock(OptBasic, f, [s] + rest) == (first + others, f2)
  {
    assert ([s] + rest)[1..] == rest;
  }

  lemma RewriteOnly(f: Facts, s: Stmt)
    ensures OptimizedBlock(OptBasic, f, [s]) == OptimizedStmt(OptBasic, f, s)
  {
    var (first, f1) := OptimizedStmt(OptBasic, f, s);
    assert [s][1..] == [];
    assert first + [] == first;
  }

  lemma RunReturn(reading: Reading, limit: nat, e: Expr, env: Env, v: Value)
    requires env != [] && Eval(reading, e, env) == Ok(v)
    ensures ExecBlock(reading, limit, [Return(e)], env) == Returned(v)
  {
    BlockOfOne(reading, limit, Return(e), env);
  }

  lemma RunLiteral(reading: Reading, limit: nat, b: Value, env: Env)
    requires env != []
    ensures ExecBlock(reading, limit, [Return(Literal(b))], env) == Returned(b)
  {
    RunReturn(reading, limit, Literal(b), env, b);
  }

  lemma RunSet(reading: Reading, limit: nat, x: Str, b: Value, env: Env)
    requires env != [] && Has(env, x)
    ensures Exec(reading, limit, Reassign(x, Literal(b)), env) == Normal(AssignVar(env, x, b), b)
  {
    ReassignAssigns(env, x, b);
    assert Eval(reading, Literal(b), env) == Ok(b);
  }

  // y = x;  x = b;  return y
  function CopyThenSet(x: Str, y: Str, b: Value): seq<Stmt> {
    [Assign(y, Variable(x))] + ([Reassign(x, Literal(b))] + [Return(Variable(y))])
  }

  lemma CopyThenSetRewritten(x: Str, y: Str, b: Value)
    requires x != y
    ensures Optimized(CopyThenSet(x, y, b)) ==
              [Assign(y, Variable(x))] + ([Reassign(x, Literal(b))] + [Return(Literal(b))])
  {
    var f1 := Facts(map[], map[y := x], map[]);
    var f2 := Facts(map[x := b], map[y := x], map[]);
    assert OptimizedExpr(OptBasic, NOTHING_KNOWN, Variable(x)) == Variable(x);
    assert OptimizedStmt(OptBasic, NOTHING_KNOWN, Assign(y, Variable(x))) == ([Assign(y, Variable(x))], f1);
    assert f1.copies - {x} == f1.copies;
    assert OptimizedStmt(OptBasic, f1, Reassign(x, Literal(b))) == ([Reassign(x, Literal(b))], f2);
    assert Root(f2.copies, x, {y}) == x;
    assert Root(f2.copies, y, {}) == Root(f2.copies, x, {} + {y}) == x;
    RewriteFirst(NOTHING_KNOWN, Assign(y, Variable(x)), [Reassign(x, Literal(b))] + [Return(Variable(y))]);
    RewriteFirst(f1, Reassign(x, Literal(b)), [Return(Variable(y))]);
    RewriteOnly(f2, Return(Variable(y)));
  }

  // A copy is remembered after its source has changed: kept exactly if the change is none.
  lemma StaleCopy(reading: Reading, limit: nat, env: Env, x: Str, y: Str, b: Value)
    requires env != [] && Has(env, x) && x != y
    ensures ExecBlock(reading, limit, Optimized(CopyThenSet(x, y, b)), env) == ExecBlock(reading, limit, CopyThenSet(x, y, b), env)
            <==> Get(env, x) == Ok(b)
  {
    hide Exec, ExecBlock, AssignVar, Optimized, OptimizedBlock;
    HasGets(env, x);
    var v := Get(env, x).value;
    var env1 := AssignVar(env, y, v);
    var env2 := AssignVar(env1, x, b);
    AssignGet(env, y, v, x);
    AssignGet(env, y, v, y);
    AssignGet(env1, x, b, y);
    CopyThenSetRewritten(x, y, b);
    CopyRuns(reading, limit, x, y, env);
    RunSet(reading, limit, x, b, env1);
    RunFirst(reading, limit, Assign(y, Variable(x)), [Reassign(x, Literal(b))] + [Return(Variable(y))], env);
    RunFirst(reading, limit, Assign(y, Variable(x)), [Reassign(x, Literal(b))] + [Return(Literal(b))], env);
    RunFirst(reading, limit, Reassign(x, Literal(b)), [Return(Variable(y))], env1);
    RunFirst(reading, limit, Reassign(x, Literal(b)), [Return(Literal(b))], env1);
    RunReturn(reading, limit, Variable(y), env2, v);
    RunLiteral(reading, limit, b, env2);
  }

  lemma CopyRuns(reading: Reading, limit: nat, x: Str, y: Str, env: Env)
    requires env != [] && Get(env, x).Ok?
    ensures Exec(reading, limit, Assign(y, Variable(x)), env) == Normal(AssignVar(env, y, Get(env, x).value), Get(env, x).value)
  {
  }

  // if c { x = b }  return x
  function SetInBranch(c: Str, x: Str, b: Value): seq<Stmt> {
    [If(Variable(c), [Reassign(x, Literal(b))], [])] + [Return(Variable(x))]
  }

  lemma SetInBranchRewritten(c: Str, x: Str, b: Value)
    ensures Optimized(SetInBranch(c, x, b)) ==
              [If(Variable(c), [Reassign(x, Literal(b))], [])] + [Return(Literal(b))]
  {
    var f1 := Facts(map[x := b], map[], map[]);
    var setX := Reassign(x, Literal(b));
    assert OptimizedExpr(OptBasic, NOTHING_KNOWN, Variable(c)) == Variable(c);
    assert OptimizedStmt(OptBasic, NOTHING_KNOWN, setX) == ([setX], f1);
    RewriteOnly(NOTHING_KNOWN, setX);
    assert OptimizedBlock(OptBasic, f1, []) == ([], f1);
    var s := If(Variable(c), [setX], []);
    assert OptimizedStmt(OptBasic, NOTHING_KNOWN, s) == ([s], f1);
    assert OptimizedExpr(OptBasic, f1, Variable(x)) == Literal(b);
    RewriteFirst(NOTHING_KNOWN, s, [Return(Variable(x))]);
    RewriteOnly(f1, Return(Variable(x)));
  }

  // A fact learned in a branch is believed behind it: kept exactly if the branch is taken or the
  // fact was true already.
  lemma StaleBranch(reading: Reading, limit: nat, env: Env, c: Str, x: Str, b: Value)
    requires env != [] && Distinct(env) && Has(env, x) && Get(env, c).Ok? && Get(env, c).value.Bool?
    ensures ExecBlock(reading, limit, Optimized(SetInBranch(c, x, b)), env) == ExecBlock(reading, limit, SetInBranch(c, x, b), env)
            <==> Get(env, c).value.b || Get(env, x) == Ok(b)
  {
    hide Exec, ExecBlock, AssignVar, Optimized, OptimizedBlock;
    HasGets(env, x);
    var s := If(Variable(c), [Reassign(x, Literal(b))], []);
    SetInBranchRewritten(c, x, b);
    BranchRuns(reading, limit, env, c, x, b);
    var e := Exec(reading, limit, s, env).env;
    RunFirst(reading, limit, s, [Return(Variable(x))], env);
    RunFirst(reading, limit, s, [Return(Literal(b))], env);
    RunReturn(reading, limit, Variable(x), e, if Get(env, c).value.b then b else Get(env, x).value);
    RunLiteral(reading, limit, b, e);
  }

  lemma BranchRuns(reading: Reading, limit: nat, env: Env, c: Str, x: Str, b: Value)
    requires env != [] && Distinct(env) && Has(env, x) && Get(env, c).Ok? && Get(env, c).value.Bool?
    ensures var o := Exec(reading, limit, If(Variable(c), [Reassign(x, Literal(b))], []), env);
            o.Normal? && o.env != [] && Get(o.env, x) == (if Get(env, c).value.b then Ok(b) else Get(env, x))
  {
    hide AssignVar, SetExisting, Pop;
    var inner := env + [map[]];
    PushHas(env, x);
    PushDistinct(env);
    assert Eval(reading, Variable(c), env) == Get(env, c);
    if Get(env, c).value.b {
      RunSet(reading, limit, x, b, inner);
      BlockOfOne(reading, limit, Reassign(x, Literal(b)), inner);
      InnerSet(env, x, b);
    } else {
      assert ExecBlock(reading, limit, [], inner) == Normal(inner, Null);
      PopPush(env);
    }
  }

  lemma PopPush(env: Env)
    ensures Pop(env + [map[]]) == env
  {
  }

  lemma InnerSet(env: Env, x: Str, b: Value)
    requires env != [] && Distinct(env) && Has(env, x)
    ensures var e := Pop(AssignVar(env + [map[]], x, b)); e != [] && Get(e, x) == Ok(b)
  {
    var inner := env + [map[]];
    PushHas(env, x);
    PushDistinct(env);
    AssignGrown(inner, x, b);
    GrownClosed(env, AssignVar(inner, x, b), {}, {x});
    AssignGet(inner, x, b, x);
    PopGet(AssignVar(inner, x, b), x);
  }

  // while c { x = b; break }  return x
  function SetInLoop(c: Str, x: Str, b: Value): seq<Stmt> {
    [While(Variable(c), [Reassign(x, Literal(b))] + [Break])] + [Return(Variable(x))]
  }

  lemma SetInLoopRewritten(c: Str, x: Str, b: Value)
    ensures Optimized(SetInLoop(c, x, b)) ==
              [While(Variable(c), [Reassign(x, Literal(b))] + [Break])] + [Return(Literal(b))]
  {
    var f1 := Facts(map[x := b], map[], map[]);
    var setX := Reassign(x, Literal(b));
    var s := While(Variable(c), [setX] + [Break]);
    assert OptimizedExpr(OptBasic, NOTHING_KNOWN, Variable(c)) == Variable(c);
    assert OptimizedStmt(OptBasic, NOTHING_KNOWN, setX) == ([setX], f1);
    RewriteFirst(NOTHING_KNOWN, setX, [Break]);
    RewriteOnly(f1, Break);
    WhileShape(NOTHING_KNOWN, s);
    assert Forget(NOTHING_KNOWN, ModifiedBlock(s.body)) == NOTHING_KNOWN;
    assert OptimizedStmt(OptBasic, NOTHING_KNOWN, s) == ([s], f1);
    assert OptimizedExpr(OptBasic, f1, Variable(x)) == Literal(b);
    RewriteFirst(NOTHING_KNOWN, s, [Return(Variable(x))]);
    RewriteOnly(f1, Return(Variable(x)));
  }

  // A fact learned in a loop is believed behind it: kept exactly if the loop is entered or the fact
  // was true already.
  lemma StaleLoop(reading: Reading, limit: nat, env: Env, c: Str, x: Str, b: Value)
    requires limit > 0
    requires env != [] && Distinct(env) && Has(env, x) && Get(env, c).Ok? && Get(env, c).value.Bool?
    ensures ExecBlock(reading, limit, Optimized(SetInLoop(c, x, b)), env) == ExecBlock(reading, limit, SetInLoop(c, x, b), env)
            <==> Get(env, c).value.b || Get(env, x) == Ok(b)
  {
    hide Exec, ExecBlock, AssignVar, Optimized, OptimizedBlock;
    HasGets(env, x);
    var s := While(Variable(c), [Reassign(x, Literal(b))] + [Break]);
    SetInLoopRewritten(c, x, b);
    LoopRuns(reading, limit, env, c, x, b);
    var e := Exec(reading, limit, s, env).env;
    RunFirst(reading, limit, s, [Return(Variable(x))], env);
    RunFirst(reading, limit, s, [Return(Literal(b))], env);
    RunReturn(reading, limit, Variable(x), e, if Get(env, c).value.b then b else Get(env, x).value);
    RunLiteral(reading, limit, b, e);
  }

  lemma LoopRuns(reading: Reading, limit: nat, env: Env, c: Str, x: Str, b: Value)
    requires limit > 0
    requires env != [] && Distinct(env) && Has(env, x) && Get(env, c).Ok? && Get(env, c).value.Bool?
    ensures var o := Exec(reading, limit, While(Variable(c), [Reassign(x, Literal(b))] + [Break]), env);
            o.Normal? && o.env != [] && Get(o.env, x) == (if Get(env, c).value.b then Ok(b) else Get(env, x))
  {
    hide AssignVar, SetExisting, Pop;
    var inner := env + [map[]];
    PushHas(env, x);
    PushDistinct(env);
    assert Eval(reading, Variable(c), env) == Get(env, c);
    var body := [Reassign(x, Literal(b))] + [Break];
    var s := While(Variable(c), body);
    assert Exec(reading, limit, s, env) == ExecWhile(reading, limit, s, env, 0, Null);
    if Get(env, c).value.b {
      RunSet(reading, limit, x, b, inner);
      RunFirst(reading, limit, Reassign(x, Literal(b)), [Break], inner);
      BlockOfOne(reading, limit, Break, AssignVar(inner, x, b));
      assert ExecBlock(reading, limit, body, inner) == Broke(AssignVar(inner, x, b));
      InnerSet(env, x, b);
    }
  }
}
