/** The optimizer itself: an object that keeps what it knows while it rewrites statement after
  * statement, proved to compute what module Rewriting specifies. */
module Optimizer {
  import opened Bytes
  import opened Lang
  import opened Folding
  import opened ExprKeys
  import opened Rewriting

  // The first i statements are rewritten to `out`, after which f is known.
  ghost predicate Rewritten(level: Level, f0: Facts, stmts: seq<Stmt>, i: nat, out: seq<Stmt>, f: Facts)
    requires i <= |stmts|
  {
    var (rest, f') := OptimizedBlock(level, f, stmts[i..]);
    OptimizedBlock(level, f0, stmts) == (out + rest, f')
  }

  lemma RewrittenNone(level: Level, f: Facts, stmts: seq<Stmt>)
    ensures Rewritten(level, f, stmts, 0, [], f)
  {
    assert stmts[0..] == stmts;
    assert [] + OptimizedBlock(level, f, stmts).0 == OptimizedBlock(level, f, stmts).0;
  }

  lemma RewrittenMore(level: Level, f0: Facts, stmts: seq<Stmt>, i: nat, out: seq<Stmt>, f: Facts)
    requires !level.OptNone? && i < |stmts| && Rewritten(level, f0, stmts, i, out, f)
    ensures var (first, f1) := OptimizedStmt(level, f, stmts[i]);
            if stmts[i].Return? then OptimizedBlock(level, f0, stmts) == (out + first, f1)
            else Rewritten(level, f0, stmts, i + 1, out + first, f1)
  {
    hide OptimizedStmt;
    assert stmts[i..][1..] == stmts[i + 1..];
    var (first, f1) := OptimizedStmt(level, f, stmts[i]);
    var rest := OptimizedBlock(level, f1, stmts[i + 1..]).0;
    assert out + (first + rest) == out + first + rest;
  }

  lemma RewrittenAll(level: Level, f0: Facts, stmts: seq<Stmt>, out: seq<Stmt>, f: Facts)
    requires Rewritten(level, f0, stmts, |stmts|, out, f)
    ensures OptimizedBlock(level, f0, stmts) == (out, f)
  {
    assert stmts[|stmts|..] == [];
    assert out + [] == out;
  }

  // The first i statements of a loop's body are sorted into `out` and `rest`.
  ghost predicate Separated(body: seq<Stmt>, modified: set<Str>, used: set<Str>, i: nat, out: seq<Stmt>, rest: seq<Stmt>)
    requires i <= |body|
  {
    var (out', rest') := Hoisted(body[i..], modified, used);
    Hoisted(body, modified, used) == (out + out', rest + rest')
  }

  lemma SeparatedNone(body: seq<Stmt>, modified: set<Str>, used: set<Str>)
    ensures Separated(body, modified, used, 0, [], [])
  {
    assert body[0..] == body;
    var (out, rest) := Hoisted(body, modified, used);
    assert [] + out == out && [] + rest == rest;
  }

  lemma SeparatedMore(body: seq<Stmt>, modified: set<Str>, used: set<Str>, i: nat, out: seq<Stmt>, rest: seq<Stmt>)
    requires i < |body| && Separated(body, modified, used, i, out, rest)
    ensures if Hoistable(body[i], modified, used) then Separated(body, modified, used, i + 1, out + [body[i]], rest)
            else Separated(body, modified, used, i + 1, out, rest + [body[i]])
  {
    hide Hoistable, WeightBlock;
    assert body[i..][1..] == body[i + 1..];
    var (out', rest') := Hoisted(body[i + 1..], modified, used);
    assert out + ([body[i]] + out') == out + [body[i]] + out';
    assert rest + ([body[i]] + rest') == rest + [body[i]] + rest';
  }

  lemma SeparatedAll(body: seq<Stmt>, modified: set<Str>, used: set<Str>, out: seq<Stmt>, rest: seq<Stmt>)
    requires Separated(body, modified, used, |body|, out, rest)
    ensures Hoisted(body, modified, used) == (out, rest)
  {
    assert body[|body|..] == [];
    assert out + [] == out && rest + [] == rest;
  }

  lemma {:induction false} WeightAt(stmts: seq<Stmt>, i: nat)
    requires i < |stmts|
    ensures Weight(stmts[i]) <= WeightBlock(stmts)
    decreases i
  {
    if i > 0 {
      WeightAt(stmts[1..], i - 1);
    }
  }

  lemma OneStatement(level: Level, f: Facts, s: Stmt)
    requires !level.OptNone?
    ensures OptimizedBlock(level, f, [s]) == OptimizedStmt(level, f, s)
    ensures WeightBlock([s]) == Weight(s)
  {
    var (first, f1) := OptimizedStmt(level, f, s);
    assert [s][1..] == [];
    assert first + [] == first;
  }

  class Optimizer {
    const level: Level
    var constants: map<Str, Value>
    var expressions: map<Str, Str>
    var copies: map<Str, Str>

    ghost function Known(): Facts
      reads this
    {
      Facts(constants, copies, expressions)
    }

    constructor (level: Level)
      ensures this.level == level && Known() == NOTHING_KNOWN
    {
      this.level := level;
      constants, expressions, copies := map[], map[], map[];
    }

    // Walks a chain of copies until it ends or closes.
    method FollowCopies(name: Str) returns (root: Str)
      ensures root == Root(copies, name, {})
    {
      root := name;
      var visited: set<Str> := {};
      while root !in visited && root in copies
        invariant Root(copies, name, {}) == Root(copies, root, visited)
        decreases copies.Keys - visited
      {
        var next := copies[root];
        assert root in copies.Keys - visited;
        visited := visited + {root};
        root := next;
      }
    }

    method OptimizeExpression(e: Expr) returns (r: Expr)
      ensures r == OptimizedExpr(level, Known(), e)
      decreases e
    {
      if level.OptNone? {
        return e;
      }
      match e
      case Variable(name) =>
        var root := FollowCopies(name);
        r := if root in constants then Literal(constants[root]) else Variable(root);
      case Binary(op, left, right) =>
        var l := OptimizeExpression(left);
        var k := OptimizeExpression(right);
        r := FoldBinary(level, op, l, k);
      case Unary(_, _) => r := e;
      case Literal(_) => r := e;
    }

    // Deletes everything known under the names.
    method Invalidate(names: set<Str>)
      modifies this
      ensures Known() == Forget(old(Known()), names)
    {
      var todo := names;
      while todo != {}
        invariant todo <= names && Known() == Forget(old(Known()), names - todo)
        decreases |todo|
      {
        var name :| name in todo;
        assert Forget(Forget(old(Known()), names - todo), {name}) == Forget(old(Known()), names - (todo - {name}));
        constants, copies, expressions := constants - {name}, copies - {name}, expressions - {name};
        todo := todo - {name};
      }
    }

    // The right side of an assignment to the target, with what is known brought up to date.
    method OptimizeValue(target: Str, value: Expr) returns (v: Expr)
      requires !level.OptNone?
      modifies this
      ensures (v, Known()) == OptimizedAssign(level, old(Known()), target, value)
    {
      v := OptimizeExpression(value);
      if v.Variable? {
        copies := copies[target := v.name];
        constants := constants - {target};
      } else {
        copies := copies - {target};
        if level.OptAggressive? {
          var key := ExprKey(v);
          if key != [] {
            if key in expressions {
              copies := copies[target := expressions[key]];
              assert copies == old(copies)[target := expressions[key]];
              v := Variable(expressions[key]);
            } else {
              expressions := expressions[key := target];
            }
          }
        }
        if v.Literal? {
          constants := constants[target := v.value];
        } else {
          constants := constants - {target};
        }
      }
    }

    method OptimizeStatements(stmts: seq<Stmt>) returns (result: seq<Stmt>)
      modifies this
      ensures (result, Known()) == OptimizedBlock(level, old(Known()), stmts)
      decreases WeightBlock(stmts), 1
    {
      if level.OptNone? {
        return stmts;
      }
      hide OptimizedStmt, OptimizedBlock, Rewritten, WeightBlock, Weight;
      result := [];
      var reachedReturn := false;
      var i := 0;
      RewrittenNone(level, Known(), stmts);
      while i < |stmts|
        invariant i <= |stmts|
        invariant reachedReturn ==> OptimizedBlock(level, old(Known()), stmts) == (result, Known())
        invariant !reachedReturn ==> Rewritten(level, old(Known()), stmts, i, result, Known())
      {
        if !reachedReturn {
          RewrittenMore(level, old(Known()), stmts, i, result, Known());
          WeightAt(stmts, i);
          var first := OptimizeStatement(stmts[i]);
          result := result + first;
          reachedReturn := stmts[i].Return?;
        }
        i := i + 1;
      }
      if !reachedReturn {
        RewrittenAll(level, old(Known()), stmts, result, Known());
      }
    }

    method OptimizeStatement(s: Stmt) returns (out: seq<Stmt>)
      requires !level.OptNone?
      modifies this
      ensures (out, Known()) == OptimizedStmt(level, old(Known()), s)
      decreases Weight(s), 0
    {
      hide OptimizedBlock, OptimizedAssign, OptimizedExpr, Hoisted, ModifiedBlock, ModifiedCases, WeightBlock;
      match s
      case Assign(x, e) =>
        var v := OptimizeValue(x, e);
        out := [Assign(x, v)];
      case Reassign(x, e) =>
        var v := OptimizeValue(x, e);
        out := [Reassign(x, v)];
      case Return(e) =>
        var v := OptimizeExpression(e);
        out := [Return(v)];
      case If(_, _, _) =>
        out := OptimizeIf(s);
      case While(c, body) =>
        out := OptimizeWhile(s);
      case Switch(_, cases, dflt) =>
        var modified := GetModifiedInCases(cases);
        Invalidate(modified);
        var inDefault := GetModifiedVariables(dflt);
        Invalidate(inDefault);
        assert Forget(Forget(old(Known()), modified), inDefault) == Forget(old(Known()), modified + inDefault);
        out := [s];
      case ExprStmt(_) => out := [s];
      case Validation(_) => out := [s];
      case Break => out := [s];
      case Continue => out := [s];
    }

    method OptimizeIf(s: Stmt) returns (out: seq<Stmt>)
      requires !level.OptNone? && s.If?
      modifies this
      ensures (out, Known()) == OptimizedStmt(level, old(Known()), s)
      decreases WeightBlock(s.thenBlock) + WeightBlock(s.elseBlock), 3
    {
      hide OptimizedBlock, OptimizedExpr;
      var condition := OptimizeExpression(s.cond);
      if condition == Literal(Bool(true)) {
        out := OptimizeStatements(s.thenBlock);
      } else if condition == Literal(Bool(false)) {
        out := OptimizeStatements(s.elseBlock);
      } else {
        var thenBlock := OptimizeStatements(s.thenBlock);
        var elseBlock := OptimizeStatements(s.elseBlock);
        out := [If(condition, thenBlock, elseBlock)];
      }
    }

    method OptimizeWhile(s: Stmt) returns (out: seq<Stmt>)
      requires !level.OptNone? && s.While?
      modifies this
      ensures (out, Known()) == OptimizedStmt(level, old(Known()), s)
      decreases WeightBlock(s.body), 3
    {
      var modified := GetModifiedVariables(s.body);
      Invalidate(modified);
      var invariantStmts, loopBody := [], s.body;
      if level.OptAggressive? {
        invariantStmts, loopBody := SeparateInvariants(s, modified);
      }
      out := OptimizeEach(invariantStmts);
      var condition := OptimizeExpression(s.cond);
      var body := OptimizeStatements(loopBody);
      out := out + [While(condition, body)];
    }

    // The statements moved out of a loop, rewritten one at a time.
    method OptimizeEach(invariantStmts: seq<Stmt>) returns (out: seq<Stmt>)
      requires !level.OptNone? && forall t | t in invariantStmts :: t.Assign?
      modifies this
      ensures (out, Known()) == OptimizedBlock(level, old(Known()), invariantStmts)
      decreases WeightBlock(invariantStmts), 2
    {
      hide OptimizedStmt, OptimizedBlock, Rewritten, WeightBlock, Weight;
      out := [];
      var i := 0;
      RewrittenNone(level, Known(), invariantStmts);
      while i < |invariantStmts|
        invariant i <= |invariantStmts| && Rewritten(level, old(Known()), invariantStmts, i, out, Known())
      {
        assert invariantStmts[i].Assign? by {
          assert invariantStmts[i] in invariantStmts;
        }
        RewrittenMore(level, old(Known()), invariantStmts, i, out, Known());
        OneStatement(level, Known(), invariantStmts[i]);
        WeightAt(invariantStmts, i);
        var moved := OptimizeStatements([invariantStmts[i]]);
        out := out + moved;
        i := i + 1;
      }
      RewrittenAll(level, old(Known()), invariantStmts, out, Known());
    }

    // Splits a loop's body into the assignments that can move out and the rest.
    method SeparateInvariants(s: Stmt, modified: set<Str>) returns (invariantStmts: seq<Stmt>, loopBody: seq<Stmt>)
      requires s.While?
      ensures (invariantStmts, loopBody) == Hoisted(s.body, modified, Used(s.cond))
      ensures forall t | t in invariantStmts :: t.Assign?
    {
      hide Hoisted, Separated;
      var conditionVars := GetUsedVariables(s.cond);
      invariantStmts, loopBody := [], [];
      var i := 0;
      SeparatedNone(s.body, modified, Used(s.cond));
      while i < |s.body|
        invariant i <= |s.body| && Separated(s.body, modified, Used(s.cond), i, invariantStmts, loopBody)
        invariant forall t | t in invariantStmts :: t.Assign?
      {
        var bodyStmt := s.body[i];
        SeparatedMore(s.body, modified, Used(s.cond), i, invariantStmts, loopBody);
        var moves := false;
        if bodyStmt.Assign? {
          var isInvariant := IsExprInvariant(bodyStmt.value, modified);
          moves := isInvariant && bodyStmt.target !in conditionVars;
        }
        if moves {
          invariantStmts := invariantStmts + [bodyStmt];
        } else {
          loopBody := loopBody + [bodyStmt];
        }
        i := i + 1;
      }
      SeparatedAll(s.body, modified, Used(s.cond), invariantStmts, loopBody);
    }
  }

  method GetModifiedVariables(stmts: seq<Stmt>) returns (modified: set<Str>)
    ensures modified == ModifiedBlock(stmts)
  {
    modified := GetModifiedVariablesInBlock(stmts, {});
  }

  method GetModifiedVariablesInBlock(stmts: seq<Stmt>, before: set<Str>) returns (modified: set<Str>)
    ensures modified == before + ModifiedBlock(stmts)
    decreases stmts
  {
    modified := before;
    var i := 0;
    while i < |stmts|
      invariant i <= |stmts| && modified + ModifiedBlock(stmts[i..]) == before + ModifiedBlock(stmts)
    {
      assert stmts[i..][1..] == stmts[i + 1..];
      modified := GetModifiedVariablesInStmt(stmts[i], modified);
      i := i + 1;
    }
  }

  method GetModifiedVariablesInStmt(s: Stmt, before: set<Str>) returns (modified: set<Str>)
    ensures modified == before + Modified(s)
    decreases s
  {
    modified := before;
    match s
    case Assign(x, _) => modified := modified + {x};
    case Reassign(x, _) => modified := modified + {x};
    case If(_, t, e) =>
      modified := GetModifiedVariablesInBlock(t, modified);
      modified := GetModifiedVariablesInBlock(e, modified);
    case While(_, body) => modified := GetModifiedVariablesInBlock(body, modified);
    case _ =>
  }

  // What the cases of a switch modify, one after the other.
  method GetModifiedInCases(cases: seq<Case>) returns (modified: set<Str>)
    ensures modified == ModifiedCases(cases)
  {
    modified := {};
    var i := 0;
    while i < |cases|
      invariant i <= |cases| && modified + ModifiedCases(cases[i..]) == ModifiedCases(cases)
    {
      assert cases[i..][1..] == cases[i + 1..];
      modified := GetModifiedVariablesInBlock(cases[i].body, modified);
      i := i + 1;
    }
  }

  method GetUsedVariables(e: Expr) returns (used: set<Str>)
    ensures used == Used(e)
  {
    used := GetUsedVariablesInExpr(e, {});
  }

  method GetUsedVariablesInExpr(e: Expr, before: set<Str>) returns (used: set<Str>)
    ensures used == before + Used(e)
    decreases e
  {
    used := before;
    match e
    case Variable(name) => used := used + {name};
    case Binary(_, l, r) =>
      used := GetUsedVariablesInExpr(l, used);
      used := GetUsedVariablesInExpr(r, used);
    case Unary(_, r) => used := GetUsedVariablesInExpr(r, used);
    case Literal(_) =>
  }

  method IsExprInvariant(e: Expr, modified: set<Str>) returns (isInvariant: bool)
    ensures isInvariant <==> Used(e) !! modified
  {
    var todo := GetUsedVariables(e);
    while todo != {}
      invariant todo <= Used(e) && (Used(e) - todo) !! modified
      decreases |todo|
    {
      var name :| name in todo;
      if name in modified {
        return false;
      }
      todo := todo - {name};
    }
    return true;
  }
}
