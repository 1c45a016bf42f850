/** When the compiler still accepts a program the basic optimizer has rewritten. The branch of an if whose
  * condition has become a constant is spliced into the scope around it, and may declare a name there that
  * is declared there again. */
module Splicing {
  import opened Bytes
  import opened Lang
  import opened CodeGen
  import opened Folding
  import opened Rewriting
  import opened Frames
  import opened Safety
  import opened Preservation
  import opened SingleAssignment
  import opened Acceptance

  // ---- the condition ----

  // With the branches spliced in that get spliced in, no scope declares a name twice.
  predicate Once(f: Facts, n: Names, s: Stmt)
    decreases s, 0
  {
    match s
    case Assign(x, _) => x !in n.own
    case If(c, t, e) =>
      var c' := OptimizedExpr(OptBasic, f, c);
      if c' == Literal(Bool(true)) then OnceBlock(f, n, t)
      else if c' == Literal(Bool(false)) then OnceBlock(f, n, e)
      else OnceBlock(f, Inner(n), t) && OnceBlock(OptimizedBlock(OptBasic, f, t).1, Inner(n), e)
    case While(_, body) => OnceBlock(Forget(f, ModifiedBlock(body)), Inner(n), body)
    case _ => true
  }

  predicate OnceBlock(f: Facts, n: Names, stmts: seq<Stmt>)
    decreases stmts, 0
  {
    stmts == [] ||
    (Once(f, n, stmts[0]) &&
     (stmts[0].Return? || OnceBlock(OptimizedStmt(OptBasic, f, stmts[0]).1, Spliced(f, n, stmts[0]), stmts[1..])))
  }

  // The names behind a statement, with those of a branch that is spliced in.
  function Spliced(f: Facts, n: Names, s: Stmt): Names
    decreases s, 0
  {
    match s
    case If(c, t, e) =>
      var c' := OptimizedExpr(OptBasic, f, c);
      if c' == Literal(Bool(true)) then SplicedBlock(f, n, t)
      else if c' == Literal(Bool(false)) then SplicedBlock(f, n, e)
      else n
    case _ => Declared(n, s)
  }

  function SplicedBlock(f: Facts, n: Names, stmts: seq<Stmt>): Names
    decreases stmts, 0
  {
    if stmts == [] then n
    else if stmts[0].Return? then n
    else SplicedBlock(OptimizedStmt(OptBasic, f, stmts[0]).1, Spliced(f, n, stmts[0]), stmts[1..])
  }

  // ---- more names never hurt ----

  lemma MoreKnown(n: Names, n': Names, e: Expr)
    requires RejectedExpr(n, e) == None && n.known <= n'.known
    ensures RejectedExpr(n', e) == None
  {
    UnknownUsed(n.known, e);
    UnknownUsed(n'.known, e);
  }

  lemma {:induction false} MoreNames(n: Names, n': Names, inLoop: bool, s: Stmt)
    requires Rejected(n, inLoop, s) == None && n.known <= n'.known && (s.Assign? ==> n'.own <= n.own)
    ensures Rejected(n', inLoop, s) == None
    decreases s, 1
  {
    hide RejectedExpr, RejectedBlock, RejectedCases;
    match s
    case Assign(_, e) => MoreKnown(n, n', e);
    case Reassign(_, e) => MoreKnown(n, n', e);
    case Return(e) => MoreKnown(n, n', e);
    case ExprStmt(e) => MoreKnown(n, n', e);
    case Validation(_) =>
    case Break =>
    case Continue =>
    case If(c, t, f) =>
      MoreKnown(n, n', c);
      MoreNamesBlock(Inner(n), Inner(n'), inLoop, t);
      MoreNamesBlock(Inner(n), Inner(n'), inLoop, f);
    case While(c, b) =>
      MoreKnown(n, n', c);
      MoreNamesBlock(Inner(n), Inner(n'), true, b);
    case Switch(v, cases, d) =>
      MoreKnown(n, n', v);
      MoreNamesCases(n, n', inLoop, cases);
      MoreNamesBlock(Inner(n), Inner(n'), inLoop, d);
  }

  lemma {:induction false} MoreNamesBlock(n: Names, n': Names, inLoop: bool, stmts: seq<Stmt>)
    requires RejectedBlock(n, inLoop, stmts) == None && n.known <= n'.known && n'.own <= n.own
    ensures RejectedBlock(n', inLoop, stmts) == None
    decreases stmts, 0
  {
    hide Rejected;
    if stmts != [] {
      MoreNames(n, n', inLoop, stmts[0]);
      MoreNamesBlock(Declared(n, stmts[0]), Declared(n', stmts[0]), inLoop, stmts[1..]);
    }
  }

  lemma {:induction false} MoreNamesCases(n: Names, n': Names, inLoop: bool, cases: seq<Case>)
    requires RejectedCases(n, inLoop, cases) == None && n.known <= n'.known
    ensures RejectedCases(n', inLoop, cases) == None
    decreases cases, 0
  {
    hide RejectedExpr, RejectedBlock;
    if cases != [] {
      MoreKnown(n, n', cases[0].value);
      MoreNamesBlock(Inner(n), Inner(n'), inLoop, cases[0].body);
      MoreNamesCases(n, n', inLoop, cases[1..]);
    }
  }

  // ---- blocks in a row ----

  lemma {:induction false} RejectedAppend(n: Names, inLoop: bool, a: seq<Stmt>, b: seq<Stmt>)
    ensures RejectedBlock(n, inLoop, a + b) ==
              if RejectedBlock(n, inLoop, a).Some? then RejectedBlock(n, inLoop, a)
              else RejectedBlock(DeclaredBlock(n, a), inLoop, b)
    ensures DeclaredBlock(n, a + b) == DeclaredBlock(DeclaredBlock(n, a), b)
    decreases |a|
  {
    hide Rejected, Declared;
    if a == [] {
      assert a + b == b;
    } else {
      assert (a + b)[1..] == a[1..] + b;
      RejectedAppend(Declared(n, a[0]), inLoop, a[1..], b);
    }
  }

  lemma RejectedOne(n: Names, inLoop: bool, s: Stmt)
    ensures RejectedBlock(n, inLoop, [s]) == Rejected(n, inLoop, s) && DeclaredBlock(n, [s]) == Declared(n, s)
  {
    hide Rejected, Declared;
    assert [s][1..] == [];
  }

  // ---- rewriting ----

  lemma FoldedKnown(f: Facts, n0: Names, n: Names, e: Expr)
    requires RejectedExpr(n0, e) == None && n0.known <= n.known && CopiesSeen(f, n.known)
    ensures RejectedExpr(n, OptimizedExpr(OptBasic, f, e)) == None
  {
    hide OptimizedExpr;
    UnknownUsed(n0.known, e);
    FoldedUses(OptBasic, f, e, n.known);
    UnknownUsed(n.known, OptimizedExpr(OptBasic, f, e));
  }

  // Rejected as the condition says, and for no other reason than a name declared twice.
  ghost predicate OnlyTwice(rejected: Option<CompileError>, once: bool) {
    match rejected
    case None => once
    case Some(err) => err.Redeclared? && !once
  }

  // The names and copies behind the rewritten statement.
  ghost predicate GoesOn(f: Facts, n0: Names, n: Names, wide: set<Str>) {
    n0.known <= n.known <= wide && CopiesSeen(f, n.known)
  }

  lemma {:induction false} StmtSpliced(f: Facts, scope: set<Str>, n0: Names, n: Names, inLoop: bool, s: Stmt)
    requires Safe(OptBasic, f, scope, s) && Rejected(n0, inLoop, s) == None && GoesOn(f, n0, n, scope)
    ensures var (out, f1) := OptimizedStmt(OptBasic, f, s);
            && OnlyTwice(RejectedBlock(n, inLoop, out), Once(f, n, s))
            && (Once(f, n, s) ==> DeclaredBlock(n, out) == Spliced(f, n, s)
                                  && GoesOn(f1, Declared(n0, s), Spliced(f, n, s), scope + Opened(OptBasic, f, s)))
    decreases s, 1
  {
    hide OptimizedExpr, OptimizedBlock, RejectedExpr, RejectedBlock, OptimizedAssign, ModifiedBlock, CopiesSeen;
    hide OnceBlock, SplicedBlock, DeclaredBlock, SafeBlock, AssignedBlock, Within;
    match s
    case Assign(x, e) => AssignSpliced(f, n0, n, inLoop, s);
    case Reassign(x, e) => AssignSpliced(f, n0, n, inLoop, s);
    case Return(e) =>
      FoldedKnown(f, n0, n, e);
      RejectedOne(n, inLoop, Return(OptimizedExpr(OptBasic, f, e)));
    case If(_, _, _) => IfSpliced(f, scope, n0, n, inLoop, s);
    case While(_, _) => WhileSpliced(f, scope, n0, n, inLoop, s);
    case _ => RestSpliced(f, n0, n, inLoop, s);
  }

  lemma AssignSpliced(f: Facts, n0: Names, n: Names, inLoop: bool, s: Stmt)
    requires (s.Assign? || s.Reassign?) && Rejected(n0, inLoop, s) == None && n0.known <= n.known && CopiesSeen(f, n.known)
    ensures var (out, f1) := OptimizedStmt(OptBasic, f, s);
            && OnlyTwice(RejectedBlock(n, inLoop, out), Once(f, n, s))
            && DeclaredBlock(n, out) == Declared(n, s) && CopiesSeen(f1, Declared(n, s).known)
  {
    hide OptimizedExpr, ExprKeys.ExprKey;
    var v := OptimizedExpr(OptBasic, f, s.value);
    UnknownUsed(n0.known, s.value);
    FoldedUses(OptBasic, f, s.value, n.known);
    UnknownUsed(n.known, v);
    RejectedOne(n, inLoop, OptimizedStmt(OptBasic, f, s).0[0]);
  }

  lemma RestSpliced(f: Facts, n0: Names, n: Names, inLoop: bool, s: Stmt)
    requires s.Switch? || s.ExprStmt? || s.Validation? || s.Break? || s.Continue?
    requires Rejected(n0, inLoop, s) == None && n0.known <= n.known && CopiesSeen(f, n.known)
    ensures var (out, f1) := OptimizedStmt(OptBasic, f, s);
            RejectedBlock(n, inLoop, out) == None && DeclaredBlock(n, out) == n && CopiesSeen(f1, n.known)
  {
    hide Rejected, ModifiedBlock, ModifiedCases;
    MoreNames(n0, n, inLoop, s);
    RejectedOne(n, inLoop, s);
  }

  lemma CopiesWithin(g: Facts, f: Facts, scope: set<Str>, known: set<Str>)
    requires Within(g, f, scope) && CopiesSeen(f, known) && known <= scope
    ensures CopiesSeen(g, known)
  {
  }

  lemma {:induction false} IfSpliced(f: Facts, scope: set<Str>, n0: Names, n: Names, inLoop: bool, s: Stmt)
    requires s.If? && Safe(OptBasic, f, scope, s) && Rejected(n0, inLoop, s) == None && GoesOn(f, n0, n, scope)
    ensures var (out, f1) := OptimizedStmt(OptBasic, f, s);
            && OnlyTwice(RejectedBlock(n, inLoop, out), Once(f, n, s))
            && (Once(f, n, s) ==> DeclaredBlock(n, out) == Spliced(f, n, s)
                                  && GoesOn(f1, n0, Spliced(f, n, s), scope + Opened(OptBasic, f, s)))
    decreases s, 0
  {
    hide OptimizedExpr, OptimizedBlock, RejectedExpr, RejectedBlock, CopiesSeen, OnceBlock, SplicedBlock, DeclaredBlock;
    hide SafeBlock, AssignedBlock, Within;
    var c' := OptimizedExpr(OptBasic, f, s.cond);
    if c' == Literal(Bool(true)) {
      BranchSpliced(f, scope, n0, n, inLoop, s.thenBlock);
    } else if c' == Literal(Bool(false)) {
      BranchSpliced(f, scope, n0, n, inLoop, s.elseBlock);
    } else {
      var (t', f1) := OptimizedBlock(OptBasic, f, s.thenBlock);
      var (e', f2) := OptimizedBlock(OptBasic, f1, s.elseBlock);
      FoldedKnown(f, n0, n, s.cond);
      RejectedOne(n, inLoop, If(c', t', e'));
      BlockSpliced(f, scope, Inner(n0), Inner(n), inLoop, s.thenBlock);
      CopiesWithin(f1, f, scope, n.known);
      BlockSpliced(f1, scope, Inner(n0), Inner(n), inLoop, s.elseBlock);
      CopiesWithin(f2, f1, scope, n.known);
    }
  }

  // A branch accepted in a scope of its own, spliced into the scope around it.
  lemma {:induction false} BranchSpliced(f: Facts, scope: set<Str>, n0: Names, n: Names, inLoop: bool, stmts: seq<Stmt>)
    requires SafeBlock(OptBasic, f, scope, stmts) && RejectedBlock(Inner(n0), inLoop, stmts) == None && GoesOn(f, n0, n, scope)
    ensures var (out, f1) := OptimizedBlock(OptBasic, f, stmts);
            && OnlyTwice(RejectedBlock(n, inLoop, out), OnceBlock(f, n, stmts))
            && (OnceBlock(f, n, stmts) ==> DeclaredBlock(n, out) == SplicedBlock(f, n, stmts)
                                           && GoesOn(f1, n0, SplicedBlock(f, n, stmts), scope + AssignedBlock(stmts)))
    decreases stmts, 1
  {
    hide OptimizedBlock, RejectedBlock, CopiesSeen, OnceBlock, SplicedBlock, DeclaredBlock, SafeBlock, AssignedBlock;
    BlockSpliced(f, scope, Inner(n0), n, inLoop, stmts);
  }

  lemma {:induction false} WhileSpliced(f: Facts, scope: set<Str>, n0: Names, n: Names, inLoop: bool, s: Stmt)
    requires s.While? && Safe(OptBasic, f, scope, s) && Rejected(n0, inLoop, s) == None && GoesOn(f, n0, n, scope)
    ensures var (out, f1) := OptimizedStmt(OptBasic, f, s);
            && OnlyTwice(RejectedBlock(n, inLoop, out), Once(f, n, s))
            && DeclaredBlock(n, out) == n && CopiesSeen(f1, n.known)
    decreases s, 0
  {
    hide OptimizedExpr, OptimizedBlock, RejectedExpr, RejectedBlock, OnceBlock, SplicedBlock, DeclaredBlock;
    hide SafeBlock, AssignedBlock, ModifiedBlock, OptimizedStmt;
    WhileShape(f, s);
    var f0 := Forget(f, ModifiedBlock(s.body));
    var (body', f1) := OptimizedBlock(OptBasic, f0, s.body);
    FoldedKnown(f0, n0, n, s.cond);
    RejectedOne(n, inLoop, While(OptimizedExpr(OptBasic, f0, s.cond), body'));
    BlockSpliced(f0, scope, Inner(n0), Inner(n), true, s.body);
    CopiesWithin(f1, f0, scope, n.known);
  }

  lemma {:induction false} BlockSpliced(f: Facts, scope: set<Str>, n0: Names, n: Names, inLoop: bool, stmts: seq<Stmt>)
    requires SafeBlock(OptBasic, f, scope, stmts) && RejectedBlock(n0, inLoop, stmts) == None && GoesOn(f, n0, n, scope)
    ensures var (out, f1) := OptimizedBlock(OptBasic, f, stmts);
            && OnlyTwice(RejectedBlock(n, inLoop, out), OnceBlock(f, n, stmts))
            && (OnceBlock(f, n, stmts) ==> DeclaredBlock(n, out) == SplicedBlock(f, n, stmts)
                                           && GoesOn(f1, n0, SplicedBlock(f, n, stmts), scope + AssignedBlock(stmts)))
    decreases stmts, 0
  {
    hide OptimizedStmt, Rejected, CopiesSeen, Once, Spliced, Declared, Safe, Assigned, Opened;
    if stmts != [] {
      var s := stmts[0];
      var (first, f1) := OptimizedStmt(OptBasic, f, s);
      StmtSpliced(f, scope, n0, n, inLoop, s);
      OpenedAssigned(f, s);
      if s.Return? {
        ReturnSpliced(f, n0, n, s);
      } else if Once(f, n, s) {
        DeclaredMore(n0, s);
        var more := scope + Opened(OptBasic, f, s);
        BlockSpliced(f1, more, Declared(n0, s), Spliced(f, n, s), inLoop, stmts[1..]);
        RejectedAppend(n, inLoop, first, OptimizedBlock(OptBasic, f1, stmts[1..]).0);
        assert more + AssignedBlock(stmts[1..]) <= scope + AssignedBlock(stmts);
      } else {
        RejectedAppend(n, inLoop, first, OptimizedBlock(OptBasic, f1, stmts[1..]).0);
      }
    }
  }

  lemma ReturnSpliced(f: Facts, n0: Names, n: Names, s: Stmt)
    requires s.Return?
    ensures Declared(n0, s) == n0 && Spliced(f, n, s) == n && Opened(OptBasic, f, s) == {}
  {
  }

  lemma DeclaredMore(n: Names, s: Stmt)
    ensures n.known <= Declared(n, s).known
  {
  }

  // ---- programs that set every variable once ----

  lemma {:induction false} SingleOnce(f: Facts, seen: set<Str>, n: Names, s: Stmt)
    requires Single(seen, s) && n.own <= n.known <= seen
    ensures Once(f, n, s)
    ensures Spliced(f, n, s).own <= Spliced(f, n, s).known <= seen + Assigned(s)
    decreases s, 0
  {
    hide OptimizedExpr, OptimizedBlock, ModifiedBlock;
    match s
    case If(c, t, e) =>
      SingleBlockOnce(f, seen, n, t);
      SingleBlockOnce(f, seen + AssignedBlock(t), n, e);
      SingleBlockOnce(f, seen, Inner(n), t);
      SingleBlockOnce(OptimizedBlock(OptBasic, f, t).1, seen + AssignedBlock(t), Inner(n), e);
    case While(_, body) => SingleBlockOnce(Forget(f, ModifiedBlock(body)), seen, Inner(n), body);
    case _ =>
  }

  lemma {:induction false} SingleBlockOnce(f: Facts, seen: set<Str>, n: Names, stmts: seq<Stmt>)
    requires SingleBlock(seen, stmts) && n.own <= n.known <= seen
    ensures OnceBlock(f, n, stmts)
    ensures SplicedBlock(f, n, stmts).own <= SplicedBlock(f, n, stmts).known <= seen + AssignedBlock(stmts)
    decreases stmts, 0
  {
    hide OptimizedStmt, Once, Spliced, Single, Assigned;
    if stmts != [] {
      SingleOnce(f, seen, n, stmts[0]);
      var more := seen + Assigned(stmts[0]);
      SingleBlockOnce(OptimizedStmt(OptBasic, f, stmts[0]).1, more, Spliced(f, n, stmts[0]), stmts[1..]);
      assert more + AssignedBlock(stmts[1..]) == seen + AssignedBlock(stmts);
    }
  }

  // ---- plain programs stay plain ----

  ghost predicate CopiesPlain(f: Facts) {
    forall x | x in f.copies :: PlainName(f.copies[x])
  }

  lemma {:induction false} RootPlain(copies: map<Str, Str>, x: Str, visited: set<Str>)
    requires PlainName(x) && forall y | y in copies :: PlainName(copies[y])
    ensures PlainName(Root(copies, x, visited))
    decreases |copies.Keys - visited|
  {
    hide PlainName;
    if x !in visited && x in copies {
      assert copies.Keys - (visited + {x}) == (copies.Keys - visited) - {x};
      RootPlain(copies, copies[x], visited + {x});
    }
  }

  lemma {:induction false} ExprPlain(f: Facts, e: Expr)
    requires PlainExpr(e) && CopiesPlain(f)
    ensures PlainExpr(OptimizedExpr(OptBasic, f, e))
    decreases e
  {
    hide PlainName;
    match e
    case Literal(_) =>
    case Variable(x) => RootPlain(f.copies, x, {});
    case Unary(_, _) =>
    case Binary(op, l, r) =>
      ExprPlain(f, l);
      ExprPlain(f, r);
      FoldPlain(op, OptimizedExpr(OptBasic, f, l), OptimizedExpr(OptBasic, f, r));
  }

  lemma FoldPlain(op: BinOp, l: Expr, r: Expr)
    requires PlainExpr(l) && PlainExpr(r)
    ensures PlainExpr(FoldBinary(OptBasic, op, l, r))
  {
    hide Wrap64, TruncDiv, TruncMod, PlainName;
  }

  lemma {:induction false} StmtPlain(f: Facts, s: Stmt)
    requires PlainStmt(s) && CopiesPlain(f)
    ensures PlainBlock(OptimizedStmt(OptBasic, f, s).0) && CopiesPlain(OptimizedStmt(OptBasic, f, s).1)
    decreases s, 1
  {
    hide OptimizedExpr, PlainName, PlainExpr, OptimizedBlock, ExprKeys.ExprKey, ModifiedBlock, ModifiedCases;
    var out := OptimizedStmt(OptBasic, f, s).0;
    if |out| == 1 {
      assert out[1..] == [];
    }
    match s
    case Assign(_, e) => AssignPlain(f, s);
    case Reassign(_, e) => AssignPlain(f, s);
    case Return(e) => ExprPlain(f, e);
    case If(c, t, e) =>
      ExprPlain(f, c);
      BlockPlain(f, t);
      BlockPlain(f, e);
      BlockPlain(OptimizedBlock(OptBasic, f, t).1, e);
    case While(c, body) =>
      WhileShape(f, s);
      var f0 := Forget(f, ModifiedBlock(body));
      ExprPlain(f0, c);
      BlockPlain(f0, body);
    case _ =>
  }

  lemma AssignPlain(f: Facts, s: Stmt)
    requires (s.Assign? || s.Reassign?) && PlainStmt(s) && CopiesPlain(f)
    ensures PlainStmt(OptimizedStmt(OptBasic, f, s).0[0]) && CopiesPlain(OptimizedStmt(OptBasic, f, s).1)
  {
    hide OptimizedExpr, PlainName, ExprKeys.ExprKey;
    ExprPlain(f, s.value);
  }

  lemma {:induction false} BlockPlain(f: Facts, stmts: seq<Stmt>)
    requires PlainBlock(stmts) && CopiesPlain(f)
    ensures PlainBlock(OptimizedBlock(OptBasic, f, stmts).0) && CopiesPlain(OptimizedBlock(OptBasic, f, stmts).1)
    decreases stmts, 0
  {
    hide OptimizedStmt, PlainStmt, CopiesPlain;
    if stmts != [] {
      var (first, f1) := OptimizedStmt(OptBasic, f, stmts[0]);
      StmtPlain(f, stmts[0]);
      if !stmts[0].Return? {
        BlockPlain(f1, stmts[1..]);
        PlainAppend(first, OptimizedBlock(OptBasic, f1, stmts[1..]).0);
      }
    }
  }

  lemma {:induction false} PlainAppend(a: seq<Stmt>, b: seq<Stmt>)
    requires PlainBlock(a) && PlainBlock(b)
    ensures PlainBlock(a + b)
    decreases |a|
  {
    hide PlainStmt;
    if a == [] {
      assert a + b == b;
    } else {
      assert (a + b)[1..] == a[1..] + b;
      PlainAppend(a[1..], b);
    }
  }
}
