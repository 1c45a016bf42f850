/** Runs that come to every variable in time: a name is set before it is read. */
module Reads {
  import opened Bytes
  import opened Lang
  import opened Interpreter
  import opened Rewriting
  import opened Frames
  import opened Acceptance

  predicate ReadsIn(names: set<Str>, known: set<Str>, e: Expr) {
    Used(e) * names <= known
  }

  // Of the names, a statement reads or sets anew only those known to be there, or declared before in the
  // same block. Compiled code does not read what a validation reads.
  predicate Timely(reading: Reading, names: set<Str>, known: set<Str>, s: Stmt)
    decreases s, 0
  {
    match s
    case Assign(_, e) => ReadsIn(names, known, e)
    case Reassign(x, e) => ReadsIn(names, known, e) && (x in names ==> x in known)
    case Return(e) => ReadsIn(names, known, e)
    case ExprStmt(e) => ReadsIn(names, known, e)
    case If(c, t, f) =>
      ReadsIn(names, known, c) && TimelyBlock(reading, names, known, t) && TimelyBlock(reading, names, known, f)
    case While(c, b) => ReadsIn(names, known, c) && TimelyBlock(reading, names, known, b)
    case Switch(v, cases, d) =>
      ReadsIn(names, known, v) && TimelyCases(reading, names, known, cases) && TimelyBlock(reading, names, known, d)
    case Validation(test) => reading.AsCompiled? || ReadsIn(names, known, test)
    case Break => true
    case Continue => true
  }

  predicate TimelyBlock(reading: Reading, names: set<Str>, known: set<Str>, stmts: seq<Stmt>)
    decreases stmts, 0
  {
    stmts == [] || (Timely(reading, names, known, stmts[0])
                    && TimelyBlock(reading, names, known + Defined(stmts[0]), stmts[1..]))
  }

  predicate TimelyCases(reading: Reading, names: set<Str>, known: set<Str>, cases: seq<Case>)
    decreases cases, 0
  {
    cases == [] || (ReadsIn(names, known, cases[0].value) && TimelyBlock(reading, names, known, cases[0].body)
                    && TimelyCases(reading, names, known, cases[1..]))
  }

  ghost predicate AllThere(env: Env, names: set<Str>) {
    forall x | x in names :: Has(env, x)
  }

  lemma {:induction false} EvalFinds(reading: Reading, e: Expr, env: Env, names: set<Str>, known: set<Str>)
    requires AllThere(env, known) && ReadsIn(names, known, e)
    ensures Eval(reading, e, env).Err? ==> !Misses(Eval(reading, e, env).error, names)
    decreases e
  {
    match e
    case Literal(_) =>
    case Variable(x) => HasGets(env, x);
    case Unary(_, r) => EvalFinds(reading, r, env, names, known);
    case Binary(_, l, r) =>
      EvalFinds(reading, l, env, names, known);
      EvalFinds(reading, r, env, names, known);
  }

  lemma ThereBehind(reading: Reading, limit: nat, s: Stmt, env: Env, known: set<Str>)
    requires env != [] && Distinct(env) && AllThere(env, known) && Exec(reading, limit, s, env).Normal?
    ensures AllThere(Exec(reading, limit, s, env).env, known + Defined(s))
  {
    hide Grown;
    ExecLeaves(reading, limit, s, env);
    GrownThere(env, Exec(reading, limit, s, env).env, Defined(s), Assigned(s), known);
    if s.Assign? {
      AssignGet(env, s.target, Eval(reading, s.value, env).value, s.target);
    }
  }

  lemma GrownThere(env: Env, e: Env, d: set<Str>, w: set<Str>, known: set<Str>)
    requires Grown(env, e, d, w) && AllThere(env, known)
    ensures AllThere(e, known)
  {
    forall x | x in known ensures Has(e, x) {
      GrownHas(env, e, d, w, x);
    }
  }

  lemma PushThere(env: Env, known: set<Str>)
    requires AllThere(env, known)
    ensures AllThere(env + [map[]], known)
  {
    forall x | x in known ensures Has(env + [map[]], x) {
      PushHas(env, x);
    }
  }

  ghost predicate Finds(o: Outcome, names: set<Str>) {
    o.Failed? ==> !Misses(o.error, names)
  }

  // No run stops at a variable that is there, or declared, in time.
  lemma {:induction false} ExecFinds(reading: Reading, limit: nat, s: Stmt, env: Env, names: set<Str>, known: set<Str>)
    requires env != [] && Distinct(env) && AllThere(env, known) && Timely(reading, names, known, s)
    ensures Finds(Exec(reading, limit, s, env), names)
    decreases s, 1, 0
  {
    hide Eval, Distinct, ExecBlock, ExecWhile, ExecSwitch, ReadsIn, TimelyBlock;
    match s
    case Assign(_, e) => EvalFinds(reading, e, env, names, known);
    case Reassign(_, e) => EvalFinds(reading, e, env, names, known);
    case Return(e) => EvalFinds(reading, e, env, names, known);
    case ExprStmt(e) => EvalFinds(reading, e, env, names, known);
    case If(c, t, e) =>
      EvalFinds(reading, c, env, names, known);
      ClosedFinds(reading, limit, t, env, names, known);
      ClosedFinds(reading, limit, e, env, names, known);
    case While(_, _) => WhileFinds(reading, limit, s, env, 0, Null, names, known);
    case Switch(v, _, _) =>
      EvalFinds(reading, v, env, names, known);
      if Eval(reading, v, env).Ok? {
        assert s.cases[0..] == s.cases;
        SwitchFinds(reading, limit, s, Eval(reading, v, env).value, 0, env, names, known);
      }
    case Validation(test) =>
      if reading.AsWritten? {
        EvalFinds(reading, test, env, names, known);
      }
    case Break =>
    case Continue =>
  }

  lemma {:induction false} BlockFinds(reading: Reading, limit: nat, stmts: seq<Stmt>, env: Env, names: set<Str>,
                                      known: set<Str>)
    requires env != [] && Distinct(env) && AllThere(env, known) && TimelyBlock(reading, names, known, stmts)
    ensures Finds(ExecBlock(reading, limit, stmts, env), names)
    decreases stmts, 0, 0
  {
    hide Exec, Distinct, Grown, AllThere, Timely;
    if stmts != [] {
      ExecFinds(reading, limit, stmts[0], env, names, known);
      ExecLeaves(reading, limit, stmts[0], env);
      var first := Exec(reading, limit, stmts[0], env);
      if first.Normal? && |stmts| > 1 {
        GrownDistinct(env, first.env, Defined(stmts[0]), Assigned(stmts[0]));
        ThereBehind(reading, limit, stmts[0], env, known);
        BlockFinds(reading, limit, stmts[1..], first.env, names, known + Defined(stmts[0]));
      }
    }
  }

  lemma {:induction false} ClosedFinds(reading: Reading, limit: nat, stmts: seq<Stmt>, env: Env, names: set<Str>,
                                       known: set<Str>)
    requires env != [] && Distinct(env) && AllThere(env, known) && TimelyBlock(reading, names, known, stmts)
    ensures Finds(CloseScope(ExecBlock(reading, limit, stmts, env + [map[]])), names)
    decreases stmts, 0, 1
  {
    hide ExecBlock, Distinct, AllThere;
    PushDistinct(env);
    PushThere(env, known);
    BlockFinds(reading, limit, stmts, env + [map[]], names, known);
  }

  lemma {:induction false} WhileFinds(reading: Reading, limit: nat, s: Stmt, env: Env, iterations: nat, last: Value,
                                      names: set<Str>, known: set<Str>)
    requires env != [] && Distinct(env) && AllThere(env, known) && Timely(reading, names, known, s)
    requires s.While? && iterations <= limit
    ensures Finds(ExecWhile(reading, limit, s, env, iterations, last), names)
    decreases s, 0, limit - iterations
  {
    hide ExecBlock, Distinct, Grown, AllThere, Eval;
    if iterations < limit {
      EvalFinds(reading, s.cond, env, names, known);
      ClosedFinds(reading, limit, s.body, env, names, known);
      ClosedLeaves(reading, limit, s.body, env, AssignedBlock(s.body));
      var o := CloseScope(ExecBlock(reading, limit, s.body, env + [map[]]));
      if o.Normal? || o.Continued? {
        GrownDistinct(env, o.env, {}, AssignedBlock(s.body));
        GrownThere(env, o.env, {}, AssignedBlock(s.body), known);
        WhileFinds(reading, limit, s, o.env, iterations + 1, RoundResult(o), names, known);
      }
    }
  }

  lemma {:induction false} SwitchFinds(reading: Reading, limit: nat, s: Stmt, v: Value, i: nat, env: Env, names: set<Str>,
                                       known: set<Str>)
    requires env != [] && Distinct(env) && AllThere(env, known) && s.Switch? && i <= |s.cases|
    requires TimelyCases(reading, names, known, s.cases[i..]) && TimelyBlock(reading, names, known, s.defaultBlock)
    ensures Finds(ExecSwitch(reading, limit, s, v, i, env), names)
    decreases s, 0, |s.cases| - i
  {
    hide ExecBlock, Distinct, AllThere, Eval;
    if i == |s.cases| {
      ClosedFinds(reading, limit, s.defaultBlock, env, names, known);
    } else {
      assert s.cases[i..][0] == s.cases[i] && s.cases[i..][1..] == s.cases[i + 1..];
      EvalFinds(reading, s.cases[i].value, env, names, known);
      ClosedFinds(reading, limit, s.cases[i].body, env, names, known);
      SwitchFinds(reading, limit, s, v, i + 1, env, names, known);
    }
  }

  // Where all the names are there anyway, everything is in time.
  lemma {:induction false} TimelyThere(reading: Reading, names: set<Str>, known: set<Str>, s: Stmt)
    requires names <= known
    ensures Timely(reading, names, known, s)
    decreases s, 0
  {
    match s
    case If(_, t, f) =>
      TimelyThereBlock(reading, names, known, t);
      TimelyThereBlock(reading, names, known, f);
    case While(_, b) => TimelyThereBlock(reading, names, known, b);
    case Switch(_, cases, d) =>
      TimelyThereCases(reading, names, known, cases);
      TimelyThereBlock(reading, names, known, d);
    case _ =>
  }

  lemma {:induction false} TimelyThereBlock(reading: Reading, names: set<Str>, known: set<Str>, stmts: seq<Stmt>)
    requires names <= known
    ensures TimelyBlock(reading, names, known, stmts)
    decreases stmts, 0
  {
    if stmts != [] {
      TimelyThere(reading, names, known, stmts[0]);
      TimelyThereBlock(reading, names, known + Defined(stmts[0]), stmts[1..]);
    }
  }

  lemma {:induction false} TimelyThereCases(reading: Reading, names: set<Str>, known: set<Str>, cases: seq<Case>)
    requires names <= known
    ensures TimelyCases(reading, names, known, cases)
    decreases cases, 0
  {
    if cases != [] {
      TimelyThereBlock(reading, names, known, cases[0].body);
      TimelyThereCases(reading, names, known, cases[1..]);
    }
  }

  // ---- what the compiler accepts ----

  predicate Unvalidated(s: Stmt)
    decreases s, 0
  {
    match s
    case If(_, t, f) => UnvalidatedBlock(t) && UnvalidatedBlock(f)
    case While(_, b) => UnvalidatedBlock(b)
    case Switch(_, cases, d) => UnvalidatedCases(cases) && UnvalidatedBlock(d)
    case Validation(_) => false
    case _ => true
  }

  predicate UnvalidatedBlock(stmts: seq<Stmt>)
    decreases stmts, 0
  {
    stmts == [] || (Unvalidated(stmts[0]) && UnvalidatedBlock(stmts[1..]))
  }

  predicate UnvalidatedCases(cases: seq<Case>)
    decreases cases, 0
  {
    cases == [] || (UnvalidatedBlock(cases[0].body) && UnvalidatedCases(cases[1..]))
  }

  lemma AcceptedReads(names: set<Str>, n: Names, known: set<Str>, e: Expr)
    requires RejectedExpr(n, e) == None && n.known * names <= known
    ensures ReadsIn(names, known, e)
  {
    UnknownUsed(n.known, e);
  }

  // A statement the compiler accepts sets every name in time: it rejects an early read. Only validations
  // it does not look into.
  lemma {:induction false} AcceptedTimely(reading: Reading, names: set<Str>, n: Names, known: set<Str>, inLoop: bool, s: Stmt)
    requires Rejected(n, inLoop, s) == None && n.known * names <= known && (reading.AsCompiled? || Unvalidated(s))
    ensures Timely(reading, names, known, s)
    decreases s, 1
  {
    hide RejectedExpr, RejectedBlock, RejectedCases, ReadsIn, TimelyBlock, TimelyCases;
    match s
    case Assign(_, e) => AcceptedReads(names, n, known, e);
    case Reassign(_, e) => AcceptedReads(names, n, known, e);
    case Return(e) => AcceptedReads(names, n, known, e);
    case ExprStmt(e) => AcceptedReads(names, n, known, e);
    case If(c, t, f) =>
      AcceptedReads(names, n, known, c);
      AcceptedBlockTimely(reading, names, Inner(n), known, inLoop, t);
      AcceptedBlockTimely(reading, names, Inner(n), known, inLoop, f);
    case While(c, b) =>
      AcceptedReads(names, n, known, c);
      AcceptedBlockTimely(reading, names, Inner(n), known, true, b);
    case Switch(v, cases, d) =>
      AcceptedReads(names, n, known, v);
      AcceptedCasesTimely(reading, names, n, known, inLoop, cases);
      AcceptedBlockTimely(reading, names, Inner(n), known, inLoop, d);
    case _ =>
  }

  lemma {:induction false} AcceptedBlockTimely(reading: Reading, names: set<Str>, n: Names, known: set<Str>, inLoop: bool,
                                               stmts: seq<Stmt>)
    requires RejectedBlock(n, inLoop, stmts) == None && n.known * names <= known
    requires reading.AsCompiled? || UnvalidatedBlock(stmts)
    ensures TimelyBlock(reading, names, known, stmts)
    decreases stmts, 0
  {
    hide Rejected, Timely, Unvalidated;
    if stmts != [] {
      AcceptedTimely(reading, names, n, known, inLoop, stmts[0]);
      AcceptedBlockTimely(reading, names, Declared(n, stmts[0]), known + Defined(stmts[0]), inLoop, stmts[1..]);
    }
  }

  lemma {:induction false} AcceptedCasesTimely(reading: Reading, names: set<Str>, n: Names, known: set<Str>, inLoop: bool,
                                               cases: seq<Case>)
    requires RejectedCases(n, inLoop, cases) == None && n.known * names <= known
    requires reading.AsCompiled? || UnvalidatedCases(cases)
    ensures TimelyCases(reading, names, known, cases)
    decreases cases, 0
  {
    hide RejectedBlock, RejectedExpr, ReadsIn, TimelyBlock, UnvalidatedBlock;
    if cases != [] {
      AcceptedReads(names, n, known, cases[0].value);
      AcceptedBlockTimely(reading, names, Inner(n), known, inLoop, cases[0].body);
      AcceptedCasesTimely(reading, names, n, known, inLoop, cases[1..]);
    }
  }
}
