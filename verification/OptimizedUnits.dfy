/** Optimizer and compiler together: compiled optimized code against the unoptimized source program. */
module OptimizedUnits {
  import opened Bytes
  import opened Lang
  import opened Opcodes
  import opened Interpreter
  import opened CodeGen
  import opened Format
  import opened Vm
  import opened Folding
  import opened Rewriting
  import opened Frames
  import opened Safety
  import opened Preservation
  import opened SingleAssignment
  import opened Acceptance
  import opened Splicing
  import opened Simulation
  import opened Theorems
  import opened Readings

  // The unit the compiler sees: its body rewritten by a fresh optimizer.
  function OptimizedUnit(u: Unit): Unit {
    u.(body := OptimizedBlock(OptBasic, NOTHING_KNOWN, u.body).0)
  }

  // ---- whether it is accepted ----

  // With the branches of constant conditions spliced in, no scope of the unit declares a name twice.
  predicate DeclaresOnce(u: Unit) {
    OnceBlock(NOTHING_KNOWN, Entry(u), u.body)
  }

  ghost predicate SafeUnit(u: Unit) {
    SafeBlock(OptBasic, NOTHING_KNOWN, Entry(u).known, u.body)
  }

  // A unit the compiler accepts as it is written, it accepts when rewritten exactly if that holds; and
  // if not, it reports a name declared twice.
  lemma OptimizedCompiles(u: Unit)
    requires PlainUnit(u) && EmitUnit(u).Ok? && SafeUnit(u)
    ensures match EmitUnit(OptimizedUnit(u))
            case Ok(_) => DeclaresOnce(u)
            case Err(e) => e.Redeclared? && !DeclaresOnce(u)
    ensures PlainUnit(OptimizedUnit(u))
  {
    hide EmitUnit, RejectedBlock, OptimizedBlock, OnceBlock, SafeBlock, PlainBlock, PlainName, CopiesSeen, DeclaredBlock;
    var u' := OptimizedUnit(u);
    var n := Entry(u);
    NothingCopied(n.known);
    BlockPlain(NOTHING_KNOWN, u.body);
    UnitRejected(u);
    UnitRejected(u');
    BlockSpliced(NOTHING_KNOWN, n.known, n, n, false, u.body);
  }

  lemma NothingCopied(known: set<Str>)
    ensures CopiesSeen(NOTHING_KNOWN, known) && CopiesPlain(NOTHING_KNOWN) && CopiesFrom(NOTHING_KNOWN, known)
  {
  }

  // A unit that sets every variable once is safe, and is accepted.
  lemma SingleUnit(u: Unit)
    requires PlainUnit(u) && EmitUnit(u).Ok? && SingleBlock(Entry(u).known, u.body)
    ensures SafeUnit(u) && DeclaresOnce(u) && EmitUnit(OptimizedUnit(u)).Ok?
  {
    hide EmitUnit, SingleBlock, SafeBlock, OnceBlock, PlainUnit;
    NothingCopied(Entry(u).known);
    SingleBlockIsSafe(NOTHING_KNOWN, Entry(u).known, Entry(u).known, u.body);
    SingleBlockOnce(NOTHING_KNOWN, Entry(u).known, Entry(u), u.body);
    OptimizedCompiles(u);
  }

  // ---- what the file needs ----

  lemma {:induction false} ExprNeeds(f: Facts, e: Expr)
    ensures Need(OptimizedExpr(OptBasic, f, e)) <= Need(e)
    decreases e
  {
    match e
    case Literal(_) =>
    case Variable(_) =>
    case Unary(_, _) =>
    case Binary(op, l, r) =>
      ExprNeeds(f, l);
      ExprNeeds(f, r);
      FoldNeeds(op, OptimizedExpr(OptBasic, f, l), OptimizedExpr(OptBasic, f, r));
  }

  lemma FoldNeeds(op: BinOp, l: Expr, r: Expr)
    ensures Need(FoldBinary(OptBasic, op, l, r)) <= Need(Binary(op, l, r))
  {
    hide Wrap64, TruncDiv, TruncMod;
    NeedPositive(l);
    NeedPositive(r);
  }

  lemma {:induction false} NeedAppend(a: seq<Stmt>, b: seq<Stmt>)
    ensures NeedBlock(a + b) == Max(NeedBlock(a), NeedBlock(b))
    decreases |a|
  {
    hide NeedStmt;
    if a == [] {
      assert a + b == b;
    } else {
      assert (a + b)[1..] == a[1..] + b;
      NeedAppend(a[1..], b);
    }
  }

  lemma {:induction false} StmtNeeds(f: Facts, s: Stmt)
    ensures NeedBlock(OptimizedStmt(OptBasic, f, s).0) <= NeedStmt(s)
    decreases s, 1
  {
    hide OptimizedExpr, Need, OptimizedBlock, ExprKeys.ExprKey, ModifiedBlock, ModifiedCases;
    var out := OptimizedStmt(OptBasic, f, s).0;
    if |out| == 1 {
      assert out[1..] == [];
    }
    match s
    case Assign(_, e) => ExprNeeds(f, e);
    case Reassign(_, e) => ExprNeeds(f, e);
    case Return(e) => ExprNeeds(f, e);
    case If(c, t, e) =>
      ExprNeeds(f, c);
      BlockNeeds(f, t);
      BlockNeeds(f, e);
      BlockNeeds(OptimizedBlock(OptBasic, f, t).1, e);
    case While(c, body) =>
      WhileShape(f, s);
      var f0 := Forget(f, ModifiedBlock(body));
      ExprNeeds(f0, c);
      BlockNeeds(f0, body);
    case _ =>
  }

  // Rewriting never needs more of the stack.
  lemma {:induction false} BlockNeeds(f: Facts, stmts: seq<Stmt>)
    ensures NeedBlock(OptimizedBlock(OptBasic, f, stmts).0) <= NeedBlock(stmts)
    decreases stmts, 0
  {
    hide OptimizedStmt, NeedStmt;
    if stmts != [] {
      var (first, f1) := OptimizedStmt(OptBasic, f, stmts[0]);
      StmtNeeds(f, stmts[0]);
      BlockNeeds(f1, stmts[1..]);
      NeedAppend(first, OptimizedBlock(OptBasic, f1, stmts[1..]).0);
    }
  }

  // A file of less than 4 GiB holds no longer string.
  lemma {:induction false} PoolStorable(pool: seq<Constant>)
    ensures forall c | c in pool && c.Of? && c.v.Text? :: |c.v.s| <= |SerializePool(pool)|
    decreases |pool|
  {
    if pool != [] {
      PoolStorable(pool[1..]);
      forall c | c in pool && c.Of? && c.v.Text? ensures |c.v.s| <= |SerializePool(pool)| {
        assert c == pool[0] || c in pool[1..];
      }
    }
  }

  lemma FileStorable(em: Emitted)
    requires |UnitBytecode(em)| < TWO32
    ensures forall v | v in em.cs.constants :: Storable(Of(v))
  {
    hide Encode, Relocate;
    var pool := Pool(em.cs.constants);
    PoolStorable(pool);
    forall v | v in em.cs.constants ensures Storable(Of(v)) {
      var i :| 0 <= i < |em.cs.constants| && em.cs.constants[i] == v;
      assert pool[i] == Of(v);
    }
  }

  // ---- what it does ----

  // The compiler accepts the unit, as it is written and rewritten, rewriting it is safe, and the file has
  // less than 4 GiB.
  ghost predicate Compilable(u: Unit, inputs: map<Str, Value>) {
    && Provided(u, inputs) && PlainUnit(u) && EmitUnit(u).Ok? && NeedBlock(u.body) <= MAX_STACK
    && SafeUnit(u) && DeclaresOnce(u)
    && (EmitUnit(OptimizedUnit(u)).Ok? ==> |UnitBytecode(EmitUnit(OptimizedUnit(u)).value)| < TWO32)
  }

  lemma CompilableFile(u: Unit, inputs: map<Str, Value>)
    requires Compilable(u, inputs)
    ensures var u' := OptimizedUnit(u);
            EmitUnit(u').Ok? && WithinLimits(u', EmitUnit(u').value) && PlainUnit(u') && Provided(u', inputs)
    ensures Entry(u).known == inputs.Keys && SafeBlock(OptBasic, NOTHING_KNOWN, inputs.Keys, u.body)
  {
    hide EmitUnit, OptimizedBlock, SafeBlock, OnceBlock, PlainUnit, UnitBytecode;
    OptimizedCompiles(u);
    BlockNeeds(NOTHING_KNOWN, u.body);
    FileStorable(EmitUnit(OptimizedUnit(u)).value);
    assert Entry(u).known == inputs.Keys;
  }

  // The file returns the same value, ends normally with the same variables, or does not end within the
  // loop limit.
  ghost predicate Does(em: Emitted, inputs: map<Str, Value>, limit: nat, o: Outcome) {
    && (o.Returned? ==> FinishesWith(Loadable(em), Launch(em, inputs), Ok(o.value)))
    && (o.Normal? ==> Ends(Loadable(em), Launch(em, inputs), o.env))
    && (o == Failed(LoopLimitExceeded) ==> RunsOn(Loadable(em), Launch(em, inputs), limit))
  }

  // The optimized and compiled unit does what the source program does, as compiled code reads it. Only
  // errors may be gone.
  lemma OptimizedCompilerCorrect(u: Unit, inputs: map<Str, Value>, limit: nat)
    requires Compilable(u, inputs)
    ensures EmitUnit(OptimizedUnit(u)).Ok? && Does(EmitUnit(OptimizedUnit(u)).value, inputs, limit, CompiledRun(u, inputs, limit))
  {
    hide EmitUnit, ExecBlock, OptimizedBlock, SafeBlock, PlainUnit, WithinLimits, Provided, FinishesWith, RunsOn, Ends;
    var u' := OptimizedUnit(u);
    EntryKnown(inputs);
    CompilableFile(u, inputs);
    BasicPreserved(AsCompiled, limit, NOTHING_KNOWN, inputs.Keys, u.body, Initially(inputs), Initially(inputs));
    CompilerCorrect(u', inputs, limit);
    var o, o' := CompiledRun(u, inputs, limit), CompiledRun(u', inputs, limit);
    if o.Normal? {
      EndsWithFewer(Loadable(EmitUnit(u').value), Launch(EmitUnit(u').value, inputs), o.env, o'.env);
    }
  }

  lemma EndsWithFewer(p: Program, st: State, env: Env, env': Env)
    requires Ends(p, st, env') && SeenIn(env, env')
    ensures Ends(p, st, env)
  {
    hide Finishes, Run;
    var k: nat :| Finishes(p, st, k, Ok(Null)) && Run(p, st, k).Ok? && Keeps(env', Run(p, st, k).value.locals);
    assert Keeps(env, Run(p, st, k).value.locals);
  }

  // Against the interpreter, for runs that compiled code reads the same way.
  lemma OptimizedAgainstInterpreter(u: Unit, inputs: map<Str, Value>, limit: nat)
    requires Compilable(u, inputs) && UnitParts(u, inputs, limit) == None
    ensures EmitUnit(OptimizedUnit(u)).Ok? && Does(EmitUnit(OptimizedUnit(u)).value, inputs, limit, Interpreted(u, inputs, limit))
  {
    hide EmitUnit, ExecBlock, OptimizedBlock, SafeBlock, PlainUnit, WithinLimits, Provided, FinishesWith, RunsOn, Ends;
    hide PartsBlock;
    OptimizedCompilerCorrect(u, inputs, limit);
    BlockParts(limit, u.body, Initially(inputs));
  }

  // For units that set every variable once nothing more is asked than that they compile.
  lemma SingleUnitCorrect(u: Unit, inputs: map<Str, Value>, limit: nat)
    requires Provided(u, inputs) && PlainUnit(u) && EmitUnit(u).Ok? && NeedBlock(u.body) <= MAX_STACK
    requires SingleBlock(inputs.Keys, u.body)
    requires EmitUnit(OptimizedUnit(u)).Ok? ==> |UnitBytecode(EmitUnit(OptimizedUnit(u)).value)| < TWO32
    ensures EmitUnit(OptimizedUnit(u)).Ok? && Does(EmitUnit(OptimizedUnit(u)).value, inputs, limit, CompiledRun(u, inputs, limit))
  {
    hide EmitUnit, ExecBlock, OptimizedBlock, SafeBlock, OnceBlock, PlainUnit, SingleBlock, UnitBytecode, Does;
    assert Entry(u).known == inputs.Keys;
    SingleUnit(u);
    OptimizedCompilerCorrect(u, inputs, limit);
  }

  // The other way round: a value the optimized unit gives is the source program's, unless that fails.
  lemma ValueOfSource(u: Unit, inputs: map<Str, Value>, v: Value)
    requires Compilable(u, inputs)
    requires EmitUnit(OptimizedUnit(u)).Ok?
    requires var em := EmitUnit(OptimizedUnit(u)).value; FinishesWith(Loadable(em), Launch(em, inputs), Ok(v))
    ensures exists n: nat ::
              var o := CompiledRun(u, inputs, n);
              o == Returned(v) || (o.Normal? && v == Null) || (o.Failed? && o.error != LoopLimitExceeded)
  {
    hide EmitUnit, ExecBlock, OptimizedBlock, SafeBlock, PlainUnit, WithinLimits, Provided, FinishesWith;
    var u' := OptimizedUnit(u);
    EntryKnown(inputs);
    CompilableFile(u, inputs);
    SameAnswers(u', inputs, Ok(v));
    var n: nat :| MachineAnswer(CompiledRun(u', inputs, n)) == Some(Ok(v));
    BasicPreserved(AsCompiled, n, NOTHING_KNOWN, inputs.Keys, u.body, Initially(inputs), Initially(inputs));
    var o := CompiledRun(u, inputs, n);
    assert o == Returned(v) || (o.Normal? && v == Null) || (o.Failed? && o.error != LoopLimitExceeded);
  }

  lemma EntryKnown(inputs: map<Str, Value>)
    ensures var env := Initially(inputs);
            Distinct(env) && SeenIn(env, env) && InScope(env, inputs.Keys) && Holds(NOTHING_KNOWN, env)
  {
    var env := Initially(inputs);
    assert env[..1] == [map[]];
    forall x | Has(env, x) ensures x in inputs {
      HasLevel(env, x);
    }
  }
}
