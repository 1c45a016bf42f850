/** The compiler's correctness theorem for whole units: the machine against the program as compiled code
  * reads it. Module Readings takes it on to the interpreter. */
module Theorems {
  import opened Bytes
  import opened Lang
  import opened Opcodes
  import opened Interpreter
  import opened CodeGen
  import opened Scoping
  import opened EmissionFacts
  import opened Vm
  import opened Placement
  import opened Simulation
  import opened Landing
  import opened Correctness
  import opened Format

  ghost predicate PlainUnit(u: Unit) {
    && PlainBlock(u.body)
    && (forall x | x in u.names :: PlainName(x)) && (forall x | x in u.builtins :: PlainName(x))
  }

  // Every parameter and built-in variable has been given a value.
  ghost predicate Provided(u: Unit, inputs: map<Str, Value>) {
    forall x :: x in inputs <==> x in u.names || x in u.builtins
  }

  // The unit's environment: nothing global, the inputs as the unit's own scope.
  function Initially(inputs: map<Str, Value>): Env {
    [map[], inputs]
  }

  // The run of a unit's body, as compiled code reads it.
  function CompiledRun(u: Unit, inputs: map<Str, Value>, limit: nat): Outcome {
    ExecBlock(AsCompiled, limit, u.body, Initially(inputs))
  }

  // The machine as Execute leaves the header behind, with the inputs as its variables.
  function Launch(em: Emitted, inputs: map<Str, Value>): State {
    State(CodeStart(em), [], inputs, false)
  }

  function Loadable(em: Emitted): Program {
    Program(UnitBytecode(em), em.cs.constants)
  }

  // Bytecode of less than 4 GiB, string constants with it, and expressions within the machine's stack.
  ghost predicate WithinLimits(u: Unit, em: Emitted) {
    && |UnitBytecode(em)| < TWO32 && NeedBlock(u.body) <= MAX_STACK
    && (forall v | v in em.cs.constants :: Storable(Of(v)))
  }

  // ---- the entry state ----

  lemma {:induction false} DefineNamesKeeps(cs: CState, names: seq<Str>, builtin: bool)
    requires |cs.scopes| == 2 && Pooled(cs.scopes, cs.constants) && cs.scopes[0] == map[]
    ensures var r := DefineNames(cs, names, builtin);
            && Pooled(r.scopes, r.constants) && r.scopes[0] == map[]
            && (forall x :: x in r.scopes[1] <==> x in cs.scopes[1] || x in names)
    decreases |names|
  {
    hide Pooled, AddConstant;
    if names != [] {
      var (constants, index) := AddConstant(cs.constants, Text(names[0]));
      PooledGrows(cs.scopes, cs.constants, constants);
      PooledDefine(cs.scopes, constants, names[0], Symbol(index, builtin));
      var cs1 := cs.(constants := constants, scopes := Define(cs.scopes, names[0], Symbol(index, builtin)));
      DefineNamesKeeps(cs1, names[1..], builtin);
      assert forall x :: x in names <==> x == names[0] || x in names[1..];
    }
  }

  lemma EntryAgrees(u: Unit, inputs: map<Str, Value>)
    requires PlainUnit(u) && Provided(u, inputs)
    ensures var cs := UnitEntry(u);
            Pooled(cs.scopes, cs.constants) && Agree(Initially(inputs), cs.scopes, inputs)
  {
    hide Pooled, DefineNames, IsTemp, Agree, PlainBlock;
    var start := CState([], [map[], map[]], 0);
    assert Pooled(start.scopes, start.constants) by { PooledEmpty(); }
    DefineNamesKeeps(start, u.names, false);
    var cs := UnitEntry(u);
    DefineNamesKeeps(DefineNames(start, u.names, false), u.builtins, true);
    assert cs.scopes == [map[], cs.scopes[1]];
    AgreeEntry(inputs, cs.scopes[1]);
  }

  lemma PooledEmpty()
    ensures Pooled([map[], map[]], [])
  {
  }

  lemma AgreeEntry(inputs: map<Str, Value>, scope: Scope)
    requires forall x :: x in inputs <==> x in scope
    requires forall x | x in inputs :: !IsTemp(x)
    ensures Agree(Initially(inputs), [map[], scope], inputs)
  {
    assert AgreeLevel(map[], map[], inputs);
    assert AgreeLevel(inputs, scope, inputs);
  }

  // ---- the finished code ----

  lemma FinishedPlaced(code: seq<Instr>, constants: seq<Value>)
    requires Sealed(code, false, false) && |Bytecode(Pool(constants), code)| < TWO32
    requires forall v | v in constants :: Storable(Of(v))
    ensures var h := |Header(Pool(constants), Size(code))|;
            var pl := Place(Program(Bytecode(Pool(constants), code), constants), h, 0, 0);
            Small(pl) && Placed(pl, 0, code) && h + Size(code) == |pl.p.code|
  {
    hide Header, Encode, Size, SerializePool, Bytecode, Storable, Slice, Uint32, ReadPool, Truncate32, Fill;
    forall c | c in Pool(constants) ensures Storable(c) {
    }
    BytecodeParts(Pool(constants), code);
    LayoutKept(code, ToLoopEnd, 0, 0);
    assert |SerializePool(Pool(constants))| >= |constants|;
    var h := |Header(Pool(constants), Size(code))|;
    var pl := Place(Program(Bytecode(Pool(constants), code), constants), h, 0, 0);
    forall i | 0 <= i < |code| ensures FinalInstr(pl, code[i]) == RelocateInstr(code[i], h) {
      assert SealedInstr(code[i], false, false);
    }
    assert Final(pl, code) == Relocate(code, h);
    FinalSize(pl, code);
    assert pl.p.code[h..] == pl.p.code[h..h + Size(code)];
  }

  ghost predicate FinishesWith(p: Program, st: State, a: Evaluated) {
    exists k: nat :: Finishes(p, st, k, a)
  }

  // Still running after at least n steps.
  ghost predicate RunsOn(p: Program, st: State, n: nat) {
    exists k: nat :: k >= n && Run(p, st, k).Ok? && !Stopped(p, Run(p, st, k).value)
  }

  // The machine's variables hold every variable of the environment.
  ghost predicate Keeps(env: Env, locals: map<Str, Value>) {
    forall x | Has(env, x) :: x in locals && Get(env, x) == Ok(locals[x])
  }

  // The run ends normally, answers null, and leaves the environment's variables behind.
  ghost predicate Ends(p: Program, st: State, env: Env) {
    exists k: nat :: Finishes(p, st, k, Ok(Null)) && Run(p, st, k).Ok? && Keeps(env, Run(p, st, k).value.locals)
  }

  // What the outcome of the body says the machine must do.
  ghost predicate Matches(p: Program, st: State, limit: nat, o: Outcome) {
    match o
    case Returned(v) => FinishesWith(p, st, Ok(v))
    case Normal(env, _) => Ends(p, st, env)
    case Broke(_) => false
    case Continued(_) => false
    case Failed(e) =>
      if e == LoopLimitExceeded then RunsOn(p, st, limit)
      else Ordinary(Err(e)) && FinishesWith(p, st, Err(e))
  }

  // The machine at the end of the body: one more instruction or two, and it has answered.
  lemma Tail(pl: Place, base: nat, tail: seq<Instr>, st: State, index: nat) returns (k: nat)
    requires Small(pl) && Placed(pl, base, tail) && Ready(pl, base, st) && st.stack == []
    requires tail == [] ==> pl.header + base >= |pl.p.code|
    requires tail == [] || tail == [Plain(OP_HALT)]
          || (tail == [WithOperand(OP_PUSH, Truncate32(index)), Plain(OP_RETURN)]
              && index < |pl.p.constants| && pl.p.constants[index] == Null)
    ensures Finishes(pl.p, st, k, Ok(Null)) && Run(pl.p, st, k).Ok? && Run(pl.p, st, k).value.locals == st.locals
  {
    hide Placed, Size, Truncate32, Small, Encode, StepOperand, StepBinary, StepUnary;
    k := 0;
    if tail == [Plain(OP_HALT)] {
      StepPlain(pl, base, OP_HALT, st);
      k := 1;
    } else if tail != [] {
      assert tail == [tail[0]] + [Plain(OP_RETURN)];
      PlacedSplit(pl, base, [tail[0]], [Plain(OP_RETURN)]);
      SizeShort(tail[0], tail[1]);
      StepPush(pl, base, index, st);
      var mid := st.(pc := st.pc + 5, stack := st.stack + [Null]);
      StepPlain(pl, base + 5, OP_RETURN, mid);
      RunCompose(pl.p, st, 1, 1);
      k := 2;
    }
  }

  // A body that ends in a return never falls off its end.
  lemma {:induction false} ReturnEnds(reading: Reading, limit: nat, stmts: seq<Stmt>, env: Env)
    requires env != [] && EndsInReturn(stmts)
    ensures !ExecBlock(reading, limit, stmts, env).Normal?
    decreases |stmts|
  {
    var first := Exec(reading, limit, stmts[0], env);
    if first.Normal? {
      ReturnEnds(reading, limit, stmts[1..], first.env);
    }
  }

  // The run ends by a return of v.
  ghost predicate Halts(p: Program, st: State, v: Value) {
    exists k: nat :: Run(p, st, k).Ok? && Run(p, st, k).value.halted && Run(p, st, k).value.stack == [v]
  }

  // A unit's code, wherever it is placed, does what the unit's body does as compiled code reads it.
  lemma UnitRuns(pl: Place, u: Unit, inputs: map<Str, Value>, limit: nat)
    requires EmitUnit(u).Ok? && PlainUnit(u) && Provided(u, inputs) && NeedBlock(u.body) <= MAX_STACK
    requires var em := EmitUnit(u).value;
             && pl.p.constants == em.cs.constants && Small(pl) && Placed(pl, 0, em.code)
             && pl.header + Size(em.code) == |pl.p.code|
    ensures var st, o := State(pl.header, [], inputs, false), CompiledRun(u, inputs, limit);
            Matches(pl.p, st, limit, o) && (o.Returned? ==> Halts(pl.p, st, o.value))
  {
    hide EmitBlock, ExecBlock, Placed, Agree, Pooled, NeedBlock, PlainBlock, Header, Size, Finishes, Run;
    var em := EmitUnit(u).value;
    var cs := UnitEntry(u);
    var body := EmitBlock(cs, u.body, 0, None).value;
    var st := State(pl.header, [], inputs, false);
    EntryAgrees(u, inputs);
    BlockKeeps(cs, u.body, 0, None);
    var index := AddConstant(body.cs.constants, Null).1;
    var tail := if EndsInReturn(u.body) then []
                else if u.returnsNull then [WithOperand(OP_PUSH, Truncate32(index)), Plain(OP_RETURN)]
                else [Plain(OP_HALT)];
    assert em.code == body.code + tail;
    PlacedSplit(pl, 0, body.code, tail);
    var k := SimBlock(pl, cs, u.body, 0, None, Initially(inputs), limit, st);
    var o := ExecBlock(AsCompiled, limit, u.body, Initially(inputs));
    match o
    case Normal(env, _) =>
      if EndsInReturn(u.body) {
        ReturnEnds(AsCompiled, limit, u.body, Initially(inputs));
      } else {
        var mid := Resumes(pl, Exit(None, Size(body.code), body.cs.scopes, 1, limit), st, k, o);
        var j := Tail(pl, Size(body.code), tail, mid, index);
        KeepsAgreed(env, body.cs.scopes, mid.locals);
        EndsLater(pl.p, st, k, mid, j, env);
      }
    case Returned(v) =>
      FinishesHalted(pl.p, st, k, v);
      assert st.stack + [v] == [v];
    case Broke(_) =>
    case Continued(_) =>
    case Failed(e) =>
      if e != LoopLimitExceeded {
        FinishesFailed(pl.p, st, k, e);
      }
  }

  // The compiler's main theorem. Whatever the body does, as compiled code reads it, the compiled
  // bytecode does on the machine: the same value; at a normal end null, with the same variables; the
  // same error; or, where a loop reaches the limit on its rounds, no end within as many steps.
  lemma CompilerCorrect(u: Unit, inputs: map<Str, Value>, limit: nat)
    requires EmitUnit(u).Ok? && WithinLimits(u, EmitUnit(u).value) && PlainUnit(u) && Provided(u, inputs)
    ensures var em := EmitUnit(u).value;
            Matches(Loadable(em), Launch(em, inputs), limit, CompiledRun(u, inputs, limit))
  {
    hide EmitUnit, Placed, PlainUnit, Provided, Matches, Header, Size, SerializePool, CompiledRun;
    var em := EmitUnit(u).value;
    UnitSealed(u);
    FinishedPlaced(em.code, em.cs.constants);
    UnitRuns(Place(Loadable(em), CodeStart(em), 0, 0), u, inputs, limit);
  }

  lemma KeepsAgreed(env: Env, scopes: seq<Scope>, locals: map<Str, Value>)
    requires Agree(env, scopes, locals)
    ensures Keeps(env, locals)
  {
    forall x | Has(env, x) ensures x in locals && Get(env, x) == Ok(locals[x]) {
      BoundPlain(env, scopes, locals, x);
      AgreeGet(env, scopes, locals, x);
    }
  }

  // No variable of the program has a name of the compiler's own.
  lemma {:induction false} BoundPlain(env: Env, scopes: seq<Scope>, locals: map<Str, Value>, x: Str)
    requires Agree(env, scopes, locals) && Has(env, x)
    ensures !IsTemp(x)
    decreases |env|
  {
    var last := |env| - 1;
    assert AgreeLevel(env[last], scopes[last], locals);
    if x !in env[last] {
      AgreePrefix(env, scopes, locals, last);
      BoundPlain(env[..last], scopes[..last], locals, x);
    }
  }

  lemma EndsLater(p: Program, st: State, k: nat, mid: State, j: nat, env: Env)
    requires Run(p, st, k) == Ok(mid) && Finishes(p, mid, j, Ok(Null))
    requires Run(p, mid, j).Ok? && Keeps(env, Run(p, mid, j).value.locals)
    ensures Ends(p, st, env)
  {
    hide Keeps;
    RunCompose(p, st, k, j);
    assert Finishes(p, st, k + j, Ok(Null));
  }

  lemma FinishesHalted(p: Program, st: State, k: nat, v: Value)
    requires Run(p, st, k).Ok? && Run(p, st, k).value.halted && Run(p, st, k).value.stack == st.stack + [v]
    ensures FinishesWith(p, st, Ok(v))
  {
    assert Finishes(p, st, k, Ok(v));
  }

  lemma FinishesFailed(p: Program, st: State, k: nat, e: Error)
    requires Run(p, st, k) == Err(e)
    ensures FinishesWith(p, st, Err(e))
  {
    assert Finishes(p, st, k, Err(e));
  }

  // What compiled code answers for an outcome of the body, null at a normal end whatever the result;
  // None while it has not finished within the limit.
  function MachineAnswer(o: Outcome): Option<Evaluated> {
    match o
    case Returned(v) => Some(Ok(v))
    case Normal(_, _) => Some(Ok(Null))
    case Failed(e) => if e == LoopLimitExceeded then None else Some(Err(e))
    case Broke(_) => None
    case Continued(_) => None
  }

  // Both directions at once: the machine answers `a` exactly if the body's run says so, given enough
  // iterations; in particular one diverges exactly if the other does.
  lemma SameAnswers(u: Unit, inputs: map<Str, Value>, a: Evaluated)
    requires EmitUnit(u).Ok? && WithinLimits(u, EmitUnit(u).value) && PlainUnit(u) && Provided(u, inputs)
    ensures var em := EmitUnit(u).value;
            FinishesWith(Loadable(em), Launch(em, inputs), a)
            <==> exists limit: nat :: MachineAnswer(CompiledRun(u, inputs, limit)) == Some(a)
  {
    var em := EmitUnit(u).value;
    var run := (limit: nat) => CompiledRun(u, inputs, limit);
    forall limit: nat ensures Matches(Loadable(em), Launch(em, inputs), limit, run(limit)) {
      hide *;
      CompilerCorrect(u, inputs, limit);
      assert run(limit) == CompiledRun(u, inputs, limit);
    }
    hide *;
    AnswersAgree(Loadable(em), Launch(em, inputs), run, a);
    if limit: nat :| MachineAnswer(run(limit)) == Some(a) {
      assert MachineAnswer(CompiledRun(u, inputs, limit)) == Some(a);
    }
    if limit: nat :| MachineAnswer(CompiledRun(u, inputs, limit)) == Some(a) {
      assert MachineAnswer(run(limit)) == Some(a);
    }
  }

  // Compiled code stops with no error of the machine's own: the stack never runs empty, every constant
  // and operand is there, and every variable read has been given a value before.
  lemma OnlyOrdinaryErrors(u: Unit, inputs: map<Str, Value>, a: Evaluated)
    requires EmitUnit(u).Ok? && WithinLimits(u, EmitUnit(u).value) && PlainUnit(u) && Provided(u, inputs)
    requires var em := EmitUnit(u).value; FinishesWith(Loadable(em), Launch(em, inputs), a)
    ensures Ordinary(a)
  {
    hide EmitUnit, WithinLimits, PlainUnit, Provided, ExecBlock, FinishesWith;
    SameAnswers(u, inputs, a);
    var limit: nat :| MachineAnswer(CompiledRun(u, inputs, limit)) == Some(a);
    CompilerCorrect(u, inputs, limit);
  }

  lemma AnswersAgree(p: Program, st: State, run: nat -> Outcome, a: Evaluated)
    requires forall limit: nat :: Matches(p, st, limit, run(limit))
    ensures FinishesWith(p, st, a) <==> exists limit: nat :: MachineAnswer(run(limit)) == Some(a)
  {
    hide Finishes, Ordinary, Run;
    if FinishesWith(p, st, a) {
      var k: nat :| Finishes(p, st, k, a);
      FinishedStops(p, st, k, a);
      assert Matches(p, st, k + 1, run(k + 1));
      var b := MachineAnswer(run(k + 1)).value;
      var j: nat :| Finishes(p, st, j, b);
      FinishesOnce(p, st, j, k, b, a);
    }
    forall limit: nat | MachineAnswer(run(limit)) == Some(a) ensures FinishesWith(p, st, a) {
      assert Matches(p, st, limit, run(limit));
    }
  }

  lemma FinishedStops(p: Program, st: State, k: nat, a: Evaluated)
    requires Finishes(p, st, k, a)
    ensures !RunsOn(p, st, k + 1)
  {
    forall j: nat | j >= k + 1 && Run(p, st, j).Ok? ensures Stopped(p, Run(p, st, j).value) {
      RunCompose(p, st, k, j - k);
    }
  }
}
