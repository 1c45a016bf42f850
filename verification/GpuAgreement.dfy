/** Code as emitted, before its jumps are moved, gives on the GPU machine what it gives on the main
  * machine, as long as every value on the way fits 32 bits and comparisons for equality are between
  * values of one kind. */
module GpuAgreement {
  import opened Bytes
  import opened Lang
  import opened Opcodes
  import opened Interpreter
  import opened CodeGen
  import opened EmissionFacts
  import opened Format
  import opened Vm
  import opened Placement
  import opened Simulation
  import opened Theorems
  import opened Heights
  import opened LockStep
  import opened Aiming
  import opened StackDiscipline
  import opened GpuReader
  import opened GpuMachine

  predicate Fits32(v: Value) {
    match v
    case Null => true
    case Int(i) => -0x8000_0000 <= i < 0x8000_0000
    case Bool(_) => true
    case Text(_) => false
  }

  function Narrowed(v: Value): GpuValue
    requires Fits32(v)
  {
    match v
    case Null => GpuNull
    case Int(i) => GpuInt(i)
    case Bool(b) => Truth(b)
    case Text(_) => assert false; GpuNull
  }

  // The main machine tells null, 0 and false apart; the GPU compares their bits.
  predicate SameKind(a: Value, b: Value) {
    a.Null? == b.Null? && a.Int? == b.Int? && a.Bool? == b.Bool?
  }

  // Variables are told apart by where the pool keeps their names, modulo 64.
  ghost predicate Apart(constants: seq<Value>, names: set<Str>) {
    forall i, j | 0 <= i < |constants| && 0 <= j < |constants| && constants[i].Text? && constants[j].Text?
                  && constants[i].s in names && constants[j].s in names ::
      i % MAX_VARS == j % MAX_VARS <==> constants[i] == constants[j]
  }

  ghost predicate Narrow(names: set<Str>, st: State) {
    && (forall v | v in st.stack :: Fits32(v))
    && (forall x | x in st.locals && x in names :: Fits32(st.locals[x]))
  }

  ghost predicate Modest(names: set<Str>, st: State) {
    |st.stack| <= MAX_GPU_STACK && Narrow(names, st)
  }

  ghost predicate Alike(p: Program, st: State) {
    st.pc < |p.code| && (p.code[st.pc] == OP_EQ || p.code[st.pc] == OP_NE) && |st.stack| >= 2 ==>
      SameKind(st.stack[|st.stack| - 2], st.stack[|st.stack| - 1])
  }

  // A variable the next instruction reads or writes is one of these names.
  ghost predicate Known(p: Program, names: set<Str>, st: State) {
    st.pc + 5 <= |p.code| && (p.code[st.pc] == OP_LOAD_VAR || p.code[st.pc] == OP_STORE_VAR) ==>
      Named(p.constants, names, Uint32(p.code[st.pc + 1..st.pc + 5]))
  }

  predicate Named(constants: seq<Value>, names: set<Str>, arg: nat) {
    arg < |constants| && constants[arg].Text? ==> constants[arg].s in names
  }

  ghost predicate Clear(p: Program, names: set<Str>, st: State) {
    Alike(p, st) && Known(p, names, st)
  }

  // Every state of the next k steps is one the GPU machine can represent.
  ghost predicate Suits(p: Program, names: set<Str>, st: State, k: nat)
    decreases k
  {
    && Modest(names, st) && Clear(p, names, st)
    && (k > 0 && !Stopped(p, st) && Step(p, st).Ok? ==> Suits(p, names, Step(p, st).value, k - 1))
  }

  // ---- one state, two machines ----

  ghost predicate SameStack(stack: seq<Value>, shown: seq<GpuValue>) {
    |shown| == |stack| && forall i | 0 <= i < |stack| :: Fits32(stack[i]) && shown[i] == Narrowed(stack[i])
  }

  ghost predicate SameVars(constants: seq<Value>, names: set<Str>, locals: map<Str, Value>, vars: Variables) {
    forall i | 0 <= i < |constants| && constants[i].Text? && constants[i].s in names && constants[i].s in locals ::
      Fits32(locals[constants[i].s]) && vars[i % MAX_VARS] == Narrowed(locals[constants[i].s])
  }

  ghost predicate Mirrors(constants: seq<Value>, names: set<Str>, st: State, g: GpuState) {
    && g.pc == st.pc && !g.halted && !st.halted && g.error == ErrNone && g.result == GpuNull
    && SameStack(st.stack, g.stack) && SameVars(constants, names, st.locals, g.vars)
  }

  // The file holds the program: its code at the code's place, its constants where they are looked for.
  ghost predicate Holds(job: Job, p: Program) {
    && |job.bytecode| < TWO32 && job.config.codeOffset <= |job.bytecode|
    && job.bytecode[job.config.codeOffset..] == p.code && |p.constants| < TWO32
    && (forall i | 0 <= i < |p.constants| && Fits32(p.constants[i]) :: ConstantAt(job, i) == Narrowed(p.constants[i]))
  }

  predicate ByZero(e: Error) {
    e == DivisionByZero || e == ModuloByZero
  }

  // What a step of the main machine shows on the GPU: the next state, the end, or a division by zero.
  ghost predicate Shows(constants: seq<Value>, names: set<Str>, r: Stepped, g: GpuState) {
    && (r.Ok? && Modest(names, r.value) && !r.value.halted ==> Mirrors(constants, names, r.value, g))
    && (r.Ok? && Modest(names, r.value) && r.value.halted ==>
          && g.halted && g.error == ErrNone && Fits32(Answer(r.value)) && g.result == Narrowed(Answer(r.value)))
    && (r.Err? && ByZero(r.error) ==> g.halted && g.error == ErrDivByZero && g.result == GpuNull)
  }

  lemma QuotientAtMost(n: nat, m: nat)
    requires m > 0
    ensures 0 <= n / m <= n && 0 <= n % m <= n
  {
    var q := n / m;
    assert n == q * m + n % m;
    if q > n {
      ProductAtLeast(q, m);
    }
  }

  lemma ProductAtLeast(q: nat, m: nat)
    requires m > 0
    ensures q * m >= q
  {
  }

  lemma DividedNarrowed(a: int, b: int)
    requires b != 0 && -0x8000_0000 <= a < 0x8000_0000
    ensures -0x8000_0000 <= TruncDiv(a, b) <= 0x8000_0000 && -0x8000_0000 <= TruncMod(a, b) <= 0x8000_0000
  {
    QuotientAtMost(Abs(a), Abs(b));
  }

  // Two 32-bit factors give a product of at most 62 bits.
  lemma ProductNarrowed(a: int, b: int)
    requires -0x8000_0000 <= a < 0x8000_0000 && -0x8000_0000 <= b < 0x8000_0000
    ensures -0x4000_0000_0000_0000 <= a * b <= 0x4000_0000_0000_0000
  {
    var p: int := Abs(a) * Abs(b);
    assert p <= 0x8000_0000 * Abs(b) by { ProductOrdered(Abs(a), 0x8000_0000, Abs(b)); }
    assert a * b == p || a * b == -p by { SignedProduct(a, b); }
  }

  lemma ProductOrdered(x: nat, y: nat, z: nat)
    requires x <= y
    ensures x * z <= y * z
  {
  }

  lemma SignedProduct(a: int, b: int)
    ensures a * b == Abs(a) * Abs(b) || a * b == -(Abs(a) * Abs(b))
  {
  }

  // On 32-bit values of one kind every operator computes the same, unless the result is wider.
  lemma ComputedNarrowed(job: Job, op: BinOp, a: Value, b: Value)
    requires Fits32(a) && Fits32(b) && (op.Eq? || op.Ne? ==> SameKind(a, b))
    ensures var r := ApplyBinary(op, a, b);
            && (r.Ok? && Fits32(r.value) ==> Computed(job, op, Narrowed(a), Narrowed(b)) == Some(Narrowed(r.value)))
            && (r.Err? && ByZero(r.error) ==> Computed(job, op, Narrowed(a), Narrowed(b)) == None)
  {
    hide TruncDiv, TruncMod, Wrap32, Wrap64;
    match op
    case Add => if a.Int? && b.Int? { Widened(a.i + b.i); }
    case Sub => if a.Int? && b.Int? { Widened(a.i - b.i); }
    case Mul =>
      if a.Int? && b.Int? {
        ProductNarrowed(a.i, b.i);
        Widened(a.i * b.i);
      }
    case Div =>
      if a.Int? && b.Int? && b.i != 0 {
        DividedNarrowed(a.i, b.i);
        Widened(TruncDiv(a.i, b.i));
      }
    case Mod =>
      if a.Int? && b.Int? && b.i != 0 {
        DividedNarrowed(a.i, b.i);
        Widened(TruncMod(a.i, b.i));
      }
    case _ =>
  }

  // A product of 32-bit integers fits 64, so what wraps to 32 bits unchanged was never wider.
  lemma Widened(x: int)
    requires -0x4000_0000_0000_0000 <= x <= 0x4000_0000_0000_0000
    ensures Wrap64(x) == x
    ensures -0x8000_0000 <= x < 0x8000_0000 ==> Wrap32(x) == x
  {
  }

  lemma TurnedNarrowed(op: UnOp, a: Value)
    requires Fits32(a)
    ensures var r := ApplyUnary(op, a);
            && (r.Ok? && Fits32(r.value) ==> Turned(op, Narrowed(a)) == Narrowed(r.value))
            && (r.Err? ==> !ByZero(r.error))
  {
  }

  lemma SameTops(stack: seq<Value>, shown: seq<GpuValue>)
    requires SameStack(stack, shown)
    ensures |stack| == |shown|
    ensures forall i | 0 <= i < |stack| :: Fits32(stack[i]) && shown[i] == Narrowed(stack[i])
  {
  }

  // n values taken, and one put in their place.
  lemma SamePushed(stack: seq<Value>, shown: seq<GpuValue>, n: nat, v: Value)
    requires SameStack(stack, shown) && n <= |stack| && Fits32(v)
    ensures SameStack(stack[..|stack| - n] + [v], shown[..|shown| - n] + [Narrowed(v)])
  {
    hide Fits32, Narrowed;
  }

  lemma BinaryMirrors(job: Job, constants: seq<Value>, names: set<Str>, op: BinOp, st: State, g: GpuState)
    requires SameStack(st.stack, g.stack) && SameVars(constants, names, st.locals, g.vars) && |st.stack| <= MAX_GPU_STACK
    requires !g.halted && !st.halted && g.error == ErrNone && g.result == GpuNull && g.pc == st.pc + 1
    requires op.Eq? || op.Ne? ==> |st.stack| >= 2 ==> SameKind(st.stack[|st.stack| - 2], st.stack[|st.stack| - 1])
    ensures Shows(constants, names, StepBinary(op, st), OnBinary(job, g, op))
  {
    hide ApplyBinary, Computed, Fits32, SameVars, SameStack;
    SameTops(st.stack, g.stack);
    if |st.stack| >= 2 {
      var a, b := st.stack[|st.stack| - 2], st.stack[|st.stack| - 1];
      ComputedNarrowed(job, op, a, b);
      var r := ApplyBinary(op, a, b);
      if r.Ok? && Fits32(r.value) {
        SamePushed(st.stack, g.stack, 2, r.value);
      } else if r.Ok? {
        assert r.value in st.stack[..|st.stack| - 2] + [r.value];
      }
    }
  }

  lemma UnaryMirrors(constants: seq<Value>, names: set<Str>, op: UnOp, st: State, g: GpuState)
    requires SameStack(st.stack, g.stack) && SameVars(constants, names, st.locals, g.vars) && |st.stack| <= MAX_GPU_STACK
    requires !g.halted && !st.halted && g.error == ErrNone && g.result == GpuNull && g.pc == st.pc + 1
    ensures Shows(constants, names, StepUnary(op, st), OnUnary(g, op))
  {
    hide ApplyUnary, Turned, Fits32, SameVars, SameStack;
    SameTops(st.stack, g.stack);
    if |st.stack| >= 1 {
      var a := st.stack[|st.stack| - 1];
      TurnedNarrowed(op, a);
      var r := ApplyUnary(op, a);
      if r.Ok? && Fits32(r.value) {
        SamePushed(st.stack, g.stack, 1, r.value);
      } else if r.Ok? {
        assert r.value in st.stack[..|st.stack| - 1] + [r.value];
      }
    }
  }

  lemma OperandMirrors(job: Job, p: Program, names: set<Str>, op: Byte, arg: U32, st: State, g: GpuState)
    requires Holds(job, p) && Apart(p.constants, names) && TakesOperand(op) && Modest(names, st)
    requires op == OP_LOAD_VAR || op == OP_STORE_VAR ==> Named(p.constants, names, arg)
    requires SameStack(st.stack, g.stack) && SameVars(p.constants, names, st.locals, g.vars)
    requires !g.halted && !st.halted && g.error == ErrNone && g.result == GpuNull && g.pc == st.pc + 5
    ensures Shows(p.constants, names, StepOperand(p, st, op, arg), OnOperand(job, g, op, arg))
  {
    hide ConstantAt, Fits32;
    if op == OP_PUSH {
      PushMirrors(job, p, names, arg, st, g);
    } else if op == OP_STORE_VAR {
      StoreMirrors(job, p, names, arg, st, g);
    } else if op == OP_LOAD_VAR {
      LoadMirrors(job, p, names, arg, st, g);
    } else if IsJump(op) && op != OP_JUMP && st.stack != [] {
      assert g.stack[|g.stack| - 1] == Narrowed(st.stack[|st.stack| - 1]);
    }
  }

  lemma PushMirrors(job: Job, p: Program, names: set<Str>, arg: U32, st: State, g: GpuState)
    requires Holds(job, p) && Modest(names, st)
    requires SameStack(st.stack, g.stack) && SameVars(p.constants, names, st.locals, g.vars)
    requires !g.halted && !st.halted && g.error == ErrNone && g.result == GpuNull && g.pc == st.pc + 5
    ensures Shows(p.constants, names, StepOperand(p, st, OP_PUSH, arg), OnOperand(job, g, OP_PUSH, arg))
  {
    hide ConstantAt, Fits32, SameVars;
    if arg < |p.constants| {
      assert p.constants[arg] in st.stack + [p.constants[arg]];
    }
  }

  lemma LoadMirrors(job: Job, p: Program, names: set<Str>, arg: U32, st: State, g: GpuState)
    requires Modest(names, st) && Named(p.constants, names, arg)
    requires SameStack(st.stack, g.stack) && SameVars(p.constants, names, st.locals, g.vars)
    requires !g.halted && !st.halted && g.error == ErrNone && g.result == GpuNull && g.pc == st.pc + 5
    ensures Shows(p.constants, names, StepOperand(p, st, OP_LOAD_VAR, arg), OnOperand(job, g, OP_LOAD_VAR, arg))
  {
    hide ConstantAt, Fits32;
  }

  lemma StoreMirrors(job: Job, p: Program, names: set<Str>, arg: U32, st: State, g: GpuState)
    requires Apart(p.constants, names) && Named(p.constants, names, arg)
    requires SameStack(st.stack, g.stack) && SameVars(p.constants, names, st.locals, g.vars)
    requires !g.halted && !st.halted && g.error == ErrNone && g.result == GpuNull && g.pc == st.pc + 5
    ensures Shows(p.constants, names, StepOperand(p, st, OP_STORE_VAR, arg), OnOperand(job, g, OP_STORE_VAR, arg))
  {
    hide ConstantAt, Fits32;
    var r := StepOperand(p, st, OP_STORE_VAR, arg);
    if r.Ok? && Modest(names, r.value) {
      var g' := OnOperand(job, g, OP_STORE_VAR, arg);
      forall i | 0 <= i < |p.constants| && p.constants[i].Text? && p.constants[i].s in names && p.constants[i].s in r.value.locals
        ensures var v := r.value.locals[p.constants[i].s]; Fits32(v) && g'.vars[i % MAX_VARS] == Narrowed(v)
      {
        assert i % MAX_VARS == arg % MAX_VARS <==> p.constants[i] == p.constants[arg];
      }
    }
  }

  // One step of both machines from matching states.
  lemma StepMirrors(job: Job, p: Program, names: set<Str>, st: State, g: GpuState)
    requires Holds(job, p) && Apart(p.constants, names) && Mirrors(p.constants, names, st, g)
    requires st.pc < |p.code| && Modest(names, st) && Clear(p, names, st)
    ensures job.config.codeOffset + g.pc < |job.bytecode|
    ensures Shows(p.constants, names, Step(p, st), Executed(job, g))
  {
    hide StepBinary, OnBinary, StepUnary, OnUnary, StepOperand, OnOperand, Uint32, Fits32, SameVars, Apart, ConstantAt;
    var base := job.config.codeOffset;
    var op := p.code[st.pc];
    assert |job.bytecode| == base + |p.code| && job.bytecode[base + g.pc] == op;
    var next := g.(pc := Truncate32(g.pc + 1), steps := g.steps + 1);
    assert Truncate32(g.pc + 1) == g.pc + 1;
    if TakesOperand(op) {
      if st.pc + 5 <= |p.code| {
        assert job.bytecode[base + g.pc + 1..base + g.pc + 5] == p.code[st.pc + 1..st.pc + 5];
        assert Truncate32(g.pc + 5) == g.pc + 5;
        OperandMirrors(job, p, names, op, Uint32(p.code[st.pc + 1..st.pc + 5]), st, next.(pc := g.pc + 5));
      }
    } else if OperatorOf(op).Some? {
      BinaryMirrors(job, p.constants, names, OperatorOf(op).value, st, next);
    } else if op == OP_NOT {
      UnaryMirrors(p.constants, names, Not, st, next);
    } else if op == OP_NEG {
      UnaryMirrors(p.constants, names, Neg, st, next);
    } else if op == OP_RETURN || op == OP_HALT {
      NullFits();
    }
  }

  lemma NullFits()
    ensures Fits32(Null) && Narrowed(Null) == GpuNull
  {
  }

  // ---- whole runs ----

  // How many steps a run of at most k steps takes; one that fails counts.
  function Taken(p: Program, st: State, k: nat): (n: nat)
    ensures n <= k
    decreases k
  {
    if k == 0 || Stopped(p, st) then 0
    else
      match Step(p, st)
      case Err(_) => 1
      case Ok(st') => 1 + Taken(p, st', k - 1)
  }

  // What the GPU shows for a finished run: nothing at all if it ran off the end of the code.
  ghost function Shown(r: Stepped): GpuValue {
    if r.Ok? && r.value.halted && Fits32(Answer(r.value)) then Narrowed(Answer(r.value)) else GpuNull
  }

  // A run that ends in time ends on the GPU in as many steps and with the same result; one that does
  // not is cut off.
  lemma {:induction false} RunMirrors(job: Job, p: Program, names: set<Str>, st: State, g: GpuState, k: nat)
    requires Holds(job, p) && Apart(p.constants, names) && Mirrors(p.constants, names, st, g) && Suits(p, names, st, k)
    requires g.steps <= MAX_STEPS
    ensures var r := Run(p, st, k);
            var n := g.steps + Taken(p, st, k);
            var end := ResultOf(RunOn(job, g));
            && (r.Ok? && Stopped(p, r.value) && n < MAX_STEPS ==> end == GpuResult(Shown(r), ErrNone, n))
            && (r.Ok? && Stopped(p, r.value) && n < MAX_STEPS && r.value.halted ==> Fits32(Answer(r.value)))
            && (r.Err? && ByZero(r.error) && n < MAX_STEPS ==> end == GpuResult(GpuNull, ErrDivByZero, n))
            && (r.Ok? && n >= MAX_STEPS ==> end.error == ErrMaxSteps && end.steps == MAX_STEPS)
            && (r.Err? && ByZero(r.error) && n >= MAX_STEPS ==> end.error == ErrMaxSteps && end.steps == MAX_STEPS)
    decreases k
  {
    hide Executed, Step, Fits32, SameVars, SameStack, Apart, Clear;
    if Stopped(p, st) || k == 0 || g.steps == MAX_STEPS {
      TakenSome(p, st, k);
    } else {
      StepMirrors(job, p, names, st, g);
      var g' := Executed(job, g);
      var s := Step(p, st);
      if s.Ok? {
        SuitsFirst(p, names, s.value, k - 1);
        if !s.value.halted {
          RunMirrors(job, p, names, s.value, g', k - 1);
        }
      }
    }
  }

  lemma TakenSome(p: Program, st: State, k: nat)
    ensures k > 0 && !Stopped(p, st) ==> Taken(p, st, k) > 0
    ensures Stopped(p, st) || k == 0 ==> Taken(p, st, k) == 0 && Run(p, st, k) == Ok(st)
  {
  }

  lemma SuitsFirst(p: Program, names: set<Str>, st: State, k: nat)
    requires Suits(p, names, st, k)
    ensures Modest(names, st)
  {
  }

  lemma {:induction false} TakenAll(p: Program, st: State, k: nat)
    requires Run(p, st, k).Ok? && !Stopped(p, Run(p, st, k).value)
    ensures Taken(p, st, k) == k
    decreases k
  {
    hide Step;
    if k > 0 && !Stopped(p, st) {
      TakenAll(p, Step(p, st).value, k - 1);
    }
  }

  // ---- compiled units ----

  // After k steps, if there are so many, every value fits 32 bits, and equality is between one kind.
  ghost predicate NarrowAt(p: Program, names: set<Str>, st: State, k: nat) {
    Run(p, st, k).Ok? ==> Narrow(names, Run(p, st, k).value) && Clear(p, names, Run(p, st, k).value)
  }

  // The same for the whole run, however long it is.
  ghost predicate Always(p: Program, names: set<Str>, st: State) {
    forall k: nat :: NarrowAt(p, names, st, k)
  }

  // With a stack that stays low, that is all it takes.
  lemma {:induction false} SuitsThen(p: Program, names: set<Str>, st: State, k: nat)
    requires forall j: nat | j <= k :: NarrowAt(p, names, st, j)
    requires forall j: nat | j <= k :: Run(p, st, j).Ok? ==> |Run(p, st, j).value.stack| <= MAX_GPU_STACK
    ensures Suits(p, names, st, k)
    decreases k
  {
    hide Step, Narrow, Clear;
    assert Run(p, st, 0) == Ok(st) && NarrowAt(p, names, st, 0);
    if k > 0 && !Stopped(p, st) && Step(p, st).Ok? {
      var next := Step(p, st).value;
      forall j: nat | j <= k - 1
        ensures NarrowAt(p, names, next, j) && (Run(p, next, j).Ok? ==> |Run(p, next, j).value.stack| <= MAX_GPU_STACK)
      {
        assert Run(p, st, j + 1) == Run(p, next, j) && NarrowAt(p, names, st, j + 1);
      }
      SuitsThen(p, names, next, k - 1);
    }
  }

  // The file a unit would become if its jump targets were left as emitted.
  function RawFile(em: Emitted): seq<Byte> {
    Header(Pool(em.cs.constants), Size(em.code)) + Encode(em.code)
  }

  function RawProgram(em: Emitted): Program {
    Raw(em.code, em.cs.constants)
  }

  function First(inputs: map<Str, Value>): State {
    State(0, [], inputs, false)
  }

  // The GPU's variables start out as null, so of the inputs it has those that are null or not used.
  predicate Blank(names: set<Str>, inputs: map<Str, Value>) {
    forall x | x in inputs && x in names :: inputs[x] == Null
  }

  lemma FileHolds(job: Job, constants: seq<Value>, code: seq<Byte>)
    requires job.bytecode == Header(Pool(constants), |code|) + code && |job.bytecode| < TWO32
    requires LayoutOf(job.bytecode) == Some(job.config) && forall v | v in constants :: Storable(Of(v))
    ensures Holds(job, Program(code, constants))
  {
    hide Header, LayoutOf, Skipped, ValueAt, Storable;
    var pool := Pool(constants);
    forall c | c in pool ensures Storable(c) {
    }
    FileFound(pool, code, 0, job.narrow);
    assert job.bytecode[|Header(pool, |code|)|..] == code;
    forall i | 0 <= i < |constants| && Fits32(constants[i]) ensures ConstantAt(job, i) == Narrowed(constants[i]) {
      FileFound(pool, code, i, job.narrow);
      if constants[i].Int? {
        InRange32(constants[i].i);
      }
    }
  }

  lemma InRange32(x: int)
    requires -0x8000_0000 <= x < 0x8000_0000
    ensures Wrap32(x) == x
  {
  }

  lemma RawPlaced(em: Emitted)
    requires Sealed(em.code, false, false) && |RawFile(em)| < TWO32 && forall v | v in em.cs.constants :: Storable(Of(v))
    ensures var pl := Place(RawProgram(em), 0, 0, 0);
            Small(pl) && Placed(pl, 0, em.code) && Size(em.code) == |pl.p.code|
  {
    hide Encode, Size, SerializePool;
    var pl := Place(RawProgram(em), 0, 0, 0);
    assert |SerializePool(Pool(em.cs.constants))| >= |em.cs.constants|;
    forall i | 0 <= i < |em.code| ensures FinalInstr(pl, em.code[i]) == em.code[i] {
      assert SealedInstr(em.code[i], false, false);
    }
    assert Final(pl, em.code) == em.code;
    assert pl.p.code[0..0 + Size(em.code)] == pl.p.code;
  }

  // The GPU's result for a run that ends with this answer.
  ghost predicate Answers(p: Program, st: State, a: Evaluated, r: GpuResult) {
    exists k: nat :: Finishes(p, st, k, a) && AnswersIn(Taken(p, st, k), a, r)
  }

  predicate AnswersIn(steps: nat, a: Evaluated, r: GpuResult) {
    if steps >= MAX_STEPS then r.error == ErrMaxSteps && r.steps == MAX_STEPS
    else if a.Err? then r == GpuResult(GpuNull, ErrDivByZero, steps)
    else Fits32(a.value) && r == GpuResult(Narrowed(a.value), ErrNone, steps)
  }

  // What the outcome of the body says the GPU's result must be.
  ghost predicate GpuMatches(p: Program, st: State, limit: nat, o: Outcome, r: GpuResult) {
    && (o.Returned? ==> Answers(p, st, Ok(o.value), r))
    && (o.Normal? ==> Answers(p, st, Ok(Null), r))
    && (o.Failed? && ByZero(o.error) ==> Answers(p, st, Err(o.error), r))
    && (o.Failed? && o.error == LoopLimitExceeded && limit >= MAX_STEPS ==> r.error == ErrMaxSteps)
  }

  // A unit whose body needs no more than the GPU's stack stays within it.
  lemma UnitSuits(u: Unit, names: set<Str>, inputs: map<Str, Value>, k: nat)
    requires EmitUnit(u).Ok? && NeedBlock(u.body) <= MAX_GPU_STACK && Size(EmitUnit(u).value.code) < TWO32
    requires Always(RawProgram(EmitUnit(u).value), names, First(inputs))
    ensures Suits(RawProgram(EmitUnit(u).value), names, First(inputs), k)
  {
    hide EmitUnit, Size, Run, Level, AimedLow, WellFormed, NeedBlock, Suits, NarrowAt, Encode;
    var em := EmitUnit(u).value;
    var n := Max(1, NeedBlock(u.body));
    UnitSealed(u);
    SealedWellFormed(em.code);
    UnitLevel(u);
    UnitAims(u);
    StandingFirst(em.code, n, inputs);
    forall j: nat | j <= k
      ensures Run(RawProgram(em), First(inputs), j).Ok? ==> |Run(RawProgram(em), First(inputs), j).value.stack| <= MAX_GPU_STACK
    {
      RunStands(em.code, n, em.cs.constants, First(inputs), j);
    }
    SuitsThen(RawProgram(em), names, First(inputs), k);
  }

  // For every program whose values stay within 32 bits and whose used inputs are null: what the body
  // comes to, as compiled code reads it, is what the GPU machine gives for the code as emitted, unless
  // the steps run out first.
  lemma GpuAgrees(job: Job, u: Unit, names: set<Str>, inputs: map<Str, Value>, limit: nat)
    requires EmitUnit(u).Ok? && PlainUnit(u) && Provided(u, inputs) && Blank(names, inputs)
    requires NeedBlock(u.body) <= MAX_GPU_STACK
    requires var em := EmitUnit(u).value;
             && job.bytecode == RawFile(em) && |RawFile(em)| < TWO32 && LayoutOf(job.bytecode) == Some(job.config)
             && (forall v | v in em.cs.constants :: Storable(Of(v)))
             && Apart(em.cs.constants, names) && Always(RawProgram(em), names, First(inputs))
    ensures GpuMatches(RawProgram(EmitUnit(u).value), First(inputs), limit, CompiledRun(u, inputs, limit),
                       ResultOf(RunOn(job, AT_START)))
  {
    hide EmitUnit, PlainUnit, Header, LayoutOf, Storable, Apart, Size, Encode, RunOn, Run, CompiledRun, Answers, Suits;
    var em := EmitUnit(u).value;
    var p := RawProgram(em);
    UnitSealed(u);
    RawPlaced(em);
    FileHolds(job, em.cs.constants, Encode(em.code));
    UnitRuns(Place(p, 0, 0, 0), u, inputs, limit);
    forall k: nat ensures Suits(p, names, First(inputs), k) {
      UnitSuits(u, names, inputs, k);
    }
    var o := CompiledRun(u, inputs, limit);
    match o
    case Returned(v) => Halted(job, p, names, inputs, v);
    case Normal(_, _) => FinishedThere(job, p, names, inputs, Ok(Null));
    case Failed(e) =>
      if e == LoopLimitExceeded {
        if limit >= MAX_STEPS {
          CutOff(job, p, names, inputs, limit);
        }
      } else if ByZero(e) {
        FinishedThere(job, p, names, inputs, Err(e));
      }
    case Broke(_) =>
    case Continued(_) =>
  }

  lemma FirstMirrors(constants: seq<Value>, names: set<Str>, inputs: map<Str, Value>)
    requires Blank(names, inputs)
    ensures Mirrors(constants, names, First(inputs), AT_START)
  {
  }

  lemma Halted(job: Job, p: Program, names: set<Str>, inputs: map<Str, Value>, v: Value)
    requires Holds(job, p) && Apart(p.constants, names) && Blank(names, inputs)
    requires (forall k: nat :: Suits(p, names, First(inputs), k)) && Halts(p, First(inputs), v)
    ensures Answers(p, First(inputs), Ok(v), ResultOf(RunOn(job, AT_START)))
  {
    hide Holds, Apart, RunOn, Run, Suits, Mirrors, Taken;
    FirstMirrors(p.constants, names, inputs);
    var k: nat :| Run(p, First(inputs), k).Ok? && Run(p, First(inputs), k).value.halted && Run(p, First(inputs), k).value.stack == [v];
    RunMirrors(job, p, names, First(inputs), AT_START, k);
    assert Finishes(p, First(inputs), k, Ok(v));
    assert AnswersIn(Taken(p, First(inputs), k), Ok(v), ResultOf(RunOn(job, AT_START)));
  }

  lemma FinishedThere(job: Job, p: Program, names: set<Str>, inputs: map<Str, Value>, a: Evaluated)
    requires Holds(job, p) && Apart(p.constants, names) && Blank(names, inputs)
    requires (forall k: nat :: Suits(p, names, First(inputs), k)) && FinishesWith(p, First(inputs), a)
    requires a == Ok(Null) || (a.Err? && ByZero(a.error))
    ensures Answers(p, First(inputs), a, ResultOf(RunOn(job, AT_START)))
  {
    hide Holds, Apart, RunOn, Run, Suits, Mirrors, Taken;
    FirstMirrors(p.constants, names, inputs);
    var k: nat :| Finishes(p, First(inputs), k, a);
    RunMirrors(job, p, names, First(inputs), AT_START, k);
    NullFits();
    assert AnswersIn(Taken(p, First(inputs), k), a, ResultOf(RunOn(job, AT_START)));
  }

  lemma CutOff(job: Job, p: Program, names: set<Str>, inputs: map<Str, Value>, n: nat)
    requires Holds(job, p) && Apart(p.constants, names) && Blank(names, inputs)
    requires (forall k: nat :: Suits(p, names, First(inputs), k)) && RunsOn(p, First(inputs), n)
    requires n >= MAX_STEPS
    ensures ResultOf(RunOn(job, AT_START)).error == ErrMaxSteps
  {
    hide Holds, Apart, RunOn, Run, Suits, Mirrors, Taken;
    FirstMirrors(p.constants, names, inputs);
    var k: nat :| k >= n && Run(p, First(inputs), k).Ok? && !Stopped(p, Run(p, First(inputs), k).value);
    TakenAll(p, First(inputs), k);
    RunMirrors(job, p, names, First(inputs), AT_START, k);
  }
}
