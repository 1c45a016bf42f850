/** Compiled files on the GPU machine. A file's jump targets count from the start of the file, but that
  * machine counts from the start of the code: the first jump taken is taken too far. */
module GpuShipped {
  import opened Bytes
  import opened Lang
  import opened Opcodes
  import opened CodeGen
  import opened EmissionFacts
  import opened Format
  import opened Vm
  import opened Theorems
  import opened LockStep
  import opened Aiming
  import opened GpuReader
  import opened GpuMachine
  import opened GpuAgreement

  // The next step is a jump, and its condition, if it has one, holds.
  ghost predicate JumpTaken(p: Program, st: State) {
    st.pc + 5 <= |p.code| && IsJump(p.code[st.pc]) &&
    (p.code[st.pc] == OP_JUMP
     || (st.stack != [] && st.stack[|st.stack| - 1] == Bool(p.code[st.pc] == OP_JUMP_IF_TRUE)))
  }

  // No jump is taken in the next k steps.
  ghost predicate JumpFree(p: Program, st: State, k: nat)
    decreases k
  {
    k == 0 || Stopped(p, st)
    || (!JumpTaken(p, st) && (Step(p, st).Ok? ==> JumpFree(p, Step(p, st).value, k - 1)))
  }

  // The same code with its targets moved, still run from address zero.
  function Moved(instrs: seq<Instr>, h: U32, constants: seq<Value>): Program {
    Raw(Relocate(instrs, h), constants)
  }

  ghost predicate Taking(i: Instr, st: State) {
    i.WithOperand? && IsJump(i.op)
    && (i.op == OP_JUMP || (st.stack != [] && st.stack[|st.stack| - 1] == Bool(i.op == OP_JUMP_IF_TRUE)))
  }

  lemma EffectMoved(p: Program, q: Program, st: State, i: Instr, h: U32)
    requires WellFormedInstr(i) && p.constants == q.constants
    requires i.WithOperand? && IsJump(i.op) ==> i.arg + h < TWO32
    ensures Taking(i, st) ==> Effect(p, st, i).Ok? && Effect(p, st, i).value.pc == i.arg && Effect(p, st, i).value.halted == st.halted
    ensures Effect(q, st, RelocateInstr(i, h)) ==
              if Taking(i, st) then Ok(Effect(p, st, i).value.(pc := i.arg + h)) else Effect(p, st, i)
    ensures !Taking(i, st) && Effect(p, st, i).Ok? ==> Effect(p, st, i).value.pc == st.pc + InstrSize(i)
  {
    hide ApplyBinary, ApplyUnary, Pushed;
    if i.WithOperand? && IsJump(i.op) && st.stack != [] {
      var v := st.stack[|st.stack| - 1];
      assert v.Bool? ==> (v.b == (i.op == OP_JUMP_IF_TRUE) <==> v == Bool(i.op == OP_JUMP_IF_TRUE));
    }
  }

  // One step of the code with moved targets: the same as before, or a jump as far again as the header.
  lemma MovedStep(instrs: seq<Instr>, h: U32, constants: seq<Value>, names: set<Str>, st: State, j: nat)
    requires WellFormed(instrs) && Aimed(instrs) && h + Size(instrs) < TWO32
    requires j < |instrs| && st.pc == Size(instrs[..j])
    ensures var p, q := Raw(instrs, constants), Moved(instrs, h, constants);
            && st.pc < |p.code| == |q.code| && (Clear(p, names, st) <==> Clear(q, names, st))
            && (JumpTaken(p, st) <==> Taking(instrs[j], st))
            && (JumpTaken(p, st) ==> Step(p, st).Ok? && Step(p, st).value.halted == st.halted)
            && Step(q, st) ==
                 (if JumpTaken(p, st) then Ok(Step(p, st).value.(pc := Step(p, st).value.pc + h)) else Step(p, st))
            && (!JumpTaken(p, st) && Step(p, st).Ok? ==> Boundary(instrs, Step(p, st).value.pc))
  {
    hide Step, Effect, EncodeInstr, Encode, RelocateInstr, HasOperand, Clear, JumpTaken;
    var p, q := Raw(instrs, constants), Moved(instrs, h, constants);
    var moved := Relocate(instrs, h);
    var i := instrs[j];
    assert WellFormedInstr(i);
    LayoutKept(instrs, ToLoopEnd, 0, h);
    EncodeAt(instrs, j);
    EncodeAt(moved, j);
    MovedPrefix(instrs, h, j);
    RelocatedWellFormed(i, h);
    StepIsEffect(p, Encode(instrs[..j]), i, Encode(instrs[j + 1..]), st);
    StepIsEffect(q, Encode(moved[..j]), moved[j], Encode(moved[j + 1..]), st);
    if i.WithOperand? && IsJump(i.op) {
      BoundaryInside(instrs, i.arg);
    }
    EffectMoved(p, q, st, i, h);
    assert Boundary(instrs, Size(instrs[..j + 1]));
    SameFetch(p, Encode(instrs[..j]), q, Encode(moved[..j]), i, h, Encode(instrs[j + 1..]), Encode(moved[j + 1..]), names, st);
  }

  lemma SameFetch(p: Program, a: seq<Byte>, q: Program, b: seq<Byte>, i: Instr, h: U32, c: seq<Byte>, d: seq<Byte>,
                  names: set<Str>, st: State)
    requires WellFormedInstr(i) && p.code == a + EncodeInstr(i) + c && q.code == b + EncodeInstr(RelocateInstr(i, h)) + d
    requires st.pc == |a| == |b| && p.constants == q.constants
    ensures JumpTaken(p, st) <==> Taking(i, st)
    ensures Clear(p, names, st) <==> Clear(q, names, st)
  {
    FetchAt(p.code, a, i, c);
    RelocatedWellFormed(i, h);
    FetchAt(q.code, b, RelocateInstr(i, h), d);
  }

  lemma EndOfCode(instrs: seq<Instr>, off: nat) returns (j: nat)
    requires Boundary(instrs, off)
    ensures j <= |instrs| && off == Size(instrs[..j]) && (j == |instrs| ==> off == Size(instrs))
  {
    j :| 0 <= j <= |instrs| && Size(instrs[..j]) == off;
    if j == |instrs| {
      assert instrs[..j] == instrs;
    }
  }

  // Without taken jumps nothing changes. With one, and a header no shorter than the code, the run
  // falls off the end of the code there and then.
  lemma {:induction false} MovedRun(instrs: seq<Instr>, h: U32, constants: seq<Value>, names: set<Str>, st: State, k: nat)
    returns (j: nat)
    requires WellFormed(instrs) && Aimed(instrs) && h + Size(instrs) < TWO32
    requires h >= Size(instrs) || JumpFree(Raw(instrs, constants), st, k)
    requires Boundary(instrs, st.pc) && Suits(Raw(instrs, constants), names, st, k)
    ensures var p, q := Raw(instrs, constants), Moved(instrs, h, constants);
            && j <= Taken(p, st, k) && Taken(q, st, j) == j && Suits(q, names, st, j)
            && (if JumpFree(p, st, k) then j == Taken(p, st, k) && Run(q, st, j) == Run(p, st, k)
                else Run(q, st, j).Ok? && Stopped(q, Run(q, st, j).value) && !Run(q, st, j).value.halted)
    decreases k
  {
    hide Step, Encode, WellFormed, Aimed, Clear, Modest, JumpTaken;
    var p, q := Raw(instrs, constants), Moved(instrs, h, constants);
    var i := EndOfCode(instrs, st.pc);
    LayoutKept(instrs, ToLoopEnd, 0, h);
    if i == |instrs| || st.halted || k == 0 {
      j := 0;
      if i < |instrs| {
        MovedStep(instrs, h, constants, names, st, i);
      }
      NothingMoved(q, names, st);
    } else {
      MovedStep(instrs, h, constants, names, st, i);
      j := 1;
      if JumpTaken(p, st) {
        SuitsFirst(p, names, Step(p, st).value, k - 1);
        ModestAnywhere(names, Step(p, st).value, Step(q, st).value.pc);
        FallsOff(q, names, st, Step(q, st).value);
      } else if Step(p, st).Ok? {
        var j' := MovedRun(instrs, h, constants, names, Step(p, st).value, k - 1);
        j := j' + 1;
      }
    }
  }

  lemma NothingMoved(q: Program, names: set<Str>, st: State)
    requires Modest(names, st) && (st.pc >= |q.code| || Clear(q, names, st))
    ensures Suits(q, names, st, 0)
  {
  }

  lemma ModestAnywhere(names: set<Str>, st: State, pc: nat)
    ensures Modest(names, st) <==> Modest(names, st.(pc := pc))
  {
  }

  lemma FallsOff(q: Program, names: set<Str>, st: State, st': State)
    requires Modest(names, st) && Clear(q, names, st) && !Stopped(q, st) && Step(q, st) == Ok(st')
    requires st'.pc >= |q.code| && Modest(names, st')
    ensures Run(q, st, 1) == Ok(st') && Taken(q, st, 1) == 1 && Suits(q, names, st, 1)
  {
    hide Step;
    assert Run(q, st', 0) == Ok(st') && Suits(q, names, st', 0);
  }

  // The GPU shows what the run ends with.
  predicate ShowsAnswer(a: Evaluated, r: GpuResult) {
    if a.Ok? then Fits32(a.value) && r.error == ErrNone && r.value == Narrowed(a.value) else r.error == ErrDivByZero
  }

  // The compiled file on the GPU, for a run that ends in a return of a value, in a normal end or in a
  // division by zero, with every value within 32 bits. Without a taken jump the file is as good as the
  // code as emitted. With one, and a header no shorter than the code, it shows null: so the GPU shows
  // the right answer exactly if no jump is taken on the way, or the answer is null anyway.
  lemma ShippedOnGpu(job: Job, u: Unit, names: set<Str>, inputs: map<Str, Value>, k: nat, a: Evaluated)
    requires EmitUnit(u).Ok?
    requires var em := EmitUnit(u).value;
             && job.bytecode == UnitBytecode(em) && |job.bytecode| < TWO32 && LayoutOf(job.bytecode) == Some(job.config)
             && (forall c | c in em.cs.constants :: Storable(Of(c))) && Apart(em.cs.constants, names) && Blank(names, inputs)
    requires var p, st := RawProgram(EmitUnit(u).value), First(inputs);
             && Suits(p, names, st, k) && Finishes(p, st, k, a) && (a.Err? ==> ByZero(a.error))
             && (a.Ok? ==> Run(p, st, k).value.halted || a.value == Null)
    ensures var em, st, r := EmitUnit(u).value, First(inputs), ResultOf(RunOn(job, AT_START));
            var p, n := RawProgram(em), Taken(RawProgram(em), First(inputs), k);
            && (JumpFree(p, st, k) ==> AnswersIn(n, a, r))
            && (CodeStart(em) >= Size(em.code) && n < MAX_STEPS ==>
                  && (!JumpFree(p, st, k) ==> r.error == ErrNone && r.value == GpuNull)
                  && (ShowsAnswer(a, r) <==> JumpFree(p, st, k) || a == Ok(Null)))
  {
    hide EmitUnit, Header, LayoutOf, Storable, Apart, Size, Encode, Relocate, Truncate32, RunOn;
    hide Run, Suits, Taken, JumpFree, Mirrors, WellFormed, Aimed, Holds, Blank;
    var em := EmitUnit(u).value;
    var h := CodeStart(em);
    var p, st := RawProgram(em), First(inputs);
    LayoutKept(em.code, ToLoopEnd, 0, Truncate32(h));
    assert h + Size(em.code) == |job.bytecode|;
    Fits(h);
    UnitSealed(u);
    SealedWellFormed(em.code);
    UnitAims(u);
    FirstBoundary(em.code);
    var q := Moved(em.code, h, em.cs.constants);
    FileHolds(job, em.cs.constants, Encode(Relocate(em.code, h)));
    FirstMirrors(em.cs.constants, names, inputs);
    if h >= Size(em.code) || JumpFree(p, st, k) {
      var j := MovedRun(em.code, h, em.cs.constants, names, st, k);
      RunMirrors(job, q, names, st, AT_START, j);
      if a.Ok? {
        LastFits(p, names, st, k);
        OnlyNull(a.value);
      }
    }
  }

  lemma OnlyNull(v: Value)
    requires Fits32(v)
    ensures Narrowed(v) == GpuNull <==> v == Null
  {
  }

  // The last state of a suitable run is suitable too, so its answer fits.
  lemma {:induction false} LastFits(p: Program, names: set<Str>, st: State, k: nat)
    requires Suits(p, names, st, k) && Run(p, st, k).Ok?
    ensures Fits32(Answer(Run(p, st, k).value))
    decreases k
  {
    hide Step, Clear, Fits32;
    if k > 0 && !Stopped(p, st) {
      LastFits(p, names, Step(p, st).value, k - 1);
    } else {
      NullFits();
    }
  }
}
