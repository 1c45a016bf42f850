/** Code before jump relocation, run from address zero, and the finished file, run from behind its
  * header, stay in step. */
module LockStep {
  import opened Bytes
  import opened Lang
  import opened Opcodes
  import opened Vm

  // An instruction starts at this offset, or the code ends there.
  ghost predicate Boundary(instrs: seq<Instr>, off: nat) {
    exists k :: 0 <= k <= |instrs| && Size(instrs[..k]) == off
  }

  // Every jump goes to a boundary.
  ghost predicate Aimed(instrs: seq<Instr>) {
    forall k | 0 <= k < |instrs| :: instrs[k].WithOperand? && IsJump(instrs[k].op) ==> Boundary(instrs, instrs[k].arg)
  }

  function Raw(instrs: seq<Instr>, constants: seq<Value>): Program {
    Program(Encode(instrs), constants)
  }

  // The same code behind a header, with its jumps moved by the header's size.
  function Finished(header: seq<Byte>, instrs: seq<Instr>, constants: seq<Value>): Program
    requires |header| < TWO32
  {
    Program(header + Encode(Relocate(instrs, |header|)), constants)
  }

  function Shifted(st: State, h: nat): State {
    st.(pc := st.pc + h)
  }

  // The same outcome, `h` bytes further on.
  predicate InStep(r: Stepped, r': Stepped, h: nat) {
    match r
    case Err(e) => r' == Err(e)
    case Ok(st) => r' == Ok(Shifted(st, h))
  }

  lemma EncodeAt(instrs: seq<Instr>, k: nat)
    requires k < |instrs|
    ensures Encode(instrs) == Encode(instrs[..k]) + EncodeInstr(instrs[k]) + Encode(instrs[k + 1..])
    ensures Size(instrs[..k + 1]) == Size(instrs[..k]) + InstrSize(instrs[k])
    ensures Size(instrs[..k + 1]) <= Size(instrs)
  {
    hide EncodeInstr, Encode, Size, InstrSize;
    assert instrs == instrs[..k] + [instrs[k]] + instrs[k + 1..] && instrs[..k + 1] == instrs[..k] + [instrs[k]];
    EncodeAround(instrs[..k], instrs[k], instrs[k + 1..]);
  }

  lemma EncodeAround(a: seq<Instr>, i: Instr, c: seq<Instr>)
    ensures Encode(a + [i] + c) == Encode(a) + EncodeInstr(i) + Encode(c)
    ensures Size(a + [i]) == Size(a) + InstrSize(i) && Size(a + [i]) <= Size(a + [i] + c)
  {
    hide EncodeInstr, Encode, Size, InstrSize;
    EncodeOne(i);
    EncodeAppend(a, [i]);
    EncodeAppend(a + [i], c);
  }

  // An instruction as the machine finds it.
  lemma FetchAt(code: seq<Byte>, before: seq<Byte>, i: Instr, after: seq<Byte>)
    requires code == before + EncodeInstr(i) + after && !i.Hole?
    ensures |before| + InstrSize(i) <= |code| && code[|before|] == i.op
    ensures i.WithOperand? ==> Uint32(code[|before| + 1..|before| + 5]) == i.arg
  {
    hide PutUint32, Uint32;
    if i.WithOperand? {
      assert code[|before| + 1..|before| + 5] == PutUint32(i.arg);
      Uint32RoundTrip(i.arg);
    }
  }

  // One instruction's effect; `op` and `arg` are what was fetched.
  function Effect(p: Program, st: State, i: Instr): Stepped
    requires !i.Hole?
  {
    if i.WithOperand? && TakesOperand(i.op) then StepOperand(p, st, i.op, i.arg)
    else if OperatorOf(i.op).Some? then StepBinary(OperatorOf(i.op).value, st)
    else if i.op == OP_NOT then StepUnary(Not, st)
    else if i.op == OP_NEG then StepUnary(Neg, st)
    else if i.op == OP_POP then
      if st.stack == [] then Err(StackUnderflow)
      else Ok(st.(pc := st.pc + 1, stack := st.stack[..|st.stack| - 1]))
    else if i.op == OP_RETURN || i.op == OP_HALT then Ok(st.(pc := st.pc + 1, halted := true))
    else Err(UnknownOpcode)
  }

  lemma StepIsEffect(p: Program, before: seq<Byte>, i: Instr, after: seq<Byte>, st: State)
    requires p.code == before + EncodeInstr(i) + after && st.pc == |before| && WellFormedInstr(i)
    ensures st.pc < |p.code| && Step(p, st) == Effect(p, st, i)
  {
    hide StepOperand, StepBinary, StepUnary, OperatorOf, EncodeInstr;
    FetchAt(p.code, before, i, after);
  }

  // Apart from jumps nothing depends on where the code lies.
  lemma EffectShifts(p: Program, p': Program, st: State, i: Instr, h: nat)
    requires WellFormedInstr(i) && p'.constants == p.constants && h < TWO32
    requires i.WithOperand? && IsJump(i.op) ==> i.arg + h < TWO32
    ensures InStep(Effect(p, st, i), Effect(p', Shifted(st, h), RelocateInstr(i, h)), h)
    ensures Effect(p, st, i).Ok? ==>
              var pc := Effect(p, st, i).value.pc;
              pc == st.pc + InstrSize(i) || (i.WithOperand? && IsJump(i.op) && pc == i.arg)
  {
    hide ApplyBinary, ApplyUnary;
  }

  lemma StepsTogether(instrs: seq<Instr>, header: seq<Byte>, constants: seq<Value>, st: State, k: nat)
    requires WellFormed(instrs) && Aimed(instrs) && |header| + Size(instrs) < TWO32
    requires k < |instrs| && st.pc == Size(instrs[..k])
    ensures var p, p', h := Raw(instrs, constants), Finished(header, instrs, constants), |header|;
            && st.pc < |p.code| && st.pc + h < |p'.code|
            && InStep(Step(p, st), Step(p', Shifted(st, h)), h)
            && (Step(p, st).Ok? ==> Boundary(instrs, Step(p, st).value.pc))
  {
    hide Step, Effect, EncodeInstr, Encode, RelocateInstr, HasOperand, IsJump;
    var p, p', h := Raw(instrs, constants), Finished(header, instrs, constants), |header|;
    var moved := Relocate(instrs, h);
    var i := instrs[k];
    assert WellFormedInstr(i);
    EncodeAt(instrs, k);
    EncodeAt(moved, k);
    MovedPrefix(instrs, h, k);
    RelocatedWellFormed(i, h);
    StepIsEffect(p, Encode(instrs[..k]), i, Encode(instrs[k + 1..]), st);
    assert p'.code == header + Encode(moved[..k]) + EncodeInstr(moved[k]) + Encode(moved[k + 1..]);
    StepIsEffect(p', header + Encode(moved[..k]), moved[k], Encode(moved[k + 1..]), Shifted(st, h));
    if i.WithOperand? && IsJump(i.op) {
      BoundaryInside(instrs, i.arg);
    }
    EffectShifts(p, p', st, i, h);
    assert Boundary(instrs, Size(instrs[..k + 1]));
  }

  lemma MovedPrefix(instrs: seq<Instr>, h: U32, k: nat)
    requires k <= |instrs|
    ensures Size(Relocate(instrs, h)[..k]) == Size(instrs[..k])
  {
    SameSizes(instrs[..k], Relocate(instrs, h)[..k]);
  }

  lemma RelocatedWellFormed(i: Instr, h: U32)
    requires WellFormedInstr(i)
    ensures WellFormedInstr(RelocateInstr(i, h))
  {
  }

  lemma BoundaryInside(instrs: seq<Instr>, off: nat)
    requires Boundary(instrs, off)
    ensures off <= Size(instrs)
  {
    var k :| 0 <= k <= |instrs| && Size(instrs[..k]) == off;
    EncodeAppend(instrs[..k], instrs[k..]);
    assert instrs == instrs[..k] + instrs[k..];
  }

  // Every number of steps from every boundary: both runs fail alike or are in the same state, the
  // finished one's program counter further on by the size of the header.
  lemma {:induction false} RunsTogether(instrs: seq<Instr>, header: seq<Byte>, constants: seq<Value>, st: State, n: nat)
    requires WellFormed(instrs) && Aimed(instrs) && |header| + Size(instrs) < TWO32 && Boundary(instrs, st.pc)
    ensures InStep(Run(Raw(instrs, constants), st, n), Run(Finished(header, instrs, constants), Shifted(st, |header|), n), |header|)
    decreases n
  {
    hide Step, Encode, WellFormed, Aimed;
    var k :| 0 <= k <= |instrs| && Size(instrs[..k]) == st.pc;
    assert instrs[..|instrs|] == instrs;
    LayoutKept(instrs, ToLoopEnd, 0, |header|);
    if n > 0 && !st.halted && k < |instrs| {
      StepsTogether(instrs, header, constants, st, k);
      var p := Raw(instrs, constants);
      if Step(p, st).Ok? {
        RunsTogether(instrs, header, constants, Step(p, st).value, n - 1);
      }
    }
  }

  // In particular from the start, and so both end with the same answer.
  lemma SameAnswer(instrs: seq<Instr>, header: seq<Byte>, constants: seq<Value>, locals: map<Str, Value>, a: Evaluated)
    requires WellFormed(instrs) && Aimed(instrs) && |header| + Size(instrs) < TWO32
    ensures (exists n: nat :: Finishes(Raw(instrs, constants), State(0, [], locals, false), n, a)) <==>
            (exists n: nat :: Finishes(Finished(header, instrs, constants), State(|header|, [], locals, false), n, a))
  {
    hide WellFormed, Aimed, Run;
    var p, p' := Raw(instrs, constants), Finished(header, instrs, constants);
    var st, st' := State(0, [], locals, false), State(|header|, [], locals, false);
    assert Size(instrs[..0]) == 0;
    LayoutKept(instrs, ToLoopEnd, 0, |header|);
    forall n: nat ensures Finishes(p, st, n, a) <==> Finishes(p', st', n, a) {
      RunsTogether(instrs, header, constants, st, n);
    }
  }
}
