/** The stack of a running unit: at every moment as high as the position in the code says, never empty
  * when something is taken from it, and never higher than the body's need. */
module StackDiscipline {
  import opened Bytes
  import opened Lang
  import opened Opcodes
  import opened CodeGen
  import opened EmissionFacts
  import opened Format
  import opened Vm
  import opened Simulation
  import opened Heights
  import opened LockStep
  import opened Aiming

  // The machine stands before an instruction with the stack that the code before it leaves, or has halted.
  ghost predicate Standing(code: seq<Instr>, n: nat, st: State) {
    |st.stack| <= n
    && (st.halted || exists i :: 0 <= i <= |code| && Size(code[..i]) == st.pc && |st.stack| == Height(code[..i]))
  }

  lemma EffectRises(p: Program, st: State, i: Instr, n: nat)
    requires WellFormedInstr(i) && !st.halted && |st.stack| <= n <= MAX_STACK && 0 <= |st.stack| + Rise(i) <= n
    requires Operates(i) ==> |st.stack| + Rise(i) >= 1
    ensures var r := Effect(p, st, i);
            && r != Err(StackUnderflow) && r != Err(TruncatedOperand)
            && (r.Ok? && r.value.halted ==> r.value.stack == st.stack)
            && (r.Ok? && !r.value.halted ==>
                  && |r.value.stack| == |st.stack| + Rise(i)
                  && (r.value.pc == st.pc + InstrSize(i) || (i.WithOperand? && IsJump(i.op) && r.value.pc == i.arg)))
  {
    hide ApplyBinary, ApplyUnary;
    if Operates(i) && |st.stack| >= 1 {
      var a, b := if |st.stack| >= 2 then st.stack[|st.stack| - 2] else Null, st.stack[|st.stack| - 1];
      ApplyOrdinary(if OperatorOf(i.op).Some? then OperatorOf(i.op).value else And, Not, a, b);
      ApplyOrdinary(And, Not, b, b);
      ApplyOrdinary(And, Neg, b, b);
    }
  }

  lemma StepStands(code: seq<Instr>, n: nat, constants: seq<Value>, st: State, i: nat)
    requires WellFormed(code) && Level(code, n) && AimedLow(code) && n <= MAX_STACK
    requires i < |code| && Size(code[..i]) == st.pc && |st.stack| == Height(code[..i]) && !st.halted
    ensures var p := Raw(code, constants);
            && st.pc < |p.code| && Step(p, st) != Err(StackUnderflow) && Step(p, st) != Err(TruncatedOperand)
            && (Step(p, st).Ok? ==> Standing(code, n, Step(p, st).value))
  {
    hide Step, Effect, EncodeInstr, Encode, HasOperand, IsJump, OperatorOf, Rise, Size, Height;
    var p := Raw(code, constants);
    var next := code[..i + 1];
    assert WellFormedInstr(code[i]);
    EncodeAt(code, i);
    StepIsEffect(p, Encode(code[..i]), code[i], Encode(code[i + 1..]), st);
    assert next == code[..i] + [code[i]];
    HeightAppend(code[..i], [code[i]]);
    HeightOne(code[i]);
    EffectRises(p, st, code[i], n);
    var r := Step(p, st);
    if r.Ok? && !r.value.halted {
      if r.value.pc == st.pc + InstrSize(code[i]) {
        assert Size(code[..i + 1]) == r.value.pc;
      } else {
        assert LowBoundary(code, code[i].arg);
        var k :| 0 <= k <= |code| && Size(code[..k]) == code[i].arg && Height(code[..k]) == 0;
        assert Leaves(code[i]);
        assert Size(code[..k]) == r.value.pc && |r.value.stack| == Height(code[..k]);
      }
    }
  }

  lemma {:induction false} RunStands(code: seq<Instr>, n: nat, constants: seq<Value>, st: State, k: nat)
    requires WellFormed(code) && Level(code, n) && AimedLow(code) && n <= MAX_STACK && Standing(code, n, st)
    ensures var r := Run(Raw(code, constants), st, k);
            && r != Err(StackUnderflow) && r != Err(TruncatedOperand) && (r.Ok? ==> Standing(code, n, r.value))
    decreases k
  {
    hide Step, Encode, Size, Height, Level, AimedLow, WellFormed;
    var p := Raw(code, constants);
    if k > 0 && !Stopped(p, st) {
      var i :| 0 <= i <= |code| && Size(code[..i]) == st.pc && |st.stack| == Height(code[..i]);
      assert code[..|code|] == code;
      StepStands(code, n, constants, st, i);
      if Step(p, st).Ok? {
        RunStands(code, n, constants, Step(p, st).value, k - 1);
      }
    }
  }

  lemma StandingFirst(code: seq<Instr>, n: nat, locals: map<Str, Value>)
    ensures Standing(code, n, State(0, [], locals, false))
  {
    assert code[..0] == [] && Size(code[..0]) == 0 && Height(code[..0]) == 0;
  }

  // Every compiled unit, whatever its inputs and however long it runs: the compiled file's stack is as
  // its position says, at most as high as the body needs (or one, for a function's own null).
  lemma UnitStack(u: Unit, locals: map<Str, Value>, k: nat)
    requires EmitUnit(u).Ok? && NeedBlock(u.body) <= MAX_STACK && |UnitBytecode(EmitUnit(u).value)| < TWO32
    requires forall v | v in EmitUnit(u).value.cs.constants :: Storable(Of(v))
    ensures var em := EmitUnit(u).value;
            var file := Program(UnitBytecode(em), em.cs.constants);
            var r := Run(file, State(CodeStart(em), [], locals, false), k);
            var raw := Run(Raw(em.code, em.cs.constants), State(0, [], locals, false), k);
            && r != Err(StackUnderflow) && r != Err(TruncatedOperand)
            && (r.Ok? ==> raw.Ok? && r.value.stack == raw.value.stack && |r.value.stack| <= Max(1, NeedBlock(u.body)))
            && (raw.Ok? ==> Standing(em.code, Max(1, NeedBlock(u.body)), raw.value))
  {
    hide EmitUnit, Size, Encode, Level, AimedLow, WellFormed, Run, Header, NeedBlock, Bytecode;
    var em := EmitUnit(u).value;
    var n := Max(1, NeedBlock(u.body));
    UnitInStep(u, locals, k);
    UnitSealed(u);
    SealedWellFormed(em.code);
    UnitLevel(u);
    CodeFits(em);
    UnitAims(u);
    StandingFirst(em.code, n, locals);
    RunStands(em.code, n, em.cs.constants, State(0, [], locals, false), k);
  }

  lemma CodeFits(em: Emitted)
    requires |UnitBytecode(em)| < TWO32
    ensures Size(em.code) < TWO32
  {
    hide Header, Relocate, Encode, Size;
    LayoutKept(em.code, ToLoopEnd, 0, Truncate32(CodeStart(em)));
  }
}
