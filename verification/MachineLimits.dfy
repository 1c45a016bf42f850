/** What the machines do at their limits, and that their runs stay within them. */
module MachineLimits {
  import opened Bytes
  import opened Lang
  import opened Opcodes
  import opened Vm
  import opened GpuReader
  import opened GpuMachine
  import RefVm

  // The main machine drops what is pushed on a stack of 10000 values, and goes on.
  lemma PushDropped(p: Program, st: State, arg: U32)
    requires st.pc + 5 <= |p.code| && p.code[st.pc] == 0x01 && Uint32(p.code[st.pc + 1..st.pc + 5]) == arg < |p.constants|
    ensures |st.stack| < 10000 ==> Step(p, st) == Ok(st.(pc := st.pc + 5, stack := st.stack + [p.constants[arg]]))
    ensures |st.stack| >= 10000 ==> Step(p, st) == Ok(st.(pc := st.pc + 5))
  {
  }

  // So its stack never gets deeper than that, in any run.
  lemma {:induction false} StackBounded(p: Program, st: State, k: nat)
    requires |st.stack| <= 10000
    ensures match Run(p, st, k) case Ok(end) => |end.stack| <= 10000 case Err(_) => true
    decreases k
  {
    if k > 0 && !Stopped(p, st) && Step(p, st).Ok? {
      StepBounded(p, st);
      StackBounded(p, Step(p, st).value, k - 1);
    }
  }

  lemma StepBounded(p: Program, st: State)
    requires |st.stack| <= 10000 && st.pc < |p.code| && Step(p, st).Ok?
    ensures |Step(p, st).value.stack| <= 10000
  {
    hide ApplyBinary, ApplyUnary, Uint32, OperatorOf;
  }

  // The GPU machine stops at a push on a stack of 256.
  lemma PushOverflows(job: Job, g: GpuState)
    requires job.config.codeOffset + g.pc + 5 <= |job.bytecode| && |g.stack| >= 256
    requires job.bytecode[job.config.codeOffset + g.pc] == 0x01 || job.bytecode[job.config.codeOffset + g.pc] == 0x40
    ensures var g' := Executed(job, g); g'.halted && g'.error == ErrStackOverflow && g'.stack == g.stack
  {
    hide Uint32, ConstantAt;
  }

  ghost predicate Bounded(g: GpuState) {
    |g.stack| <= 256 && g.steps <= 100000 && g.error != ErrMaxSteps
  }

  lemma ExecutedBounded(job: Job, g: GpuState)
    requires Bounded(g) && g.steps < 100000 && job.config.codeOffset + g.pc < |job.bytecode|
    ensures Bounded(Executed(job, g))
  {
    hide Computed, Turned, ConstantAt, Uint32, OperatorOf;
  }

  lemma {:induction false} RunBounded(job: Job, g: GpuState)
    requires Bounded(g)
    ensures var e := RunOn(job, g); Bounded(e) && (e.halted || e.steps == 100000)
    decreases 100000 - g.steps
  {
    hide Executed;
    if !g.halted && g.steps < 100000 && job.config.codeOffset + g.pc < |job.bytecode| {
      ExecutedBounded(job, g);
      RunBounded(job, Executed(job, g));
    }
  }

  // Every run on the GPU ends within 100000 steps, and is reported as cut off exactly if it takes them all.
  lemma GpuRunEnds(job: Job)
    ensures var r := ResultOf(RunOn(job, AT_START));
            r.steps <= 100000 && (r.error == ErrMaxSteps <==> r.steps == 100000)
  {
    hide RunOn;
    RunBounded(job, AT_START);
  }

  // What the reference interpreter's instructions on the stack alone do with its top.
  lemma ReferenceStack(code: seq<int>, constants: seq<int>, st: RefVm.State, rest: seq<int>, a: int, b: int)
    requires st.stack == rest + [a, b]
    ensures var on := (stack: seq<int>) => RefVm.More(st.(stack := stack, pc := st.pc + 1));
            && RefVm.Execute(code, constants, st, 2) == on(rest + [a])
            && RefVm.Execute(code, constants, st, 3) == on(rest + [a, b, b])
            && RefVm.Execute(code, constants, st, 4) == on(rest + [b, a])
            && RefVm.Execute(code, constants, st, 5) == on(rest + [a, b, a])
            && RefVm.Execute(code, constants, st, 40) == on(rest + [a, if b == 0 then 1 else 0])
            && RefVm.Execute(code, constants, st, 41) == on(rest + [a, -b])
  {
    var s := st.stack;
    assert RefVm.Below(s, 1) == rest + [a] && RefVm.Below(s, 2) == rest;
    assert s + [b] == rest + [a, b, b] && s + [a] == rest + [a, b, a];
    assert rest + [a] + [-b] == rest + [a, -b];
    var flag := if b == 0 then 1 else 0;
    assert rest + [a] + [flag] == rest + [a, flag];
  }

  // The main machine's jumps, returns and pops. A conditional jump takes a truth value off the stack.
  lemma ControlStep(p: Program, st: State, rest: seq<Value>, v: Value, arg: U32)
    requires st.pc + 5 <= |p.code| && Uint32(p.code[st.pc + 1..st.pc + 5]) == arg && st.stack == rest + [v]
    ensures var op, step := p.code[st.pc], Step(p, st);
            && (op == 0x50 ==> step == Ok(st.(pc := arg)))
            && (op == 0x51 ==> step == if v == Bool(false) then Ok(st.(pc := arg, stack := rest))
                                       else if v == Bool(true) then Ok(st.(pc := st.pc + 5, stack := rest)) else Err(TypeError))
            && (op == 0x52 ==> step == if v == Bool(true) then Ok(st.(pc := arg, stack := rest))
                                       else if v == Bool(false) then Ok(st.(pc := st.pc + 5, stack := rest)) else Err(TypeError))
            && (op == 0x61 || op == 0xFF ==> step == Ok(st.(pc := st.pc + 1, halted := true)))
            && (op == 0x02 ==> step == Ok(st.(pc := st.pc + 1, stack := rest)))
  {
    assert st.stack[..|st.stack| - 1] == rest;
  }

  // The reference interpreter's jumps: any value but 0 counts as true.
  lemma ReferenceJump(code: seq<int>, constants: seq<int>, st: RefVm.State, rest: seq<int>, v: int, target: U32)
    requires 0 <= st.pc && st.pc + 5 <= |code| && code[st.pc + 1..st.pc + 5] == PutUint32(target) && st.stack == rest + [v]
    ensures RefVm.Execute(code, constants, st, 80) == RefVm.More(st.(pc := target))
    ensures RefVm.Execute(code, constants, st, 81) == RefVm.More(st.(stack := rest, pc := if v == 0 then target else st.pc + 5))
    ensures RefVm.Execute(code, constants, st, 82) == RefVm.More(st.(stack := rest, pc := if v == 0 then st.pc + 5 else target))
  {
    assert RefVm.Below(st.stack, 1) == rest;
    var b := code[st.pc + 1..st.pc + 5];
    assert code[st.pc + 1] == b[0] && code[st.pc + 2] == b[1] && code[st.pc + 3] == b[2] && code[st.pc + 4] == b[3];
    Uint32RoundTrip(target);
    assert RefVm.ReadAddr(code, st.pc + 1) == Some(target);
  }
}
