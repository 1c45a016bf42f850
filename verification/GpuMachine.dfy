/** The GPU back end's own machine, as it is simulated on the CPU: 32-bit tagged values, 64 numbered
  * variables, a stack of 256, and jump targets counted from the start of the code. */
module GpuMachine {
  import opened Bytes
  import opened Lang
  import opened Opcodes
  import opened Format
  import opened Vm
  import opened GpuReader

  const MAX_GPU_STACK: nat := 256
  const MAX_VARS: nat := 64
  const MAX_STEPS: nat := 100000

  datatype GpuError = ErrNone | ErrStackOverflow | ErrStackUnderflow | ErrDivByZero | ErrMaxSteps

  type Variables = s: seq<GpuValue> | |s| == MAX_VARS witness seq(MAX_VARS, _ => GpuNull)

  datatype GpuState = GpuState(
    pc: U32, stack: seq<GpuValue>, vars: Variables, halted: bool, error: GpuError, steps: nat, result: GpuValue)

  datatype GpuResult = GpuResult(value: GpuValue, error: GpuError, steps: nat)

  // What one run works on: the file, where its parts are, how a float's eight bytes shrink to four,
  // and the sum of two 32-bit floats.
  datatype Job = Job(
    bytecode: seq<Byte>, config: Config, narrow: seq<Byte> -> Int32, addFloats: (Int32, Int32) -> Int32)

  function Data(v: GpuValue): Int32 {
    match v
    case GpuNull => 0
    case GpuInt(i) => i
    case GpuFloat(bits) => bits
    case GpuBool(raw) => raw
  }

  function Truth(b: bool): GpuValue {
    GpuBool(if b then 1 else 0)
  }

  function ConstantAt(job: Job, idx: U32): GpuValue {
    match Skipped(job.bytecode, job.config.constantsOffset, idx)
    case None => GpuNull
    case Some(off) => ValueAt(job.bytecode, off, idx, job.narrow)
  }

  // Tags matter to addition alone; everything else takes the 32 bits as an integer.
  function Computed(job: Job, op: BinOp, a: GpuValue, b: GpuValue): Option<GpuValue> {
    var x, y := Data(a), Data(b);
    match op
    case Add =>
      Some(if a.GpuFloat? || b.GpuFloat? then GpuFloat(job.addFloats(x, y)) else GpuInt(Wrap32(x + y)))
    case Sub => Some(GpuInt(Wrap32(x - y)))
    case Mul => Some(GpuInt(Wrap32(x * y)))
    case Div => if y == 0 then None else Some(GpuInt(Wrap32(TruncDiv(x, y))))
    case Mod => if y == 0 then None else Some(GpuInt(Wrap32(TruncMod(x, y))))
    case Eq => Some(Truth(x == y))
    case Ne => Some(Truth(x != y))
    case Lt => Some(Truth(x < y))
    case Gt => Some(Truth(x > y))
    case Ge => Some(Truth(x >= y))
    case Le => Some(Truth(x <= y))
    case And => Some(Truth(x != 0 && y != 0))
    case Or => Some(Truth(x != 0 || y != 0))
  }

  function Turned(op: UnOp, a: GpuValue): GpuValue {
    match op
    case Not => Truth(Data(a) == 0)
    case Neg =>
      match a
      case GpuNull => GpuNull
      case GpuInt(i) => GpuInt(Wrap32(-(i as int)))
      case GpuFloat(bits) => GpuFloat(Wrap32(-(bits as int)))
      case GpuBool(raw) => GpuBool(Wrap32(-(raw as int)))
  }

  // ---- one step ----

  function Stop(g: GpuState, e: GpuError): GpuState {
    g.(halted := true, error := e)
  }

  function Popped(g: GpuState, n: nat): GpuState
    requires n <= |g.stack|
  {
    g.(stack := g.stack[..|g.stack| - n])
  }

  function Top(g: GpuState): GpuValue
    requires g.stack != []
  {
    g.stack[|g.stack| - 1]
  }

  function PushedOn(g: GpuState, v: GpuValue): GpuState {
    if |g.stack| >= MAX_GPU_STACK then Stop(g, ErrStackOverflow) else g.(stack := g.stack + [v])
  }

  // A division by zero has already taken its operands.
  function OnBinary(job: Job, g: GpuState, op: BinOp): GpuState {
    if |g.stack| < 2 then Stop(g, ErrStackUnderflow)
    else
      match Computed(job, op, g.stack[|g.stack| - 2], g.stack[|g.stack| - 1])
      case None => Stop(Popped(g, 2), ErrDivByZero)
      case Some(v) => Popped(g, 2).(stack := Popped(g, 2).stack + [v])
  }

  function OnUnary(g: GpuState, op: UnOp): GpuState {
    if g.stack == [] then Stop(g, ErrStackUnderflow)
    else Popped(g, 1).(stack := Popped(g, 1).stack + [Turned(op, Top(g))])
  }

  // `g.pc` is already behind the operand.
  function OnOperand(job: Job, g: GpuState, op: Byte, arg: U32): GpuState {
    if op == OP_PUSH then PushedOn(g, ConstantAt(job, arg))
    else if op == OP_LOAD_VAR then PushedOn(g, g.vars[arg % MAX_VARS])
    else if op == OP_JUMP then g.(pc := arg)
    else if g.stack == [] then Stop(g, ErrStackUnderflow)
    else if op == OP_STORE_VAR then Popped(g, 1).(vars := g.vars[arg % MAX_VARS := Top(g)])
    else Popped(g, 1).(pc := if (Data(Top(g)) == 0) == (op == OP_JUMP_IF_FALSE) then arg else g.pc)
  }

  function OnReturn(g: GpuState): GpuState {
    g.(halted := true, result := if g.stack == [] then g.result else Top(g))
  }

  function Executed(job: Job, g: GpuState): (g': GpuState)
    requires job.config.codeOffset + g.pc < |job.bytecode|
    ensures g'.steps == g.steps + 1
  {
    var at := job.config.codeOffset + g.pc;
    var op := job.bytecode[at];
    var next := g.(pc := Truncate32(g.pc + 1), steps := g.steps + 1);
    if TakesOperand(op) then
      if at + 5 > |job.bytecode| then Stop(next, if op == OP_PUSH then ErrStackOverflow else g.error)
      else OnOperand(job, next.(pc := Truncate32(g.pc + 5)), op, Uint32(job.bytecode[at + 1..at + 5]))
    else if OperatorOf(op).Some? then OnBinary(job, next, OperatorOf(op).value)
    else if op == OP_NOT then OnUnary(next, Not)
    else if op == OP_NEG then OnUnary(next, Neg)
    else if op == OP_POP then if g.stack == [] then Stop(next, ErrStackUnderflow) else Popped(next, 1)
    else if op == OP_RETURN || op == OP_HALT then OnReturn(next)
    else if 0x40 <= op <= 0x52 then next.(pc := Truncate32(g.pc + 5))
    else next
  }

  function RunOn(job: Job, g: GpuState): GpuState
    decreases MAX_STEPS - g.steps
  {
    if g.halted || g.steps >= MAX_STEPS then g
    else if job.config.codeOffset + g.pc >= |job.bytecode| then g.(halted := true)
    else RunOn(job, Executed(job, g))
  }

  // A run that has used up its steps counts as cut off, even if the last of them was a return.
  function ResultOf(g: GpuState): GpuResult {
    GpuResult(g.result, if g.steps >= MAX_STEPS then ErrMaxSteps else g.error, g.steps)
  }

  const AT_START: GpuState := GpuState(0, [], seq(MAX_VARS, _ => GpuNull), false, ErrNone, 0, GpuNull)

  /** One simulated instance, with its stack and variables in fixed arrays. */
  class Instance {
    const job: Job
    const stack: array<GpuValue>
    const vars: array<GpuValue>
    var sp: nat
    var pc: U32
    var halted: bool
    var error: GpuError
    var steps: nat
    var result: GpuValue

    ghost predicate Valid()
      reads this
    {
      stack.Length == MAX_GPU_STACK && vars.Length == MAX_VARS && stack != vars && sp <= MAX_GPU_STACK
    }

    ghost function Now(): GpuState
      requires Valid()
      reads this, stack, vars
    {
      GpuState(pc, stack[..sp], vars[..], halted, error, steps, result)
    }

    constructor (job: Job)
      ensures Valid() && fresh(stack) && fresh(vars) && this.job == job && Now() == AT_START
    {
      this.job := job;
      var emptyStack := new GpuValue[MAX_GPU_STACK](_ => GpuNull);
      var emptyVars := new GpuValue[MAX_VARS](_ => GpuNull);
      stack, vars, sp := emptyStack, emptyVars, 0;
      pc, halted, error, steps, result := 0, false, ErrNone, 0, GpuNull;
      new;
      assert vars[..] == AT_START.vars;
    }

    method Fail(e: GpuError)
      requires Valid()
      modifies this`halted, this`error
      ensures Valid() && Now() == Stop(old(Now()), e)
    {
      halted, error := true, e;
    }

    method ExecBinary(op: BinOp)
      requires Valid()
      modifies this`halted, this`error, this`sp, stack
      ensures Valid() && Now() == OnBinary(job, old(Now()), op)
    {
      if sp < 2 {
        Fail(ErrStackUnderflow);
        return;
      }
      var b := stack[sp - 1];
      var a := stack[sp - 2];
      sp := sp - 2;
      var v := Computed(job, op, a, b);
      if v.None? {
        Fail(ErrDivByZero);
        return;
      }
      stack[sp] := v.value;
      sp := sp + 1;
    }

    method ExecUnary(op: UnOp)
      requires Valid()
      modifies this`halted, this`error, stack
      ensures Valid() && Now() == OnUnary(old(Now()), op)
    {
      if sp == 0 {
        Fail(ErrStackUnderflow);
        return;
      }
      stack[sp - 1] := Turned(op, stack[sp - 1]);
    }

    method PushValue(v: GpuValue)
      requires Valid()
      modifies this`halted, this`error, this`sp, stack
      ensures Valid() && Now() == PushedOn(old(Now()), v)
    {
      if sp >= MAX_GPU_STACK {
        Fail(ErrStackOverflow);
        return;
      }
      stack[sp] := v;
      sp := sp + 1;
    }

    method ExecOperand(op: Byte, arg: U32)
      requires Valid() && TakesOperand(op)
      modifies this`halted, this`error, this`sp, this`pc, stack, vars
      ensures Valid() && Now() == OnOperand(job, old(Now()), op, arg)
    {
      if op == OP_PUSH {
        var v := LoadConstant(job.bytecode, job.config, arg, job.narrow);
        PushValue(v);
      } else if op == OP_LOAD_VAR {
        PushValue(vars[arg % MAX_VARS]);
      } else if op == OP_JUMP {
        pc := arg;
      } else if sp == 0 {
        Fail(ErrStackUnderflow);
      } else if op == OP_STORE_VAR {
        sp := sp - 1;
        vars[arg % MAX_VARS] := stack[sp];
      } else {
        sp := sp - 1;
        if (Data(stack[sp]) == 0) == (op == OP_JUMP_IF_FALSE) {
          pc := arg;
        }
      }
    }

    method ExecReturn()
      requires Valid()
      modifies this`halted, this`result
      ensures Valid() && Now() == OnReturn(old(Now()))
    {
      if sp > 0 {
        result := stack[sp - 1];
      }
      halted := true;
    }

    method StepOnce()
      requires Valid() && job.config.codeOffset + pc < |job.bytecode|
      modifies this, stack, vars
      ensures Valid() && Now() == Executed(job, old(Now()))
    {
      hide OnBinary, OnUnary, OnOperand, OnReturn, Uint32;
      var at := job.config.codeOffset + pc;
      var op := job.bytecode[at];
      var next := Truncate32(pc + 5);
      pc, steps := Truncate32(pc + 1), steps + 1;
      if TakesOperand(op) {
        if at + 5 > |job.bytecode| {
          Fail(if op == OP_PUSH then ErrStackOverflow else error);
        } else {
          pc := next;
          ExecOperand(op, Uint32(job.bytecode[at + 1..at + 5]));
        }
      } else if OperatorOf(op).Some? {
        ExecBinary(OperatorOf(op).value);
      } else if op == OP_NOT {
        ExecUnary(Not);
      } else if op == OP_NEG {
        ExecUnary(Neg);
      } else if op == OP_POP {
        if sp == 0 {
          Fail(ErrStackUnderflow);
        } else {
          sp := sp - 1;
        }
      } else if op == OP_RETURN || op == OP_HALT {
        ExecReturn();
      } else if 0x40 <= op <= 0x52 {
        pc := next;
      }
    }
  }

  method RunOneVM(job: Job) returns (r: GpuResult)
    ensures r == ResultOf(RunOn(job, AT_START))
  {
    hide Executed;
    var vm := new Instance(job);
    while !vm.halted && vm.steps < MAX_STEPS
      invariant vm.Valid() && vm.job == job && fresh(vm) && fresh(vm.stack) && fresh(vm.vars)
      invariant vm.steps <= MAX_STEPS
      invariant RunOn(job, vm.Now()) == RunOn(job, AT_START)
      decreases if vm.halted then 0 else 1, MAX_STEPS - vm.steps
    {
      if job.config.codeOffset + vm.pc >= |job.bytecode| {
        vm.halted := true;
      } else {
        vm.StepOnce();
      }
    }
    return GpuResult(vm.result, if vm.steps >= MAX_STEPS then ErrMaxSteps else vm.error, vm.steps);
  }
}
