/** The stack machine that runs compiled bytecode: absolute jump targets, variables kept by name. */
module Vm {
  import opened Bytes
  import opened Lang
  import opened Opcodes

  // Beyond this depth Push drops its argument without a word.
  const MAX_STACK: nat := 10000

  datatype Program = Program(code: seq<Byte>, constants: seq<Value>)

  datatype State = State(pc: nat, stack: seq<Value>, locals: map<Str, Value>, halted: bool)

  type Stepped = Result<State, Error>

  function Pushed(stack: seq<Value>, v: Value): seq<Value> {
    if |stack| >= MAX_STACK then stack else stack + [v]
  }

  // Which binary operator an opcode stands for.
  function OperatorOf(op: Byte): Option<BinOp> {
    if op == OP_ADD then Some(Add) else if op == OP_SUB then Some(Sub) else if op == OP_MUL then Some(Mul)
    else if op == OP_DIV then Some(Div) else if op == OP_MOD then Some(Mod)
    else if op == OP_EQ then Some(Eq) else if op == OP_NE then Some(Ne)
    else if op == OP_LT then Some(Lt) else if op == OP_GT then Some(Gt)
    else if op == OP_GE then Some(Ge) else if op == OP_LE then Some(Le)
    else if op == OP_AND then Some(And) else if op == OP_OR then Some(Or)
    else None
  }

  // The b operand is on top, so it is popped first.
  function StepBinary(op: BinOp, st: State): Stepped {
    if |st.stack| < 2 then Err(StackUnderflow)
    else
      var a, b, rest := st.stack[|st.stack| - 2], st.stack[|st.stack| - 1], st.stack[..|st.stack| - 2];
      match ApplyBinary(op, a, b)
      case Err(e) => Err(e)
      case Ok(v) => Ok(st.(pc := st.pc + 1, stack := Pushed(rest, v)))
  }

  function StepUnary(op: UnOp, st: State): Stepped {
    if |st.stack| < 1 then Err(StackUnderflow)
    else
      match ApplyUnary(op, st.stack[|st.stack| - 1])
      case Err(e) => Err(e)
      case Ok(v) => Ok(st.(pc := st.pc + 1, stack := Pushed(st.stack[..|st.stack| - 1], v)))
  }

  // The instructions with an operand; `next` is the pc after it.
  function StepOperand(p: Program, st: State, op: Byte, arg: U32): Stepped {
    var next := st.pc + 5;
    if op == OP_JUMP then Ok(st.(pc := arg))
    else if op == OP_JUMP_IF_FALSE || op == OP_JUMP_IF_TRUE then
      if st.stack == [] then Err(StackUnderflow)
      else
        var v, rest := st.stack[|st.stack| - 1], st.stack[..|st.stack| - 1];
        if !v.Bool? then Err(TypeError)
        else Ok(st.(pc := if v.b == (op == OP_JUMP_IF_TRUE) then arg else next, stack := rest))
    else if arg >= |p.constants| then Err(BadConstantIndex)
    else if op == OP_PUSH then Ok(st.(pc := next, stack := Pushed(st.stack, p.constants[arg])))
    else if !p.constants[arg].Text? then Err(TypeError)
    else
      var name := p.constants[arg].s;
      if op == OP_LOAD_VAR then
        if name in st.locals then Ok(st.(pc := next, stack := Pushed(st.stack, st.locals[name])))
        else Err(UndefinedVariable(name))
      else if st.stack == [] then Err(StackUnderflow)
      else Ok(st.(pc := next, stack := st.stack[..|st.stack| - 1],
                  locals := st.locals[name := st.stack[|st.stack| - 1]]))
  }

  predicate TakesOperand(op: Byte) {
    IsJump(op) || op == OP_PUSH || op == OP_LOAD_VAR || op == OP_STORE_VAR
  }

  function Step(p: Program, st: State): Stepped
    requires st.pc < |p.code|
  {
    var op := p.code[st.pc];
    if TakesOperand(op) then
      if st.pc + 5 > |p.code| then Err(TruncatedOperand)
      else StepOperand(p, st, op, Uint32(p.code[st.pc + 1..st.pc + 5]))
    else if OperatorOf(op).Some? then StepBinary(OperatorOf(op).value, st)
    else if op == OP_NOT then StepUnary(Not, st)
    else if op == OP_NEG then StepUnary(Neg, st)
    else if op == OP_POP then
      if st.stack == [] then Err(StackUnderflow)
      else Ok(st.(pc := st.pc + 1, stack := st.stack[..|st.stack| - 1]))
    else if op == OP_RETURN || op == OP_HALT then Ok(st.(pc := st.pc + 1, halted := true))
    else Err(UnknownOpcode)
  }

  predicate Stopped(p: Program, st: State) {
    st.halted || st.pc >= |p.code|
  }

  // At most k more steps.
  function Run(p: Program, st: State, k: nat): Stepped
    decreases k
  {
    if k == 0 || Stopped(p, st) then Ok(st)
    else
      match Step(p, st)
      case Err(e) => Err(e)
      case Ok(st') => Run(p, st', k - 1)
  }

  // What the caller gets: the top of the stack, or null.
  function Answer(st: State): Value {
    if st.stack == [] then Null else st.stack[|st.stack| - 1]
  }

  lemma {:induction false} RunCompose(p: Program, st: State, j: nat, k: nat)
    ensures Run(p, st, j + k) == match Run(p, st, j) case Err(e) => Err(e) case Ok(mid) => Run(p, mid, k)
    decreases j
  {
    if j == 0 || Stopped(p, st) {
    } else if Step(p, st).Ok? {
      RunCompose(p, Step(p, st).value, j - 1, k);
    }
  }

  // The run loop ended, in k steps or fewer, with this answer.
  ghost predicate Finishes(p: Program, st: State, k: nat, answer: Evaluated) {
    match Run(p, st, k)
    case Err(e) => answer == Err(e)
    case Ok(end) => Stopped(p, end) && answer == Ok(Answer(end))
  }

  // A finished run has one answer, however long one waits for it.
  lemma FinishesOnce(p: Program, st: State, j: nat, k: nat, a: Evaluated, b: Evaluated)
    requires Finishes(p, st, j, a) && Finishes(p, st, k, b)
    ensures a == b
  {
    if j <= k {
      RunCompose(p, st, j, k - j);
    } else {
      RunCompose(p, st, k, j - k);
    }
  }

  /** The machine object. Execution is bounded by `maxSteps`, as SetMaxSteps does. */
  class Machine {
    var stack: seq<Value>
    var locals: map<Str, Value>
    var pc: nat
    var halted: bool
    const program: Program
    const maxSteps: nat

    function Now(): State
      reads this
    {
      State(pc, stack, locals, halted)
    }

    constructor (program: Program, start: nat, locals: map<Str, Value>, maxSteps: nat)
      ensures Now() == State(start, [], locals, false)
      ensures this.program == program && this.maxSteps == maxSteps
    {
      this.program, this.maxSteps := program, maxSteps;
      this.stack, this.locals, this.pc, this.halted := [], locals, start, false;
    }

    method Push(v: Value)
      modifies this`stack
      ensures stack == Pushed(old(stack), v)
    {
      if |stack| >= MAX_STACK {
        return;
      }
      stack := stack + [v];
    }

    method PopValue() returns (r: Evaluated)
      modifies this`stack
      ensures old(stack) == [] ==> r == Err(StackUnderflow) && stack == []
      ensures old(stack) != [] ==>
                r == Ok(old(stack)[|old(stack)| - 1]) && stack == old(stack)[..|old(stack)| - 1]
    {
      if stack == [] {
        return Err(StackUnderflow);
      }
      r := Ok(stack[|stack| - 1]);
      stack := stack[..|stack| - 1];
    }

    method ReadOperand() returns (r: Result<U32, Error>)
      modifies this`pc
      ensures old(pc) + 4 > |program.code| ==> r == Err(TruncatedOperand) && pc == old(pc)
      ensures old(pc) + 4 <= |program.code| ==>
                r == Ok(Uint32(program.code[old(pc)..old(pc) + 4])) && pc == old(pc) + 4
    {
      if pc + 4 > |program.code| {
        return Err(TruncatedOperand);
      }
      r := Ok(Uint32(program.code[pc..pc + 4]));
      pc := pc + 4;
    }

    method ExecBinary(op: BinOp) returns (r: Result<(), Error>)
      requires pc > 0
      modifies this
      ensures match StepBinary(op, old(State(pc - 1, stack, locals, halted)))
              case Ok(st) => r.Ok? && Now() == st
              case Err(e) => r == Err(e)
    {
      var b := PopValue();
      if b.Err? {
        return Err(b.error);
      }
      var a := PopValue();
      if a.Err? {
        return Err(a.error);
      }
      var v := ApplyBinary(op, a.value, b.value);
      if v.Err? {
        return Err(v.error);
      }
      Push(v.value);
      return Ok(());
    }

    method ExecUnary(op: UnOp) returns (r: Result<(), Error>)
      requires pc > 0
      modifies this
      ensures match StepUnary(op, old(State(pc - 1, stack, locals, halted)))
              case Ok(st) => r.Ok? && Now() == st
              case Err(e) => r == Err(e)
    {
      var a := PopValue();
      if a.Err? {
        return Err(a.error);
      }
      var v := ApplyUnary(op, a.value);
      if v.Err? {
        return Err(v.error);
      }
      Push(v.value);
      return Ok(());
    }

    method ExecOperand(op: Byte) returns (r: Result<(), Error>)
      requires pc > 0 && TakesOperand(op)
      modifies this
      ensures var was := old(State(pc - 1, stack, locals, halted));
              if was.pc + 5 > |program.code| then r == Err(TruncatedOperand)
              else match StepOperand(program, was, op, Uint32(program.code[was.pc + 1..was.pc + 5]))
                   case Ok(st) => r.Ok? && Now() == st
                   case Err(e) => r == Err(e)
    {
      var operand := ReadOperand();
      if operand.Err? {
        return Err(operand.error);
      }
      var arg := operand.value;
      if op == OP_JUMP {
        pc := arg;
        return Ok(());
      }
      if IsJump(op) {
        var v := PopValue();
        if v.Err? {
          return Err(v.error);
        }
        if !v.value.Bool? {
          return Err(TypeError);
        }
        if v.value.b == (op == OP_JUMP_IF_TRUE) {
          pc := arg;
        }
        return Ok(());
      }
      if arg >= |program.constants| {
        return Err(BadConstantIndex);
      }
      var constant := program.constants[arg];
      if op == OP_PUSH {
        Push(constant);
        return Ok(());
      }
      if !constant.Text? {
        return Err(TypeError);
      }
      if op == OP_LOAD_VAR {
        if constant.s !in locals {
          return Err(UndefinedVariable(constant.s));
        }
        Push(locals[constant.s]);
        return Ok(());
      }
      var v := PopValue();
      if v.Err? {
        return Err(v.error);
      }
      locals := locals[constant.s := v.value];
      return Ok(());
    }

    method StepOnce() returns (r: Result<(), Error>)
      requires pc < |program.code|
      modifies this
      ensures match Step(program, old(Now()))
              case Ok(st) => r.Ok? && Now() == st
              case Err(e) => r == Err(e)
    {
      var op := program.code[pc];
      pc := pc + 1;
      if TakesOperand(op) {
        r := ExecOperand(op);
      } else if OperatorOf(op).Some? {
        r := ExecBinary(OperatorOf(op).value);
      } else if op == OP_NOT {
        r := ExecUnary(Not);
      } else if op == OP_NEG {
        r := ExecUnary(Neg);
      } else if op == OP_POP {
        var v := PopValue();
        r := if v.Err? then Err(v.error) else Ok(());
      } else if op == OP_RETURN || op == OP_HALT {
        halted := true;
        r := Ok(());
      } else {
        r := Err(UnknownOpcode);
      }
    }

    // Runs to the end, to an error, or past the step limit (None). A limit of 0 is none at all, and
    // then the run has to be one that finishes.
    method RunLoop() returns (r: Option<Evaluated>)
      requires maxSteps > 0 || exists k: nat, a :: Finishes(program, Now(), k, a)
      modifies this
      ensures r.Some? ==> exists k: nat :: (maxSteps > 0 ==> k <= maxSteps + 1) && Finishes(program, old(Now()), k, r.value)
      ensures r.None? ==> maxSteps > 0 && Run(program, old(Now()), maxSteps + 1) == Ok(Now())
    {
      hide Step, Run;
      ghost var start := Now();
      ghost var bound: nat := maxSteps;
      if maxSteps == 0 {
        ghost var k: nat, a :| Finishes(program, start, k, a);
        bound := k;
      }
      var steps := 0;
      NoSteps(program, start);
      while !halted && pc < |program.code|
        invariant steps <= bound && (maxSteps > 0 ==> bound == maxSteps)
        invariant maxSteps == 0 ==> exists a :: Finishes(program, start, bound, a)
        invariant Run(program, start, steps) == Ok(Now())
        decreases bound - steps
      {
        OneStep(program, start, steps, Now());
        var outcome := StepOnce();
        if outcome.Err? {
          assert Finishes(program, start, steps + 1, Err(outcome.error));
          return Some(Err(outcome.error));
        }
        steps := steps + 1;
        if maxSteps > 0 && steps > maxSteps {
          return None;
        }
      }
      assert Finishes(program, start, steps, Ok(Answer(Now())));
      if |stack| > 0 {
        var v := PopValue();
        return Some(v);
      }
      return Some(Ok(Null));
    }
  }

  lemma NoSteps(p: Program, st: State)
    ensures Run(p, st, 0) == Ok(st)
  {
  }

  // A run that goes on after k steps has not finished by then, and takes one step more.
  lemma OneStep(p: Program, st: State, k: nat, mid: State)
    requires Run(p, st, k) == Ok(mid) && !Stopped(p, mid)
    ensures Run(p, st, k + 1) == Step(p, mid)
    ensures forall a :: !Finishes(p, st, k, a)
  {
    hide Step;
    RunCompose(p, st, k, 1);
    assert Run(p, mid, 1) == Step(p, mid) by {
      if Step(p, mid).Ok? {
        NoSteps(p, Step(p, mid).value);
      }
    }
  }
}
