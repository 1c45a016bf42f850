/** The reference interpreter of the bootstrap bytecode: an integer stack machine with call frames on
  * the stack. Heap opcodes are not part of this model. */
module RefVm {
  import opened Bytes

  const OP_PUSH := 1
  const OP_POP := 2
  const OP_DUP := 3
  const OP_SWAP := 4
  const OP_DUP_SECOND := 5
  const OP_ADD := 16
  const OP_SUB := 17
  const OP_MUL := 18
  const OP_DIV := 19
  const OP_MOD := 20
  const OP_EQ := 32
  const OP_NE := 33
  const OP_LT := 34
  const OP_GT := 35
  const OP_GE := 36
  const OP_LE := 37
  const OP_AND := 38
  const OP_OR := 39
  const OP_NOT := 40
  const OP_NEG := 41
  const OP_LOAD_VAR := 64
  const OP_STORE_VAR := 65
  const OP_LOAD_FP := 66
  const OP_JUMP := 80
  const OP_JUMP_IF_FALSE := 81
  const OP_JUMP_IF_TRUE := 82
  const OP_RETURN := 97
  const OP_CALL := 98
  const OP_DEF_FUNC := 115
  const OP_HALT := 255

  // The exceptions of the original; NotModelled stands for heap opcodes and malformed addresses.
  datatype Fault = StackUnderflow | IndexError | ZeroDivision | NotModelled

  datatype State = State(stack: seq<int>, pc: int, fp: int, halted: bool, steps: nat)

  // Step's verdict: run on, or stop for good.
  datatype Stepped = More(st: State) | Done(st: State) | Raised(fault: Fault)

  // Python's indexing: negative indices count from the end.
  function Index(s: seq<int>, i: int): Option<int> {
    if 0 <= i < |s| then Some(s[i]) else if -|s| <= i < 0 then Some(s[|s| + i]) else None
  }

  // Python's s[:n].
  function Upto(s: seq<int>, n: int): seq<int> {
    if n >= |s| then s else if n >= 0 then s[..n] else if |s| + n >= 0 then s[..|s| + n] else []
  }

  function FloorDiv(a: int, b: int): int
    requires b != 0
  {
    if b > 0 then a / b else (-a) / (-b)
  }

  predicate IsByte(x: Option<int>) {
    x.Some? && 0 <= x.value < 256
  }

  function ReadAddr(code: seq<int>, pc: int): Option<int> {
    var b0, b1, b2, b3 := Index(code, pc), Index(code, pc + 1), Index(code, pc + 2), Index(code, pc + 3);
    if IsByte(b0) && IsByte(b1) && IsByte(b2) && IsByte(b3) then
      Some(b0.value + 0x100 * b1.value + 0x1_0000 * b2.value + 0x100_0000 * b3.value)
    else None
  }

  predicate IsBinary(op: int) {
    OP_ADD <= op <= OP_MOD || OP_EQ <= op <= OP_OR
  }

  predicate OnStackOnly(op: int) {
    || op == OP_POP || op == OP_STORE_VAR || op == OP_DUP || op == OP_SWAP || op == OP_DUP_SECOND
    || IsBinary(op) || op == OP_NOT || op == OP_NEG
  }

  function Flag(b: bool): int {
    if b then 1 else 0
  }

  function Binary(op: int, a: int, b: int): Option<int>
    requires IsBinary(op)
  {
    if op == OP_ADD then Some(a + b)
    else if op == OP_SUB then Some(a - b)
    else if op == OP_MUL then Some(a * b)
    else if op == OP_DIV then (if b == 0 then None else Some(FloorDiv(a, b)))
    else if op == OP_MOD then (if b == 0 then None else Some(a - b * FloorDiv(a, b)))
    else if op == OP_EQ then Some(Flag(a == b))
    else if op == OP_NE then Some(Flag(a != b))
    else if op == OP_LT then Some(Flag(a < b))
    else if op == OP_GT then Some(Flag(a > b))
    else if op == OP_GE then Some(Flag(a >= b))
    else if op == OP_LE then Some(Flag(a <= b))
    else if op == OP_AND then Some(Flag(a != 0 && b != 0))
    else Some(Flag(a != 0 || b != 0))
  }

  function Top(st: State): int
    requires st.stack != []
  {
    st.stack[|st.stack| - 1]
  }

  function Below(s: seq<int>, n: nat): seq<int>
    requires n <= |s|
  {
    s[..|s| - n]
  }

  // The stack after an instruction that only rearranges or combines its top.
  function Combined(s: seq<int>, op: int): Result<seq<int>, Fault>
    requires OnStackOnly(op)
  {
    var n := |s|;
    if op == OP_DUP_SECOND then
      if n < 2 then Err(IndexError) else Ok(s + [s[n - 2]])
    else if op == OP_SWAP then
      if n < 2 then Err(StackUnderflow) else Ok(Below(s, 2) + [s[n - 1], s[n - 2]])
    else if IsBinary(op) then
      if n < 2 then Err(StackUnderflow)
      else
        match Binary(op, s[n - 2], s[n - 1])
        case None => Err(ZeroDivision)
        case Some(v) => Ok(Below(s, 2) + [v])
    else if n == 0 then Err(StackUnderflow)
    else if op == OP_DUP then Ok(s + [s[n - 1]])
    else if op == OP_NOT then Ok(Below(s, 1) + [Flag(s[n - 1] == 0)])
    else if op == OP_NEG then Ok(Below(s, 1) + [-s[n - 1]])
    else Ok(Below(s, 1))
  }

  // One instruction; the step counter has been raised already.
  function Execute(code: seq<int>, constants: seq<int>, st: State, op: int): Stepped {
    var s := st.stack;
    var n := |s|;
    if op == OP_PUSH || op == OP_LOAD_VAR then
      match Index(code, st.pc + 1)
      case None => Raised(IndexError)
      case Some(i) =>
        match Index(constants, i)
        case None => Raised(IndexError)
        case Some(v) => More(st.(stack := s + [v], pc := st.pc + 2))
    else if OnStackOnly(op) then
      match Combined(s, op)
      case Err(fault) => Raised(fault)
      case Ok(t) => More(st.(stack := t, pc := st.pc + 1))
    else if op == OP_LOAD_FP then
      match Index(code, st.pc + 1)
      case None => Raised(IndexError)
      case Some(offset) =>
        if 0 <= st.fp + offset < n then More(st.(stack := s + [s[st.fp + offset]], pc := st.pc + 2))
        else Done(st.(halted := true))
    else if op == OP_JUMP || op == OP_JUMP_IF_FALSE || op == OP_JUMP_IF_TRUE then
      match ReadAddr(code, st.pc + 1)
      case None => Raised(NotModelled)
      case Some(target) =>
        if op == OP_JUMP then More(st.(pc := target))
        else if n == 0 then Raised(StackUnderflow)
        else More(st.(stack := Below(s, 1),
                      pc := if (Top(st) == 0) == (op == OP_JUMP_IF_FALSE) then target else st.pc + 5))
    else if op == OP_CALL then
      match ReadAddr(code, st.pc + 1)
      case None => Raised(NotModelled)
      case Some(target) => More(st.(stack := s + [st.fp, st.pc + 5, n], fp := n, pc := target))
    else if op == OP_RETURN then Return(st)
    else if op == OP_DEF_FUNC then More(st.(pc := st.pc + 2))
    else if op in {112, 113, 114, 128, 86, 87} then Raised(NotModelled)
    else Done(st.(halted := true))
  }

  // The frame at fp holds the caller's fp, the return address and the height of the caller's stack.
  function Return(st: State): Stepped {
    if st.stack == [] then Raised(StackUnderflow)
    else
      var s := Below(st.stack, 1);
      var oldFp, returnAddr, base := Index(s, st.fp), Index(s, st.fp + 1), Index(s, st.fp + 2);
      if oldFp.None? || returnAddr.None? || base.None? then Raised(IndexError)
      else More(st.(stack := Upto(s, base.value) + [Top(st)], fp := oldFp.value, pc := returnAddr.value))
  }

  function Step(code: seq<int>, constants: seq<int>, st: State): Stepped {
    if st.halted || st.pc >= |code| then Done(st)
    else
      match Index(code, st.pc)
      case None => Raised(IndexError)
      case Some(op) => Execute(code, constants, st.(steps := st.steps + 1), op)
  }

  // The state after k instructions, none of which stopped the machine.
  function After(code: seq<int>, constants: seq<int>, st: State, k: nat): Option<State>
    decreases k
  {
    if k == 0 then Some(st)
    else
      match Step(code, constants, st)
      case More(st1) => After(code, constants, st1, k - 1)
      case Done(_) => None
      case Raised(_) => None
  }

  lemma {:induction false} AfterOn(code: seq<int>, constants: seq<int>, st: State, j: nat, k: nat)
    requires After(code, constants, st, j).Some?
    ensures After(code, constants, st, j + k) == After(code, constants, After(code, constants, st, j).value, k)
    decreases j
  {
    hide Step;
    if j > 0 {
      AfterOn(code, constants, Step(code, constants, st).st, j - 1, k);
    }
  }

  // ---- calls ----

  // The callee returns with the caller's stack and its own frame as the call left them.
  ghost predicate FrameIntact(call: State, ret: State) {
    && ret.fp == |call.stack| && |ret.stack| >= |call.stack| + 4
    && ret.stack[..|call.stack| + 3] == call.stack + [call.fp, call.pc + 5, |call.stack|]
  }

  // Whatever a callee does in between: if it comes to its return with its frame intact, the caller
  // resumes behind the call with its own frame pointer and stack, and the result on top.
  lemma CallReturns(code: seq<int>, constants: seq<int>, call: State, target: int, k: nat, ret: State)
    requires !call.halted && 0 <= call.pc < |code| && code[call.pc] == OP_CALL && ReadAddr(code, call.pc + 1) == Some(target)
    requires var entered := State(call.stack + [call.fp, call.pc + 5, |call.stack|], target, |call.stack|, false, call.steps + 1);
             After(code, constants, entered, k) == Some(ret)
    requires !ret.halted && 0 <= ret.pc < |code| && code[ret.pc] == OP_RETURN && FrameIntact(call, ret)
    ensures After(code, constants, call, k + 2) ==
              Some(State(call.stack + [Top(ret)], call.pc + 5, call.fp, false, ret.steps + 1))
  {
    hide Step, ReadAddr;
    var entered := State(call.stack + [call.fp, call.pc + 5, |call.stack|], target, |call.stack|, false, call.steps + 1);
    var back := State(call.stack + [Top(ret)], call.pc + 5, call.fp, false, ret.steps + 1);
    StepCall(code, constants, call, target);
    StepReturn(code, constants, call, ret);
    AfterOn(code, constants, entered, k, 1);
    assert After(code, constants, ret, 1) == After(code, constants, back, 0);
  }

  lemma StepCall(code: seq<int>, constants: seq<int>, call: State, target: int)
    requires !call.halted && 0 <= call.pc < |code| && code[call.pc] == OP_CALL && ReadAddr(code, call.pc + 1) == Some(target)
    ensures Step(code, constants, call) ==
              More(State(call.stack + [call.fp, call.pc + 5, |call.stack|], target, |call.stack|, false, call.steps + 1))
  {
    hide ReadAddr, Return, Binary;
  }

  lemma StepReturn(code: seq<int>, constants: seq<int>, call: State, ret: State)
    requires !ret.halted && 0 <= ret.pc < |code| && code[ret.pc] == OP_RETURN && FrameIntact(call, ret)
    ensures Step(code, constants, ret) == More(State(call.stack + [Top(ret)], call.pc + 5, call.fp, false, ret.steps + 1))
  {
    hide Return, ReadAddr, Binary;
    ReturnRestores(call, ret.(steps := ret.steps + 1));
  }

  lemma ReturnRestores(call: State, ret: State)
    requires FrameIntact(call, ret)
    ensures Return(ret) == More(ret.(stack := call.stack + [Top(ret)], fp := call.fp, pc := call.pc + 5))
  {
    var n := |call.stack|;
    var s := Below(ret.stack, 1);
    var frame := ret.stack[..n + 3];
    assert s[n] == frame[n] && s[n + 1] == frame[n + 1] && s[n + 2] == frame[n + 2];
    assert s[..n] == frame[..n] == call.stack;
  }

  // ---- running ----

  const STEP_LIMIT := 10000

  datatype Verdict = Ended(st: State) | Failed(fault: Fault)

  // Until an instruction stops the machine, or the step limit does.
  function RunOut(code: seq<int>, constants: seq<int>, st: State): Verdict
    requires st.steps <= STEP_LIMIT
    decreases STEP_LIMIT - st.steps
  {
    match Step(code, constants, st)
    case Raised(fault) => Failed(fault)
    case Done(st1) => Ended(st1)
    case More(st1) =>
      StepCounts(code, constants, st);
      if st1.steps > STEP_LIMIT then Ended(st1) else RunOut(code, constants, st1)
  }

  lemma StepCounts(code: seq<int>, constants: seq<int>, st: State)
    ensures Step(code, constants, st).More? ==> Step(code, constants, st).st.steps == st.steps + 1
    ensures Step(code, constants, st).Done? ==> Step(code, constants, st).st.steps <= st.steps + 1
  {
  }

  lemma {:induction false} AfterCounts(code: seq<int>, constants: seq<int>, st: State, k: nat)
    requires After(code, constants, st, k).Some?
    ensures After(code, constants, st, k).value.steps == st.steps + k
    decreases k
  {
    hide Step;
    if k > 0 {
      StepCounts(code, constants, st);
      AfterCounts(code, constants, Step(code, constants, st).st, k - 1);
    }
  }

  // Within the limit a run can be picked up later.
  lemma {:induction false} RunLater(code: seq<int>, constants: seq<int>, st: State, k: nat)
    requires After(code, constants, st, k).Some? && st.steps + k <= STEP_LIMIT
    ensures After(code, constants, st, k).value.steps <= STEP_LIMIT
    ensures RunOut(code, constants, st) == RunOut(code, constants, After(code, constants, st, k).value)
    decreases k
  {
    hide Step;
    AfterCounts(code, constants, st, k);
    if k > 0 {
      StepCounts(code, constants, st);
      RunLater(code, constants, Step(code, constants, st).st, k - 1);
    }
  }

  // A run that is still going when the limit is reached ends there.
  lemma {:induction false} RunCut(code: seq<int>, constants: seq<int>, st: State, k: nat)
    requires After(code, constants, st, k).Some? && st.steps <= STEP_LIMIT && st.steps + k == STEP_LIMIT + 1
    ensures RunOut(code, constants, st) == Ended(After(code, constants, st, k).value)
    decreases k
  {
    hide Step;
    AfterCounts(code, constants, st, k);
    StepCounts(code, constants, st);
    if k > 1 {
      RunCut(code, constants, Step(code, constants, st).st, k - 1);
    }
  }

  class VM {
    var stack: seq<int>
    var pc: int
    var fp: int
    var halted: bool
    var stepCount: nat

    ghost function Current(): State
      reads this
    {
      State(stack, pc, fp, halted, stepCount)
    }

    constructor ()
      ensures Current() == State([], 0, 0, false, 0)
    {
      stack, pc, fp, halted, stepCount := [], 0, 0, false, 0;
    }

    method Push(v: int)
      modifies this`stack
      ensures stack == old(stack) + [v]
    {
      stack := stack + [v];
    }

    method Pop() returns (v: int)
      requires stack != []
      modifies this`stack
      ensures stack == Below(old(stack), 1) && v == old(stack)[|old(stack)| - 1]
    {
      v := stack[|stack| - 1];
      stack := stack[..|stack| - 1];
    }

    // The two ways an instruction that runs on can leave the counters.
    method Call(target: int)
      modifies this
      ensures Current() == old(Current()).(stack := old(stack) + [old(fp), old(pc) + 5, |old(stack)|], fp := |old(stack)|, pc := target)
    {
      var returnAddr := pc + 5;
      var base := |stack|;
      Push(fp);
      Push(returnAddr);
      Push(base);
      fp := |stack| - 3;
      pc := target;
    }

    // True if the instruction left the machine ready for the next one; the fault if it raised.
    method StepOnce(code: seq<int>, constants: seq<int>) returns (more: Result<bool, Fault>)
      modifies this
      ensures match Step(code, constants, old(Current()))
              case More(st) => more == Ok(true) && Current() == st
              case Done(st) => more == Ok(false) && Current() == st
              case Raised(fault) => more == Err(fault)
    {
      if halted || pc >= |code| {
        return Ok(false);
      }
      var op := Index(code, pc);
      if op.None? {
        return Err(IndexError);
      }
      stepCount := stepCount + 1;
      more := Perform(code, constants, op.value);
    }

    method Perform(code: seq<int>, constants: seq<int>, op: int) returns (more: Result<bool, Fault>)
      modifies this
      ensures match Execute(code, constants, old(Current()), op)
              case More(st) => more == Ok(true) && Current() == st
              case Done(st) => more == Ok(false) && Current() == st
              case Raised(fault) => more == Err(fault)
    {
      hide ReadAddr, Index, Combined, OnStackOnly, Return;
      more := Ok(true);
      if op == OP_PUSH || op == OP_LOAD_VAR {
        var i := Index(code, pc + 1);
        var v := if i.Some? then Index(constants, i.value) else None;
        if v.None? {
          return Err(IndexError);
        }
        Push(v.value);
        pc := pc + 2;
      } else if OnStackOnly(op) {
        var fault := PerformOnStack(op);
        if fault.Some? {
          return Err(fault.value);
        }
        pc := pc + 1;
      } else if op == OP_LOAD_FP {
        var offset := Index(code, pc + 1);
        if offset.None? {
          return Err(IndexError);
        }
        var i := fp + offset.value;
        if i < 0 || i >= |stack| {
          halted := true;
          return Ok(false);
        }
        Push(stack[i]);
        pc := pc + 2;
      } else if op == OP_JUMP || op == OP_JUMP_IF_FALSE || op == OP_JUMP_IF_TRUE {
        more := Jump(code, op);
      } else if op == OP_CALL {
        var target := ReadAddr(code, pc + 1);
        if target.None? {
          return Err(NotModelled);
        }
        Call(target.value);
      } else if op == OP_RETURN {
        more := ReturnFromCall();
      } else if op == OP_DEF_FUNC {
        pc := pc + 2;
      } else if op in {112, 113, 114, 128, 86, 87} {
        return Err(NotModelled);
      } else {
        halted := true;
        return Ok(false);
      }
    }

    method PerformOnStack(op: int) returns (fault: Option<Fault>)
      requires OnStackOnly(op)
      modifies this`stack
      ensures match Combined(old(stack), op)
              case Err(f) => fault == Some(f)
              case Ok(t) => fault == None && stack == t
    {
      hide Binary;
      fault := None;
      if op == OP_DUP_SECOND {
        if |stack| < 2 {
          return Some(IndexError);
        }
        Push(stack[|stack| - 2]);
      } else if op == OP_SWAP {
        if |stack| < 2 {
          return Some(StackUnderflow);
        }
        var a := Pop();
        var b := Pop();
        Push(a);
        Push(b);
      } else if IsBinary(op) {
        if |stack| < 2 {
          return Some(StackUnderflow);
        }
        var b := Pop();
        var a := Pop();
        var v := Binary(op, a, b);
        if v.None? {
          return Some(ZeroDivision);
        }
        Push(v.value);
      } else if stack == [] {
        return Some(StackUnderflow);
      } else if op == OP_DUP {
        Push(stack[|stack| - 1]);
      } else {
        var a := Pop();
        if op == OP_NOT {
          Push(Flag(a == 0));
        } else if op == OP_NEG {
          Push(-a);
        }
      }
    }

    method Jump(code: seq<int>, op: int) returns (more: Result<bool, Fault>)
      requires op == OP_JUMP || op == OP_JUMP_IF_FALSE || op == OP_JUMP_IF_TRUE
      modifies this
      ensures match Execute(code, [], old(Current()), op)
              case More(st) => more == Ok(true) && Current() == st
              case Done(st) => more == Ok(false) && Current() == st
              case Raised(fault) => more == Err(fault)
    {
      hide ReadAddr, Index, Binary, Return;
      var target := ReadAddr(code, pc + 1);
      if target.None? {
        return Err(NotModelled);
      }
      more := Ok(true);
      if op == OP_JUMP {
        pc := target.value;
        return;
      }
      if stack == [] {
        return Err(StackUnderflow);
      }
      var cond := Pop();
      if op == OP_JUMP_IF_FALSE {
        pc := if cond == 0 then target.value else pc + 5;
      } else {
        pc := if cond != 0 then target.value else pc + 5;
      }
    }

    method ReturnFromCall() returns (more: Result<bool, Fault>)
      modifies this
      ensures match Return(old(Current()))
              case More(st) => more == Ok(true) && Current() == st
              case Done(_) => false
              case Raised(fault) => more == Err(fault)
    {
      if stack == [] {
        return Err(StackUnderflow);
      }
      var result := Pop();
      var oldFp := Index(stack, fp);
      var returnAddr := Index(stack, fp + 1);
      var base := Index(stack, fp + 2);
      if oldFp.None? || returnAddr.None? || base.None? {
        return Err(IndexError);
      }
      stack := Upto(stack, base.value);
      fp := oldFp.value;
      pc := returnAddr.value;
      Push(result);
      more := Ok(true);
    }

    // Runs to the end or the step limit; the value on top of the stack, 0 if there is none.
    method Run(code: seq<int>, constants: seq<int>) returns (r: Result<int, Fault>)
      requires stepCount <= STEP_LIMIT
      modifies this
      ensures match RunOut(code, constants, old(Current()))
              case Ended(st) => Current() == st && r == Ok(if st.stack == [] then 0 else Top(st))
              case Failed(fault) => r == Err(fault)
    {
      hide Step;
      StepCounts(code, constants, Current());
      var more := StepOnce(code, constants);
      while more.Ok? && more.value && stepCount <= STEP_LIMIT
        invariant more.Ok? ==> stepCount <= STEP_LIMIT + 1
        invariant more.Ok? && more.value && stepCount <= STEP_LIMIT ==>
            RunOut(code, constants, Current()) == RunOut(code, constants, old(Current()))
        invariant more.Ok? && (!more.value || stepCount > STEP_LIMIT) ==>
            RunOut(code, constants, old(Current())) == Ended(Current())
        invariant more.Err? ==> RunOut(code, constants, old(Current())) == Failed(more.error)
        decreases more.Ok?, if more.Ok? && more.value then STEP_LIMIT + 2 - stepCount else 0
      {
        StepCounts(code, constants, Current());
        more := StepOnce(code, constants);
      }
      if more.Err? {
        return Err(more.error);
      }
      r := Ok(if stack == [] then 0 else stack[|stack| - 1]);
    }
  }

  // ---- the factorial program ----

  const FACTORIAL: seq<int> := [
    OP_PUSH, 0, OP_CALL, 9, 0, 0, 0, OP_HALT, OP_POP,
    OP_LOAD_FP, -1, OP_PUSH, 1, OP_LE, OP_JUMP_IF_FALSE, 22, 0, 0, 0,
    OP_PUSH, 1, OP_RETURN,
    OP_LOAD_FP, -1, OP_PUSH, 1, OP_SUB, OP_CALL, 9, 0, 0, 0, OP_LOAD_FP, -1, OP_MUL, OP_RETURN]

  function Factorial(n: int): int {
    if n <= 1 then 1 else n * Factorial(n - 1)
  }

  // Instructions a call for n takes, its return included.
  function CallSteps(n: int): nat {
    if n <= 1 then 6 else 11 + CallSteps(n - 1)
  }

  lemma {:induction false} CallStepsAre(n: int)
    requires n >= 1
    ensures CallSteps(n) == 11 * n - 5
    decreases n
  {
    if n > 1 {
      CallStepsAre(n - 1);
    }
  }

  // The argument of the current call.
  ghost predicate Argument(st: State, v: int) {
    !st.halted && 1 <= st.fp <= |st.stack| && st.stack[st.fp - 1] == v
  }

  lemma FourSteps(code: seq<int>, c: seq<int>, st: State, s1: State, s2: State, s3: State, s4: State)
    requires Step(code, c, st) == More(s1) && Step(code, c, s1) == More(s2)
    ensures After(code, c, st, 2) == Some(s2)
    ensures Step(code, c, s2) == More(s3) ==> After(code, c, st, 3) == Some(s3)
    ensures Step(code, c, s2) == More(s3) && Step(code, c, s3) == More(s4) ==> After(code, c, st, 4) == Some(s4)
  {
    hide Step;
  }

  predicate Ready(code: seq<int>, st: State, op: int) {
    !st.halted && 0 <= st.pc < |code| && code[st.pc] == op
  }

  lemma StepPush(code: seq<int>, c: seq<int>, st: State, i: nat)
    requires Ready(code, st, OP_PUSH) && st.pc + 1 < |code| && code[st.pc + 1] == i && i < |c|
    ensures Step(code, c, st) == More(st.(stack := st.stack + [c[i]], pc := st.pc + 2, steps := st.steps + 1))
  {
  }

  lemma StepArgument(code: seq<int>, c: seq<int>, st: State, v: int)
    requires Ready(code, st, OP_LOAD_FP) && st.pc + 1 < |code| && code[st.pc + 1] == -1 && Argument(st, v)
    ensures Step(code, c, st) == More(st.(stack := st.stack + [v], pc := st.pc + 2, steps := st.steps + 1))
  {
  }

  lemma StepBinary(code: seq<int>, c: seq<int>, st: State, op: int, s: seq<int>, a: int, b: int)
    requires Ready(code, st, op) && IsBinary(op) && st.stack == s + [a, b] && Binary(op, a, b).Some?
    ensures Step(code, c, st) == More(st.(stack := s + [Binary(op, a, b).value], pc := st.pc + 1, steps := st.steps + 1))
  {
    assert Below(st.stack, 2) == s;
  }

  lemma StepIfFalse(code: seq<int>, c: seq<int>, st: State, s: seq<int>, v: int, target: int)
    requires Ready(code, st, OP_JUMP_IF_FALSE) && ReadAddr(code, st.pc + 1) == Some(target) && st.stack == s + [v]
    ensures Step(code, c, st) ==
              More(st.(stack := s, pc := if v == 0 then target else st.pc + 5, steps := st.steps + 1))
  {
    assert Below(st.stack, 1) == s;
  }

  lemma Addresses()
    ensures |FACTORIAL| == 36 && ReadAddr(FACTORIAL, 3) == Some(9)
    ensures ReadAddr(FACTORIAL, 15) == Some(22) && ReadAddr(FACTORIAL, 28) == Some(9)
  {
  }

  // n <= 1?
  lemma TestSteps(c: seq<int>, st: State, v: int)
    requires st.pc == 9 && Argument(st, v) && |c| == 2 && c[1] == 1
    ensures After(FACTORIAL, c, st, 4) == Some(st.(pc := if v <= 1 then 19 else 22, steps := st.steps + 4))
  {
    hide Step, ReadAddr, After;
    Addresses();
    var s := st.stack;
    var s1 := st.(stack := s + [v], pc := 11, steps := st.steps + 1);
    var s2 := st.(stack := s + [v, 1], pc := 13, steps := st.steps + 2);
    var s3 := st.(stack := s + [Flag(v <= 1)], pc := 14, steps := st.steps + 3);
    var s4 := st.(pc := if v <= 1 then 19 else 22, steps := st.steps + 4);
    StepArgument(FACTORIAL, c, st, v);
    StepPush(FACTORIAL, c, s1, 1);
    assert s1.stack + [1] == s + [v, 1];
    StepBinary(FACTORIAL, c, s2, OP_LE, s, v, 1);
    StepIfFalse(FACTORIAL, c, s3, s, Flag(v <= 1), 22);
    FourSteps(FACTORIAL, c, st, s1, s2, s3, s4);
  }

  // n - 1 for the inner call.
  lemma ArgumentSteps(c: seq<int>, st: State, v: int)
    requires st.pc == 22 && Argument(st, v) && |c| == 2 && c[1] == 1
    ensures After(FACTORIAL, c, st, 3) == Some(st.(stack := st.stack + [v - 1], pc := 27, steps := st.steps + 3))
  {
    hide Step, After;
    Addresses();
    var s := st.stack;
    var s1 := st.(stack := s + [v], pc := 24, steps := st.steps + 1);
    var s2 := st.(stack := s + [v, 1], pc := 26, steps := st.steps + 2);
    var s3 := st.(stack := s + [v - 1], pc := 27, steps := st.steps + 3);
    StepArgument(FACTORIAL, c, st, v);
    StepPush(FACTORIAL, c, s1, 1);
    assert s1.stack + [1] == s + [v, 1];
    StepBinary(FACTORIAL, c, s2, OP_SUB, s, v, 1);
    FourSteps(FACTORIAL, c, st, s1, s2, s3, s3);
  }

  // The inner result times n.
  lemma ProductSteps(c: seq<int>, st: State, v: int, s: seq<int>, r: int)
    requires st.pc == 32 && Argument(st, v) && st.stack == s + [r]
    ensures After(FACTORIAL, c, st, 2) == Some(st.(stack := s + [r * v], pc := 35, steps := st.steps + 2))
  {
    hide Step, After;
    Addresses();
    var s1 := st.(stack := st.stack + [v], pc := 34, steps := st.steps + 1);
    var s2 := st.(stack := s + [r * v], pc := 35, steps := st.steps + 2);
    StepArgument(FACTORIAL, c, st, v);
    assert st.stack + [v] == s + [r, v];
    StepBinary(FACTORIAL, c, s1, OP_MUL, s, r, v);
    FourSteps(FACTORIAL, c, st, s1, s2, s2, s2);
  }

  function Entered(call: State): State {
    State(call.stack + [call.fp, call.pc + 5, |call.stack|], 9, |call.stack|, false, call.steps + 1)
  }

  ghost predicate Calls(st: State, v: int) {
    !st.halted && (st.pc == 2 || st.pc == 27) && st.stack != [] && Top(st) == v
  }

  lemma EnteredArgument(call: State, v: int)
    requires Calls(call, v)
    ensures Argument(Entered(call), v)
  {
    assert Entered(call).stack[|call.stack| - 1] == call.stack[|call.stack| - 1];
  }

  lemma Intact(call: State, ret: State, more: seq<int>)
    requires ret.fp == |call.stack| && ret.stack == Entered(call).stack + more && more != []
    ensures FrameIntact(call, ret) && Top(ret) == more[|more| - 1]
  {
    assert ret.stack[..|call.stack| + 3] == Entered(call).stack;
  }

  // The function from its entry to its return, which finds the frame as it was.
  lemma {:induction false} BodyComputes(c: seq<int>, call: State, v: int) returns (k: nat, ret: State)
    requires Calls(call, v) && |c| == 2 && c[1] == 1
    ensures k + 1 == CallSteps(v) && After(FACTORIAL, c, Entered(call), k) == Some(ret)
    ensures Ready(FACTORIAL, ret, OP_RETURN) && FrameIntact(call, ret) && Top(ret) == Factorial(v)
    ensures ret.steps == call.steps + CallSteps(v)
    decreases v, 0
  {
    hide Step, After, ReadAddr, FrameIntact, Argument;
    Addresses();
    var entered := Entered(call);
    EnteredArgument(call, v);
    TestSteps(c, entered, v);
    if v <= 1 {
      var mid := entered.(pc := 19, steps := entered.steps + 4);
      StepPush(FACTORIAL, c, mid, 1);
      ret := mid.(stack := entered.stack + [1], pc := 21, steps := entered.steps + 5);
      OneStep(FACTORIAL, c, mid, ret);
      AfterOn(FACTORIAL, c, entered, 4, 1);
      Intact(call, ret, [1]);
      k := 5;
    } else {
      var mid := entered.(pc := 22, steps := entered.steps + 4);
      ArgumentSame(entered, mid, v, []);
      ArgumentSteps(c, mid, v);
      AfterOn(FACTORIAL, c, entered, 4, 3);
      var inner := mid.(stack := entered.stack + [v - 1], pc := 27, steps := entered.steps + 7);
      CallComputes(c, inner, v - 1);
      var n := CallSteps(v - 1) + 1;
      AfterOn(FACTORIAL, c, entered, 7, n);
      var back := State(inner.stack + [Factorial(v - 1)], 32, entered.fp, false, inner.steps + n);
      assert back.stack == entered.stack + [v - 1, Factorial(v - 1)];
      ArgumentSame(entered, back, v, [v - 1, Factorial(v - 1)]);
      ProductSteps(c, back, v, inner.stack, Factorial(v - 1));
      AfterOn(FACTORIAL, c, entered, 7 + n, 2);
      ret := back.(stack := inner.stack + [Factorial(v - 1) * v], pc := 35, steps := back.steps + 2);
      assert ret.stack == entered.stack + [v - 1, Factorial(v - 1) * v];
      Intact(call, ret, [v - 1, Factorial(v - 1) * v]);
      k := 9 + n;
    }
  }

  lemma OneStep(code: seq<int>, c: seq<int>, st: State, st1: State)
    requires Step(code, c, st) == More(st1)
    ensures After(code, c, st, 1) == Some(st1)
  {
    hide Step;
  }

  lemma ArgumentSame(st: State, st': State, v: int, more: seq<int>)
    requires Argument(st, v) && st'.stack == st.stack + more && st'.fp == st.fp && !st'.halted
    ensures Argument(st', v)
  {
  }

  // A call of the factorial function, from the call instruction to the one behind it.
  lemma {:induction false} CallComputes(c: seq<int>, call: State, v: int)
    requires Calls(call, v) && |c| == 2 && c[1] == 1
    ensures After(FACTORIAL, c, call, CallSteps(v) + 1) ==
              Some(State(call.stack + [Factorial(v)], call.pc + 5, call.fp, false, call.steps + CallSteps(v) + 1))
    decreases v, 1
  {
    hide Step, After, ReadAddr, FrameIntact;
    Addresses();
    var k, ret := BodyComputes(c, call, v);
    CallReturns(FACTORIAL, c, call, 9, k, ret);
  }

  // The program, started with the constants n and 1, leaves n! on top of the stack and halts in
  // exactly 11n - 2 instructions.
  lemma FactorialProgram(n: int)
    requires n >= 1
    ensures var st := After(FACTORIAL, [n, 1], State([], 0, 0, false, 0), 11 * n - 3);
            && st == Some(State([n, Factorial(n)], 7, 0, false, 11 * n - 3))
            && Step(FACTORIAL, [n, 1], st.value) == Done(State([n, Factorial(n)], 7, 0, true, 11 * n - 2))
  {
    hide After, Step, ReadAddr;
    var c := [n, 1];
    var start := State([], 0, 0, false, 0);
    var call := State([n], 2, 0, false, 1);
    FirstStep(n);
    OneStep(FACTORIAL, c, start, call);
    CallComputes(c, call, n);
    CallStepsAre(n);
    AfterOn(FACTORIAL, c, start, 1, CallSteps(n) + 1);
    assert [n] + [Factorial(n)] == [n, Factorial(n)];
    LastStep(c, State([n, Factorial(n)], 7, 0, false, 11 * n - 3));
  }

  lemma FirstStep(n: int)
    ensures Step(FACTORIAL, [n, 1], State([], 0, 0, false, 0)) == More(State([n], 2, 0, false, 1))
  {
    StepPush(FACTORIAL, [n, 1], State([], 0, 0, false, 0), 0);
  }

  lemma LastStep(c: seq<int>, st: State)
    requires st.pc == 7 && !st.halted
    ensures Step(FACTORIAL, c, st) == Done(st.(halted := true, steps := st.steps + 1))
  {
  }

  // Under the step limit that is what Run gets for n up to 909; a larger n is cut off, unhalted.
  lemma FactorialUnderLimit(n: int)
    requires n >= 1
    ensures var v := RunOut(FACTORIAL, [n, 1], State([], 0, 0, false, 0));
            v.Ended? && (v.st.halted <==> n <= 909)
            && (n <= 909 ==> v.st.stack == [n, Factorial(n)] && v.st.steps == 11 * n - 2)
  {
    hide After, Step;
    FactorialProgram(n);
    var c := [n, 1];
    var start := State([], 0, 0, false, 0);
    if n <= 909 {
      RunLater(FACTORIAL, c, start, 11 * n - 3);
    } else {
      AfterPrefix(FACTORIAL, c, start, STEP_LIMIT + 1, 11 * n - 3);
      RunCut(FACTORIAL, c, start, STEP_LIMIT + 1);
    }
  }

  // An earlier state of a run that goes on: there is one, and it is not halted.
  lemma {:induction false} AfterPrefix(code: seq<int>, c: seq<int>, st: State, j: nat, k: nat)
    requires j < k && After(code, c, st, k).Some?
    ensures After(code, c, st, j).Some? && !After(code, c, st, j).value.halted
    decreases j
  {
    hide Execute;
    if j > 0 {
      AfterPrefix(code, c, Step(code, c, st).st, j - 1, k - 1);
    }
  }
}
