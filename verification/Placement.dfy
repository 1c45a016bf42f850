/** Emitted code inside a running program: final addresses, fetching, and single steps. */
module Placement {
  import opened Bytes
  import opened Lang
  import opened Opcodes
  import opened CodeGen
  import opened EmissionFacts
  import opened Vm

  // The finished program around a fragment. Offsets count from the end of the header; the code
  // itself starts at byte `header`.
  datatype Place = Place(p: Program, header: nat, loopEnd: nat, switchEnd: nat)

  ghost predicate Small(pl: Place) {
    && |pl.p.code| < TWO32 && |pl.p.constants| <= TWO32
    && pl.header + pl.loopEnd < TWO32 && pl.header + pl.switchEnd < TWO32
  }

  // An instruction as it ends up: holes patched, jump targets absolute.
  function FinalInstr(pl: Place, i: Instr): Instr {
    match i
    case Hole(ToLoopEnd) => WithOperand(OP_JUMP, Truncate32(pl.loopEnd + pl.header))
    case Hole(ToSwitchEnd) => WithOperand(OP_JUMP, Truncate32(pl.switchEnd + pl.header))
    case WithOperand(op, arg) => if IsJump(op) then WithOperand(op, Truncate32(arg + pl.header)) else i
    case Plain(_) => i
  }

  function Final(pl: Place, instrs: seq<Instr>): (r: seq<Instr>)
    ensures |r| == |instrs|
  {
    seq(|instrs|, i requires 0 <= i < |instrs| => FinalInstr(pl, instrs[i]))
  }

  lemma FinalSize(pl: Place, instrs: seq<Instr>)
    ensures Size(Final(pl, instrs)) == Size(instrs)
  {
    SameSizes(instrs, Final(pl, instrs));
  }

  ghost predicate At(code: seq<Byte>, pc: nat, instrs: seq<Instr>) {
    pc + Size(instrs) <= |code| && code[pc..pc + Size(instrs)] == Encode(instrs)
  }

  ghost predicate Placed(pl: Place, base: nat, instrs: seq<Instr>) {
    At(pl.p.code, pl.header + base, Final(pl, instrs))
  }

  lemma PlacedSplit(pl: Place, base: nat, a: seq<Instr>, b: seq<Instr>)
    requires Placed(pl, base, a + b)
    ensures Placed(pl, base, a) && Placed(pl, base + Size(a), b)
    ensures pl.header + base + Size(a) + Size(b) <= |pl.p.code|
    ensures Size(a + b) == Size(a) + Size(b)
  {
    hide Size, Encode, FinalInstr;
    assert Final(pl, a + b) == Final(pl, a) + Final(pl, b);
    EncodeAppend(a, b);
    FinalSize(pl, a);
    FinalSize(pl, b);
    AtSplit(pl.p.code, pl.header + base, Final(pl, a), Final(pl, b));
  }

  lemma AtSplit(code: seq<Byte>, pc: nat, a: seq<Instr>, b: seq<Instr>)
    requires At(code, pc, a + b)
    ensures At(code, pc, a) && At(code, pc + Size(a), b)
  {
    hide Size, Encode;
    EncodeAppend(a, b);
    var whole := code[pc..pc + Size(a) + Size(b)];
    assert code[pc..pc + Size(a)] == whole[..Size(a)];
    assert code[pc + Size(a)..pc + Size(a) + Size(b)] == whole[Size(a)..];
  }

  // The loop's own patching of its breaks comes to the same as placing the body in that loop.
  lemma PlacedLoop(pl: Place, base: nat, body: seq<Instr>, end: nat)
    requires Sealed(body, true, false) && pl.header + end < TWO32
    requires Placed(pl, base, Fill(body, ToLoopEnd, Truncate32(end)))
    ensures Placed(pl.(loopEnd := end), base, body)
  {
    var filled := Fill(body, ToLoopEnd, Truncate32(end));
    assert Truncate32(end) == end;
    hide Truncate32, Encode, Size;
    forall i | 0 <= i < |body|
      ensures FinalInstr(pl, filled[i]) == FinalInstr(pl.(loopEnd := end), body[i])
    {
      assert SealedInstr(body[i], true, false);
    }
    assert Final(pl, filled) == Final(pl.(loopEnd := end), body);
  }

  lemma PlacedSwitch(pl: Place, base: nat, cases: seq<Instr>, end: nat)
    requires pl.header + end < TWO32
    requires Placed(pl, base, Fill(cases, ToSwitchEnd, Truncate32(end)))
    ensures Placed(pl.(switchEnd := end), base, cases)
  {
    assert Truncate32(end) == end;
    hide Truncate32, Encode, Size;
    assert Final(pl, Fill(cases, ToSwitchEnd, Truncate32(end))) == Final(pl.(switchEnd := end), cases);
  }

  // Code with no way out of a switch is indifferent to where the switch ends.
  lemma PlacedElsewhere(pl: Place, base: nat, code: seq<Instr>, end: nat)
    requires Sealed(code, true, false) || Sealed(code, false, false)
    ensures Placed(pl, base, code) ==> Placed(pl.(switchEnd := end), base, code)
    ensures Placed(pl.(switchEnd := end), base, code) ==> Placed(pl, base, code)
  {
    hide Encode, Size;
    forall i | 0 <= i < |code| ensures FinalInstr(pl, code[i]) == FinalInstr(pl.(switchEnd := end), code[i]) {
      assert SealedInstr(code[i], true, false) || SealedInstr(code[i], false, false);
    }
    assert Final(pl, code) == Final(pl.(switchEnd := end), code);
  }

  lemma Fetch(pl: Place, base: nat, i: Instr)
    requires Placed(pl, base, [i])
    ensures var pc, code, f := pl.header + base, pl.p.code, FinalInstr(pl, i);
            && pc + InstrSize(i) <= |code|
            && (f.Plain? ==> code[pc] == f.op)
            && (f.WithOperand? ==> code[pc] == f.op && Uint32(code[pc + 1..pc + 5]) == f.arg)
  {
    var f := FinalInstr(pl, i);
    var pc, code := pl.header + base, pl.p.code;
    assert Final(pl, [i]) == [f];
    assert Encode([f]) == EncodeInstr(f);
    if f.WithOperand? {
      assert code[pc + 1..pc + 5] == code[pc..pc + 5][1..] == PutUint32(f.arg);
      Uint32RoundTrip(f.arg);
    } else {
      assert code[pc] == code[pc..pc + 1][0];
    }
  }

  // ---- single steps ----

  ghost predicate Ready(pl: Place, base: nat, st: State) {
    st.pc == pl.header + base && !st.halted
  }

  lemma OneStep(p: Program, st: State)
    requires !Stopped(p, st)
    ensures Run(p, st, 1) == Step(p, st)
  {
    if Step(p, st).Ok? {
      assert Run(p, Step(p, st).value, 0) == Step(p, st);
    }
  }

  lemma StepPlain(pl: Place, base: nat, op: Byte, st: State)
    requires Placed(pl, base, [Plain(op)]) && Ready(pl, base, st)
    ensures !Stopped(pl.p, st) && pl.p.code[st.pc] == op && Run(pl.p, st, 1) == Step(pl.p, st)
  {
    Fetch(pl, base, Plain(op));
    OneStep(pl.p, st);
  }

  lemma StepFetched(p: Program, st: State, op: Byte, arg: U32)
    requires !st.halted && st.pc + 5 <= |p.code| && TakesOperand(op)
    requires p.code[st.pc] == op && Uint32(p.code[st.pc + 1..st.pc + 5]) == arg
    ensures !Stopped(p, st) && Run(p, st, 1) == StepOperand(p, st, op, arg)
  {
    OneStep(p, st);
  }

  lemma StepArg(pl: Place, base: nat, op: Byte, arg: U32, st: State)
    requires Placed(pl, base, [WithOperand(op, arg)]) && Ready(pl, base, st) && TakesOperand(op)
    ensures !Stopped(pl.p, st)
    ensures Run(pl.p, st, 1)
            == StepOperand(pl.p, st, op, if IsJump(op) then Truncate32(arg + pl.header) else arg)
  {
    Fetch(pl, base, WithOperand(op, arg));
    StepFetched(pl.p, st, op, if IsJump(op) then Truncate32(arg + pl.header) else arg);
  }

  lemma StepHole(pl: Place, base: nat, kind: HoleKind, st: State)
    requires Small(pl) && Placed(pl, base, [Hole(kind)]) && Ready(pl, base, st)
    ensures !Stopped(pl.p, st)
    ensures Run(pl.p, st, 1) == Ok(st.(pc := pl.header + if kind.ToLoopEnd? then pl.loopEnd else pl.switchEnd))
  {
    Fetch(pl, base, Hole(kind));
    var target := if kind.ToLoopEnd? then pl.loopEnd else pl.switchEnd;
    assert Truncate32(target + pl.header) == target + pl.header;
    hide Truncate32, Placed, Encode, Size;
    StepFetched(pl.p, st, OP_JUMP, Truncate32(target + pl.header));
  }

  lemma StepJump(pl: Place, base: nat, target: nat, st: State)
    requires Placed(pl, base, [WithOperand(OP_JUMP, Truncate32(target))]) && Ready(pl, base, st)
    requires pl.header + target < TWO32
    ensures !Stopped(pl.p, st)
    ensures Run(pl.p, st, 1) == Ok(st.(pc := pl.header + target))
  {
    assert Truncate32(target) == target && Truncate32(target + pl.header) == target + pl.header;
    hide Truncate32, Size, Encode, Placed;
    StepArg(pl, base, OP_JUMP, Truncate32(target), st);
  }

  // The condition is on top; a non-boolean one is a type error.
  lemma StepJumpIfFalse(pl: Place, base: nat, target: nat, st: State, rest: seq<Value>, v: Value)
    requires Placed(pl, base, [WithOperand(OP_JUMP_IF_FALSE, Truncate32(target))]) && Ready(pl, base, st)
    requires pl.header + target < TWO32 && st.stack == rest + [v]
    ensures !Stopped(pl.p, st)
    ensures Run(pl.p, st, 1) ==
            if !v.Bool? then Err(TypeError)
            else Ok(st.(pc := pl.header + (if v.b then base + 5 else target), stack := rest))
  {
    assert Truncate32(target) == target && Truncate32(target + pl.header) == target + pl.header;
    hide Truncate32, Size, Encode, Placed;
    StepArg(pl, base, OP_JUMP_IF_FALSE, Truncate32(target), st);
    assert st.stack[..|st.stack| - 1] == rest;
  }

  lemma StepStore(pl: Place, base: nat, index: nat, name: Str, st: State, rest: seq<Value>, v: Value)
    requires Small(pl) && Placed(pl, base, [WithOperand(OP_STORE_VAR, Truncate32(index))]) && Ready(pl, base, st)
    requires index < |pl.p.constants| && pl.p.constants[index] == Text(name) && st.stack == rest + [v]
    ensures !Stopped(pl.p, st)
    ensures Run(pl.p, st, 1) == Ok(st.(pc := st.pc + 5, stack := rest, locals := st.locals[name := v]))
  {
    assert Truncate32(index) == index;
    hide Truncate32, Size, Encode, Placed;
    StepArg(pl, base, OP_STORE_VAR, Truncate32(index), st);
    assert st.stack[..|st.stack| - 1] == rest;
  }

  lemma StepLoad(pl: Place, base: nat, index: nat, name: Str, st: State)
    requires Small(pl) && Placed(pl, base, [WithOperand(OP_LOAD_VAR, Truncate32(index))]) && Ready(pl, base, st)
    requires index < |pl.p.constants| && pl.p.constants[index] == Text(name) && name in st.locals
    requires |st.stack| < MAX_STACK
    ensures !Stopped(pl.p, st)
    ensures Run(pl.p, st, 1) == Ok(st.(pc := st.pc + 5, stack := st.stack + [st.locals[name]]))
  {
    assert Truncate32(index) == index;
    hide Truncate32, Size, Encode, Placed;
    StepArg(pl, base, OP_LOAD_VAR, Truncate32(index), st);
  }

  lemma StepPush(pl: Place, base: nat, index: nat, st: State)
    requires Small(pl) && Placed(pl, base, [WithOperand(OP_PUSH, Truncate32(index))]) && Ready(pl, base, st)
    requires index < |pl.p.constants| && |st.stack| < MAX_STACK
    ensures !Stopped(pl.p, st)
    ensures Run(pl.p, st, 1) == Ok(st.(pc := st.pc + 5, stack := st.stack + [pl.p.constants[index]]))
  {
    assert Truncate32(index) == index;
    hide Truncate32, Size, Encode, Placed;
    StepArg(pl, base, OP_PUSH, Truncate32(index), st);
  }

  lemma StepBinaryOp(pl: Place, base: nat, op: BinOp, st: State, rest: seq<Value>, a: Value, b: Value)
    requires Placed(pl, base, [Plain(BinaryOpcode(op))]) && Ready(pl, base, st)
    requires st.stack == rest + [a] + [b] && |rest| < MAX_STACK
    ensures !Stopped(pl.p, st)
    ensures Run(pl.p, st, 1) == match ApplyBinary(op, a, b)
                                case Err(x) => Err(x)
                                case Ok(v) => Ok(st.(pc := st.pc + 1, stack := rest + [v]))
  {
    hide Placed, ApplyBinary, Run, StepUnary, StepOperand;
    StepPlain(pl, base, BinaryOpcode(op), st);
    assert OperatorOf(BinaryOpcode(op)) == Some(op);
    assert st.stack[..|st.stack| - 2] == rest;
  }

  lemma StepUnaryOp(pl: Place, base: nat, op: UnOp, st: State, rest: seq<Value>, a: Value)
    requires Placed(pl, base, [Plain(UnaryOpcode(op))]) && Ready(pl, base, st)
    requires st.stack == rest + [a] && |rest| < MAX_STACK
    ensures !Stopped(pl.p, st)
    ensures Run(pl.p, st, 1) == match ApplyUnary(op, a)
                                case Err(x) => Err(x)
                                case Ok(v) => Ok(st.(pc := st.pc + 1, stack := rest + [v]))
  {
    hide Placed, ApplyUnary, Run, StepBinary, StepOperand;
    StepPlain(pl, base, UnaryOpcode(op), st);
    assert st.stack[..|st.stack| - 1] == rest;
  }
}
