/** Opcode numbers, which of them carry a four-byte operand, and instruction streams as bytes. */
module Opcodes {
  import opened Bytes
  import opened Lang

  const OP_PUSH: Byte := 0x01
  const OP_POP: Byte := 0x02
  const OP_ADD: Byte := 0x10
  const OP_SUB: Byte := 0x11
  const OP_MUL: Byte := 0x12
  const OP_DIV: Byte := 0x13
  const OP_MOD: Byte := 0x14
  const OP_EQ: Byte := 0x20
  const OP_NE: Byte := 0x21
  const OP_LT: Byte := 0x22
  const OP_GT: Byte := 0x23
  const OP_GE: Byte := 0x24
  const OP_LE: Byte := 0x25
  const OP_AND: Byte := 0x26
  const OP_OR: Byte := 0x27
  const OP_NOT: Byte := 0x28
  const OP_NEG: Byte := 0x29
  const OP_LOAD_VAR: Byte := 0x40
  const OP_STORE_VAR: Byte := 0x41
  const OP_JUMP: Byte := 0x50
  const OP_JUMP_IF_FALSE: Byte := 0x51
  const OP_JUMP_IF_TRUE: Byte := 0x52
  const OP_ITER_NEXT: Byte := 0x54
  const OP_RETURN: Byte := 0x61
  const OP_CALL: Byte := 0x62
  const OP_BUILD_OBJECT: Byte := 0x70
  const OP_BUILD_ARRAY: Byte := 0x80
  const OP_ASYNC: Byte := 0xB0
  const OP_HALT: Byte := 0xFF

  predicate IsJump(op: Byte) {
    op == OP_JUMP || op == OP_JUMP_IF_FALSE || op == OP_JUMP_IF_TRUE
  }

  predicate HasOperand(op: Byte) {
    || IsJump(op)
    || op == OP_PUSH || op == OP_LOAD_VAR || op == OP_STORE_VAR || op == OP_ITER_NEXT
    || op == OP_CALL || op == OP_BUILD_OBJECT || op == OP_BUILD_ARRAY || op == OP_ASYNC
  }

  function BinaryOpcode(op: BinOp): Byte {
    match op
    case Add => OP_ADD case Sub => OP_SUB case Mul => OP_MUL case Div => OP_DIV case Mod => OP_MOD
    case Eq => OP_EQ case Ne => OP_NE case Lt => OP_LT case Le => OP_LE case Gt => OP_GT case Ge => OP_GE
    case And => OP_AND case Or => OP_OR
  }

  function UnaryOpcode(op: UnOp): Byte {
    match op
    case Not => OP_NOT
    case Neg => OP_NEG
  }

  // A forward jump whose target is still unknown: out of the enclosing loop, or past the switch.
  datatype HoleKind = ToLoopEnd | ToSwitchEnd

  datatype Instr =
    | Plain(op: Byte)
    | WithOperand(op: Byte, arg: U32)
    | Hole(kind: HoleKind)

  function InstrSize(i: Instr): nat {
    if i.Plain? then 1 else 5
  }

  function EncodeInstr(i: Instr): (b: seq<Byte>)
    ensures |b| == InstrSize(i)
  {
    match i
    case Plain(op) => [op]
    case WithOperand(op, arg) => [op] + PutUint32(arg)
    case Hole(_) => [OP_JUMP] + PutUint32(0)
  }

  function Size(instrs: seq<Instr>): nat {
    if instrs == [] then 0 else InstrSize(instrs[0]) + Size(instrs[1..])
  }

  function Encode(instrs: seq<Instr>): (b: seq<Byte>)
    ensures |b| == Size(instrs)
  {
    if instrs == [] then [] else EncodeInstr(instrs[0]) + Encode(instrs[1..])
  }

  lemma EncodeAppend(a: seq<Instr>, b: seq<Instr>)
    ensures Encode(a + b) == Encode(a) + Encode(b)
    ensures Size(a + b) == Size(a) + Size(b)
  {
    if a == [] {
      assert a + b == b;
    } else {
      assert (a + b)[1..] == a[1..] + b;
      EncodeAppend(a[1..], b);
    }
  }

  lemma EncodeOne(i: Instr)
    ensures Encode([i]) == EncodeInstr(i) && Size([i]) == InstrSize(i)
  {
  }

  // Opcodes and operands agree with HasOperand, as every reader of the stream expects.
  predicate WellFormedInstr(i: Instr) {
    match i
    case Plain(op) => !HasOperand(op)
    case WithOperand(op, _) => HasOperand(op)
    case Hole(_) => false
  }

  predicate WellFormed(instrs: seq<Instr>) {
    forall i | 0 <= i < |instrs| :: WellFormedInstr(instrs[i])
  }

  // Points every hole of one kind at its target.
  function Fill(instrs: seq<Instr>, kind: HoleKind, target: U32): (r: seq<Instr>)
    ensures |r| == |instrs|
  {
    seq(|instrs|, i requires 0 <= i < |instrs| =>
      if instrs[i] == Hole(kind) then WithOperand(OP_JUMP, target) else instrs[i])
  }

  predicate NoHoles(instrs: seq<Instr>, kind: HoleKind) {
    Hole(kind) !in instrs
  }

  // Adds the header size to a jump target, as uint32 addition does.
  function RelocateInstr(i: Instr, header: U32): Instr {
    if i.WithOperand? && IsJump(i.op) then WithOperand(i.op, Truncate32(i.arg + header)) else i
  }

  function Relocate(instrs: seq<Instr>, header: U32): (r: seq<Instr>)
    ensures |r| == |instrs|
  {
    seq(|instrs|, i requires 0 <= i < |instrs| => RelocateInstr(instrs[i], header))
  }

  lemma {:induction false} SameSizes(a: seq<Instr>, b: seq<Instr>)
    requires |a| == |b|
    requires forall i | 0 <= i < |a| :: InstrSize(a[i]) == InstrSize(b[i])
    ensures Size(a) == Size(b)
  {
    if a != [] {
      SameSizes(a[1..], b[1..]);
    }
  }

  // Filling and relocating change operands in place, never the layout.
  lemma LayoutKept(instrs: seq<Instr>, kind: HoleKind, target: U32, header: U32)
    ensures Size(Fill(instrs, kind, target)) == Size(instrs)
    ensures Size(Relocate(instrs, header)) == Size(instrs)
  {
    SameSizes(instrs, Fill(instrs, kind, target));
    SameSizes(instrs, Relocate(instrs, header));
  }
}
