/** Jump relocation over raw bytes: the walk stays on instruction boundaries and changes jump operands only. */
module Relocation {
  import opened Bytes
  import opened Opcodes

  // The walk of adjustJumpTargets over any bytes at all; an instruction cut off at the end is left alone.
  function Adjust(code: seq<Byte>, header: U32): (r: seq<Byte>)
    ensures |r| == |code|
    decreases |code|
  {
    if code == [] then []
    else if !HasOperand(code[0]) then [code[0]] + Adjust(code[1..], header)
    else if |code| < 5 then code
    else
      (if IsJump(code[0]) then [code[0]] + PutUint32(Truncate32(Uint32(code[1..5]) + header)) else code[..5])
      + Adjust(code[5..], header)
  }

  // On a well-formed stream exactly the jump operands move, whatever the other operands look like.
  lemma {:induction false} AdjustEncoded(instrs: seq<Instr>, header: U32)
    requires WellFormed(instrs)
    ensures Adjust(Encode(instrs), header) == Encode(Relocate(instrs, header))
    decreases |instrs|
  {
    if instrs == [] {
      assert Relocate(instrs, header) == [];
    } else {
      hide PutUint32, Uint32, HasOperand, IsJump;
      var i, rest := instrs[0], instrs[1..];
      assert WellFormedInstr(i);
      forall k | 0 <= k < |rest| ensures WellFormedInstr(rest[k]) {
        assert WellFormedInstr(instrs[k + 1]);
      }
      AdjustEncoded(rest, header);
      assert Relocate(instrs, header) == [RelocateInstr(i, header)] + Relocate(rest, header);
      assert Relocate(instrs, header)[1..] == Relocate(rest, header);
      var code := Encode(instrs);
      assert code == EncodeInstr(i) + Encode(rest);
      assert code[InstrSize(i)..] == Encode(rest);
      if i.WithOperand? {
        assert code[1..5] == PutUint32(i.arg);
        assert code[..5] == EncodeInstr(i);
        Uint32RoundTrip(i.arg);
      }
    }
  }

  // Bytes before `i` are done, bytes from `i` on are still the original's.
  predicate Adjusted(original: seq<Byte>, code: seq<Byte>, i: nat, header: U32) {
    |code| == |original| &&
    if i <= |code| then
      code[i..] == original[i..] && code[..i] + Adjust(original[i..], header) == Adjust(original, header)
    else code == Adjust(original, header)
  }

  // One round of the walk.
  function AdjustOne(code: seq<Byte>, i: nat, header: U32): (seq<Byte>, nat)
    requires i < |code|
  {
    if !HasOperand(code[i]) then (code, i + 1)
    else if IsJump(code[i]) && i + 5 <= |code| then
      (code[..i + 1] + PutUint32(Truncate32(Uint32(code[i + 1..i + 5]) + header)) + code[i + 5..], i + 5)
    else (code, i + 5)
  }

  lemma AdjustStep(original: seq<Byte>, code: seq<Byte>, i: nat, header: U32)
    requires i < |code| && Adjusted(original, code, i, header)
    ensures var next := AdjustOne(code, i, header); Adjusted(original, next.0, next.1, header)
  {
    hide PutUint32, Uint32, HasOperand, IsJump, Truncate32, Adjust;
    var (code', n) := AdjustOne(code, i, header);
    Heads(original, code, i);
    AdjustHere(original, code, i, header);
    if n <= |code| {
      var done := Replaced(code, i, header);
      Pieces(code[..i], done, Adjust(original[n..], header));
      assert code'[..n] == code[..i] + done;
    } else {
      assert code == code[..i] + code[i..];
    }
  }

  // What one round writes in place of the instruction at i.
  function Replaced(code: seq<Byte>, i: nat, header: U32): seq<Byte>
    requires i < |code| && (HasOperand(code[i]) ==> i + 5 <= |code|)
  {
    if !HasOperand(code[i]) then [code[i]]
    else if IsJump(code[i]) then [code[i]] + PutUint32(Truncate32(Uint32(code[i + 1..i + 5]) + header))
    else code[i..i + 5]
  }

  lemma AdjustHere(original: seq<Byte>, code: seq<Byte>, i: nat, header: U32)
    requires i < |code| == |original| && code[i..] == original[i..]
    ensures var n := if HasOperand(code[i]) then i + 5 else i + 1;
            if n <= |code| then Adjust(original[i..], header) == Replaced(code, i, header) + Adjust(original[n..], header)
            else Adjust(original[i..], header) == original[i..]
  {
    hide PutUint32, Uint32, HasOperand, IsJump, Truncate32;
    Heads(original, code, i);
  }

  lemma Pieces(a: seq<Byte>, b: seq<Byte>, c: seq<Byte>)
    ensures a + (b + c) == (a + b) + c
  {
  }

  // What the two sequences still share from `i` on.
  lemma Heads(original: seq<Byte>, code: seq<Byte>, i: nat)
    requires i < |code| == |original| && code[i..] == original[i..]
    ensures code[i] == original[i..][0] && code[i + 1..] == original[i + 1..] == original[i..][1..]
    ensures i + 5 <= |code| ==>
              && code[i + 1..i + 5] == original[i..][1..5] && code[i..i + 5] == original[i..][..5]
              && code[i + 5..] == original[i + 5..] == original[i..][5..]
  {
    assert code[i] == code[i..][0];
    assert code[i + 1..] == code[i..][1..];
    if i + 5 <= |code| {
      assert code[i + 1..i + 5] == code[i..][1..5];
      assert code[i..i + 5] == code[i..][..5];
      assert code[i + 5..] == code[i..][5..];
    }
  }

  // Which opcode bytes are followed by four operand bytes, and of which of these the operand is a target.
  lemma OperandBytes(op: Byte)
    ensures HasOperand(op) <==> op in {0x01, 0x40, 0x41, 0x50, 0x51, 0x52, 0x54, 0x62, 0x70, 0x80, 0xB0}
    ensures IsJump(op) <==> op in {0x50, 0x51, 0x52}
  {
  }
}
