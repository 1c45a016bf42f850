/** Two readers of compiled files, the virtual machine's loader and the decompiler. Each walks the file
  * with its own cursor and recovers what was written. */
module Readers {
  import opened Bytes
  import opened Lang
  import opened Opcodes
  import opened CodeGen
  import opened EmissionFacts
  import opened Format

  datatype ReadError =
    | TooShort
    | BadMagic
    | MissingVersion
    | UnsupportedVersion
    | MissingConstantCount
    | BadConstant
    | MissingInstructionCount
    | CutOffOperand

  // The file's fields as they lie: pool, and where the code starts.
  datatype Layout = Layout(version: U32, pool: seq<Constant>, codeStart: nat, codeLength: nat)

  // What every reader that checks the magic expects.
  function ReadLayout(b: seq<Byte>): (r: Result<Layout, ReadError>)
    ensures r.Ok? ==> r.value.codeStart <= |b|
  {
    if |b| < 4 then Err(TooShort)
    else if b[..4] != MAGIC then Err(BadMagic)
    else if |b| < 8 then Err(MissingVersion)
    else if |b| < 12 then Err(MissingConstantCount)
    else
      match ReadPool(b, 12, Uint32(Slice(b, 8, 4)))
      case None => Err(BadConstant)
      case Some((pool, end)) =>
        if end + 4 > |b| then Err(MissingInstructionCount)
        else Ok(Layout(Uint32(Slice(b, 4, 4)), pool, end + 4, Uint32(Slice(b, end, 4))))
  }

  lemma LayoutWritten(pool: seq<Constant>, instrs: seq<Instr>)
    requires forall c | c in pool :: Storable(c)
    requires |Bytecode(pool, instrs)| < TWO32
    ensures ReadLayout(Bytecode(pool, instrs)) == Ok(Layout(1, pool, |Header(pool, Size(instrs))|, Size(instrs)))
  {
    hide Bytecode, Header, ReadPool, Slice, Uint32, Size, Encode, Relocate;
    BytecodeParts(pool, instrs);
  }

  // ---- reading a pool step by step ----

  // The first k of n constants have been read, up to `off`.
  ghost predicate PoolRead(b: seq<Byte>, n: nat, k: nat, read: seq<Constant>, off: nat) {
    && k <= n && |read| == k
    && ReadPool(b, 12, n) == match ReadPool(b, off, n - k)
                             case None => None
                             case Some((rest, end)) => Some((read + rest, end))
  }

  lemma PoolReadNone(b: seq<Byte>, n: nat)
    ensures PoolRead(b, n, 0, [], 12)
  {
    if ReadPool(b, 12, n).Some? {
      assert [] + ReadPool(b, 12, n).value.0 == ReadPool(b, 12, n).value.0;
    }
  }

  lemma PoolReadMore(b: seq<Byte>, n: nat, k: nat, read: seq<Constant>, off: nat)
    requires PoolRead(b, n, k, read, off) && k < n
    ensures match ReadConstant(b, off)
            case None => ReadPool(b, 12, n) == None
            case Some((c, next)) => PoolRead(b, n, k + 1, read + [c], next)
  {
    hide ReadConstant;
    match ReadConstant(b, off)
    case None =>
    case Some((c, next)) =>
      if ReadPool(b, next, n - k - 1).Some? {
        var rest := ReadPool(b, next, n - k - 1).value.0;
        assert read + ([c] + rest) == read + [c] + rest;
      }
  }

  lemma PoolReadAll(b: seq<Byte>, n: nat, read: seq<Constant>, off: nat)
    requires PoolRead(b, n, n, read, off)
    ensures ReadPool(b, 12, n) == Some((read, off))
  {
    assert read + [] == read;
  }

  // ---- the virtual machine's loader ----

  // The constant at the cursor, and the cursor behind it.
  method LoadOneConstant(b: seq<Byte>, start: nat) returns (r: Option<Constant>, off: nat)
    ensures r.Some? ==> ReadConstant(b, start) == Some((r.value, off))
    ensures r.None? ==> ReadConstant(b, start) == None
  {
    off := start;
    if off >= |b| {
      return None, off;
    }
    var constType := b[off];
    off := off + 1;
    if constType == 0x00 {
      r := Some(Of(Null));
    } else if constType == 0x01 {
      if off + 8 > |b| {
        return None, off;
      }
      r := Some(Of(Int(GetInt64(Slice(b, off, 8)))));
      off := off + 8;
    } else if constType == 0x02 {
      if off + 8 > |b| {
        return None, off;
      }
      r := Some(Float(Slice(b, off, 8)));
      off := off + 8;
    } else if constType == 0x03 {
      if off >= |b| {
        return None, off;
      }
      r := Some(Of(Bool(b[off] != 0)));
      off := off + 1;
    } else if constType == 0x04 {
      if off + 4 > |b| {
        return None, off;
      }
      var length := Uint32(Slice(b, off, 4));
      off := off + 4;
      if off + length > |b| {
        return None, off;
      }
      r := Some(Of(Text(Slice(b, off, length))));
      off := off + length;
    } else {
      r := None;
    }
  }

  function Loaded(b: seq<Byte>): Result<(seq<Constant>, nat), ReadError> {
    if |b| >= 8 && b[..4] == MAGIC && Uint32(Slice(b, 4, 4)) != 1 then Err(UnsupportedVersion)
    else
      match ReadLayout(b)
      case Err(e) => Err(e)
      case Ok(layout) => Ok((layout.pool, layout.codeStart))
  }

  // What Execute reads before the first instruction: constants and where to start.
  method ParseBytecode(b: seq<Byte>) returns (r: Result<(seq<Constant>, nat), ReadError>)
    ensures r == Loaded(b)
  {
    hide ReadPool, ReadConstant, Slice, Uint32, PoolRead;
    if |b| < 4 {
      return Err(TooShort);
    }
    if b[..4] != MAGIC {
      return Err(BadMagic);
    }
    var offset: nat := 4;
    if offset + 4 > |b| {
      return Err(MissingVersion);
    }
    if Uint32(Slice(b, offset, 4)) != 1 {
      return Err(UnsupportedVersion);
    }
    offset := offset + 4;
    if offset + 4 > |b| {
      return Err(MissingConstantCount);
    }
    var count := Uint32(Slice(b, offset, 4));
    offset := offset + 4;
    var constants := [];
    var i := 0;
    PoolReadNone(b, count);
    while i < count
      invariant i <= count && PoolRead(b, count, i, constants, offset)
    {
      PoolReadMore(b, count, i, constants, offset);
      var c, next := LoadOneConstant(b, offset);
      if c.None? {
        return Err(BadConstant);
      }
      constants, offset, i := constants + [c.value], next, i + 1;
    }
    PoolReadAll(b, count, constants, offset);
    if offset + 4 > |b| {
      return Err(MissingInstructionCount);
    }
    return Ok((constants, offset + 4));
  }

  // ---- the decompiler ----

  // The decompiler's own table of opcodes with an operand; it lacks OP_ASYNC.
  predicate DecodesOperand(op: Byte) {
    || op == OP_PUSH || op == OP_LOAD_VAR || op == OP_STORE_VAR
    || op == OP_JUMP || op == OP_JUMP_IF_FALSE || op == OP_JUMP_IF_TRUE
    || op == OP_ITER_NEXT || op == OP_CALL || op == OP_BUILD_OBJECT || op == OP_BUILD_ARRAY
  }

  // A line of the listing; offsets count from the start of the code.
  datatype Line = Line(offset: int, op: Byte, operand: Option<U32>)

  // Reads from `off` to the end of the code or of the file.
  function Disassemble(b: seq<Byte>, off: nat, codeStart: nat, end: nat): Result<seq<Line>, ReadError>
    decreases |b| - off
  {
    if off >= end || off >= |b| then Ok([])
    else if DecodesOperand(b[off]) then
      if off + 5 > |b| then Err(CutOffOperand)
      else
        match Disassemble(b, off + 5, codeStart, end)
        case Err(e) => Err(e)
        case Ok(rest) => Ok([Line(off - codeStart, b[off], Some(Uint32(Slice(b, off + 1, 4))))] + rest)
    else
      match Disassemble(b, off + 1, codeStart, end)
      case Err(e) => Err(e)
      case Ok(rest) => Ok([Line(off - codeStart, b[off], None)] + rest)
  }

  function LineOf(i: Instr, offset: nat): Line {
    match i
    case Plain(op) => Line(offset, op, None)
    case WithOperand(op, arg) => Line(offset, op, Some(arg))
    case Hole(_) => Line(offset, OP_JUMP, Some(0))
  }

  // The listing of an instruction list placed at `offset`.
  function Listing(instrs: seq<Instr>, offset: nat): seq<Line> {
    if instrs == [] then [] else [LineOf(instrs[0], offset)] + Listing(instrs[1..], offset + InstrSize(instrs[0]))
  }

  predicate AsyncFree(instrs: seq<Instr>) {
    forall i | 0 <= i < |instrs| :: instrs[i].WithOperand? ==> instrs[i].op != OP_ASYNC
  }

  lemma DecodedRight(i: Instr)
    requires WellFormedInstr(i) && (i.WithOperand? ==> i.op != OP_ASYNC)
    ensures !i.Hole? && (DecodesOperand(i.op) <==> i.WithOperand?)
  {
  }

  // One written instruction gives one line.
  lemma DisassembleOne(b: seq<Byte>, before: seq<Byte>, i: Instr, after: seq<Byte>, codeStart: nat)
    requires b == before + EncodeInstr(i) + after && codeStart <= |before|
    requires WellFormedInstr(i) && (i.WithOperand? ==> i.op != OP_ASYNC)
    ensures Disassemble(b, |before|, codeStart, |b|) ==
              match Disassemble(b, |before| + InstrSize(i), codeStart, |b|)
              case Err(e) => Err(e)
              case Ok(rest) => Ok([LineOf(i, |before| - codeStart)] + rest)
  {
    hide PutUint32, Uint32, Slice, DecodesOperand, HasOperand;
    DecodedRight(i);
    assert b[|before|] == EncodeInstr(i)[0] == i.op;
    if i.WithOperand? {
      SliceMiddle(b, before + [i.op], PutUint32(i.arg), after);
      Uint32RoundTrip(i.arg);
    }
  }

  // Instructions written anywhere in a file are read back one by one.
  lemma {:induction false} DisassembleEncoded(b: seq<Byte>, before: seq<Byte>, instrs: seq<Instr>, codeStart: nat)
    requires b == before + Encode(instrs) && codeStart <= |before| && WellFormed(instrs) && AsyncFree(instrs)
    ensures Disassemble(b, |before|, codeStart, |b|) == Ok(Listing(instrs, |before| - codeStart))
    decreases |instrs|
  {
    hide EncodeInstr, DecodesOperand, WellFormedInstr, Slice, Uint32;
    if instrs != [] {
      var i, rest := instrs[0], instrs[1..];
      assert WellFormedInstr(i);
      forall k | 0 <= k < |rest| ensures WellFormedInstr(rest[k]) && (rest[k].WithOperand? ==> rest[k].op != OP_ASYNC) {
        assert WellFormedInstr(instrs[k + 1]);
      }
      assert b == before + EncodeInstr(i) + Encode(rest);
      DisassembleEncoded(b, before + EncodeInstr(i), rest, codeStart);
      DisassembleOne(b, before, i, Encode(rest), codeStart);
    }
  }

  datatype Decompiled = Decompiled(version: U32, constants: seq<Constant>, lines: seq<Line>)

  function DecompiledFrom(b: seq<Byte>): Result<Decompiled, ReadError> {
    match ReadLayout(b)
    case Err(e) => Err(e)
    case Ok(layout) =>
      match Disassemble(b, layout.codeStart, layout.codeStart, layout.codeStart + layout.codeLength)
      case Err(e) => Err(e)
      case Ok(lines) => Ok(Decompiled(layout.version, layout.pool, lines))
  }

  class Decompiler {
    var bytecode: seq<Byte>
    var offset: nat
    var constants: seq<Constant>
    var codeStart: nat
    var codeLength: nat

    constructor ()
    {
      bytecode, offset, constants, codeStart, codeLength := [], 0, [], 0, 0;
    }

    method ReadOneConstant() returns (ok: bool)
      modifies this`offset, this`constants
      ensures match ReadConstant(bytecode, old(offset))
              case None => !ok
              case Some((c, next)) => ok && constants == old(constants) + [c] && offset == next
    {
      var c, next := LoadOneConstant(bytecode, offset);
      if c.None? {
        return false;
      }
      constants, offset := constants + [c.value], next;
      return true;
    }

    method ReadInstruction() returns (r: Result<Line, ReadError>)
      requires offset < |bytecode|
      modifies this`offset
      ensures var op := bytecode[old(offset)];
              if !DecodesOperand(op) then r == Ok(Line(old(offset) - codeStart, op, None)) && offset == old(offset) + 1
              else if old(offset) + 5 > |bytecode| then r == Err(CutOffOperand)
              else
                && r == Ok(Line(old(offset) - codeStart, op, Some(Uint32(Slice(bytecode, old(offset) + 1, 4)))))
                && offset == old(offset) + 5
    {
      var start := offset - codeStart;
      var op := bytecode[offset];
      offset := offset + 1;
      var operand: Option<U32> := None;
      if DecodesOperand(op) {
        if offset + 4 > |bytecode| {
          return Err(CutOffOperand);
        }
        operand := Some(Uint32(Slice(bytecode, offset, 4)));
        offset := offset + 4;
      }
      return Ok(Line(start, op, operand));
    }

    method Decompile(b: seq<Byte>) returns (r: Result<Decompiled, ReadError>)
      modifies this
      ensures r == DecompiledFrom(b)
      ensures r.Ok? ==> constants == r.value.constants && bytecode == b
    {
      hide ReadPool, ReadConstant, Slice, Uint32, PoolRead, Disassemble, Disassembled;
      bytecode, offset, constants := b, 0, [];
      if |b| < 4 {
        return Err(TooShort);
      }
      if b[..4] != MAGIC {
        return Err(BadMagic);
      }
      offset := 4;
      if offset + 4 > |b| {
        return Err(MissingVersion);
      }
      var version := Uint32(Slice(b, offset, 4));
      offset := offset + 4;
      if offset + 4 > |b| {
        return Err(MissingConstantCount);
      }
      var count := Uint32(Slice(b, offset, 4));
      offset := offset + 4;
      var i := 0;
      PoolReadNone(b, count);
      while i < count
        invariant i <= count && bytecode == b && PoolRead(b, count, i, constants, offset)
      {
        PoolReadMore(b, count, i, constants, offset);
        var ok := ReadOneConstant();
        if !ok {
          return Err(BadConstant);
        }
        i := i + 1;
      }
      PoolReadAll(b, count, constants, offset);
      if offset + 4 > |b| {
        return Err(MissingInstructionCount);
      }
      codeLength := Uint32(Slice(b, offset, 4));
      offset := offset + 4;
      codeStart := offset;
      var lines := [];
      DisassembledNone(b, codeStart, codeStart + codeLength);
      ghost var pool, cs, cl := constants, codeStart, codeLength;
      while offset < codeStart + codeLength && offset < |b|
        invariant bytecode == b && constants == pool && codeStart == cs && codeLength == cl
        invariant Disassembled(b, codeStart, codeStart + codeLength, lines, offset)
        decreases |b| - offset
      {
        DisassembledMore(b, codeStart, codeStart + codeLength, lines, offset);
        var line := ReadInstruction();
        if line.Err? {
          return Err(line.error);
        }
        lines := lines + [line.value];
      }
      DisassembledAll(b, codeStart, codeStart + codeLength, lines, offset);
      return Ok(Decompiled(version, constants, lines));
    }
  }

  // The lines read so far, with the cursor at `off`.
  ghost predicate Disassembled(b: seq<Byte>, codeStart: nat, end: nat, lines: seq<Line>, off: nat) {
    Disassemble(b, codeStart, codeStart, end) ==
      match Disassemble(b, off, codeStart, end)
      case Err(e) => Err(e)
      case Ok(rest) => Ok(lines + rest)
  }

  lemma DisassembledNone(b: seq<Byte>, codeStart: nat, end: nat)
    ensures Disassembled(b, codeStart, end, [], codeStart)
  {
    var r := Disassemble(b, codeStart, codeStart, end);
    if r.Ok? {
      assert [] + r.value == r.value;
    }
  }

  lemma DisassembledMore(b: seq<Byte>, codeStart: nat, end: nat, lines: seq<Line>, off: nat)
    requires Disassembled(b, codeStart, end, lines, off) && off < end && off < |b|
    ensures if !DecodesOperand(b[off]) then Disassembled(b, codeStart, end, lines + [Line(off - codeStart, b[off], None)], off + 1)
            else if off + 5 > |b| then Disassemble(b, codeStart, codeStart, end) == Err(CutOffOperand)
            else Disassembled(b, codeStart, end, lines + [Line(off - codeStart, b[off], Some(Uint32(Slice(b, off + 1, 4))))], off + 5)
  {
    hide Uint32, Slice;
    var next := if DecodesOperand(b[off]) then off + 5 else off + 1;
    if next <= |b| && Disassemble(b, next, codeStart, end).Ok? {
      var rest := Disassemble(b, next, codeStart, end).value;
      var line := Line(off - codeStart, b[off], if DecodesOperand(b[off]) then Some(Uint32(Slice(b, off + 1, 4))) else None);
      assert lines + ([line] + rest) == lines + [line] + rest;
    }
  }

  lemma DisassembledAll(b: seq<Byte>, codeStart: nat, end: nat, lines: seq<Line>, off: nat)
    requires Disassembled(b, codeStart, end, lines, off) && (off >= end || off >= |b|)
    ensures Disassemble(b, codeStart, codeStart, end) == Ok(lines)
  {
    assert lines + [] == lines;
  }

  // ---- round trips ----

  // The loader gets back the pool and the start of the code.
  lemma LoadedBack(pool: seq<Constant>, instrs: seq<Instr>)
    requires forall c | c in pool :: Storable(c)
    requires |Bytecode(pool, instrs)| < TWO32
    ensures Loaded(Bytecode(pool, instrs)) == Ok((pool, |Header(pool, Size(instrs))|))
  {
    hide Bytecode, Header, ReadPool, Slice, Uint32, Size, Encode, Relocate;
    LayoutWritten(pool, instrs);
    BytecodeParts(pool, instrs);
  }

  // The decompiler gets back the pool and the instruction list, jump targets as stored.
  lemma DecompiledBack(pool: seq<Constant>, instrs: seq<Instr>)
    requires forall c | c in pool :: Storable(c)
    requires |Bytecode(pool, instrs)| < TWO32 && WellFormed(instrs) && AsyncFree(instrs)
    ensures DecompiledFrom(Bytecode(pool, instrs)) ==
              Ok(Decompiled(1, pool, Listing(Relocate(instrs, |Header(pool, Size(instrs))|), 0)))
  {
    hide Bytecode, Header, ReadPool, Slice, Uint32, Size, Encode, Disassemble, ReadLayout, HasOperand;
    var b := Bytecode(pool, instrs);
    var h := |Header(pool, Size(instrs))|;
    LayoutWritten(pool, instrs);
    BytecodeParts(pool, instrs);
    var moved := Relocate(instrs, h);
    forall k | 0 <= k < |moved| ensures WellFormedInstr(moved[k]) && (moved[k].WithOperand? ==> moved[k].op != OP_ASYNC) {
      assert WellFormedInstr(instrs[k]);
    }
    assert b == b[..h] + Encode(moved);
    DisassembleEncoded(b, b[..h], moved, h);
  }

  // Both, for every compiled unit.
  lemma UnitReadBack(u: Unit)
    requires EmitUnit(u).Ok? && |UnitBytecode(EmitUnit(u).value)| < TWO32
    requires forall v | v in EmitUnit(u).value.cs.constants :: Storable(Of(v))
    ensures var em := EmitUnit(u).value;
            && Loaded(UnitBytecode(em)) == Ok((Pool(em.cs.constants), CodeStart(em)))
            && DecompiledFrom(UnitBytecode(em)) ==
                 Ok(Decompiled(1, Pool(em.cs.constants), Listing(Relocate(em.code, CodeStart(em)), 0)))
  {
    hide EmitUnit, Loaded, DecompiledFrom, Bytecode, Header, Size, Storable, HasOperand;
    var em := EmitUnit(u).value;
    UnitSealed(u);
    SealedWellFormed(em.code);
    forall i | 0 <= i < |em.code| ensures em.code[i].WithOperand? ==> em.code[i].op != OP_ASYNC {
      assert SealedInstr(em.code[i], false, false);
    }
    forall c | c in Pool(em.cs.constants) ensures Storable(c) {
    }
    LoadedBack(Pool(em.cs.constants), em.code);
    DecompiledBack(Pool(em.cs.constants), em.code);
  }
}
