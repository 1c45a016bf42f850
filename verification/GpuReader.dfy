/** How the GPU back end finds its way in a compiled file: it skips over the pool once to locate the
  * code, and walks it again for every constant it needs. */
module GpuReader {
  import opened Bytes
  import opened Lang
  import opened Opcodes
  import opened CodeGen
  import opened EmissionFacts
  import opened Format
  import opened Readers

  datatype Config = Config(bytecodeLen: U32, numConstants: U32, constantsOffset: U32, codeOffset: U32)

  // A 32-bit value with its type tag.
  datatype GpuValue = GpuNull | GpuInt(i: Int32) | GpuFloat(bits: Int32) | GpuBool(raw: Int32)

  type Int32 = x: int | -0x8000_0000 <= x < 0x8000_0000

  // int32(v) keeps the low 32 bits.
  function Wrap32(v: int): Int32 {
    (v + 0x8000_0000) % TWO32 - 0x8000_0000
  }

  // ---- locating the code ----

  // The magic is not looked at, but sixteen bytes must be there.
  function LayoutOf(b: seq<Byte>): Option<Config> {
    if |b| < 16 then None
    else
      match ReadPool(b, 12, Uint32(Slice(b, 8, 4)))
      case None => None
      case Some((_, end)) =>
        if end + 4 > |b| then None
        else
          var codeStart := Truncate32(end + 4);
          Some(Config(Truncate32(Truncate32(|b|) - codeStart), Uint32(Slice(b, 8, 4)), 12, codeStart))
  }

  // Skips one constant; false if it is truncated or of no known type.
  method SkipConstant(b: seq<Byte>, start: nat) returns (ok: bool, off: nat)
    ensures match ReadConstant(b, start)
            case None => !ok
            case Some((_, next)) => ok && off == next
  {
    off := start;
    ok := false;
    if off >= |b| {
      return;
    }
    var ctype := b[off];
    off := off + 1;
    if ctype == 0x00 {
      ok := true;
    } else if ctype == 0x01 || ctype == 0x02 {
      if off + 8 <= |b| {
        off, ok := off + 8, true;
      }
    } else if ctype == 0x03 {
      if off + 1 <= |b| {
        off, ok := off + 1, true;
      }
    } else if ctype == 0x04 {
      if off + 4 <= |b| {
        var strLen := Uint32(Slice(b, off, 4));
        off := off + 4;
        if off + strLen <= |b| {
          off, ok := off + strLen, true;
        }
      }
    }
  }

  method ParseBytecodeLayout(b: seq<Byte>) returns (r: Option<Config>)
    ensures r == LayoutOf(b)
  {
    hide ReadPool, ReadConstant, Slice, Uint32, PoolRead, Truncate32;
    if |b| < 16 {
      return None;
    }
    var offset: nat := 8;
    var count := Uint32(Slice(b, offset, 4));
    offset := offset + 4;
    var constStart := offset;
    ghost var pool: seq<Constant> := [];
    var i := 0;
    PoolReadNone(b, count);
    while i < count
      invariant i <= count && PoolRead(b, count, i, pool, offset)
    {
      PoolReadMore(b, count, i, pool, offset);
      ghost var constant := ReadConstant(b, offset);
      var ok, next := SkipConstant(b, offset);
      if !ok {
        return None;
      }
      pool := pool + [constant.value.0];
      offset, i := next, i + 1;
    }
    PoolReadAll(b, count, pool, offset);
    if offset + 4 > |b| {
      return None;
    }
    offset := offset + 4;
    var codeStart := Truncate32(offset);
    return Some(Config(Truncate32(Truncate32(|b|) - codeStart), count, constStart, codeStart));
  }

  // ---- loading a constant ----

  // The cursor after skipping n constants; no bounds are checked on the way, except for the length
  // of a string, and nothing past the end of the file is looked at.
  function Skipped(b: seq<Byte>, off: nat, n: nat): Option<nat>
    decreases n
  {
    if n == 0 || off >= |b| then Some(off)
    else if b[off] == 0x00 then Skipped(b, off + 1, n - 1)
    else if b[off] == 0x01 || b[off] == 0x02 then Skipped(b, off + 9, n - 1)
    else if b[off] == 0x03 then Skipped(b, off + 2, n - 1)
    else if b[off] == 0x04 then
      if off + 5 > |b| then None else Skipped(b, off + 5 + Uint32(Slice(b, off + 1, 4)), n - 1)
    else None
  }

  // What the GPU makes of a constant: integers and floats shrink to 32 bits, and a string becomes
  // its own number in the pool. `narrow` is the conversion of a float's eight bytes to 32-bit form.
  function Reduced(c: Constant, index: nat, narrow: seq<Byte> -> Int32): GpuValue {
    match c
    case Of(Null) => GpuNull
    case Of(Int(i)) => GpuInt(Wrap32(i))
    case Of(Bool(b)) => GpuBool(if b then 1 else 0)
    case Of(Text(_)) => GpuInt(Wrap32(index))
    case Float(bits) => GpuFloat(narrow(bits))
  }

  function ValueAt(b: seq<Byte>, off: nat, index: nat, narrow: seq<Byte> -> Int32): GpuValue {
    if off >= |b| then GpuNull
    else if b[off] == 0x01 && off + 9 <= |b| then GpuInt(Wrap32(GetInt64(Slice(b, off + 1, 8))))
    else if b[off] == 0x02 && off + 9 <= |b| then GpuFloat(narrow(Slice(b, off + 1, 8)))
    else if b[off] == 0x03 && off + 2 <= |b| then GpuBool(b[off + 1])
    else if b[off] == 0x04 then GpuInt(Wrap32(index))
    else GpuNull
  }

  method LoadConstant(b: seq<Byte>, config: Config, idx: U32, narrow: seq<Byte> -> Int32) returns (v: GpuValue)
    ensures v == match Skipped(b, config.constantsOffset, idx)
                 case None => GpuNull
                 case Some(off) => ValueAt(b, off, idx, narrow)
  {
    hide Slice, Uint32, Wrap32, GetInt64;
    var offset: nat := config.constantsOffset;
    var i := 0;
    while i < idx && offset < |b|
      invariant i <= idx && Skipped(b, config.constantsOffset, idx) == Skipped(b, offset, idx - i)
    {
      var ctype := b[offset];
      offset := offset + 1;
      if ctype == 0x00 {
      } else if ctype == 0x01 || ctype == 0x02 {
        offset := offset + 8;
      } else if ctype == 0x03 {
        offset := offset + 1;
      } else if ctype == 0x04 {
        if offset + 4 > |b| {
          return GpuNull;
        }
        var strLen := Uint32(Slice(b, offset, 4));
        offset := offset + 4 + strLen;
      } else {
        return GpuNull;
      }
      i := i + 1;
    }
    if offset >= |b| {
      return GpuNull;
    }
    var ctype := b[offset];
    offset := offset + 1;
    if ctype == 0x01 {
      if offset + 8 > |b| {
        return GpuNull;
      }
      return GpuInt(Wrap32(GetInt64(Slice(b, offset, 8))));
    } else if ctype == 0x02 {
      if offset + 8 > |b| {
        return GpuNull;
      }
      return GpuFloat(narrow(Slice(b, offset, 8)));
    } else if ctype == 0x03 {
      if offset >= |b| {
        return GpuNull;
      }
      return GpuBool(b[offset]);
    } else if ctype == 0x04 {
      return GpuInt(Wrap32(idx));
    }
    return GpuNull;
  }

  // ---- agreement with what was written ----

  // Skipping follows the checked reader, constant by constant.
  lemma {:induction false} SkippedTo(b: seq<Byte>, off: nat, pool: seq<Constant>, end: nat, i: nat)
    requires ReadPool(b, off, |pool|) == Some((pool, end)) && i < |pool|
    ensures Skipped(b, off, i).Some?
    ensures ReadConstant(b, Skipped(b, off, i).value).Some? && ReadConstant(b, Skipped(b, off, i).value).value.0 == pool[i]
    decreases i
  {
    hide Uint32, GetInt64, Slice;
    var (c, next) := ReadConstant(b, off).value;
    var rest := ReadPool(b, next, |pool| - 1).value.0;
    assert pool == [c] + rest && pool[1..] == rest;
    if i > 0 {
      SkippedTo(b, next, pool[1..], end, i - 1);
    }
  }

  // What a value stands for: the constant, up to its width. A boolean is whatever byte the file has.
  ghost predicate Represents(v: GpuValue, c: Constant, index: nat, narrow: seq<Byte> -> Int32) {
    if c.Of? && c.v.Bool? then v.GpuBool? && (v.raw != 0 <==> c.v.b) else v == Reduced(c, index, narrow)
  }

  lemma ValueReduced(b: seq<Byte>, off: nat, c: Constant, next: nat, index: nat, narrow: seq<Byte> -> Int32)
    requires ReadConstant(b, off) == Some((c, next))
    ensures Represents(ValueAt(b, off, index, narrow), c, index, narrow)
  {
    hide Uint32, GetInt64, Slice, Wrap32;
  }

  // In every file whose pool can be read at all, the i-th value loaded stands for the i-th constant.
  lemma LoadedRepresents(b: seq<Byte>, pool: seq<Constant>, end: nat, i: nat, narrow: seq<Byte> -> Int32)
    requires ReadPool(b, 12, |pool|) == Some((pool, end)) && i < |pool|
    ensures Skipped(b, 12, i).Some? && Represents(ValueAt(b, Skipped(b, 12, i).value, i, narrow), pool[i], i, narrow)
  {
    hide ReadConstant, ReadPool, Represents, Skipped, ValueAt;
    SkippedTo(b, 12, pool, end, i);
    var off := Skipped(b, 12, i).value;
    ValueReduced(b, off, pool[i], ReadConstant(b, off).value.1, i, narrow);
  }

  lemma SkipOne(b: seq<Byte>, off: nat, n: nat)
    requires ReadConstant(b, off).Some?
    ensures Skipped(b, off, n + 1) == Skipped(b, ReadConstant(b, off).value.1, n)
  {
    hide Uint32, GetInt64, Slice;
  }

  // In a written file it is exactly that constant, reduced.
  lemma {:induction false} LoadedWritten(before: seq<Byte>, pool: seq<Constant>, after: seq<Byte>, i: nat, index: nat,
                                         narrow: seq<Byte> -> Int32)
    requires i < |pool| && forall c | c in pool :: Storable(c)
    ensures var b := before + SerializePool(pool) + after;
            Skipped(b, |before|, i).Some? && ValueAt(b, Skipped(b, |before|, i).value, index, narrow) == Reduced(pool[i], index, narrow)
    decreases i
  {
    hide Serialize, ReadConstant, Storable, Represents, ValueAt, Reduced;
    var b := before + SerializePool(pool) + after;
    var first, rest := Serialize(pool[0]), SerializePool(pool[1..]);
    ConstantRoundTrip(before, pool[0], rest + after);
    assert b == before + first + (rest + after);
    if i == 0 {
      ValueWritten(before, pool[0], rest + after, index, narrow);
    } else {
      LoadedWritten(before + first, pool[1..], after, i - 1, index, narrow);
      assert b == before + first + rest + after;
      assert |before + first| == |before| + |first|;
      SkipOne(b, |before|, i - 1);
    }
  }

  lemma ValueWritten(before: seq<Byte>, c: Constant, after: seq<Byte>, index: nat, narrow: seq<Byte> -> Int32)
    requires Storable(c)
    ensures ValueAt(before + Serialize(c) + after, |before|, index, narrow) == Reduced(c, index, narrow)
  {
    hide Uint32, PutUint32, GetInt64, PutInt64, Slice, Wrap32, ReadConstant;
    var b := before + Serialize(c) + after;
    ConstantRoundTrip(before, c, after);
    ValueReduced(b, |before|, c, |before| + |Serialize(c)|, index, narrow);
    if c.Of? && c.v.Bool? {
      assert b[|before|] == Serialize(c)[0] && b[|before| + 1] == Serialize(c)[1];
    }
  }

  // Whatever the code: it is found where it starts, and every constant of the pool loads.
  lemma FileFound(pool: seq<Constant>, code: seq<Byte>, i: nat, narrow: seq<Byte> -> Int32)
    requires forall c | c in pool :: Storable(c)
    requires |Header(pool, |code|) + code| < TWO32
    ensures var b, start := Header(pool, |code|) + code, |Header(pool, |code|)|;
            && |pool| < TWO32 && start < TWO32
            && LayoutOf(b) == Some(Config(|code|, |pool|, 12, start))
            && (i < |pool| ==>
                  Skipped(b, 12, i).Some? && ValueAt(b, Skipped(b, 12, i).value, i, narrow) == Reduced(pool[i], i, narrow))
  {
    hide PutUint32, Uint32, Slice, ReadPool, SerializePool, Storable, Skipped, ValueAt, Reduced;
    var b, header := Header(pool, |code|) + code, Header(pool, |code|);
    assert |SerializePool(pool)| >= |pool|;
    HeaderParts(pool, |code|, code);
    if i < |pool| {
      var tail := PutUint32(Truncate32(|code|)) + code;
      assert b == Preamble(|pool|) + SerializePool(pool) + tail;
      LoadedWritten(Preamble(|pool|), pool, tail, i, i, narrow);
    }
  }

  // So it is for every compiled file.
  lemma LayoutFound(pool: seq<Constant>, instrs: seq<Instr>, i: nat, narrow: seq<Byte> -> Int32)
    requires forall c | c in pool :: Storable(c)
    requires |Bytecode(pool, instrs)| < TWO32
    ensures var b, start := Bytecode(pool, instrs), |Header(pool, Size(instrs))|;
            && |pool| < TWO32 && start < TWO32 && Size(instrs) < TWO32
            && LayoutOf(b) == Some(Config(Size(instrs), |pool|, 12, start))
            && (i < |pool| ==>
                  Skipped(b, 12, i).Some? && ValueAt(b, Skipped(b, 12, i).value, i, narrow) == Reduced(pool[i], i, narrow))
  {
    hide PutUint32, Uint32, Slice, ReadPool, SerializePool, Storable, Encode, Relocate, Size, Skipped, ValueAt, Reduced;
    var header := Header(pool, Size(instrs));
    var moved := Relocate(instrs, Truncate32(|header|));
    LayoutKept(instrs, ToLoopEnd, 0, Truncate32(|header|));
    FileFound(pool, Encode(moved), i, narrow);
  }
}
