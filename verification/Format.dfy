/** The bytecode container: magic, version, constant pool, code length, code. */
module Format {
  import opened Bytes
  import opened Lang
  import opened Opcodes
  import opened CodeGen

  // A pool entry. Floats are carried as their eight bytes; nothing here computes with them.
  datatype Constant = Of(v: Value) | Float(bits: seq<Byte>)

  // Storable: a float has eight bytes, and a string's length fits its 32-bit field.
  predicate Storable(c: Constant) {
    match c
    case Float(bits) => |bits| == 8
    case Of(v) => v.Text? ==> |v.s| < TWO32
  }

  function Serialize(c: Constant): (b: seq<Byte>)
    ensures b != []
  {
    match c
    case Of(Null) => [0x00]
    case Of(Int(i)) => [0x01] + PutInt64(i)
    case Float(bits) => [0x02] + bits
    case Of(Bool(b)) => [0x03, if b then 1 else 0]
    case Of(Text(s)) => [0x04] + PutUint32(Truncate32(|s|)) + s
  }

  function SerializePool(pool: seq<Constant>): (b: seq<Byte>)
    ensures |b| >= |pool|
  {
    if pool == [] then [] else Serialize(pool[0]) + SerializePool(pool[1..])
  }

  // "GLYP"
  const MAGIC: seq<Byte> := [0x47, 0x4C, 0x59, 0x50]

  function Preamble(count: nat): (b: seq<Byte>)
    ensures |b| == 12
  {
    MAGIC + PutUint32(1) + PutUint32(Truncate32(count))
  }

  // Everything before the first instruction.
  function Header(pool: seq<Constant>, codeSize: nat): seq<Byte> {
    Preamble(|pool|) + SerializePool(pool) + PutUint32(Truncate32(codeSize))
  }

  function Bytecode(pool: seq<Constant>, instrs: seq<Instr>): seq<Byte> {
    var header := Header(pool, Size(instrs));
    header + Encode(Relocate(instrs, Truncate32(|header|)))
  }

  function Pool(values: seq<Value>): (pool: seq<Constant>)
    ensures |pool| == |values|
  {
    seq(|values|, i requires 0 <= i < |values| => Of(values[i]))
  }

  // The file a compiled unit becomes, and where its code starts in it.
  function UnitBytecode(em: Emitted): seq<Byte> {
    Bytecode(Pool(em.cs.constants), em.code)
  }

  function CodeStart(em: Emitted): nat {
    |Header(Pool(em.cs.constants), Size(em.code))|
  }

  // ---- reading ----

  function Slice(b: seq<Byte>, off: nat, n: nat): (r: seq<Byte>)
    requires off + n <= |b|
    ensures |r| == n
  {
    b[off..off + n]
  }

  // The constant at an offset and the offset behind it; None if it is truncated or of no known type.
  function ReadConstant(b: seq<Byte>, off: nat): (r: Option<(Constant, nat)>)
    ensures r.Some? ==> off < r.value.1 <= |b|
  {
    if off >= |b| then None
    else
      var data := off + 1;
      if b[off] == 0x00 then Some((Of(Null), data))
      else if b[off] == 0x01 then
        if data + 8 > |b| then None else Some((Of(Int(GetInt64(Slice(b, data, 8)))), data + 8))
      else if b[off] == 0x02 then
        if data + 8 > |b| then None else Some((Float(Slice(b, data, 8)), data + 8))
      else if b[off] == 0x03 then
        if data >= |b| then None else Some((Of(Bool(b[data] != 0)), data + 1))
      else if b[off] == 0x04 then
        if data + 4 > |b| then None
        else
          var n := Uint32(Slice(b, data, 4));
          if data + 4 + n > |b| then None else Some((Of(Text(Slice(b, data + 4, n))), data + 4 + n))
      else None
  }

  function ReadPool(b: seq<Byte>, off: nat, count: nat): (r: Option<(seq<Constant>, nat)>)
    ensures r.Some? ==> |r.value.0| == count && (off <= |b| ==> r.value.1 <= |b|)
    decreases count
  {
    if count == 0 then Some(([], off))
    else
      match ReadConstant(b, off)
      case None => None
      case Some((c, next)) =>
        match ReadPool(b, next, count - 1)
        case None => None
        case Some((rest, end)) => Some(([c] + rest, end))
  }

  lemma SliceMiddle(b: seq<Byte>, before: seq<Byte>, part: seq<Byte>, after: seq<Byte>)
    requires b == before + part + after
    ensures Slice(b, |before|, |part|) == part
  {
  }

  // A stored constant reads back, whatever surrounds it.
  lemma ConstantRoundTrip(before: seq<Byte>, c: Constant, after: seq<Byte>)
    requires Storable(c)
    ensures ReadConstant(before + Serialize(c) + after, |before|) == Some((c, |before| + |Serialize(c)|))
  {
    hide PutUint32, Uint32, PutInt64, GetInt64, Slice;
    var b := before + Serialize(c) + after;
    assert b[|before|] == Serialize(c)[0];
    match c
    case Of(Null) =>
    case Of(Int(i)) =>
      SliceMiddle(b, before + [0x01], PutInt64(i), after);
      Int64RoundTrip(i);
    case Float(bits) => SliceMiddle(b, before + [0x02], bits, after);
    case Of(Bool(_)) =>
    case Of(Text(s)) => TextRoundTrip(before, s, after);
  }

  lemma TextRoundTrip(before: seq<Byte>, s: Str, after: seq<Byte>)
    requires |s| < TWO32
    ensures ReadConstant(before + Serialize(Of(Text(s))) + after, |before|)
            == Some((Of(Text(s)), |before| + |Serialize(Of(Text(s)))|))
  {
    hide PutUint32, Uint32, Slice;
    var b := before + Serialize(Of(Text(s))) + after;
    var len := PutUint32(|s|);
    assert Truncate32(|s|) == |s|;
    assert b == before + [0x04] + len + (s + after);
    SliceMiddle(b, before + [0x04], len, s + after);
    SliceMiddle(b, before + [0x04] + len, s, after);
    Uint32RoundTrip(|s|);
    assert b[|before|] == 0x04;
  }

  lemma {:induction false} PoolRoundTrip(before: seq<Byte>, pool: seq<Constant>, after: seq<Byte>)
    requires forall c | c in pool :: Storable(c)
    ensures ReadPool(before + SerializePool(pool) + after, |before|, |pool|)
            == Some((pool, |before| + |SerializePool(pool)|))
    decreases |pool|
  {
    hide Serialize, ReadConstant, Storable;
    var b := before + SerializePool(pool) + after;
    if pool != [] {
      var first, rest := Serialize(pool[0]), SerializePool(pool[1..]);
      ConstantRoundTrip(before, pool[0], rest + after);
      assert b == before + first + (rest + after);
      PoolRoundTrip(before + first, pool[1..], after);
      assert b == before + first + rest + after;
      assert ReadConstant(b, |before|) == Some((pool[0], |before| + |first|));
      assert |before + first| == |before| + |first|;
      assert ReadPool(b, |before| + |first|, |pool| - 1) == Some((pool[1..], |before| + |first| + |rest|));
      assert [pool[0]] + pool[1..] == pool;
    }
  }

  // The header's fields, found where the readers look for them.
  lemma HeaderParts(pool: seq<Constant>, codeSize: nat, code: seq<Byte>)
    requires forall c | c in pool :: Storable(c)
    requires |pool| < TWO32 && codeSize < TWO32
    ensures var header := Header(pool, codeSize);
            var b := header + code;
            && |header| >= 16 && b[..4] == MAGIC && Uint32(Slice(b, 4, 4)) == 1 && Uint32(Slice(b, 8, 4)) == |pool|
            && ReadPool(b, 12, |pool|) == Some((pool, |header| - 4))
            && Uint32(Slice(b, |header| - 4, 4)) == codeSize
  {
    hide PutUint32, Uint32, Slice, ReadPool, SerializePool, Storable, Truncate32;
    var one, count, size, body := PutUint32(1), PutUint32(|pool|), PutUint32(codeSize), SerializePool(pool);
    assert Truncate32(|pool|) == |pool| && Truncate32(codeSize) == codeSize by { Fits(|pool|); Fits(codeSize); }
    var b := MAGIC + one + count + body + size + code;
    assert b == Header(pool, codeSize) + code;
    assert b == Preamble(|pool|) + body + (size + code);
    PoolRoundTrip(Preamble(|pool|), pool, size + code);
    SliceMiddle(b, MAGIC, one, count + body + size + code);
    SliceMiddle(b, MAGIC + one, count, body + size + code);
    SliceMiddle(b, MAGIC + one + count + body, size, code);
    Uint32RoundTrip(1);
    Uint32RoundTrip(|pool|);
    Uint32RoundTrip(codeSize);
  }

  lemma Fits(x: nat)
    requires x < TWO32
    ensures Truncate32(x) == x
  {
  }

  // All of it for a finished bytecode: the header's size is where the relocated code starts.
  lemma BytecodeParts(pool: seq<Constant>, instrs: seq<Instr>)
    requires forall c | c in pool :: Storable(c)
    requires |Bytecode(pool, instrs)| < TWO32
    ensures var b, header := Bytecode(pool, instrs), Header(pool, Size(instrs));
            && |b| == |header| + Size(instrs) && |header| >= 16 && |pool| < TWO32
            && b[..4] == MAGIC && Uint32(Slice(b, 4, 4)) == 1 && Uint32(Slice(b, 8, 4)) == |pool|
            && ReadPool(b, 12, |pool|) == Some((pool, |header| - 4))
            && Uint32(Slice(b, |header| - 4, 4)) == Size(instrs)
            && b[|header|..] == Encode(Relocate(instrs, |header|))
  {
    hide PutUint32, Uint32, Slice, ReadPool, SerializePool, Storable, Relocate, Encode, Truncate32;
    var header := Header(pool, Size(instrs));
    LayoutKept(instrs, ToLoopEnd, 0, Truncate32(|header|));
    Fits(|header|);
    HeaderParts(pool, Size(instrs), Encode(Relocate(instrs, |header|)));
  }
}
