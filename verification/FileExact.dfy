/** Which bytes the readers of compiled files accept: exactly the encodings of constants, one behind the
  * other, between a header and the code. */
module FileExact {
  import opened Bytes
  import opened Lang
  import opened CodeGen
  import opened Format
  import opened Readers

  // ---- words ----

  lemma WordBack(b: seq<Byte>)
    requires |b| == 4
    ensures PutUint32(Uint32(b)) == b
  {
    var x := Uint32(b);
    var y := b[1] as int + 0x100 * b[2] as int + 0x1_0000 * b[3] as int;
    assert x == b[0] as int + 0x100 * y && x / 0x100 == y && x % 0x100 == b[0];
    var z := b[2] as int + 0x100 * b[3] as int;
    assert y == b[1] as int + 0x100 * z && y / 0x100 == z && y % 0x100 == b[1];
    assert z / 0x100 == b[3] && z % 0x100 == b[2];
    assert x / 0x1_0000 == z && x / 0x100_0000 == b[3];
  }

  lemma LongBack(b: seq<Byte>)
    requires |b| == 8
    ensures PutInt64(GetInt64(b)) == b
  {
    hide PutUint32, Uint32;
    var low, high := Uint32(b[..4]), Uint32(b[4..]);
    WordBack(b[..4]);
    WordBack(b[4..]);
    LongWords(low, high);
    assert b == b[..4] + b[4..];
  }

  lemma LongWords(low: U32, high: U32)
    ensures var v := Wrap64(low + TWO32 * high); v % TWO64 % TWO32 == low && v % TWO64 / TWO32 == high
  {
    var u := low + TWO32 * high;
    assert 0 <= u < TWO64;
    assert Wrap64(u) % TWO64 == u;
  }

  // ---- constants ----

  // Little-endian integers and lengths; any byte but 0 is true.
  ghost predicate Encodes(c: Constant, b: seq<Byte>) {
    match c
    case Of(Null) => b == [0x00]
    case Of(Int(i)) => b == [0x01] + PutInt64(i)
    case Float(bits) => b == [0x02] + bits && |bits| == 8
    case Of(Bool(t)) => |b| == 2 && b[0] == 0x03 && (b[1] != 0) == t
    case Of(Text(s)) => |s| < 0x1_0000_0000 && b == [0x04] + PutUint32(|s|) + s
  }

  // A constant is read exactly where its encoding stands.
  lemma ConstantExact(b: seq<Byte>, off: nat, c: Constant, next: nat)
    ensures ReadConstant(b, off) == Some((c, next)) <==> off < next <= |b| && Encodes(c, b[off..next])
  {
    if ReadConstant(b, off) == Some((c, next)) {
      ConstantRead(b, off, c, next);
    }
    if off < next <= |b| && Encodes(c, b[off..next]) {
      ConstantFound(b, off, c, next);
    }
  }

  lemma ConstantRead(b: seq<Byte>, off: nat, c: Constant, next: nat)
    requires ReadConstant(b, off) == Some((c, next))
    ensures off < next <= |b| && Encodes(c, b[off..next])
  {
    hide GetInt64, PutInt64, PutUint32, Uint32;
    var data := off + 1;
    assert b[off..next] == [b[off]] + b[data..next];
    if b[off] == 0x01 {
      LongBack(b[data..next]);
    } else if b[off] == 0x04 {
      WordBack(b[data..data + 4]);
      assert b[data..next] == b[data..data + 4] + b[data + 4..next];
      assert [b[off]] + (b[data..data + 4] + b[data + 4..next]) == [b[off]] + b[data..data + 4] + b[data + 4..next];
    }
  }

  lemma ConstantFound(b: seq<Byte>, off: nat, c: Constant, next: nat)
    requires off < next <= |b| && Encodes(c, b[off..next])
    ensures ReadConstant(b, off) == Some((c, next))
  {
    hide GetInt64, PutInt64, PutUint32, Uint32;
    var e := b[off..next];
    assert e[0] == b[off];
    Part(b, off, next, 1, next - off);
    assert e[1..|e|] == b[off + 1..next];
    match c
    case Of(Null) =>
    case Of(Int(i)) => {
      Int64RoundTrip(i);
      assert e[1..|e|] == PutInt64(i);
    }
    case Float(bits) => assert e[1..|e|] == bits;
    case Of(Bool(t)) => assert e[1] == b[off + 1];
    case Of(Text(s)) => {
      Uint32RoundTrip(|s|);
      assert e[1..5] == PutUint32(|s|) && e[5..|e|] == s;
      Part(b, off, next, 1, 5);
      Part(b, off, next, 5, next - off);
    }
  }

  lemma Part(b: seq<Byte>, off: nat, next: nat, i: nat, j: nat)
    requires off <= next <= |b| && i <= j <= next - off
    ensures b[off..next][i..j] == b[off + i..off + j]
  {
    var u := b[off..next];
    forall k | 0 <= k < j - i ensures u[i..j][k] == b[off + i..off + j][k] {
      assert u[i..j][k] == u[i + k] == b[off + i + k];
    }
  }

  // ---- pools and files ----

  ghost predicate EncodesAll(pool: seq<Constant>, b: seq<Byte>)
    decreases |pool|
  {
    if pool == [] then b == []
    else exists k: nat :: k <= |b| && Encodes(pool[0], b[..k]) && EncodesAll(pool[1..], b[k..])
  }

  lemma PoolExact(b: seq<Byte>, off: nat, pool: seq<Constant>, end: nat)
    requires off <= |b|
    ensures ReadPool(b, off, |pool|) == Some((pool, end)) <==> off <= end <= |b| && EncodesAll(pool, b[off..end])
  {
    hide ReadPool, EncodesAll;
    if ReadPool(b, off, |pool|) == Some((pool, end)) {
      PoolRead(b, off, pool, end);
    }
    if off <= end <= |b| && EncodesAll(pool, b[off..end]) {
      PoolFound(b, off, pool, end);
    }
  }

  lemma {:induction false} PoolRead(b: seq<Byte>, off: nat, pool: seq<Constant>, end: nat)
    requires off <= |b| && ReadPool(b, off, |pool|) == Some((pool, end))
    ensures off <= end <= |b| && EncodesAll(pool, b[off..end])
    decreases |pool|
  {
    hide ReadConstant, Encodes, EncodesAll;
    if pool == [] {
      NoneEncoded(b[off..end]);
    } else {
      var (c, next) := ReadConstant(b, off).value;
      assert pool[1..] == ReadPool(b, next, |pool| - 1).value.0;
      ConstantExact(b, off, c, next);
      PoolRead(b, next, pool[1..], end);
      Pieces(b, off, next, end);
      EncodedFirst(pool, b[off..end], next - off);
    }
  }

  lemma NoneEncoded(b: seq<Byte>)
    ensures EncodesAll([], b) <==> b == []
  {
  }

  lemma EncodedFirst(pool: seq<Constant>, b: seq<Byte>, k: nat)
    requires pool != [] && k <= |b| && Encodes(pool[0], b[..k]) && EncodesAll(pool[1..], b[k..])
    ensures EncodesAll(pool, b)
  {
    hide Encodes;
  }

  lemma {:induction false} PoolFound(b: seq<Byte>, off: nat, pool: seq<Constant>, end: nat)
    requires off <= end <= |b| && EncodesAll(pool, b[off..end])
    ensures ReadPool(b, off, |pool|) == Some((pool, end))
    decreases |pool|
  {
    hide ReadConstant, Encodes, ReadPool;
    if pool == [] {
      assert off == end;
      NonePooled(b, off);
    } else {
      var k: nat :| k <= end - off && Encodes(pool[0], b[off..end][..k]) && EncodesAll(pool[1..], b[off..end][k..]);
      Pieces(b, off, off + k, end);
      EncodingNotEmpty(pool[0], b[off..off + k]);
      ConstantExact(b, off, pool[0], off + k);
      PoolFound(b, off + k, pool[1..], end);
      PooledFirst(b, off, |pool|, pool[0], off + k, pool[1..], end);
      assert pool == [pool[0]] + pool[1..];
    }
  }

  lemma NonePooled(b: seq<Byte>, off: nat)
    ensures ReadPool(b, off, 0) == Some(([], off))
  {
  }

  lemma PooledFirst(b: seq<Byte>, off: nat, count: nat, c: Constant, next: nat, rest: seq<Constant>, end: nat)
    requires count > 0 && ReadConstant(b, off) == Some((c, next)) && ReadPool(b, next, count - 1) == Some((rest, end))
    ensures ReadPool(b, off, count) == Some(([c] + rest, end))
  {
    hide ReadConstant;
  }

  lemma Pieces(b: seq<Byte>, off: nat, next: nat, end: nat)
    requires off <= next <= end <= |b|
    ensures b[off..end][..next - off] == b[off..next] && b[off..end][next - off..] == b[next..end]
  {
  }

  lemma EncodingNotEmpty(c: Constant, b: seq<Byte>)
    requires Encodes(c, b)
    ensures b != []
  {
  }

  // The layout of a file: "GLYP", a version, a count, that many constants, the length of the code.
  lemma LayoutExact(b: seq<Byte>, version: U32, pool: seq<Constant>, codeStart: nat, codeLength: U32)
    ensures ReadLayout(b) == Ok(Layout(version, pool, codeStart, codeLength)) <==>
            && 16 <= codeStart <= |b| && b[..4] == [0x47, 0x4C, 0x59, 0x50] && b[4..8] == PutUint32(version)
            && |pool| < 0x1_0000_0000 && b[8..12] == PutUint32(|pool|) && EncodesAll(pool, b[12..codeStart - 4])
            && b[codeStart - 4..codeStart] == PutUint32(codeLength)
  {
    hide PutUint32, Uint32, ReadPool, EncodesAll;
    if |b| >= 16 {
      WordBack(b[4..8]);
      WordBack(b[8..12]);
      Uint32RoundTrip(version);
      if |pool| < 0x1_0000_0000 {
        Uint32RoundTrip(|pool|);
      }
      Uint32RoundTrip(codeLength);
      if 16 <= codeStart <= |b| {
        WordBack(b[codeStart - 4..codeStart]);
        PoolExact(b, 12, pool, codeStart - 4);
      }
    }
    LayoutParts(b, version, pool, codeStart, codeLength);
  }

  lemma LayoutParts(b: seq<Byte>, version: U32, pool: seq<Constant>, codeStart: nat, codeLength: nat)
    ensures ReadLayout(b) == Ok(Layout(version, pool, codeStart, codeLength)) <==>
            && 16 <= codeStart <= |b| && b[..4] == MAGIC && Uint32(b[4..8]) == version && Uint32(b[8..12]) == |pool|
            && ReadPool(b, 12, |pool|) == Some((pool, codeStart - 4)) && Uint32(b[codeStart - 4..codeStart]) == codeLength
  {
    hide Uint32, ReadConstant, ReadPool, Slice;
    if |b| >= 12 {
      SliceIs(b, 4, 4);
      SliceIs(b, 8, 4);
      var n := Uint32(b[8..12]);
      var p := ReadPool(b, 12, n);
      if p.Some? {
        PoolForward(b, 12, n);
        assert |p.value.0| == n;
        if p.value.1 + 4 <= |b| {
          SliceIs(b, p.value.1, 4);
        }
      }
    }
  }

  lemma SliceIs(b: seq<Byte>, off: nat, n: nat)
    requires off + n <= |b|
    ensures Slice(b, off, n) == b[off..off + n]
  {
  }

  lemma {:induction false} PoolForward(b: seq<Byte>, off: nat, count: nat)
    requires ReadPool(b, off, count).Some?
    ensures off <= ReadPool(b, off, count).value.1
    decreases count
  {
    hide ReadConstant;
    if count > 0 {
      PoolForward(b, ReadConstant(b, off).value.1, count - 1);
    }
  }
}
