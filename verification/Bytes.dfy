/** Machine words and the little-endian byte layout shared by every bytecode writer and reader. */
module Bytes {

  type Byte = x: int | 0 <= x < 0x100
  type U32 = x: int | 0 <= x < 0x1_0000_0000
  type Int64 = x: int | -0x8000_0000_0000_0000 <= x < 0x8000_0000_0000_0000

  const TWO32 := 0x1_0000_0000
  const TWO64 := 0x1_0000_0000_0000_0000

  datatype Option<+T> = None | Some(value: T)

  // Go's (value, error) pairs.
  datatype Result<+T, +E> = Ok(value: T) | Err(error: E) {
    predicate IsFailure() {
      Err?
    }

    function PropagateFailure<U>(): Result<U, E>
      requires Err?
    {
      Err(error)
    }

    function Extract(): T
      requires Ok?
    {
      value
    }
  }

  // Go's conversion to uint32 keeps the low 32 bits.
  function Truncate32(x: int): U32 {
    x % TWO32
  }

  // Go's int64 arithmetic wraps around.
  function Wrap64(x: int): Int64 {
    (x + 0x8000_0000_0000_0000) % TWO64 - 0x8000_0000_0000_0000
  }

  // binary.LittleEndian.PutUint32
  function PutUint32(x: U32): (b: seq<Byte>)
    ensures |b| == 4
  {
    [x % 0x100, x / 0x100 % 0x100, x / 0x1_0000 % 0x100, x / 0x100_0000]
  }

  // binary.LittleEndian.Uint32
  function Uint32(b: seq<Byte>): U32
    requires |b| == 4
  {
    b[0] as int + 0x100 * b[1] as int + 0x1_0000 * b[2] as int + 0x100_0000 * b[3] as int
  }

  lemma Uint32RoundTrip(x: U32)
    ensures Uint32(PutUint32(x)) == x
  {
    var y := x / 0x100;
    assert y / 0x100 == x / 0x1_0000;
    assert (x / 0x1_0000) / 0x100 == x / 0x100_0000;
  }

  // binary.LittleEndian.PutUint64(uint64(v)): two's complement, low word first.
  function PutInt64(v: Int64): (b: seq<Byte>)
    ensures |b| == 8
  {
    var u := v % TWO64;
    PutUint32(u % TWO32) + PutUint32(u / TWO32)
  }

  // int64(binary.LittleEndian.Uint64(b))
  function GetInt64(b: seq<Byte>): Int64
    requires |b| == 8
  {
    Wrap64(Uint32(b[..4]) + TWO32 * Uint32(b[4..]))
  }

  lemma Int64RoundTrip(v: Int64)
    ensures GetInt64(PutInt64(v)) == v
  {
    var u := v % TWO64;
    var b := PutInt64(v);
    assert b[..4] == PutUint32(u % TWO32);
    assert b[4..] == PutUint32(u / TWO32);
    Uint32RoundTrip(u % TWO32);
    Uint32RoundTrip(u / TWO32);
  }
}
