/** What the operators of the two other machines compute: 32-bit words on the GPU, Python's unbounded
  * integers with their floored division on the reference interpreter. */
module MachineArithmetic {
  import opened Bytes
  import opened Lang
  import opened Arithmetic
  import opened Vm
  import opened GpuReader
  import opened GpuMachine
  import RefVm

  // The 32-bit word that int32 keeps of the integer x.
  ghost predicate HalfWordOf(x: int, w: int) {
    -0x8000_0000 <= w < 0x8000_0000 && (x - w) % 0x1_0000_0000 == 0
  }

  lemma WrapIsHalfWord(x: int)
    ensures HalfWordOf(x, Wrap32(x))
  {
    var y := x + 0x8000_0000;
    assert x - Wrap32(x) == y / TWO32 * TWO32;
    assert (y / TWO32 * TWO32) % TWO32 == 0;
  }

  lemma OneHalfWord(x: int, w: int)
    requires HalfWordOf(x, w)
    ensures w == Wrap32(x)
    ensures -0x8000_0000 <= x < 0x8000_0000 ==> w == x
  {
    WrapIsHalfWord(x);
    var v := Wrap32(x);
    assert (w - v) % TWO32 == 0 by {
      var j, k := (x - w) / TWO32, (x - v) / TWO32;
      assert w - v == (k - j) * TWO32;
    }
  }

  lemma KeptWord(w: Int32)
    ensures Wrap32(w) == w
  {
  }

  // The 64-bit result, cut to 32 bits, is what the GPU makes of the operands cut to 32 bits: addition,
  // subtraction and multiplication lose nothing more on the way.
  lemma CutFirst(x: int, y: int, a: int, b: int, w: int)
    requires HalfWordOf(x, a) && HalfWordOf(y, b)
    ensures HalfWordOf(a + b, w) ==> HalfWordOf(x + y, w)
    ensures HalfWordOf(a - b, w) ==> HalfWordOf(x - y, w)
    ensures HalfWordOf(a * b, w) ==> HalfWordOf(x * y, w)
  {
    var j, k := (x - a) / TWO32, (y - b) / TWO32;
    assert x == a + j * TWO32 && y == b + k * TWO32;
    Multiple(a + b - w, j + k);
    Multiple(a - b - w, j - k);
    CutProduct(a, b, j, k);
    Multiple(a * b - w, a * k + j * b + j * k * TWO32);
  }

  lemma CutProduct(a: int, b: int, j: int, k: int)
    ensures (a + j * TWO32) * (b + k * TWO32) == a * b + (a * k + j * b + j * k * TWO32) * TWO32
  {
  }

  lemma Multiple(d: int, k: int)
    ensures (d + k * TWO32) % TWO32 == d % TWO32
  {
  }

  // The value an opcode byte gives on the GPU for two values that are no floats.
  ghost predicate WordsGive(opcode: int, x: int, y: int, v: GpuValue) {
    || (opcode == 0x10 && v.GpuInt? && HalfWordOf(x + y, v.i))
    || (opcode == 0x11 && v.GpuInt? && HalfWordOf(x - y, v.i))
    || (opcode == 0x12 && v.GpuInt? && HalfWordOf(x * y, v.i))
    || (opcode == 0x13 && v.GpuInt? && exists q: int, r: int :: Division(x, y, q, r) && HalfWordOf(q, v.i))
    || (opcode == 0x14 && v.GpuInt? && exists q: int :: Division(x, y, q, v.i))
    || (opcode == 0x20 && v == GpuBool(if x == y then 1 else 0))
    || (opcode == 0x21 && v == GpuBool(if x != y then 1 else 0))
    || (opcode == 0x22 && v == GpuBool(if x < y then 1 else 0))
    || (opcode == 0x23 && v == GpuBool(if x > y then 1 else 0))
    || (opcode == 0x24 && v == GpuBool(if x >= y then 1 else 0))
    || (opcode == 0x25 && v == GpuBool(if x <= y then 1 else 0))
    || (opcode == 0x26 && v == GpuBool(if x != 0 && y != 0 then 1 else 0))
    || (opcode == 0x27 && v == GpuBool(if x == 0 && y == 0 then 0 else 1))
  }

  // One operator on the GPU, for all operands that fit its words.
  lemma GpuOperator(job: Job, opcode: Byte, a: GpuValue, b: GpuValue, v: GpuValue)
    requires IsOperator(opcode) && OperatorOf(opcode).Some?
    requires opcode == 0x10 ==> !a.GpuFloat? && !b.GpuFloat?
    ensures (opcode == 0x13 || opcode == 0x14) && Data(b) == 0 ==>
              Computed(job, OperatorOf(opcode).value, a, b).None?
    ensures ((opcode != 0x13 && opcode != 0x14) || Data(b) != 0) && WordsGive(opcode, Data(a), Data(b), v) ==>
              Computed(job, OperatorOf(opcode).value, a, b) == Some(v)
  {
    hide HalfWordOf, Division, Wrap32, TruncDiv, TruncMod;
    var x: int, y: int := Data(a), Data(b);
    if ((opcode != 0x13 && opcode != 0x14) || y != 0) && WordsGive(opcode, x, y, v) {
      if opcode == 0x10 {
        OneHalfWord(x + y, v.i);
      } else if opcode == 0x11 {
        OneHalfWord(x - y, v.i);
      } else if opcode == 0x12 {
        OneHalfWord(x * y, v.i);
      } else if opcode == 0x13 {
        var q: int, r: int :| Division(x, y, q, r) && HalfWordOf(q, v.i);
        GoDivision(x, y, q, r);
        OneHalfWord(q, v.i);
      } else if opcode == 0x14 {
        var q: int :| Division(x, y, q, v.i);
        GoDivision(x, y, q, v.i);
        KeptWord(v.i);
      }
    }
  }

  lemma GoDivision(x: int, y: int, q: int, r: int)
    requires y != 0 && Division(x, y, q, r)
    ensures TruncDiv(x, y) == q && TruncMod(x, y) == r
  {
    hide Division, TruncDiv, TruncMod;
    TruncDivides(x, y);
    OneQuotient(x, y, q, r, TruncDiv(x, y), TruncMod(x, y));
  }

  // Python's `//` and `%`: the remainder has the sign of the divisor.
  ghost predicate FloorDivision(a: int, b: int, q: int, r: int) {
    a == b * q + r && (if b > 0 then 0 <= r < b else b < r <= 0)
  }

  lemma FloorDivides(a: int, b: int, q: int, r: int)
    requires b != 0 && FloorDivision(a, b, q, r)
    ensures RefVm.FloorDiv(a, b) == q && a - b * RefVm.FloorDiv(a, b) == r
  {
    var p := RefVm.FloorDiv(a, b);
    FloorIsDivision(a, b);
    var d := q - p;
    assert b * d == b * q - b * p;
    if d != 0 {
      AtLeastOnce(b, d);
      assert false;
    }
  }

  lemma FloorIsDivision(a: int, b: int)
    requires b != 0
    ensures FloorDivision(a, b, RefVm.FloorDiv(a, b), a - b * RefVm.FloorDiv(a, b))
  {
    if b > 0 {
      Remains(a, b);
    } else {
      Remains(-a, -b);
      Signs(-b, (-a) / (-b));
    }
  }

  lemma Remains(a: int, b: int)
    requires b > 0
    ensures 0 <= a - b * (a / b) < b
  {
    assert a == b * (a / b) + a % b;
  }

  // The value an opcode gives on the reference interpreter.
  ghost predicate PythonGives(opcode: int, a: int, b: int, v: int) {
    || (opcode == 16 && v == a + b)
    || (opcode == 17 && v == a - b)
    || (opcode == 18 && v == a * b)
    || (opcode == 19 && exists r: int :: FloorDivision(a, b, v, r))
    || (opcode == 20 && exists q: int :: FloorDivision(a, b, q, v))
    || (opcode == 32 && v == if a == b then 1 else 0)
    || (opcode == 33 && v == if a == b then 0 else 1)
    || (opcode == 34 && v == if a < b then 1 else 0)
    || (opcode == 35 && v == if a > b then 1 else 0)
    || (opcode == 36 && v == if a >= b then 1 else 0)
    || (opcode == 37 && v == if a <= b then 1 else 0)
    || (opcode == 38 && v == if a == 0 || b == 0 then 0 else 1)
    || (opcode == 39 && v == if a == 0 && b == 0 then 0 else 1)
  }

  // One operator step of the reference interpreter, for all integers.
  lemma ReferenceOperator(code: seq<int>, constants: seq<int>, st: RefVm.State, rest: seq<int>, opcode: int, a: int,
                          b: int, v: int)
    requires 16 <= opcode <= 20 || 32 <= opcode <= 39
    requires st.stack == rest + [a, b]
    ensures (opcode == 19 || opcode == 20) && b == 0 ==>
              RefVm.Execute(code, constants, st, opcode) == RefVm.Raised(RefVm.ZeroDivision)
    ensures ((opcode != 19 && opcode != 20) || b != 0) && PythonGives(opcode, a, b, v) ==>
              RefVm.Execute(code, constants, st, opcode) == RefVm.More(st.(stack := rest + [v], pc := st.pc + 1))
  {
    assert RefVm.Below(st.stack, 2) == rest;
    if ((opcode != 19 && opcode != 20) || b != 0) && PythonGives(opcode, a, b, v) {
      if opcode == 19 {
        var r: int :| FloorDivision(a, b, v, r);
        FloorDivides(a, b, v, r);
      } else if opcode == 20 {
        var q: int :| FloorDivision(a, b, q, v);
        FloorDivides(a, b, q, v);
      }
      assert RefVm.Binary(opcode, a, b) == Some(v);
    }
  }

  // Negation on the GPU keeps the tag, null staying null; not asks for zero.
  lemma GpuUnary(a: GpuValue, w: Int32)
    requires HalfWordOf(-(Data(a) as int), w)
    ensures Turned(Not, a) == GpuBool(if Data(a) == 0 then 1 else 0)
    ensures Turned(Neg, a) == match a
                              case GpuNull => GpuNull
                              case GpuInt(_) => GpuInt(w)
                              case GpuFloat(_) => GpuFloat(w)
                              case GpuBool(_) => GpuBool(w)
  {
    OneHalfWord(-(Data(a) as int), w);
  }
}
