/** What the operators mean, said without the functions the interpreter, the machine, the constant
  * folding and the GPU all call: 64-bit words by their remainder, Go's truncated division by its three
  * defining conditions, and the order of byte strings by the first byte in which they differ.
  */
module Arithmetic {
  import opened Bytes
  import opened Lang
  import opened Interpreter
  import opened Vm

  // The 64-bit word that Go keeps of the integer x.
  ghost predicate WordOf(x: int, w: int) {
    -0x8000_0000_0000_0000 <= w < 0x8000_0000_0000_0000 && (x - w) % 0x1_0000_0000_0000_0000 == 0
  }

  lemma WrapIsWord(x: int)
    ensures WordOf(x, Wrap64(x))
  {
    var y := x + 0x8000_0000_0000_0000;
    assert x - Wrap64(x) == y / TWO64 * TWO64;
    assert (y / TWO64 * TWO64) % TWO64 == 0;
  }

  // There is only one such word, and a word stands for itself.
  lemma OneWord(x: int, w: int)
    requires WordOf(x, w)
    ensures w == Wrap64(x)
    ensures -0x8000_0000_0000_0000 <= x < 0x8000_0000_0000_0000 ==> w == x
  {
    WrapIsWord(x);
    var v := Wrap64(x);
    assert (w - v) % TWO64 == 0 by {
      var j, k := (x - w) / TWO64, (x - v) / TWO64;
      assert w - v == (k - j) * TWO64;
    }
  }

  // The quotient and remainder of Go's integer division.
  ghost predicate Division(a: int, b: int, q: int, r: int) {
    && a == b * q + r
    && (if b > 0 then -b < r < b else b < r < -b)
    && (r == 0 || (r > 0) == (a > 0))
  }

  lemma TruncDivides(a: int, b: int)
    requires b != 0
    ensures Division(a, b, TruncDiv(a, b), TruncMod(a, b))
  {
    hide Division;
    var q, r := Abs(a) / Abs(b), Abs(a) % Abs(b);
    Euclid(Abs(a), Abs(b));
    SignedDivision(a, b, q, r);
    assert TruncDiv(a, b) == if (a >= 0) == (b > 0) then q else -q;
    assert TruncMod(a, b) == if a >= 0 then r else -r;
  }

  lemma Euclid(m: nat, n: nat)
    requires n > 0
    ensures m == n * (m / n) + m % n && 0 <= m % n < n
  {
  }

  lemma SignedDivision(a: int, b: int, q: int, r: int)
    requires b != 0 && Abs(a) == Abs(b) * q + r && 0 <= r < Abs(b)
    ensures Division(a, b, if (a >= 0) == (b > 0) then q else -q, if a >= 0 then r else -r)
  {
    Signs(Abs(b), q);
    if a == 0 && r > 0 {
      Grows(Abs(b), -q);
    }
  }

  lemma Signs(n: int, q: int)
    ensures (-n) * q == -(n * q) && n * (-q) == -(n * q) && (-n) * (-q) == n * q
  {
  }

  lemma OneQuotient(a: int, b: int, q: int, r: int, q': int, r': int)
    requires b != 0 && Division(a, b, q, r) && Division(a, b, q', r')
    ensures q == q' && r == r'
  {
    var d := q - q';
    assert b * d == r' - r by {
      assert b * d == b * q - b * q';
    }
    if d != 0 {
      AtLeastOnce(b, d);
      assert false;
    }
  }

  lemma AtLeastOnce(b: int, d: int)
    requires d != 0
    ensures b > 0 ==> b * d >= b || b * d <= -b
    ensures b < 0 ==> b * d <= b || b * d >= -b
  {
    Signs(b, d);
    if b != 0 {
      Grows(Abs(b), Abs(d));
    }
  }

  lemma Grows(n: int, d: int)
    requires n > 0 && d > 0
    ensures n * d >= n
  {
    assert n * d == n + n * (d - 1);
  }

  // Every pair that Division allows is the one pair there is, and the two operators give it. Only the
  // least integer divided by -1 has a quotient that is no 64-bit integer; it wraps to that integer.
  lemma DivisionLaw(a: Int64, b: Int64, q: int, r: int)
    requires b != 0 && Division(a, b, q, r)
    ensures ApplyBinary(Mod, Int(a), Int(b)) == Ok(Int(Wrap64(r))) && Wrap64(r) == r
    ensures ApplyBinary(Div, Int(a), Int(b)) == Ok(Int(Wrap64(q)))
    ensures Wrap64(q) == if a == -0x8000_0000_0000_0000 && b == -1 then a else q
  {
    hide Division, TruncDiv, TruncMod;
    TruncDivides(a, b);
    OneQuotient(a, b, q, r, TruncDiv(a, b), TruncMod(a, b));
    QuotientFits(a, b, q, r);
  }

  lemma QuotientFits(a: Int64, b: Int64, q: int, r: int)
    requires b != 0 && Division(a, b, q, r)
    ensures -0x8000_0000_0000_0000 <= r < 0x8000_0000_0000_0000
    ensures if a == -0x8000_0000_0000_0000 && b == -1 then q == 0x8000_0000_0000_0000
            else -0x8000_0000_0000_0000 <= q < 0x8000_0000_0000_0000
  {
    TruncDivides(a, b);
    OneQuotient(a, b, q, r, TruncDiv(a, b), TruncMod(a, b));
    QuotientShrinks(Abs(a), Abs(b));
  }

  lemma QuotientShrinks(m: nat, n: nat)
    requires n > 0
    ensures n == 1 ==> m / n == m
    ensures n > 1 ==> 2 * (m / n) <= m
  {
    Euclid(m, n);
    if n > 1 {
      Twice(n, m / n);
    }
  }

  lemma Twice(n: int, q: int)
    requires n > 1 && q >= 0
    ensures 2 * q <= n * q
  {
    assert n * q == 2 * q + (n - 2) * q;
  }

  // The value an opcode byte gives for two integers.
  ghost predicate IntegersGive(opcode: int, a: int, b: int, v: Value) {
    || (opcode == 0x10 && v.Int? && WordOf(a + b, v.i))
    || (opcode == 0x11 && v.Int? && WordOf(a - b, v.i))
    || (opcode == 0x12 && v.Int? && WordOf(a * b, v.i))
    || (opcode == 0x13 && v.Int? && exists q: int, r: int :: Division(a, b, q, r) && WordOf(q, v.i))
    || (opcode == 0x14 && v.Int? && exists q: int :: Division(a, b, q, v.i))
    || (opcode == 0x20 && v == Bool(a == b))
    || (opcode == 0x21 && v == Bool(a != b))
    || (opcode == 0x22 && v == Bool(a < b))
    || (opcode == 0x23 && v == Bool(a > b))
    || (opcode == 0x24 && v == Bool(a >= b))
    || (opcode == 0x25 && v == Bool(a <= b))
  }

  // Go's order of strings: the shorter of two that agree as far as it goes, and otherwise the one
  // whose byte is less where they differ first.
  ghost predicate Before(a: Str, b: Str) {
    || a < b
    || exists k: nat :: k < |a| && k < |b| && a[..k] == b[..k] && a[k] < b[k]
  }

  lemma {:induction false} TextLessIsBefore(a: Str, b: Str)
    ensures TextLess(a, b) <==> Before(a, b)
  {
    if b == [] || a == [] {
    } else if a[0] != b[0] {
      if a[0] < b[0] {
        assert a[..0] == b[..0];
      } else {
        assert forall k: nat :: 0 < k < |a| && k < |b| && a[..k] == b[..k] ==> a[..k][0] == b[..k][0];
      }
    } else {
      TextLessIsBefore(a[1..], b[1..]);
      BeforeShifted(a, b);
    }
  }

  lemma BeforeShifted(a: Str, b: Str)
    requires a != [] && b != [] && a[0] == b[0]
    ensures Before(a, b) <==> Before(a[1..], b[1..])
  {
    var s, t := a[1..], b[1..];
    assert a == [a[0]] + s && b == [b[0]] + t;
    if Before(a, b) && !(a < b) {
      var k: nat :| k < |a| && k < |b| && a[..k] == b[..k] && a[k] < b[k];
      assert k > 0;
      assert s[..k - 1] == a[..k][1..] && t[..k - 1] == b[..k][1..];
      assert s[k - 1] < t[k - 1];
    }
    if Before(s, t) && !(s < t) {
      var k: nat :| k < |s| && k < |t| && s[..k] == t[..k] && s[k] < t[k];
      assert a[..k + 1] == [a[0]] + s[..k] && b[..k + 1] == [b[0]] + t[..k];
      assert a[k + 1] < b[k + 1];
    }
  }

  // The order of strings is total and strict.
  lemma {:induction false} TextTrichotomy(a: Str, b: Str)
    ensures (TextLess(a, b) && a != b && !TextLess(b, a)) ||
            (!TextLess(a, b) && a == b && !TextLess(b, a)) ||
            (!TextLess(a, b) && a != b && TextLess(b, a))
  {
    if a != [] && b != [] && a[0] == b[0] {
      TextTrichotomy(a[1..], b[1..]);
      assert a == [a[0]] + a[1..] && b == [b[0]] + b[1..];
    }
  }

  lemma {:induction false} TextTransitive(a: Str, b: Str, c: Str)
    requires TextLess(a, b) && TextLess(b, c)
    ensures TextLess(a, c)
  {
    if a != [] && a[0] == b[0] == c[0] {
      TextTransitive(a[1..], b[1..], c[1..]);
    }
  }

  // The value an opcode byte gives for two strings.
  ghost predicate TextsGive(opcode: int, a: Str, b: Str, v: Value) {
    || (opcode == 0x10 && v.Text? && |v.s| == |a| + |b| && v.s[..|a|] == a && v.s[|a|..] == b)
    || (opcode == 0x20 && v == Bool(a == b))
    || (opcode == 0x21 && v == Bool(a != b))
    || (opcode == 0x22 && v == Bool(Before(a, b)))
    || (opcode == 0x23 && v == Bool(Before(b, a)))
    || (opcode == 0x24 && v == Bool(a == b || Before(b, a)))
    || (opcode == 0x25 && v == Bool(a == b || Before(a, b)))
  }

  ghost predicate OperandsGive(opcode: int, a: Value, b: Value, v: Value) {
    || (a.Int? && b.Int? && IntegersGive(opcode, a.i, b.i, v))
    || (a.Text? && b.Text? && TextsGive(opcode, a.s, b.s, v))
    || (a.Bool? && b.Bool? && opcode == 0x26 && v == Bool(a.b && b.b))
    || (a.Bool? && b.Bool? && opcode == 0x27 && v == Bool(a.b || b.b))
    || (!(a.Int? && b.Int?) && !(a.Text? && b.Text?) && opcode == 0x20 && v == Bool(a == b))
    || (!(a.Int? && b.Int?) && !(a.Text? && b.Text?) && opcode == 0x21 && v == Bool(a != b))
  }

  lemma IntegersApplied(op: BinOp, opcode: Byte, a: Int64, b: Int64, v: Value)
    requires OperatorOf(opcode) == Some(op) && IntegersGive(opcode, a, b, v)
    requires b != 0 || (opcode != 0x13 && opcode != 0x14)
    ensures ApplyBinary(op, Int(a), Int(b)) == Ok(v)
  {
    if opcode == 0x10 {
      OneWord(a + b, v.i);
    } else if opcode == 0x11 {
      OneWord(a - b, v.i);
    } else if opcode == 0x12 {
      OneWord(a * b, v.i);
    } else if opcode == 0x13 {
      var q: int, r: int :| Division(a, b, q, r) && WordOf(q, v.i);
      DivisionLaw(a, b, q, r);
      QuotientFits(a, b, q, r);
      OneWord(q, v.i);
    } else if opcode == 0x14 {
      var q: int :| Division(a, b, q, v.i);
      DivisionLaw(a, b, q, v.i);
    }
  }

  lemma TextsApplied(op: BinOp, opcode: Byte, a: Str, b: Str, v: Value)
    requires OperatorOf(opcode) == Some(op) && TextsGive(opcode, a, b, v)
    ensures ApplyBinary(op, Text(a), Text(b)) == Ok(v)
  {
    TextLessIsBefore(a, b);
    TextLessIsBefore(b, a);
    TextTrichotomy(a, b);
    if opcode == 0x10 {
      assert v.s == v.s[..|a|] + v.s[|a|..];
    }
  }

  // The opcode bytes of the arithmetic, comparing and logical instructions.
  predicate IsOperator(opcode: int) {
    0x10 <= opcode <= 0x14 || 0x20 <= opcode <= 0x27
  }

  predicate DividesByZero(opcode: int, a: Value, b: Value) {
    a.Int? && b == Int(0) && (opcode == 0x13 || opcode == 0x14)
  }

  // Operands of these kinds an instruction takes; all others are a type error.
  predicate Takes(opcode: int, a: Value, b: Value) {
    || opcode == 0x20 || opcode == 0x21
    || (a.Int? && b.Int? && opcode < 0x26)
    || (a.Text? && b.Text? && (opcode == 0x10 || 0x22 <= opcode <= 0x25))
    || (a.Bool? && b.Bool? && opcode >= 0x26)
  }

  // One step of the machine on every operator byte and every two operands.
  lemma OperatorStep(p: Program, st: State, rest: seq<Value>, a: Value, b: Value, v: Value)
    requires st.pc < |p.code| && IsOperator(p.code[st.pc])
    requires st.stack == rest + [a, b] && |rest| < 10000
    ensures DividesByZero(p.code[st.pc], a, b) ==>
              Step(p, st) == Err(if p.code[st.pc] == 0x13 then DivisionByZero else ModuloByZero)
    ensures !Takes(p.code[st.pc], a, b) ==> Step(p, st) == Err(TypeError)
    ensures OperandsGive(p.code[st.pc], a, b, v) && !DividesByZero(p.code[st.pc], a, b) ==>
              Step(p, st) == Ok(st.(pc := st.pc + 1, stack := rest + [v]))
  {
    var opcode := p.code[st.pc];
    var op := OperatorOf(opcode).value;
    assert Step(p, st) == StepBinary(op, st);
    assert st.stack[..|st.stack| - 2] == rest;
    if OperandsGive(opcode, a, b, v) && !DividesByZero(opcode, a, b) {
      OperandsApplied(op, opcode, a, b, v);
    }
  }

  lemma OperandsApplied(op: BinOp, opcode: Byte, a: Value, b: Value, v: Value)
    requires OperatorOf(opcode) == Some(op) && OperandsGive(opcode, a, b, v)
    requires !DividesByZero(opcode, a, b)
    ensures ApplyBinary(op, a, b) == Ok(v)
  {
    if a.Int? && b.Int? && IntegersGive(opcode, a.i, b.i, v) {
      IntegersApplied(op, opcode, a.i, b.i, v);
    } else if a.Text? && b.Text? && TextsGive(opcode, a.s, b.s, v) {
      TextsApplied(op, opcode, a.s, b.s, v);
    }
  }

  // Operands an instruction takes have a value unless they divide by zero, so the step above is the
  // whole behaviour of these instructions.
  lemma OperandsHaveValue(opcode: Byte, a: Value, b: Value) returns (v: Value)
    requires IsOperator(opcode) && Takes(opcode, a, b) && !DividesByZero(opcode, a, b)
    ensures OperandsGive(opcode, a, b, v)
  {
    if a.Int? && b.Int? && opcode < 0x26 {
      v := IntegersHaveValue(opcode, a.i, b.i);
    } else if a.Text? && b.Text? && opcode == 0x10 {
      v := Text(a.s + b.s);
      assert (a.s + b.s)[..|a.s|] == a.s && (a.s + b.s)[|a.s|..] == b.s;
    } else if a.Text? && b.Text? {
      v := if opcode == 0x20 then Bool(a.s == b.s) else if opcode == 0x21 then Bool(a.s != b.s)
           else if opcode == 0x22 then Bool(Before(a.s, b.s)) else if opcode == 0x23 then Bool(Before(b.s, a.s))
           else if opcode == 0x24 then Bool(a.s == b.s || Before(b.s, a.s))
           else Bool(a.s == b.s || Before(a.s, b.s));
    } else {
      v := if opcode == 0x20 then Bool(a == b) else if opcode == 0x21 then Bool(a != b)
           else if opcode == 0x26 then Bool(a.b && b.b) else Bool(a.b || b.b);
    }
  }

  lemma IntegersHaveValue(opcode: Byte, a: Int64, b: Int64) returns (v: Value)
    requires IsOperator(opcode) && opcode < 0x26 && (b != 0 || (opcode != 0x13 && opcode != 0x14))
    ensures IntegersGive(opcode, a, b, v)
  {
    if opcode == 0x10 || opcode == 0x11 || opcode == 0x12 {
      var x := if opcode == 0x10 then a + b else if opcode == 0x11 then a - b else a * b;
      WrapIsWord(x);
      v := Int(Wrap64(x));
    } else if opcode == 0x13 || opcode == 0x14 {
      var q, r := TruncDiv(a, b), TruncMod(a, b);
      TruncDivides(a, b);
      QuotientFits(a, b, q, r);
      WrapIsWord(q);
      v := if opcode == 0x13 then Int(Wrap64(q)) else Int(r);
    } else {
      v := Bool(if opcode == 0x20 then a == b else if opcode == 0x21 then a != b else if opcode == 0x22 then a < b
                else if opcode == 0x23 then a > b else if opcode == 0x24 then a >= b else a <= b);
    }
  }

  // Negation wraps as well, and logical not takes nothing but a truth value.
  lemma UnaryStep(p: Program, st: State, rest: seq<Value>, a: Value, v: Value)
    requires st.pc < |p.code| && (p.code[st.pc] == 0x28 || p.code[st.pc] == 0x29)
    requires st.stack == rest + [a] && |rest| < 10000
    ensures p.code[st.pc] == 0x28 && a.Bool? ==>
              Step(p, st) == Ok(st.(pc := st.pc + 1, stack := rest + [Bool(!a.b)]))
    ensures p.code[st.pc] == 0x29 && a.Int? && v.Int? && WordOf(-(a.i as int), v.i) ==>
              Step(p, st) == Ok(st.(pc := st.pc + 1, stack := rest + [v]))
    ensures (p.code[st.pc] == 0x28 && !a.Bool?) || (p.code[st.pc] == 0x29 && !a.Int?) ==>
              Step(p, st) == Err(TypeError)
  {
    assert st.stack[..|st.stack| - 1] == rest;
    if p.code[st.pc] == 0x29 && a.Int? && v.Int? && WordOf(-(a.i as int), v.i) {
      OneWord(-(a.i as int), v.i);
    }
  }

  // The interpreter gives the same values: `opcode` names the operator in both.
  lemma OperatorValue(reading: Reading, opcode: Byte, l: Expr, r: Expr, env: Env, v: Value)
    requires IsOperator(opcode) && OperatorOf(opcode).Some?
    requires Eval(reading, l, env).Ok? && Eval(reading, r, env).Ok?
    ensures var a, b := Eval(reading, l, env).value, Eval(reading, r, env).value;
            OperandsGive(opcode, a, b, v) && !DividesByZero(opcode, a, b) ==>
              Eval(reading, Binary(OperatorOf(opcode).value, l, r), env) == Ok(v)
  {
    var a, b := Eval(reading, l, env).value, Eval(reading, r, env).value;
    if OperandsGive(opcode, a, b, v) && !DividesByZero(opcode, a, b) {
      OperandsApplied(OperatorOf(opcode).value, opcode, a, b, v);
    }
  }

  // The low 32 bits of any number, as operands and targets are cut to them.
  lemma LowWord(x: int, w: U32)
    requires (x - w) % 0x1_0000_0000 == 0
    ensures Truncate32(x) == w
  {
    var k := (x - w) / TWO32;
    assert x == w + k * TWO32;
  }
}
