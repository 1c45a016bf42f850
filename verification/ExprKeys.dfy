/** The text key under which common subexpressions are remembered, and when it tells them apart. */
module ExprKeys {
  import opened Bytes
  import opened Lang
  import opened CodeGen

  const SPACE: Byte := ' ' as int
  const OPEN: Byte := '(' as int
  const CLOSE: Byte := ')' as int

  function OpText(op: BinOp): Str {
    match op
    case Add => ['+' as int]
    case Sub => ['-' as int]
    case Mul => ['*' as int]
    case Div => ['/' as int]
    case Mod => ['%' as int]
    case Eq => ['=' as int, '=' as int]
    case Ne => ['!' as int, '=' as int]
    case Lt => ['<' as int]
    case Le => ['<' as int, '=' as int]
    case Gt => ['>' as int]
    case Ge => ['>' as int, '=' as int]
    case And => ['&' as int, '&' as int]
    case Or => ['|' as int, '|' as int]
  }

  const VAR_PREFIX: Str := ['v' as int, 'a' as int, 'r' as int, ':' as int]
  const INT_PREFIX: Str := ['i' as int, 'n' as int, 't' as int, ':' as int]
  const BOOL_PREFIX: Str := ['b' as int, 'o' as int, 'o' as int, 'l' as int, ':' as int]
  const STR_PREFIX: Str := ['s' as int, 't' as int, 'r' as int, ':' as int]
  const TRUE_TEXT: Str := ['t' as int, 'r' as int, 'u' as int, 'e' as int]
  const FALSE_TEXT: Str := ['f' as int, 'a' as int, 'l' as int, 's' as int, 'e' as int]

  function SignedDecimal(i: int): Str {
    if i < 0 then ['-' as int] + Decimal(-i) else Decimal(i)
  }

  // A variable or a literal as text; null has none.
  function AtomText(e: Expr): Str {
    match e
    case Variable(name) => VAR_PREFIX + name
    case Literal(Int(i)) => INT_PREFIX + SignedDecimal(i)
    case Literal(Bool(b)) => BOOL_PREFIX + (if b then TRUE_TEXT else FALSE_TEXT)
    case Literal(Text(s)) => STR_PREFIX + s
    case _ => []
  }

  predicate IsAtom(e: Expr) {
    e.Variable? || e.Literal?
  }

  // Empty for everything that is not an operator tree over variables and literals.
  function ExprKey(e: Expr): Str {
    if !e.Binary? then []
    else
      var l := ExprKey(e.left);
      var r := ExprKey(e.right);
      if (l != [] || IsAtom(e.left)) && (r != [] || IsAtom(e.right)) then
        [OPEN] + OpText(e.op) + [SPACE] + (if l == [] then AtomText(e.left) else l)
        + [SPACE] + (if r == [] then AtomText(e.right) else r) + [CLOSE]
      else []
  }

  predicate IsDelimiter(c: Byte) {
    c == SPACE || c == OPEN || c == CLOSE
  }

  // No blank or parenthesis, as in any identifier of the language.
  predicate Word(s: Str) {
    forall c | c in s :: !IsDelimiter(c)
  }

  // No string literals, and identifiers for names.
  predicate Keyable(e: Expr) {
    match e
    case Variable(name) => Word(name)
    case Literal(v) => !v.Text?
    case Binary(_, l, r) => Keyable(l) && Keyable(r)
    case Unary(_, _) => true
  }

  // An operand as it appears inside a key.
  function OperandText(e: Expr): Str {
    if ExprKey(e) == [] then AtomText(e) else ExprKey(e)
  }

  predicate HasText(e: Expr) {
    ExprKey(e) != [] || IsAtom(e)
  }

  // ---- injectivity ----

  predicate Ends(rest: Str) {
    rest == [] || rest[0] == SPACE || rest[0] == CLOSE
  }

  lemma {:induction false} DecimalDigits(n: nat)
    ensures Decimal(n) != [] && forall c | c in Decimal(n) :: 48 <= c <= 57
    decreases n
  {
    if n >= 10 {
      DecimalDigits(n / 10);
    }
  }

  lemma {:induction false} DecimalInjective(m: nat, n: nat)
    requires Decimal(m) == Decimal(n)
    ensures m == n
    decreases m
  {
    DecimalDigits(m / 10);
    DecimalDigits(n / 10);
    var d := Decimal(m);
    if m >= 10 && n >= 10 {
      assert d[..|d| - 1] == Decimal(m / 10) == Decimal(n / 10);
      assert d[|d| - 1] == 48 + m % 10 == 48 + n % 10;
      DecimalInjective(m / 10, n / 10);
    }
  }

  lemma SignedFirst(i: int)
    ensures SignedDecimal(i) != [] && (SignedDecimal(i)[0] == '-' as int <==> i < 0)
  {
    DecimalDigits(if i < 0 then -i else i);
    if i >= 0 {
      assert Decimal(i)[0] in Decimal(i);
    }
  }

  lemma SignedInjective(i: int, j: int)
    requires SignedDecimal(i) == SignedDecimal(j)
    ensures i == j
  {
    SignedFirst(i);
    SignedFirst(j);
    if i < 0 {
      assert SignedDecimal(i)[1..] == Decimal(-i) && SignedDecimal(j)[1..] == Decimal(-j);
      DecimalInjective(-i, -j);
    } else {
      DecimalInjective(i, j);
    }
  }

  lemma SignedWord(i: int)
    ensures Word(SignedDecimal(i))
  {
    DecimalDigits(if i < 0 then -i else i);
  }

  lemma AtomWord(e: Expr)
    requires IsAtom(e) && Keyable(e)
    ensures Word(AtomText(e))
  {
    if e.Literal? && e.value.Int? {
      SignedWord(e.value.i);
    }
  }

  lemma WordEnd(a: Str, r: Str, m: nat)
    requires Word(a) && Ends(r) && m < |a + r| && m <= |a|
    ensures m < |a| <==> !IsDelimiter((a + r)[m])
  {
    if m < |a| {
      assert a[m] in a;
    }
  }

  // Two words in front of delimiters are told apart.
  lemma {:induction false} WordSplit(a: Str, b: Str, r: Str, s: Str)
    requires Word(a) && Word(b) && Ends(r) && Ends(s) && a + r == b + s
    ensures a == b && r == s
  {
    var m := if |a| < |b| then |a| else |b|;
    if m < |a + r| {
      WordEnd(a, r, m);
      WordEnd(b, s, m);
    }
    assert |a| == |b|;
    assert (a + r)[..|a|] == a && (b + s)[..|b|] == b;
    assert (a + r)[|a|..] == r && (b + s)[|b|..] == s;
  }

  lemma AtomInjective(a: Expr, b: Expr)
    requires IsAtom(a) && IsAtom(b) && Keyable(a) && Keyable(b) && AtomText(a) == AtomText(b)
    ensures a == b
  {
    var t := AtomText(a);
    if a.Variable? || b.Variable? {
      assert (if a.Variable? then AtomText(a) else AtomText(b))[0] == 'v' as int;
      assert t[4..] == a.name && AtomText(b)[4..] == b.name;
    } else if a.value.Int? || b.value.Int? {
      assert (if a.value.Int? then AtomText(a) else AtomText(b))[0] == 'i' as int;
      assert t[4..] == SignedDecimal(a.value.i) && AtomText(b)[4..] == SignedDecimal(b.value.i);
      SignedInjective(a.value.i, b.value.i);
    } else if a.value.Bool? || b.value.Bool? {
      assert (if a.value.Bool? then AtomText(a) else AtomText(b))[0] == 'b' as int;
      assert t[5] == (if a.value.b then 't' else 'f') as int;
      assert AtomText(b)[5] == (if b.value.b then 't' else 'f') as int;
    }
  }

  lemma OpInjective(a: BinOp, b: BinOp)
    requires OpText(a) == OpText(b)
    ensures a == b
  {
  }

  lemma OpWord(op: BinOp)
    ensures Word(OpText(op))
  {
  }

  lemma KeyShape(e: Expr)
    requires e.Binary? && HasText(e)
    ensures HasText(e.left) && HasText(e.right)
    ensures ExprKey(e) == [OPEN] + OpText(e.op) + [SPACE] + OperandText(e.left) + [SPACE] + OperandText(e.right) + [CLOSE]
  {
  }

  lemma AtomHasNoKey(e: Expr)
    ensures !e.Binary? ==> ExprKey(e) == []
  {
  }

  // Only the text of an operator tree starts with a parenthesis.
  lemma AtomNotTree(a: Expr, b: Expr, r: Str, s: Str)
    requires a.Binary? && HasText(a) && IsAtom(b) && Keyable(b) && Ends(s)
    ensures OperandText(a) + r != OperandText(b) + s
  {
    hide AtomText, OpText;
    KeyShape(a);
    AtomHasNoKey(b);
    AtomWord(b);
    assert (OperandText(a) + r)[0] == OPEN;
    var t := OperandText(b) + s;
    AtomIsOperand(b);
    if OperandText(b) != [] {
      assert t[0] == AtomText(b)[0] && AtomText(b)[0] in AtomText(b);
    }
  }

  lemma Regroup(k: Str, o: Str, l: Str, r: Str, rest: Str)
    requires k == [OPEN] + o + [SPACE] + l + [SPACE] + r + [CLOSE]
    ensures (k + rest)[1..] == o + ([SPACE] + (l + ([SPACE] + (r + ([CLOSE] + rest)))))
  {
    assert k + rest == [OPEN] + (o + ([SPACE] + (l + ([SPACE] + (r + ([CLOSE] + rest))))));
  }

  // The text of an operand, in front of a blank, a closing parenthesis or the end, determines the operand.
  lemma {:induction false} TextInjective(a: Expr, b: Expr, r: Str, s: Str)
    requires Keyable(a) && Keyable(b) && HasText(a) && HasText(b) && Ends(r) && Ends(s)
    requires OperandText(a) + r == OperandText(b) + s
    ensures a == b && r == s
    decreases a
  {
    hide ExprKey, AtomText, OpText, OperandText;
    AtomHasNoKey(a);
    AtomHasNoKey(b);
    if a.Binary? && b.Binary? {
      KeyShape(a);
      KeyShape(b);
      TreeText(a);
      TreeText(b);
      Regroup(ExprKey(a), OpText(a.op), OperandText(a.left), OperandText(a.right), r);
      Regroup(ExprKey(b), OpText(b.op), OperandText(b.left), OperandText(b.right), s);
      var ra := [CLOSE] + r;
      var rb := [CLOSE] + s;
      var la := [SPACE] + (OperandText(a.right) + ra);
      var lb := [SPACE] + (OperandText(b.right) + rb);
      OpWord(a.op);
      OpWord(b.op);
      WordSplit(OpText(a.op), OpText(b.op), [SPACE] + (OperandText(a.left) + la), [SPACE] + (OperandText(b.left) + lb));
      OpInjective(a.op, b.op);
      ConsSame(SPACE, OperandText(a.left) + la, OperandText(b.left) + lb);
      TextInjective(a.left, b.left, la, lb);
      ConsSame(SPACE, OperandText(a.right) + ra, OperandText(b.right) + rb);
      TextInjective(a.right, b.right, ra, rb);
      ConsSame(CLOSE, r, s);
    } else if a.Binary? {
      AtomNotTree(a, b, r, s);
    } else if b.Binary? {
      AtomNotTree(b, a, s, r);
    } else {
      AtomIsOperand(a);
      AtomIsOperand(b);
      AtomWord(a);
      AtomWord(b);
      WordSplit(AtomText(a), AtomText(b), r, s);
      AtomInjective(a, b);
    }
  }

  lemma TreeText(e: Expr)
    requires e.Binary? && HasText(e)
    ensures OperandText(e) == ExprKey(e)
  {
  }

  lemma AtomIsOperand(e: Expr)
    requires IsAtom(e)
    ensures OperandText(e) == AtomText(e)
  {
  }

  lemma ConsSame(c: Byte, a: Str, b: Str)
    requires [c] + a == [c] + b
    ensures a == b
  {
    assert ([c] + a)[1..] == a && ([c] + b)[1..] == b;
  }

  // One key, one expression: on expressions without string literals.
  lemma KeyInjective(a: Expr, b: Expr)
    requires Keyable(a) && Keyable(b) && ExprKey(a) != [] && ExprKey(a) == ExprKey(b)
    ensures a == b
  {
    hide ExprKey, AtomText;
    TextInjective(a, b, [], []);
  }

  // With string literals two different sums share a key, so the second would be taken for the first.
  lemma StringKeysCollide()
    ensures var ab := Text(['a' as int]);
            var longer := Text(['a' as int, ' ' as int, 's' as int, 't' as int, 'r' as int, ':' as int, 'b' as int]);
            var bc := Text(['b' as int, ' ' as int, 's' as int, 't' as int, 'r' as int, ':' as int, 'c' as int]);
            var c := Text(['c' as int]);
            var e1 := Binary(Add, Literal(ab), Literal(bc));
            var e2 := Binary(Add, Literal(longer), Literal(c));
            ExprKey(e1) == ExprKey(e2) != [] && ApplyBinary(Add, ab, bc) != ApplyBinary(Add, longer, c)
  {
    var a: Str := ['a' as int];
    var mid: Str := [SPACE] + STR_PREFIX + ['b' as int];
    var longer: Str := ['a' as int, ' ' as int, 's' as int, 't' as int, 'r' as int, ':' as int, 'b' as int];
    var bc: Str := ['b' as int, ' ' as int, 's' as int, 't' as int, 'r' as int, ':' as int, 'c' as int];
    var c: Str := ['c' as int];
    var e1 := Binary(Add, Literal(Text(a)), Literal(Text(bc)));
    var e2 := Binary(Add, Literal(Text(longer)), Literal(Text(c)));
    assert longer == a + mid;
    assert ExprKey(e1.left) == [] && ExprKey(e1.right) == [] && ExprKey(e2.left) == [] && ExprKey(e2.right) == [];
    assert ExprKey(e1) == [OPEN] + OpText(Add) + [SPACE] + (STR_PREFIX + a) + [SPACE] + (STR_PREFIX + bc) + [CLOSE];
    assert ExprKey(e2) == [OPEN] + OpText(Add) + [SPACE] + (STR_PREFIX + longer) + [SPACE] + (STR_PREFIX + c) + [CLOSE];
    assert (STR_PREFIX + a) + [SPACE] + (STR_PREFIX + bc) == (STR_PREFIX + longer) + [SPACE] + (STR_PREFIX + c);
    assert ExprKey(e1) == ExprKey(e2);
    assert (a + bc)[1] != (longer + c)[1];
  }
}
