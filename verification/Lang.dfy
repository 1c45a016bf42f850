/** The GlyphLang fragment both back ends run: values, operators, expressions and statements. */
module Lang {
  import opened Bytes

  // Go strings are byte sequences.
  type Str = seq<Byte>

  datatype Value = Null | Int(i: Int64) | Bool(b: bool) | Text(s: Str)

  datatype Error =
    | DivisionByZero
    | ModuloByZero
    | TypeError
    | UndefinedVariable(name: Str)
    | LoopLimitExceeded
    | ValidationFailed(cause: Option<Error>)
    | StackUnderflow
    | BadConstantIndex
    | TruncatedOperand
    | UnknownOpcode

  type Evaluated = Result<Value, Error>

  datatype BinOp = Add | Sub | Mul | Div | Mod | Eq | Ne | Lt | Le | Gt | Ge | And | Or

  datatype UnOp = Not | Neg

  datatype Expr =
    | Literal(value: Value)
    | Variable(name: Str)
    | Binary(op: BinOp, left: Expr, right: Expr)
    | Unary(uop: UnOp, operand: Expr)

  // A validation calls a function; `test` is what that function makes of the variables in scope.
  datatype Stmt =
    | Assign(target: Str, value: Expr)
    | Reassign(target: Str, value: Expr)
    | Return(value: Expr)
    | If(cond: Expr, thenBlock: seq<Stmt>, elseBlock: seq<Stmt>)
    | While(cond: Expr, body: seq<Stmt>)
    | Switch(value: Expr, cases: seq<Case>, defaultBlock: seq<Stmt>)
    | ExprStmt(value: Expr)
    | Validation(test: Expr)
    | Break
    | Continue

  datatype Case = Case(value: Expr, body: seq<Stmt>)

  // Go's integer division truncates toward zero.
  function TruncDiv(a: int, b: int): int
    requires b != 0
  {
    if (a >= 0) == (b > 0) then Abs(a) / Abs(b) else -(Abs(a) / Abs(b))
  }

  // Go's remainder takes the sign of the dividend.
  function TruncMod(a: int, b: int): int
    requires b != 0
  {
    if a >= 0 then Abs(a) % Abs(b) else -(Abs(a) % Abs(b))
  }

  function Abs(x: int): nat {
    if x < 0 then -x else x
  }

  // Go compares strings byte by byte.
  predicate TextLess(a: Str, b: Str) {
    if b == [] then false
    else if a == [] then true
    else if a[0] != b[0] then a[0] < b[0]
    else TextLess(a[1..], b[1..])
  }

  function ApplyBinary(op: BinOp, a: Value, b: Value): Evaluated {
    match op
    case Add =>
      if a.Int? && b.Int? then Ok(Int(Wrap64(a.i + b.i)))
      else if a.Text? && b.Text? then Ok(Text(a.s + b.s))
      else Err(TypeError)
    case Sub => if a.Int? && b.Int? then Ok(Int(Wrap64(a.i - b.i))) else Err(TypeError)
    case Mul => if a.Int? && b.Int? then Ok(Int(Wrap64(a.i * b.i))) else Err(TypeError)
    case Div =>
      if !(a.Int? && b.Int?) then Err(TypeError)
      else if b.i == 0 then Err(DivisionByZero)
      else Ok(Int(Wrap64(TruncDiv(a.i, b.i))))
    case Mod =>
      if !(a.Int? && b.Int?) then Err(TypeError)
      else if b.i == 0 then Err(ModuloByZero)
      else Ok(Int(Wrap64(TruncMod(a.i, b.i))))
    case Eq => Ok(Bool(a == b))
    case Ne => Ok(Bool(a != b))
    case Lt => Compare(a, b, false, true)
    case Gt => Compare(b, a, false, true)
    case Le => Compare(b, a, true, false)
    case Ge => Compare(a, b, true, false)
    case And => if a.Bool? && b.Bool? then Ok(Bool(a.b && b.b)) else Err(TypeError)
    case Or => if a.Bool? && b.Bool? then Ok(Bool(a.b || b.b)) else Err(TypeError)
  }

  // `whenLess` if a < b, `otherwise` if not; anything but two numbers or two strings is an error.
  function Compare(a: Value, b: Value, otherwise: bool, whenLess: bool): Evaluated {
    if a.Int? && b.Int? then Ok(Bool(if a.i < b.i then whenLess else otherwise))
    else if a.Text? && b.Text? then Ok(Bool(if TextLess(a.s, b.s) then whenLess else otherwise))
    else Err(TypeError)
  }

  function ApplyUnary(op: UnOp, a: Value): Evaluated {
    match op
    case Not => if a.Bool? then Ok(Bool(!a.b)) else Err(TypeError)
    case Neg => if a.Int? then Ok(Int(Wrap64(-(a.i as int)))) else Err(TypeError)
  }

  // "__switch_", the prefix of the variables the compiler makes up for itself.
  const SWITCH_PREFIX: Str := [95, 95, 115, 119, 105, 116, 99, 104, 95]

  predicate IsTemp(name: Str) {
    SWITCH_PREFIX <= name
  }

  // A name that is neither reserved for the compiler nor a dotted field path.
  predicate PlainName(name: Str) {
    !IsTemp(name) && '.' as int !in name
  }

  predicate PlainExpr(e: Expr) {
    match e
    case Literal(_) => true
    case Variable(name) => PlainName(name)
    case Binary(_, l, r) => PlainExpr(l) && PlainExpr(r)
    case Unary(_, r) => PlainExpr(r)
  }

  predicate PlainStmt(s: Stmt)
    decreases s, 0
  {
    match s
    case Assign(x, e) => PlainName(x) && PlainExpr(e)
    case Reassign(x, e) => PlainName(x) && PlainExpr(e)
    case Return(e) => PlainExpr(e)
    case If(c, t, f) => PlainExpr(c) && PlainBlock(t) && PlainBlock(f)
    case While(c, b) => PlainExpr(c) && PlainBlock(b)
    case Switch(v, cases, d) => PlainExpr(v) && PlainCases(cases) && PlainBlock(d)
    case ExprStmt(e) => PlainExpr(e)
    case Validation(_) => true
    case Break => true
    case Continue => true
  }

  predicate PlainBlock(stmts: seq<Stmt>)
    decreases stmts, 0
  {
    stmts == [] || (PlainStmt(stmts[0]) && PlainBlock(stmts[1..]))
  }

  predicate PlainCases(cases: seq<Case>)
    decreases cases, 0
  {
    cases == [] || (PlainExpr(cases[0].value) && PlainBlock(cases[0].body) && PlainCases(cases[1..]))
  }
}
