/** What the compiler emits, as functions of the program: the specification of class Compiler. */
module CodeGen {
  import opened Bytes
  import opened Lang
  import opened Opcodes

  datatype CompileError =
    | UndefinedName(name: Str)
    | Redeclared(name: Str)
    | Undeclared(name: Str)
    | BreakOutsideLoop
    | ContinueOutsideLoop

  // `index` is where the pool keeps the variable's name.
  datatype Symbol = Symbol(index: nat, builtin: bool)

  type Scope = map<Str, Symbol>

  // The compiler's state: constant pool, chain of scopes (outermost first), label counter.
  datatype CState = CState(constants: seq<Value>, scopes: seq<Scope>, labels: nat)

  datatype Emitted = Emitted(code: seq<Instr>, cs: CState)

  type Emission = Result<Emitted, CompileError>

  function IndexOf(constants: seq<Value>, v: Value): (i: nat)
    ensures i <= |constants|
    ensures i < |constants| ==> constants[i] == v
    ensures v !in constants[..i]
  {
    if constants == [] || constants[0] == v then 0
    else
      assert forall j :: 0 < j <= |constants| ==> constants[..j] == [constants[0]] + constants[1..][..j - 1];
      1 + IndexOf(constants[1..], v)
  }

  // The pool without duplicates: an old entry is reused.
  function AddConstant(constants: seq<Value>, v: Value): (r: (seq<Value>, nat))
    ensures constants <= r.0 && r.1 < |r.0| && r.0[r.1] == v
  {
    var i := IndexOf(constants, v);
    (if i < |constants| then constants else constants + [v], i)
  }

  function Resolve(scopes: seq<Scope>, name: Str): Option<Symbol> {
    if scopes == [] then None
    else if name in scopes[|scopes| - 1] then Some(scopes[|scopes| - 1][name])
    else Resolve(scopes[..|scopes| - 1], name)
  }

  function Define(scopes: seq<Scope>, name: Str, symbol: Symbol): (r: seq<Scope>)
    requires scopes != []
    ensures |r| == |scopes|
  {
    scopes[..|scopes| - 1] + [scopes[|scopes| - 1][name := symbol]]
  }

  function Decimal(n: nat): Str {
    if n < 10 then [48 + n] else Decimal(n / 10) + [48 + n % 10]
  }

  function TempName(n: nat): Str {
    SWITCH_PREFIX + Decimal(n)
  }

  function EmitExpr(cs: CState, e: Expr): (r: Emission)
    ensures r.Ok? ==> r.value.cs.scopes == cs.scopes && r.value.cs.labels == cs.labels
    decreases e
  {
    match e
    case Literal(v) =>
      var (constants, index) := AddConstant(cs.constants, v);
      Ok(Emitted([WithOperand(OP_PUSH, Truncate32(index))], cs.(constants := constants)))
    case Variable(name) =>
      (match Resolve(cs.scopes, name)
       case None => Err(UndefinedName(name))
       case Some(symbol) => Ok(Emitted([WithOperand(OP_LOAD_VAR, Truncate32(symbol.index))], cs)))
    case Unary(op, operand) =>
      var r :- EmitExpr(cs, operand);
      Ok(Emitted(r.code + [Plain(UnaryOpcode(op))], r.cs))
    case Binary(op, left, right) =>
      var l :- EmitExpr(cs, left);
      var r :- EmitExpr(l.cs, right);
      Ok(Emitted(l.code + r.code + [Plain(BinaryOpcode(op))], r.cs))
  }

  // A store to `name`, whose name is added to the pool first.
  function EmitStore(em: Emitted, name: Str): Emitted {
    var (constants, index) := AddConstant(em.cs.constants, Text(name));
    Emitted(em.code + [WithOperand(OP_STORE_VAR, Truncate32(index))], em.cs.(constants := constants))
  }

  // `base` is the offset of the statement; `loop` is where `continue` goes, if a loop encloses it.
  function EmitStmt(cs: CState, s: Stmt, base: nat, loop: Option<nat>): (r: Emission)
    requires cs.scopes != []
    ensures r.Ok? ==> |r.value.cs.scopes| == |cs.scopes|
    decreases s, 1
  {
    match s
    case Assign(x, e) =>
      var here := cs.scopes[|cs.scopes| - 1];
      if x in here && !here[x].builtin then Err(Redeclared(x))
      else
        var value :- EmitExpr(cs, e);
        var store := EmitStore(value, x);
        if Resolve(cs.scopes, x).Some? then Ok(store)
        else
          var symbol := Symbol(AddConstant(value.cs.constants, Text(x)).1, false);
          Ok(Emitted(store.code, store.cs.(scopes := Define(cs.scopes, x, symbol))))
    case Reassign(x, e) =>
      if Resolve(cs.scopes, x).None? then Err(Undeclared(x))
      else
        var value :- EmitExpr(cs, e);
        Ok(EmitStore(value, x))
    case Return(e) =>
      var value :- EmitExpr(cs, e);
      Ok(Emitted(value.code + [Plain(OP_RETURN)], value.cs))
    case ExprStmt(e) =>
      var value :- EmitExpr(cs, e);
      Ok(Emitted(value.code + [Plain(OP_POP)], value.cs))
    case Validation(_) => Ok(Emitted([], cs))
    case Break =>
      if loop.None? then Err(BreakOutsideLoop) else Ok(Emitted([Hole(ToLoopEnd)], cs))
    case Continue =>
      if loop.None? then Err(ContinueOutsideLoop)
      else Ok(Emitted([WithOperand(OP_JUMP, Truncate32(loop.value))], cs))
    case If(c, t, f) =>
      var cond :- EmitExpr(cs, c);
      var thenBase := base + Size(cond.code) + 5;
      var thn :- EmitScope(cond.cs, t, thenBase, loop);
      var elseBase := thenBase + Size(thn.code) + 5;
      var els :- EmitScope(thn.cs, f, elseBase, loop);
      Ok(Emitted(cond.code + [WithOperand(OP_JUMP_IF_FALSE, Truncate32(elseBase))]
                 + thn.code + [WithOperand(OP_JUMP, Truncate32(elseBase + Size(els.code)))] + els.code, els.cs))
    case While(c, b) =>
      var cond :- EmitExpr(cs, c);
      var bodyBase := base + Size(cond.code) + 5;
      var body :- EmitScope(cond.cs, b, bodyBase, Some(base));
      var end := bodyBase + Size(body.code) + 5;
      Ok(Emitted(cond.code + [WithOperand(OP_JUMP_IF_FALSE, Truncate32(end))]
                 + Fill(body.code, ToLoopEnd, Truncate32(end)) + [WithOperand(OP_JUMP, Truncate32(base))], body.cs))
    case Switch(e, _, _) =>
      var (constants, temp) := AddConstant(cs.constants, Text(TempName(cs.labels)));
      var scopes := Define(cs.scopes, TempName(cs.labels), Symbol(temp, false));
      var value :- EmitExpr(CState(constants, scopes, cs.labels + 1), e);
      var arms :- EmitArms(value.cs, s, temp, base + Size(value.code) + 5, loop);
      Ok(Emitted(value.code + [WithOperand(OP_STORE_VAR, Truncate32(temp))] + arms.code, arms.cs))
  }

  // The cases, each leaving for the end of the switch, and then the default.
  function EmitArms(cs: CState, s: Stmt, temp: nat, base: nat, loop: Option<nat>): (r: Emission)
    requires cs.scopes != [] && s.Switch?
    ensures r.Ok? ==> |r.value.cs.scopes| == |cs.scopes|
    decreases s, 0
  {
    var body :- EmitCases(cs, s.cases, temp, base, loop);
    var dflt :- EmitScope(body.cs, s.defaultBlock, base + Size(body.code), loop);
    var end := base + Size(body.code) + Size(dflt.code);
    Ok(Emitted(Fill(body.code, ToSwitchEnd, Truncate32(end)) + dflt.code, dflt.cs))
  }

  function EmitBlock(cs: CState, stmts: seq<Stmt>, base: nat, loop: Option<nat>): (r: Emission)
    requires cs.scopes != []
    ensures r.Ok? ==> |r.value.cs.scopes| == |cs.scopes|
    decreases stmts, 0
  {
    if stmts == [] then Ok(Emitted([], cs))
    else
      var first :- EmitStmt(cs, stmts[0], base, loop);
      var rest :- EmitBlock(first.cs, stmts[1..], base + Size(first.code), loop);
      Ok(Emitted(first.code + rest.code, rest.cs))
  }

  // A block in a scope of its own.
  function EmitScope(cs: CState, stmts: seq<Stmt>, base: nat, loop: Option<nat>): (r: Emission)
    requires cs.scopes != []
    ensures r.Ok? ==> |r.value.cs.scopes| == |cs.scopes|
    decreases stmts, 1
  {
    var inner :- EmitBlock(cs.(scopes := cs.scopes + [map[]]), stmts, base, loop);
    Ok(Emitted(inner.code, inner.cs.(scopes := inner.cs.scopes[..|cs.scopes|])))
  }

  function EmitCases(cs: CState, cases: seq<Case>, temp: nat, base: nat, loop: Option<nat>): (r: Emission)
    requires cs.scopes != []
    ensures r.Ok? ==> |r.value.cs.scopes| == |cs.scopes|
    decreases cases, 0
  {
    if cases == [] then Ok(Emitted([], cs))
    else
      var first :- EmitCase(cs, cases[0], temp, base, loop);
      var rest :- EmitCases(first.cs, cases[1..], temp, base + Size(first.code), loop);
      Ok(Emitted(first.code + rest.code, rest.cs))
  }

  function EmitCase(cs: CState, c: Case, temp: nat, base: nat, loop: Option<nat>): (r: Emission)
    requires cs.scopes != []
    ensures r.Ok? ==> |r.value.cs.scopes| == |cs.scopes|
    decreases c, 0
  {
    var value :- EmitExpr(cs, c.value);
    var bodyBase := base + 5 + Size(value.code) + 6;
    var body :- EmitScope(value.cs, c.body, bodyBase, loop);
    var next := bodyBase + Size(body.code) + 5;
    Ok(Emitted([WithOperand(OP_LOAD_VAR, Truncate32(temp))] + value.code
               + [Plain(OP_EQ), WithOperand(OP_JUMP_IF_FALSE, Truncate32(next))]
               + body.code + [Hole(ToSwitchEnd)], body.cs))
  }

  // What one compilation starts from: a route, command, task, handler, worker or function. Its
  // parameters and injections are plain names; the request's own variables are built in.
  // `returnsNull`: a function without a final return returns null, everything else halts.
  datatype Unit = Unit(names: seq<Str>, builtins: seq<Str>, body: seq<Stmt>, returnsNull: bool)

  function DefineNames(cs: CState, names: seq<Str>, builtin: bool): (r: CState)
    requires cs.scopes != []
    ensures |r.scopes| == |cs.scopes|
    decreases |names|
  {
    if names == [] then cs
    else
      var (constants, index) := AddConstant(cs.constants, Text(names[0]));
      var scopes := Define(cs.scopes, names[0], Symbol(index, builtin));
      DefineNames(cs.(constants := constants, scopes := scopes), names[1..], builtin)
  }

  // The global table below the unit's own.
  function UnitEntry(u: Unit): (cs: CState)
    ensures |cs.scopes| == 2
  {
    DefineNames(DefineNames(CState([], [map[], map[]], 0), u.names, false), u.builtins, true)
  }

  predicate EndsInReturn(body: seq<Stmt>) {
    body != [] && body[|body| - 1].Return?
  }

  function EmitUnit(u: Unit): Emission {
    var body :- EmitBlock(UnitEntry(u), u.body, 0, None);
    if EndsInReturn(u.body) then Ok(body)
    else if u.returnsNull then
      var (constants, index) := AddConstant(body.cs.constants, Null);
      Ok(Emitted(body.code + [WithOperand(OP_PUSH, Truncate32(index)), Plain(OP_RETURN)],
                 body.cs.(constants := constants)))
    else Ok(Emitted(body.code + [Plain(OP_HALT)], body.cs))
  }
}
