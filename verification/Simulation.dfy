/** The machine running emitted code does what the program does as compiled code reads it. */
module Simulation {
  import opened Bytes
  import opened Lang
  import opened Opcodes
  import opened Interpreter
  import opened CodeGen
  import opened Scoping
  import opened EmissionFacts
  import opened Vm
  import opened Placement

  function Max(a: nat, b: nat): nat {
    if a > b then a else b
  }

  // Stack slots an expression uses at most.
  function Need(e: Expr): nat {
    match e
    case Literal(_) => 1
    case Variable(_) => 1
    case Unary(_, r) => Need(r)
    case Binary(_, l, r) => Max(Need(l), 1 + Need(r))
  }

  function NeedStmt(s: Stmt): nat
    decreases s, 0
  {
    match s
    case Assign(_, e) => Need(e)
    case Reassign(_, e) => Need(e)
    case Return(e) => Need(e)
    case ExprStmt(e) => Need(e)
    case If(c, t, f) => Max(Need(c), Max(NeedBlock(t), NeedBlock(f)))
    case While(c, b) => Max(Need(c), NeedBlock(b))
    case Switch(e, cases, d) => Max(Need(e), Max(NeedCases(cases), NeedBlock(d)))
    case Validation(_) => 0
    case Break => 0
    case Continue => 0
  }

  function NeedBlock(stmts: seq<Stmt>): nat
    decreases stmts, 0
  {
    if stmts == [] then 0 else Max(NeedStmt(stmts[0]), NeedBlock(stmts[1..]))
  }

  function NeedCases(cases: seq<Case>): nat
    decreases cases, 0
  {
    if cases == [] then 0
    else Max(1 + Need(cases[0].value), Max(NeedBlock(cases[0].body), NeedCases(cases[1..])))
  }

  // The only errors compiled code can stop with: no undefined variable, no stack underflow, no
  // constant index out of bounds.
  predicate Ordinary(r: Evaluated) {
    r.Err? ==> r.error == DivisionByZero || r.error == ModuloByZero || r.error == TypeError
  }

  lemma ApplyOrdinary(op: BinOp, uop: UnOp, a: Value, b: Value)
    ensures Ordinary(ApplyBinary(op, a, b)) && Ordinary(ApplyUnary(uop, a))
  {
  }

  // An expression leaves exactly its value on top, or stops the machine with its error.
  ghost predicate Yields(p: Program, st: State, k: nat, size: nat, r: Evaluated) {
    Run(p, st, k) ==
    match r
    case Err(x) => Err(x)
    case Ok(v) => Ok(st.(pc := st.pc + size, stack := st.stack + [v]))
  }

  // The machine stands at `base`, and compile-time and run-time bindings match.
  ghost predicate Entered(pl: Place, cs: CState, base: nat, env: Env, st: State) {
    && Small(pl) && Ready(pl, base, st)
    && Pooled(cs.scopes, cs.constants) && Agree(env, cs.scopes, st.locals)
  }

  // The emitted code is in place, and the pool it was compiled against survives in the program's.
  ghost predicate Loaded(pl: Place, base: nat, em: Emitted) {
    em.cs.constants <= pl.p.constants && Placed(pl, base, em.code)
  }

  lemma {:induction false} SimExpr(pl: Place, cs: CState, e: Expr, base: nat, env: Env, st: State) returns (k: nat)
    requires PlainExpr(e) && |st.stack| + Need(e) <= MAX_STACK
    requires Entered(pl, cs, base, env, st)
    requires EmitExpr(cs, e).Ok? && Loaded(pl, base, EmitExpr(cs, e).value)
    ensures Yields(pl.p, st, k, Size(EmitExpr(cs, e).value.code), Eval(AsCompiled, e, env))
    ensures Ordinary(Eval(AsCompiled, e, env))
    decreases e, 1
  {
    hide *;
    match e
    case Literal(_) => k := SimLeaf(pl, cs, e, base, env, st);
    case Variable(_) => k := SimLeaf(pl, cs, e, base, env, st);
    case Unary(op, operand) => k := SimUnary(pl, cs, op, operand, base, env, st);
    case Binary(op, l, r) => k := SimBinary(pl, cs, op, l, r, base, env, st);
  }

  lemma SimLeaf(pl: Place, cs: CState, e: Expr, base: nat, env: Env, st: State) returns (k: nat)
    requires e.Literal? || e.Variable?
    requires PlainExpr(e) && |st.stack| + Need(e) <= MAX_STACK
    requires Entered(pl, cs, base, env, st)
    requires EmitExpr(cs, e).Ok? && Loaded(pl, base, EmitExpr(cs, e).value)
    ensures Yields(pl.p, st, k, Size(EmitExpr(cs, e).value.code), Eval(AsCompiled, e, env))
    ensures Ordinary(Eval(AsCompiled, e, env))
  {
    hide *;
    k := 1;
    if e.Literal? {
      SimLiteral(pl, cs, e, base, env, st);
    } else {
      SimVariable(pl, cs, e, base, env, st);
    }
  }

  lemma SimLiteral(pl: Place, cs: CState, e: Expr, base: nat, env: Env, st: State)
    requires e.Literal? && |st.stack| + Need(e) <= MAX_STACK
    requires Entered(pl, cs, base, env, st)
    requires EmitExpr(cs, e).Ok? && Loaded(pl, base, EmitExpr(cs, e).value)
    ensures Yields(pl.p, st, 1, Size(EmitExpr(cs, e).value.code), Eval(AsCompiled, e, env))
    ensures Ordinary(Eval(AsCompiled, e, env))
  {
    hide Placed, Agree, Pooled, IsTemp;
    StepPush(pl, base, AddConstant(cs.constants, e.value).1, st);
  }

  lemma SimVariable(pl: Place, cs: CState, e: Expr, base: nat, env: Env, st: State)
    requires e.Variable? && PlainExpr(e) && |st.stack| + Need(e) <= MAX_STACK
    requires Entered(pl, cs, base, env, st)
    requires EmitExpr(cs, e).Ok? && Loaded(pl, base, EmitExpr(cs, e).value)
    ensures Yields(pl.p, st, 1, Size(EmitExpr(cs, e).value.code), Eval(AsCompiled, e, env))
    ensures Ordinary(Eval(AsCompiled, e, env))
  {
    hide Placed, Agree, Pooled, IsTemp;
    PooledResolve(cs.scopes, cs.constants, e.name);
    AgreeGet(env, cs.scopes, st.locals, e.name);
    StepLoad(pl, base, Resolve(cs.scopes, e.name).value.index, e.name, st);
  }

  lemma {:induction false} SimUnary(pl: Place, cs: CState, op: UnOp, operand: Expr, base: nat, env: Env, st: State)
    returns (k: nat)
    requires PlainExpr(Unary(op, operand)) && |st.stack| + Need(Unary(op, operand)) <= MAX_STACK
    requires Entered(pl, cs, base, env, st)
    requires EmitExpr(cs, Unary(op, operand)).Ok? && Loaded(pl, base, EmitExpr(cs, Unary(op, operand)).value)
    ensures Yields(pl.p, st, k, Size(EmitExpr(cs, Unary(op, operand)).value.code), Eval(AsCompiled, Unary(op, operand), env))
    ensures Ordinary(Eval(AsCompiled, Unary(op, operand), env))
    decreases Unary(op, operand), 0
  {
    hide Run, Placed, Agree, Pooled, ApplyUnary, Truncate32, IsTemp;
    var r := EmitExpr(cs, operand).value;
    PlacedSplit(pl, base, r.code, [Plain(UnaryOpcode(op))]);
    var j := SimExpr(pl, cs, operand, base, env, st);
    k := j;
    var v := Eval(AsCompiled, operand, env);
    if v.Ok? {
      ApplyOrdinary(Add, op, v.value, v.value);
      var mid := st.(pc := st.pc + Size(r.code), stack := st.stack + [v.value]);
      NeedPositive(operand);
      StepUnaryOp(pl, base + Size(r.code), op, mid, st.stack, v.value);
      RunCompose(pl.p, st, j, 1);
      k := j + 1;
    }
  }

  lemma NeedPositive(e: Expr)
    ensures Need(e) >= 1
  {
  }

  lemma {:induction false} SimBinary(pl: Place, cs: CState, op: BinOp, l: Expr, r: Expr, base: nat, env: Env, st: State)
    returns (k: nat)
    requires PlainExpr(Binary(op, l, r)) && |st.stack| + Need(Binary(op, l, r)) <= MAX_STACK
    requires Entered(pl, cs, base, env, st)
    requires EmitExpr(cs, Binary(op, l, r)).Ok? && Loaded(pl, base, EmitExpr(cs, Binary(op, l, r)).value)
    ensures Yields(pl.p, st, k, Size(EmitExpr(cs, Binary(op, l, r)).value.code), Eval(AsCompiled, Binary(op, l, r), env))
    ensures Ordinary(Eval(AsCompiled, Binary(op, l, r), env))
    decreases Binary(op, l, r), 0
  {
    hide Run, Placed, Agree, Pooled, ApplyBinary, Yields, Straight, Sealed, Truncate32, IsTemp;
    var left := EmitExpr(cs, l).value;
    var right := EmitExpr(left.cs, r).value;
    PlacedSplit(pl, base, left.code + right.code, [Plain(BinaryOpcode(op))]);
    PlacedSplit(pl, base, left.code, right.code);
    ExprGrows(cs, l, false, false);
    ExprKeeps(left.cs, r);
    var j := SimExpr(pl, cs, l, base, env, st);
    var a := Eval(AsCompiled, l, env);
    var i := 0;
    if a.Ok? {
      i := SimExpr(pl, left.cs, r, base + Size(left.code), env, Above(st, Size(left.code), a.value));
      var b := Eval(AsCompiled, r, env);
      if b.Ok? {
        ApplyOrdinary(op, Not, a.value, b.value);
      }
    }
    NeedPositive(r);
    k := JoinBinary(pl, base, op, left.code, right.code, st, j, i, a, Eval(AsCompiled, r, env));
  }

  // The state after code of this size has put a value on top.
  function Above(st: State, size: nat, v: Value): State {
    st.(pc := st.pc + size, stack := st.stack + [v])
  }

  function BinaryResult(op: BinOp, a: Evaluated, b: Evaluated): Evaluated {
    if a.Err? then a else if b.Err? then b else ApplyBinary(op, a.value, b.value)
  }

  lemma JoinBinary(pl: Place, base: nat, op: BinOp, lc: seq<Instr>, rc: seq<Instr>, st: State, j: nat, i: nat,
                   a: Evaluated, b: Evaluated) returns (k: nat)
    requires Placed(pl, base, lc + rc + [Plain(BinaryOpcode(op))]) && Ready(pl, base, st)
    requires |st.stack| < MAX_STACK
    requires Yields(pl.p, st, j, Size(lc), a)
    requires a.Ok? ==> Yields(pl.p, Above(st, Size(lc), a.value), i, Size(rc), b)
    ensures Yields(pl.p, st, k, Size(lc + rc + [Plain(BinaryOpcode(op))]), BinaryResult(op, a, b))
  {
    hide Run, Placed, ApplyBinary, Step;
    PlacedSplit(pl, base, lc + rc, [Plain(BinaryOpcode(op))]);
    PlacedSplit(pl, base, lc, rc);
    k := j;
    if a.Ok? {
      var mid := Above(st, Size(lc), a.value);
      RunCompose(pl.p, st, j, i);
      k := j + i;
      if b.Ok? {
        StepBinaryOp(pl, base + Size(lc + rc), op, Above(mid, Size(rc), b.value), st.stack, a.value, b.value);
        RunCompose(pl.p, st, j + i, 1);
        k := j + i + 1;
      }
    }
  }
}
