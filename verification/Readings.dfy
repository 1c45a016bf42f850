/** The interpreter and compiled code read a program differently in three places. The interpreter skips the
  * right operand of a decided `&&` or `||`, and compiled code evaluates it; the interpreter performs
  * validations, and compiled code has none; the interpreter answers a body that just ends with its last
  * result, and compiled code with null. When a whole run goes the same way all the same. */
module Readings {
  import opened Bytes
  import opened Lang
  import opened Interpreter
  import opened CodeGen
  import opened Vm
  import opened Simulation
  import opened Theorems

  // ---- expressions ----

  // The left operand alone decides.
  predicate Decides(op: BinOp, a: Value) {
    a.Bool? && ((op.And? && !a.b) || (op.Or? && a.b))
  }

  // The interpreter does not come to the right operand: the left one decides, or is no boolean.
  predicate StopsAtLeft(op: BinOp, a: Value) {
    (op.And? || op.Or?) && (!a.Bool? || Decides(op, a))
  }

  // The error at the first operand that the interpreter leaves out and that fails, or is no boolean.
  function Skipped(e: Expr, env: Env): Option<Error> {
    match e
    case Literal(_) => None
    case Variable(_) => None
    case Unary(_, r) => Skipped(r, env)
    case Binary(op, l, r) =>
      if Skipped(l, env).Some? then Skipped(l, env)
      else
        var a := Eval(AsWritten, l, env);
        if a.Err? then None
        else if !StopsAtLeft(op, a.value) then Skipped(r, env)
        else
          match Eval(AsCompiled, r, env)
          case Err(x) => Some(x)
          case Ok(b) => if a.value.Bool? && !b.Bool? then Some(TypeError) else None
  }

  // Compiled code stops at that operand, and otherwise comes to what the interpreter comes to.
  lemma {:induction false} ReadingsPart(e: Expr, env: Env)
    ensures Eval(AsCompiled, e, env) ==
              if Skipped(e, env).Some? then Err(Skipped(e, env).value) else Eval(AsWritten, e, env)
    decreases e
  {
    match e
    case Literal(_) =>
    case Variable(_) =>
    case Unary(_, r) => ReadingsPart(r, env);
    case Binary(op, l, r) =>
      ReadingsPart(l, env);
      ReadingsPart(r, env);
  }

  // Wherever the interpreter gets a value, compiled code gets the same one exactly if no skipped
  // operand would have failed; and compiled code never succeeds on its own.
  lemma ReadingsAgree(e: Expr, env: Env)
    ensures Eval(AsCompiled, e, env).Ok? ==> Eval(AsWritten, e, env) == Eval(AsCompiled, e, env)
    ensures Eval(AsWritten, e, env).Ok? ==>
              (Eval(AsCompiled, e, env) == Eval(AsWritten, e, env) <==> Skipped(e, env) == None)
  {
    ReadingsPart(e, env);
  }

  // `1 / 0 == 0`
  function DivisionTest(): Expr {
    Binary(Eq, Binary(Div, Literal(Int(1)), Literal(Int(0))), Literal(Int(0)))
  }

  lemma DivisionTestFails(env: Env)
    ensures Eval(AsCompiled, DivisionTest(), env) == Err(DivisionByZero)
  {
    var division := Binary(Div, Literal(Int(1)), Literal(Int(0)));
    assert Eval(AsCompiled, Literal(Int(1)), env) == Ok(Int(1));
    assert Eval(AsCompiled, Literal(Int(0)), env) == Ok(Int(0));
    assert ApplyBinary(Div, Int(1), Int(0)) == Err(DivisionByZero);
    assert Eval(AsCompiled, division, env) == Err(DivisionByZero);
  }

  // The readings really differ: a guard that protects a division does not protect it when compiled.
  lemma GuardNotShort(limit: nat, env: Env)
    requires env != []
    ensures var guarded := Binary(And, Literal(Bool(false)), DivisionTest());
            && Exec(AsWritten, limit, Return(guarded), env) == Returned(Bool(false))
            && Exec(AsCompiled, limit, Return(guarded), env) == Failed(DivisionByZero)
            && Skipped(guarded, env) == Some(DivisionByZero)
  {
    DivisionTestFails(env);
    hide DivisionTest;
    var no := Literal(Bool(false));
    var guarded := Binary(And, no, DivisionTest());
    assert Eval(AsWritten, no, env) == Ok(Bool(false));
    assert Eval(AsCompiled, no, env) == Ok(Bool(false));
    assert Eval(AsWritten, guarded, env) == Ok(Bool(false));
    assert Eval(AsCompiled, guarded, env) == Err(DivisionByZero);
  }

  // ---- runs ----

  // Where two runs part: compiled code stops at an operand the interpreter skips, or the interpreter
  // stops at a validation.
  datatype Parting = Skips(error: Error) | Fails(error: Error)

  function OfExpr(e: Expr, env: Env): Option<Parting> {
    if Skipped(e, env).Some? then Some(Skips(Skipped(e, env).value)) else None
  }

  // The first place, along the interpreter's run, where they part.
  function Parts(limit: nat, s: Stmt, env: Env): Option<Parting>
    requires env != []
    decreases s, 1, 0
  {
    match s
    case Assign(_, e) => OfExpr(e, env)
    case Reassign(x, e) => if Has(env, x) then OfExpr(e, env) else None
    case Return(e) => OfExpr(e, env)
    case ExprStmt(e) => OfExpr(e, env)
    case If(c, t, f) =>
      if OfExpr(c, env).Some? then OfExpr(c, env)
      else
        var v := Eval(AsWritten, c, env);
        if v.Err? || !v.value.Bool? then None
        else PartsBlock(limit, if v.value.b then t else f, env + [map[]])
    case While(_, _) => PartsWhile(limit, s, env, 0)
    case Switch(e, _, _) =>
      if OfExpr(e, env).Some? then OfExpr(e, env)
      else
        var v := Eval(AsWritten, e, env);
        if v.Err? then None else PartsSwitch(limit, s, v.value, 0, env)
    case Validation(test) =>
      var o := Validated(Eval(AsWritten, test, env), env);
      if o.Failed? then Some(Fails(o.error)) else None
    case Break => None
    case Continue => None
  }

  function PartsBlock(limit: nat, stmts: seq<Stmt>, env: Env): Option<Parting>
    requires env != []
    decreases stmts, 0, 0
  {
    if stmts == [] then None
    else if Parts(limit, stmts[0], env).Some? then Parts(limit, stmts[0], env)
    else
      var first := Exec(AsWritten, limit, stmts[0], env);
      if first.Normal? && |stmts| > 1 then PartsBlock(limit, stmts[1..], first.env) else None
  }

  function PartsWhile(limit: nat, s: Stmt, env: Env, iterations: nat): Option<Parting>
    requires env != [] && s.While? && iterations <= limit
    decreases s, 0, limit - iterations
  {
    if iterations == limit then None
    else if OfExpr(s.cond, env).Some? then OfExpr(s.cond, env)
    else
      var v := Eval(AsWritten, s.cond, env);
      if v.Err? || !v.value.Bool? || !v.value.b then None
      else if PartsBlock(limit, s.body, env + [map[]]).Some? then PartsBlock(limit, s.body, env + [map[]])
      else
        var o := CloseScope(ExecBlock(AsWritten, limit, s.body, env + [map[]]));
        if o.Normal? || o.Continued? then PartsWhile(limit, s, o.env, iterations + 1) else None
  }

  function PartsSwitch(limit: nat, s: Stmt, v: Value, i: nat, env: Env): Option<Parting>
    requires env != [] && s.Switch? && i <= |s.cases|
    decreases s, 0, |s.cases| - i
  {
    if i == |s.cases| then PartsBlock(limit, s.defaultBlock, env + [map[]])
    else if OfExpr(s.cases[i].value, env).Some? then OfExpr(s.cases[i].value, env)
    else
      var w := Eval(AsWritten, s.cases[i].value, env);
      if w.Err? then None
      else if v == w.value then PartsBlock(limit, s.cases[i].body, env + [map[]])
      else PartsSwitch(limit, s, v, i + 1, env)
  }

  // The interpreter's outcome against the compiled reading's.
  ghost predicate Follows(d: Option<Parting>, o: Outcome, o': Outcome) {
    match d
    case None => o' == o
    case Some(Skips(x)) => o' == Failed(x) && x != LoopLimitExceeded
    case Some(Fails(x)) => o == Failed(x) && x.ValidationFailed?
  }

  // An expression evaluated by itself.
  lemma ExprParts(e: Expr, env: Env)
    ensures OfExpr(e, env) == None ==> Eval(AsCompiled, e, env) == Eval(AsWritten, e, env)
    ensures OfExpr(e, env).Some? ==>
              OfExpr(e, env).value.Skips? && Eval(AsCompiled, e, env) == Err(OfExpr(e, env).value.error)
              && OfExpr(e, env).value.error != LoopLimitExceeded
  {
    ReadingsPart(e, env);
    EvalNoLimit(AsCompiled, e, env);
  }

  lemma {:induction false} ExecParts(limit: nat, s: Stmt, env: Env)
    requires env != []
    ensures Follows(Parts(limit, s, env), Exec(AsWritten, limit, s, env), Exec(AsCompiled, limit, s, env))
    decreases s, 1, 0
  {
    hide Eval, OfExpr, PartsBlock, PartsWhile, PartsSwitch, ExecBlock, ExecWhile, ExecSwitch;
    match s
    case Assign(_, e) => ExprParts(e, env);
    case Reassign(_, e) => ExprParts(e, env);
    case Return(e) => ExprParts(e, env);
    case ExprStmt(e) => ExprParts(e, env);
    case If(c, t, f) =>
      ExprParts(c, env);
      BlockParts(limit, t, env + [map[]]);
      BlockParts(limit, f, env + [map[]]);
    case While(_, _) => WhileParts(limit, s, env, 0, Null);
    case Switch(e, _, _) =>
      ExprParts(e, env);
      if Eval(AsWritten, e, env).Ok? {
        SwitchParts(limit, s, Eval(AsWritten, e, env).value, 0, env);
      }
    case Validation(_) =>
    case Break =>
    case Continue =>
  }

  lemma {:induction false} BlockParts(limit: nat, stmts: seq<Stmt>, env: Env)
    requires env != []
    ensures Follows(PartsBlock(limit, stmts, env), ExecBlock(AsWritten, limit, stmts, env), ExecBlock(AsCompiled, limit, stmts, env))
    decreases stmts, 0, 0
  {
    hide Exec, Parts;
    if stmts != [] {
      ExecParts(limit, stmts[0], env);
      var first := Exec(AsWritten, limit, stmts[0], env);
      if first.Normal? && |stmts| > 1 {
        BlockParts(limit, stmts[1..], first.env);
      }
    }
  }

  lemma {:induction false} WhileParts(limit: nat, s: Stmt, env: Env, iterations: nat, last: Value)
    requires env != [] && s.While? && iterations <= limit
    ensures Follows(PartsWhile(limit, s, env, iterations), ExecWhile(AsWritten, limit, s, env, iterations, last),
                    ExecWhile(AsCompiled, limit, s, env, iterations, last))
    decreases s, 0, limit - iterations
  {
    hide ExecBlock, PartsBlock, Eval, OfExpr;
    if iterations < limit {
      ExprParts(s.cond, env);
      BlockParts(limit, s.body, env + [map[]]);
      var o := CloseScope(ExecBlock(AsWritten, limit, s.body, env + [map[]]));
      if o.Normal? || o.Continued? {
        WhileParts(limit, s, o.env, iterations + 1, RoundResult(o));
      }
    }
  }

  lemma {:induction false} SwitchParts(limit: nat, s: Stmt, v: Value, i: nat, env: Env)
    requires env != [] && s.Switch? && i <= |s.cases|
    ensures Follows(PartsSwitch(limit, s, v, i, env), ExecSwitch(AsWritten, limit, s, v, i, env),
                    ExecSwitch(AsCompiled, limit, s, v, i, env))
    decreases s, 0, |s.cases| - i
  {
    hide ExecBlock, PartsBlock, Eval, OfExpr;
    if i == |s.cases| {
      BlockParts(limit, s.defaultBlock, env + [map[]]);
    } else {
      ExprParts(s.cases[i].value, env);
      BlockParts(limit, s.cases[i].body, env + [map[]]);
      SwitchParts(limit, s, v, i + 1, env);
    }
  }

  // ---- units ----

  // The interpreter's run of a unit's body.
  function Interpreted(u: Unit, inputs: map<Str, Value>, limit: nat): Outcome {
    ExecBlock(AsWritten, limit, u.body, Initially(inputs))
  }

  function UnitParts(u: Unit, inputs: map<Str, Value>, limit: nat): Option<Parting> {
    PartsBlock(limit, u.body, Initially(inputs))
  }

  // What the interpreter answers: the returned value, the last result at a normal end, or the error.
  function InterpreterAnswer(o: Outcome): Option<Evaluated> {
    match o
    case Returned(v) => Some(Ok(v))
    case Normal(_, result) => Some(Ok(result))
    case Failed(e) => Some(Err(e))
    case Broke(_) => None
    case Continued(_) => None
  }

  // The runs do not part and end with null if just so, within the loop limit; or the interpreter
  // happens to stop with the very error of the operand it skipped.
  predicate Agreed(d: Option<Parting>, o: Outcome) {
    match d
    case None => (o.Normal? ==> o.result == Null) && o != Failed(LoopLimitExceeded)
    case Some(Skips(x)) => o == Failed(x)
    case Some(Fails(_)) => false
  }

  // While they do not part, the compiled file does what the interpreter does.
  lemma InterpreterMatched(u: Unit, inputs: map<Str, Value>, limit: nat)
    requires EmitUnit(u).Ok? && WithinLimits(u, EmitUnit(u).value) && PlainUnit(u) && Provided(u, inputs)
    requires UnitParts(u, inputs, limit) == None
    ensures var em := EmitUnit(u).value;
            Matches(Loadable(em), Launch(em, inputs), limit, Interpreted(u, inputs, limit))
  {
    hide EmitUnit, WithinLimits, PlainUnit, Provided, ExecBlock, PartsBlock, Matches;
    CompilerCorrect(u, inputs, limit);
    BlockParts(limit, u.body, Initially(inputs));
  }

  // Compiled code gives the interpreter's answer exactly if the two agree in this sense.
  lemma CompiledAgainstInterpreter(u: Unit, inputs: map<Str, Value>, limit: nat, a: Evaluated)
    requires EmitUnit(u).Ok? && WithinLimits(u, EmitUnit(u).value) && PlainUnit(u) && Provided(u, inputs)
    requires InterpreterAnswer(Interpreted(u, inputs, limit)) == Some(a)
    ensures var em := EmitUnit(u).value;
            FinishesWith(Loadable(em), Launch(em, inputs), a)
            <==> Agreed(UnitParts(u, inputs, limit), Interpreted(u, inputs, limit))
  {
    hide EmitUnit, WithinLimits, PlainUnit, Provided, ExecBlock, PartsBlock, Loadable, Launch, Run;
    var em := EmitUnit(u).value;
    CompilerCorrect(u, inputs, limit);
    BlockParts(limit, u.body, Initially(inputs));
    if FinishesWith(Loadable(em), Launch(em, inputs), a) {
      OnlyOrdinaryErrors(u, inputs, a);
      OneAnswer(Loadable(em), Launch(em, inputs), limit, CompiledRun(u, inputs, limit), a);
    }
  }

  // In particular for the interpreter as it is, which gives up on a loop after MAX_WHILE_ITERATIONS.
  lemma CompiledAgainstLimit(u: Unit, inputs: map<Str, Value>, a: Evaluated)
    requires EmitUnit(u).Ok? && WithinLimits(u, EmitUnit(u).value) && PlainUnit(u) && Provided(u, inputs)
    requires InterpreterAnswer(Interpreted(u, inputs, MAX_WHILE_ITERATIONS)) == Some(a)
    ensures var em := EmitUnit(u).value;
            FinishesWith(Loadable(em), Launch(em, inputs), a)
            <==> Agreed(UnitParts(u, inputs, MAX_WHILE_ITERATIONS), Interpreted(u, inputs, MAX_WHILE_ITERATIONS))
  {
    hide *;
    CompiledAgainstInterpreter(u, inputs, MAX_WHILE_ITERATIONS, a);
  }

  // A machine that answers at all answers what the outcome says.
  lemma OneAnswer(p: Program, st: State, limit: nat, o: Outcome, a: Evaluated)
    requires Matches(p, st, limit, o) && FinishesWith(p, st, a)
    ensures MachineAnswer(o).Some? ==> MachineAnswer(o) == Some(a)
  {
    hide Run, Ordinary;
    var k: nat :| Finishes(p, st, k, a);
    if MachineAnswer(o).Some? {
      var j: nat :| Finishes(p, st, j, MachineAnswer(o).value);
      FinishesOnce(p, st, j, k, MachineAnswer(o).value, a);
    }
  }

  // The other way round: a value compiled code gives is the interpreter's, unless it is the null of a
  // body that just ends, or the interpreter stops at a validation.
  lemma ValueOfInterpreter(u: Unit, inputs: map<Str, Value>, v: Value)
    requires EmitUnit(u).Ok? && WithinLimits(u, EmitUnit(u).value) && PlainUnit(u) && Provided(u, inputs)
    requires var em := EmitUnit(u).value; FinishesWith(Loadable(em), Launch(em, inputs), Ok(v))
    ensures exists n: nat ::
              var o := Interpreted(u, inputs, n);
              o == Returned(v) || (o.Normal? && v == Null) || (o.Failed? && o.error.ValidationFailed?)
  {
    hide EmitUnit, WithinLimits, PlainUnit, Provided, ExecBlock, PartsBlock, Loadable, Launch, FinishesWith;
    SameAnswers(u, inputs, Ok(v));
    var n: nat :| MachineAnswer(CompiledRun(u, inputs, n)) == Some(Ok(v));
    BlockParts(n, u.body, Initially(inputs));
    var o := Interpreted(u, inputs, n);
    assert o == Returned(v) || (o.Normal? && v == Null) || (o.Failed? && o.error.ValidationFailed?);
  }
}
