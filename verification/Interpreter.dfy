/** The tree-walking interpreter: the reference meaning of a program.
  *
  * An environment is the chain of block scopes, outermost first. `AsWritten` is what the interpreter
  * does. `AsCompiled` is the reading compiled code gives a program: it evaluates both operands of
  * `&&` and `||`, and it performs no validations.
  */
module Interpreter {
  import opened Bytes
  import opened Lang

  type Env = seq<map<Str, Value>>

  datatype Reading = AsWritten | AsCompiled

  // A While gives up after this many iterations in the interpreter; everything below takes the
  // limit as a parameter.
  const MAX_WHILE_ITERATIONS: nat := 1_000_000

  // A normal end comes with the last statement's result; a break or continue has none.
  datatype Outcome =
    | Normal(env: Env, result: Value)
    | Broke(env: Env)
    | Continued(env: Env)
    | Returned(value: Value)
    | Failed(error: Error)

  function Pop<T>(s: seq<T>): seq<T> {
    if s == [] then [] else s[..|s| - 1]
  }

  function Get(env: Env, name: Str): Evaluated {
    if env == [] then Err(UndefinedVariable(name))
    else if name in env[|env| - 1] then Ok(env[|env| - 1][name])
    else Get(env[..|env| - 1], name)
  }

  predicate Has(env: Env, name: Str) {
    env != [] && (name in env[|env| - 1] || Has(env[..|env| - 1], name))
  }

  // Updates the innermost binding of a name that some scope of the chain holds.
  function SetExisting(env: Env, name: Str, v: Value): (env': Env)
    requires Has(env, name)
    ensures |env'| == |env|
  {
    var last := |env| - 1;
    if name in env[last] then env[..last] + [env[last][name := v]]
    else SetExisting(env[..last], name, v) + [env[last]]
  }

  // `$ name = v`: updates the variable where it lives, or defines it in the innermost scope.
  function AssignVar(env: Env, name: Str, v: Value): (env': Env)
    requires env != []
    ensures |env'| == |env|
  {
    if Has(env, name) then SetExisting(env, name, v)
    else env[..|env| - 1] + [env[|env| - 1][name := v]]
  }

  function Eval(reading: Reading, e: Expr, env: Env): Evaluated {
    match e
    case Literal(v) => Ok(v)
    case Variable(name) => Get(env, name)
    case Unary(op, r) =>
      (match Eval(reading, r, env)
       case Err(x) => Err(x)
       case Ok(v) => ApplyUnary(op, v))
    case Binary(op, l, r) =>
      match Eval(reading, l, env)
      case Err(x) => Err(x)
      case Ok(a) =>
        if reading.AsWritten? && op.And? && !a.Bool? then Err(TypeError)
        else if reading.AsWritten? && op.And? && !a.b then Ok(Bool(false))
        else if reading.AsWritten? && op.Or? && !a.Bool? then Err(TypeError)
        else if reading.AsWritten? && op.Or? && a.b then Ok(Bool(true))
        else
          match Eval(reading, r, env)
          case Err(x) => Err(x)
          case Ok(b) => ApplyBinary(op, a, b)
  }

  // The scope opened for a block goes away with it, whichever way control leaves the block.
  function CloseScope(o: Outcome): Outcome {
    match o
    case Normal(env, result) => Normal(Pop(env), result)
    case Broke(env) => Broke(Pop(env))
    case Continued(env) => Continued(Pop(env))
    case Returned(_) => o
    case Failed(_) => o
  }

  // Statements leave the chain as deep as they found it.
  predicate DepthIs(o: Outcome, n: nat) {
    (o.Normal? || o.Broke? || o.Continued?) ==> |o.env| == n
  }

  // What a validation makes of its function's result: true and null pass.
  function Validated(r: Evaluated, env: Env): Outcome {
    match r
    case Err(err) => Failed(ValidationFailed(Some(err)))
    case Ok(v) => if v == Bool(true) || v == Null then Normal(env, Null) else Failed(ValidationFailed(None))
  }

  function Exec(reading: Reading, limit: nat, s: Stmt, env: Env): (o: Outcome)
    requires env != []
    ensures DepthIs(o, |env|)
    decreases s, 1, 0
  {
    match s
    case Assign(x, e) =>
      (match Eval(reading, e, env)
       case Err(err) => Failed(err)
       case Ok(v) => Normal(AssignVar(env, x, v), v))
    case Reassign(x, e) =>
      if !Has(env, x) then Failed(UndefinedVariable(x))
      else
        (match Eval(reading, e, env)
         case Err(err) => Failed(err)
         case Ok(v) => Normal(SetExisting(env, x, v), v))
    case Return(e) =>
      (match Eval(reading, e, env)
       case Err(err) => Failed(err)
       case Ok(v) => Returned(v))
    case ExprStmt(e) =>
      (match Eval(reading, e, env)
       case Err(err) => Failed(err)
       case Ok(v) => Normal(env, v))
    case If(c, t, f) =>
      (match Eval(reading, c, env)
       case Err(err) => Failed(err)
       case Ok(v) =>
         if !v.Bool? then Failed(TypeError)
         else CloseScope(ExecBlock(reading, limit, if v.b then t else f, env + [map[]])))
    case While(_, _) => ExecWhile(reading, limit, s, env, 0, Null)
    case Switch(e, _, _) =>
      (match Eval(reading, e, env)
       case Err(err) => Failed(err)
       case Ok(v) => ExecSwitch(reading, limit, s, v, 0, env))
    case Validation(test) => if reading.AsCompiled? then Normal(env, Null) else Validated(Eval(reading, test, env), env)
    case Break => Broke(env)
    case Continue => Continued(env)
  }

  function ExecBlock(reading: Reading, limit: nat, stmts: seq<Stmt>, env: Env): (o: Outcome)
    requires env != []
    ensures DepthIs(o, |env|)
    decreases stmts, 0, 0
  {
    if stmts == [] then Normal(env, Null)
    else
      var first := Exec(reading, limit, stmts[0], env);
      if first.Normal? && |stmts| > 1 then ExecBlock(reading, limit, stmts[1..], first.env) else first
  }

  // The loop after some iterations, the last of them with result `last`.
  function ExecWhile(reading: Reading, limit: nat, s: Stmt, env: Env, iterations: nat, last: Value): (o: Outcome)
    requires env != [] && s.While? && iterations <= limit
    ensures DepthIs(o, |env|)
    decreases s, 0, limit - iterations
  {
    if iterations == limit then Failed(LoopLimitExceeded)
    else
      match Eval(reading, s.cond, env)
      case Err(err) => Failed(err)
      case Ok(v) =>
        if !v.Bool? then Failed(TypeError)
        else if !v.b then Normal(env, last)
        else
          match CloseScope(ExecBlock(reading, limit, s.body, env + [map[]]))
          case Normal(env', result) => ExecWhile(reading, limit, s, env', iterations + 1, result)
          case Continued(env') => ExecWhile(reading, limit, s, env', iterations + 1, Null)
          case Broke(env') => Normal(env', Null)
          case Returned(r) => Returned(r)
          case Failed(e) => Failed(e)
  }

  // Tries the cases from the i-th on; `v` is the switch value.
  function ExecSwitch(reading: Reading, limit: nat, s: Stmt, v: Value, i: nat, env: Env): (o: Outcome)
    requires env != [] && s.Switch? && i <= |s.cases|
    ensures DepthIs(o, |env|)
    decreases s, 0, |s.cases| - i
  {
    if i == |s.cases| then CloseScope(ExecBlock(reading, limit, s.defaultBlock, env + [map[]]))
    else
      match Eval(reading, s.cases[i].value, env)
      case Err(err) => Failed(err)
      case Ok(w) =>
        if v == w then CloseScope(ExecBlock(reading, limit, s.cases[i].body, env + [map[]]))
        else ExecSwitch(reading, limit, s, v, i + 1, env)
  }

  // The result a loop takes from a round.
  function RoundResult(o: Outcome): Value {
    if o.Normal? then o.result else Null
  }

  // ---- environments ----

  lemma {:induction false} HasGets(env: Env, x: Str)
    ensures Has(env, x) <==> Get(env, x).Ok?
    ensures !Has(env, x) ==> Get(env, x) == Err(UndefinedVariable(x))
  {
    if env != [] {
      HasGets(env[..|env| - 1], x);
    }
  }

  lemma {:induction false} SetKeys(env: Env, x: Str, v: Value)
    requires Has(env, x)
    ensures forall k | 0 <= k < |env| :: SetExisting(env, x, v)[k].Keys == env[k].Keys
  {
    if x !in env[|env| - 1] {
      SetKeys(env[..|env| - 1], x, v);
    }
  }

  function Names(env: Env): set<Str> {
    if env == [] then {} else Names(env[..|env| - 1]) + env[|env| - 1].Keys
  }

  lemma {:induction false} NamesHas(env: Env)
    ensures forall x :: Has(env, x) <==> x in Names(env)
  {
    if env != [] {
      NamesHas(env[..|env| - 1]);
    }
  }

  // No expression runs into a loop limit, or a validation.
  lemma {:induction false} EvalNoLimit(reading: Reading, e: Expr, env: Env)
    ensures Eval(reading, e, env).Err? ==>
              !Eval(reading, e, env).error.LoopLimitExceeded? && !Eval(reading, e, env).error.ValidationFailed?
    decreases e
  {
    match e
    case Literal(_) =>
    case Variable(name) => GetNoLimit(env, name);
    case Unary(_, r) => EvalNoLimit(reading, r, env);
    case Binary(_, l, r) =>
      EvalNoLimit(reading, l, env);
      EvalNoLimit(reading, r, env);
  }

  lemma GetNoLimit(env: Env, name: Str)
    ensures Get(env, name).Err? ==> Get(env, name).error.UndefinedVariable?
  {
  }
}
