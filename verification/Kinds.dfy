/** Programs whose variables keep to one kind of value each: every right operand of `&&` and `||` then is a
  * boolean whatever happens, and compiled code reads the program as the interpreter does. */
module Kinds {
  import opened Bytes
  import opened Lang
  import opened Interpreter
  import opened CodeGen
  import opened Vm
  import opened Simulation
  import opened Theorems
  import opened Readings

  datatype Kind = Number | Truth | Letters

  // The variables that keep to a kind; the others may hold anything.
  type KindMap = map<Str, Kind>

  predicate HasKind(v: Value, k: Kind) {
    match k
    case Number => v.Int?
    case Truth => v.Bool?
    case Letters => v.Text?
  }

  // The kind of all values of an expression that has no error but a missing variable.
  function KindOf(kinds: KindMap, e: Expr): Option<Kind>
    decreases e, 0
  {
    match e
    case Literal(v) => if v.Int? then Some(Number) else if v.Bool? then Some(Truth) else if v.Text? then Some(Letters) else None
    case Variable(x) => if x in kinds then Some(kinds[x]) else None
    case Unary(op, r) => if KindOf(kinds, r) == Some(if op.Not? then Truth else Number) then KindOf(kinds, r) else None
    case Binary(op, l, r) =>
      var a, b := KindOf(kinds, l), KindOf(kinds, r);
      match op
      case Add => if a == b && (a == Some(Number) || a == Some(Letters)) then a else None
      case Sub => if a == b == Some(Number) then a else None
      case Mul => if a == b == Some(Number) then a else None
      case Div => if a == Some(Number) && NonZero(r) then a else None
      case Mod => if a == Some(Number) && NonZero(r) then a else None
      case Eq => if Sure(kinds, l) && Sure(kinds, r) then Some(Truth) else None
      case Ne => if Sure(kinds, l) && Sure(kinds, r) then Some(Truth) else None
      case And => if a == b == Some(Truth) then a else None
      case Or => if a == b == Some(Truth) then a else None
      case _ => if a == b && (a == Some(Number) || a == Some(Letters)) then Some(Truth) else None
  }

  predicate NonZero(e: Expr) {
    e.Literal? && e.value.Int? && e.value.i != 0
  }

  // A literal or a variable of whatever kind, or an expression with a kind.
  predicate Sure(kinds: KindMap, e: Expr)
    decreases e, 1
  {
    e.Literal? || e.Variable? || KindOf(kinds, e).Some?
  }

  // Every right operand of `&&` and `||` is boolean.
  predicate FirmRights(kinds: KindMap, e: Expr) {
    match e
    case Literal(_) => true
    case Variable(_) => true
    case Unary(_, r) => FirmRights(kinds, r)
    case Binary(op, l, r) =>
      FirmRights(kinds, l) && FirmRights(kinds, r) && (op.And? || op.Or? ==> KindOf(kinds, r) == Some(Truth))
  }

  // What is stored in a variable is of its kind.
  predicate FirmStore(kinds: KindMap, x: Str, e: Expr) {
    FirmRights(kinds, e) && (x in kinds ==> KindOf(kinds, e) == Some(kinds[x]))
  }

  // So it is in all of a program, and it has no validations.
  predicate FirmStmt(kinds: KindMap, s: Stmt)
    decreases s, 0
  {
    match s
    case Assign(x, e) => FirmStore(kinds, x, e)
    case Reassign(x, e) => FirmStore(kinds, x, e)
    case Return(e) => FirmRights(kinds, e)
    case ExprStmt(e) => FirmRights(kinds, e)
    case If(c, t, f) => FirmRights(kinds, c) && FirmBlock(kinds, t) && FirmBlock(kinds, f)
    case While(c, b) => FirmRights(kinds, c) && FirmBlock(kinds, b)
    case Switch(e, cases, d) => FirmRights(kinds, e) && FirmCases(kinds, cases) && FirmBlock(kinds, d)
    case Validation(_) => false
    case Break => true
    case Continue => true
  }

  predicate FirmBlock(kinds: KindMap, stmts: seq<Stmt>)
    decreases stmts, 0
  {
    stmts == [] || (FirmStmt(kinds, stmts[0]) && FirmBlock(kinds, stmts[1..]))
  }

  predicate FirmCases(kinds: KindMap, cases: seq<Case>)
    decreases cases, 0
  {
    cases == [] || (FirmRights(kinds, cases[0].value) && FirmBlock(kinds, cases[0].body) && FirmCases(kinds, cases[1..]))
  }

  // ---- environments ----

  predicate LevelFits(kinds: KindMap, vars: map<Str, Value>) {
    forall x | x in vars && x in kinds :: HasKind(vars[x], kinds[x])
  }

  // Every variable of every scope has its kind.
  predicate Fits(kinds: KindMap, env: Env) {
    forall k | 0 <= k < |env| :: LevelFits(kinds, env[k])
  }

  lemma {:induction false} GetFits(kinds: KindMap, env: Env, x: Str)
    requires Fits(kinds, env)
    ensures var r := Get(env, x); if r.Ok? then x in kinds ==> HasKind(r.value, kinds[x]) else r.error.UndefinedVariable?
  {
    if env != [] {
      var last := |env| - 1;
      assert LevelFits(kinds, env[last]);
      forall k | 0 <= k < last ensures LevelFits(kinds, env[..last][k]) {
        assert LevelFits(kinds, env[k]);
      }
      GetFits(kinds, env[..last], x);
    }
  }

  lemma {:induction false} SetFits(kinds: KindMap, env: Env, x: Str, v: Value)
    requires Fits(kinds, env) && Has(env, x) && (x in kinds ==> HasKind(v, kinds[x]))
    ensures Fits(kinds, SetExisting(env, x, v))
  {
    var last := |env| - 1;
    assert LevelFits(kinds, env[last]);
    forall k | 0 <= k < last ensures LevelFits(kinds, env[..last][k]) {
      assert LevelFits(kinds, env[k]);
    }
    if x !in env[last] {
      SetFits(kinds, env[..last], x, v);
    }
  }

  lemma AssignFits(kinds: KindMap, env: Env, x: Str, v: Value)
    requires env != [] && Fits(kinds, env) && (x in kinds ==> HasKind(v, kinds[x]))
    ensures Fits(kinds, AssignVar(env, x, v))
  {
    if Has(env, x) {
      SetFits(kinds, env, x, v);
    } else {
      assert LevelFits(kinds, env[|env| - 1]);
    }
  }

  lemma PushFits(kinds: KindMap, env: Env)
    requires Fits(kinds, env)
    ensures Fits(kinds, env + [map[]])
  {
  }

  ghost predicate FitsAfter(kinds: KindMap, o: Outcome) {
    o.Normal? || o.Broke? || o.Continued? ==> Fits(kinds, o.env)
  }

  lemma ClosedFits(kinds: KindMap, o: Outcome)
    requires FitsAfter(kinds, o)
    ensures FitsAfter(kinds, CloseScope(o))
  {
  }

  // ---- evaluation ----

  lemma {:induction false} KindEvaluates(kinds: KindMap, reading: Reading, e: Expr, env: Env)
    requires Fits(kinds, env) && Sure(kinds, e)
    ensures var r := Eval(reading, e, env);
            if r.Ok? then KindOf(kinds, e).Some? ==> HasKind(r.value, KindOf(kinds, e).value) else r.error.UndefinedVariable?
    decreases e
  {
    hide Wrap64, TruncDiv, TruncMod, TextLess, Fits;
    match e
    case Literal(_) =>
    case Variable(x) => GetFits(kinds, env, x);
    case Unary(_, r) => KindEvaluates(kinds, reading, r, env);
    case Binary(op, l, r) =>
      KindEvaluates(kinds, reading, l, env);
      KindEvaluates(kinds, reading, r, env);
  }

  // ---- runs ----

  lemma StoreFits(kinds: KindMap, x: Str, e: Expr, env: Env)
    requires FirmStore(kinds, x, e) && Fits(kinds, env) && Eval(AsWritten, e, env).Ok?
    ensures x in kinds ==> HasKind(Eval(AsWritten, e, env).value, kinds[x])
  {
    hide FirmRights, Fits;
    if x in kinds {
      KindEvaluates(kinds, AsWritten, e, env);
    }
  }

  // Whatever a statement does, every variable keeps to its kind.
  lemma {:induction false} ExecFits(kinds: KindMap, limit: nat, s: Stmt, env: Env)
    requires env != [] && Fits(kinds, env) && FirmStmt(kinds, s)
    ensures FitsAfter(kinds, Exec(AsWritten, limit, s, env))
    decreases s, 1, 0
  {
    hide Eval, Fits, AssignVar, SetExisting, ExecBlock, ExecWhile, ExecSwitch, FirmBlock, FirmCases, FirmStore, HasKind;
    match s
    case Assign(x, e) =>
      if Eval(AsWritten, e, env).Ok? {
        StoreFits(kinds, x, e, env);
        AssignFits(kinds, env, x, Eval(AsWritten, e, env).value);
      }
    case Reassign(x, e) =>
      if Eval(AsWritten, e, env).Ok? && Has(env, x) {
        StoreFits(kinds, x, e, env);
        SetFits(kinds, env, x, Eval(AsWritten, e, env).value);
      }
    case If(c, t, f) =>
      ScopeFits(kinds, limit, t, env);
      ScopeFits(kinds, limit, f, env);
    case While(_, _) => WhileFits(kinds, limit, s, env, 0, Null);
    case Switch(e, cases, _) =>
      if Eval(AsWritten, e, env).Ok? {
        assert cases[0..] == cases;
        SwitchFits(kinds, limit, s, Eval(AsWritten, e, env).value, 0, env);
      }
    case _ =>
  }

  lemma {:induction false} BlockFits(kinds: KindMap, limit: nat, stmts: seq<Stmt>, env: Env)
    requires env != [] && Fits(kinds, env) && FirmBlock(kinds, stmts)
    ensures FitsAfter(kinds, ExecBlock(AsWritten, limit, stmts, env))
    decreases stmts, 0, 0
  {
    hide Exec, FirmStmt, Fits;
    if stmts != [] {
      ExecFits(kinds, limit, stmts[0], env);
      var first := Exec(AsWritten, limit, stmts[0], env);
      if first.Normal? && |stmts| > 1 {
        BlockFits(kinds, limit, stmts[1..], first.env);
      }
    }
  }

  lemma {:induction false} ScopeFits(kinds: KindMap, limit: nat, stmts: seq<Stmt>, env: Env)
    requires env != [] && Fits(kinds, env) && FirmBlock(kinds, stmts)
    ensures FitsAfter(kinds, CloseScope(ExecBlock(AsWritten, limit, stmts, env + [map[]])))
    decreases stmts, 0, 1
  {
    hide ExecBlock, Fits, FirmBlock;
    PushFits(kinds, env);
    BlockFits(kinds, limit, stmts, env + [map[]]);
    ClosedFits(kinds, ExecBlock(AsWritten, limit, stmts, env + [map[]]));
  }

  lemma {:induction false} WhileFits(kinds: KindMap, limit: nat, s: Stmt, env: Env, iterations: nat, last: Value)
    requires env != [] && Fits(kinds, env) && s.While? && iterations <= limit && FirmStmt(kinds, s)
    ensures FitsAfter(kinds, ExecWhile(AsWritten, limit, s, env, iterations, last))
    decreases s, 0, limit - iterations
  {
    hide ExecBlock, Eval, Fits, FirmBlock;
    if iterations < limit {
      ScopeFits(kinds, limit, s.body, env);
      var o := CloseScope(ExecBlock(AsWritten, limit, s.body, env + [map[]]));
      if o.Normal? || o.Continued? {
        WhileFits(kinds, limit, s, o.env, iterations + 1, RoundResult(o));
      }
    }
  }

  lemma {:induction false} SwitchFits(kinds: KindMap, limit: nat, s: Stmt, v: Value, i: nat, env: Env)
    requires env != [] && Fits(kinds, env) && s.Switch? && i <= |s.cases|
    requires FirmCases(kinds, s.cases[i..]) && FirmBlock(kinds, s.defaultBlock)
    ensures FitsAfter(kinds, ExecSwitch(AsWritten, limit, s, v, i, env))
    decreases s, 0, |s.cases| - i
  {
    hide ExecBlock, Eval, Fits, FirmBlock;
    if i == |s.cases| {
      ScopeFits(kinds, limit, s.defaultBlock, env);
    } else {
      assert s.cases[i..][1..] == s.cases[i + 1..];
      ScopeFits(kinds, limit, s.cases[i].body, env);
      SwitchFits(kinds, limit, s, v, i + 1, env);
    }
  }

  // ---- where the runs part ----

  // Nothing skipped can fail, save by an undefined variable.
  ghost predicate Mild(d: Option<Parting>) {
    d.Some? ==> d.value.Skips? && d.value.error.UndefinedVariable?
  }

  lemma {:induction false} FirmSkips(kinds: KindMap, e: Expr, env: Env)
    requires FirmRights(kinds, e) && Fits(kinds, env)
    ensures Mild(OfExpr(e, env))
    decreases e
  {
    match e
    case Literal(_) =>
    case Variable(_) =>
    case Unary(_, r) => FirmSkips(kinds, r, env);
    case Binary(op, l, r) =>
      FirmSkips(kinds, l, env);
      FirmSkips(kinds, r, env);
      if op.And? || op.Or? {
        KindEvaluates(kinds, AsCompiled, r, env);
      }
  }

  lemma {:induction false} FirmParts(kinds: KindMap, limit: nat, s: Stmt, env: Env)
    requires env != [] && Fits(kinds, env) && FirmStmt(kinds, s)
    ensures Mild(Parts(limit, s, env))
    decreases s, 1, 0
  {
    hide Eval, OfExpr, PartsBlock, PartsWhile, PartsSwitch, FirmRights, FirmBlock, Fits;
    PushFits(kinds, env);
    match s
    case Assign(_, e) => FirmSkips(kinds, e, env);
    case Reassign(_, e) => FirmSkips(kinds, e, env);
    case Return(e) => FirmSkips(kinds, e, env);
    case ExprStmt(e) => FirmSkips(kinds, e, env);
    case If(c, t, f) =>
      FirmSkips(kinds, c, env);
      FirmBlockParts(kinds, limit, t, env + [map[]]);
      FirmBlockParts(kinds, limit, f, env + [map[]]);
    case While(_, _) => FirmWhileParts(kinds, limit, s, env, 0);
    case Switch(e, cases, _) =>
      FirmSkips(kinds, e, env);
      if Eval(AsWritten, e, env).Ok? {
        assert cases[0..] == cases;
        FirmSwitchParts(kinds, limit, s, Eval(AsWritten, e, env).value, 0, env);
      }
    case Break =>
    case Continue =>
  }

  lemma {:induction false} FirmBlockParts(kinds: KindMap, limit: nat, stmts: seq<Stmt>, env: Env)
    requires env != [] && Fits(kinds, env) && FirmBlock(kinds, stmts)
    ensures Mild(PartsBlock(limit, stmts, env))
    decreases stmts, 0, 0
  {
    hide Exec, Parts, FirmStmt, Fits;
    if stmts != [] {
      FirmParts(kinds, limit, stmts[0], env);
      var first := Exec(AsWritten, limit, stmts[0], env);
      if first.Normal? && |stmts| > 1 {
        ExecFits(kinds, limit, stmts[0], env);
        FirmBlockParts(kinds, limit, stmts[1..], first.env);
      }
    }
  }

  lemma {:induction false} FirmWhileParts(kinds: KindMap, limit: nat, s: Stmt, env: Env, iterations: nat)
    requires env != [] && Fits(kinds, env) && s.While? && iterations <= limit && FirmStmt(kinds, s)
    ensures Mild(PartsWhile(limit, s, env, iterations))
    decreases s, 0, limit - iterations
  {
    hide ExecBlock, PartsBlock, Eval, OfExpr, FirmBlock, FirmRights, Fits;
    PushFits(kinds, env);
    if iterations < limit {
      FirmSkips(kinds, s.cond, env);
      FirmBlockParts(kinds, limit, s.body, env + [map[]]);
      var o := CloseScope(ExecBlock(AsWritten, limit, s.body, env + [map[]]));
      if o.Normal? || o.Continued? {
        ScopeFits(kinds, limit, s.body, env);
        FirmWhileParts(kinds, limit, s, o.env, iterations + 1);
      }
    }
  }

  lemma {:induction false} FirmSwitchParts(kinds: KindMap, limit: nat, s: Stmt, v: Value, i: nat, env: Env)
    requires env != [] && Fits(kinds, env) && s.Switch? && i <= |s.cases|
    requires FirmCases(kinds, s.cases[i..]) && FirmBlock(kinds, s.defaultBlock)
    ensures Mild(PartsSwitch(limit, s, v, i, env))
    decreases s, 0, |s.cases| - i
  {
    hide ExecBlock, PartsBlock, Eval, OfExpr, FirmBlock, FirmRights, Fits;
    PushFits(kinds, env);
    if i == |s.cases| {
      FirmBlockParts(kinds, limit, s.defaultBlock, env + [map[]]);
    } else {
      assert s.cases[i..][1..] == s.cases[i + 1..];
      FirmSkips(kinds, s.cases[i].value, env);
      FirmBlockParts(kinds, limit, s.cases[i].body, env + [map[]]);
      FirmSwitchParts(kinds, limit, s, v, i + 1, env);
    }
  }

  // A unit without validations whose variables keep to kinds by which all right operands of `&&` and `||`
  // are boolean: the compiled file does what the interpreter does in every run.
  lemma FirmUnit(kinds: KindMap, u: Unit, inputs: map<Str, Value>, limit: nat)
    requires EmitUnit(u).Ok? && WithinLimits(u, EmitUnit(u).value) && PlainUnit(u) && Provided(u, inputs)
    requires FirmBlock(kinds, u.body) && LevelFits(kinds, inputs)
    ensures UnitParts(u, inputs, limit) == None
    ensures var em := EmitUnit(u).value;
            Matches(Loadable(em), Launch(em, inputs), limit, Interpreted(u, inputs, limit))
  {
    hide EmitUnit, WithinLimits, PlainUnit, Provided, ExecBlock, PartsBlock, FinishesWith, FirmBlock;
    CompilerCorrect(u, inputs, limit);
    BlockParts(limit, u.body, Initially(inputs));
    assert LevelFits(kinds, map[]) && Fits(kinds, Initially(inputs));
    FirmBlockParts(kinds, limit, u.body, Initially(inputs));
    InterpreterMatched(u, inputs, limit);
  }
}
