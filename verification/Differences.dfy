/** Programs on which compiled code and the interpreter differ, and the values for which they do not. */
module Differences {
  import opened Bytes
  import opened Lang
  import opened Opcodes
  import opened Interpreter
  import opened CodeGen
  import opened Vm
  import opened Simulation
  import opened Format
  import opened Theorems
  import opened Readings
  import opened ReservedNames

  lemma AddSecond(v: Value, w: Value)
    requires v != w
    ensures AddConstant([v], w) == ([v, w], 1)
  {
    assert [v][1..] == [] && IndexOf([v], w) == 1 && [v] + [w] == [v, w];
  }

  const NOTHING: CState := CState([], [map[], map[]], 0)

  lemma Unbound(name: Str)
    ensures Resolve(NOTHING.scopes, name) == None
  {
    var outer := NOTHING.scopes[..1];
    assert outer[..0] == [] && Resolve(outer[..0], name) == None;
    assert Resolve(outer, name) == None;
  }

  // A few instructions and constants are far from any limit.
  lemma FewBytes(code: seq<Instr>, pool: seq<Constant>)
    requires |code| <= 10 && |pool| <= 2 && forall c | c in pool :: |Serialize(c)| <= 20
    ensures |Bytecode(pool, code)| < TWO32
  {
    hide Encode, Serialize, Relocate;
    FewInstrs(code);
    LayoutKept(code, ToLoopEnd, 0, Truncate32(|Header(pool, Size(code))|));
    if |pool| > 0 {
      assert pool[0] in pool;
      assert SerializePool(pool) == Serialize(pool[0]) + SerializePool(pool[1..]);
      if |pool| > 1 {
        assert pool[1..][0] in pool && pool[1..][1..] == [];
        assert SerializePool(pool[1..]) == Serialize(pool[1]) + SerializePool(pool[1..][1..]);
      }
    }
  }

  lemma {:induction false} FewInstrs(code: seq<Instr>)
    ensures Size(code) <= 5 * |code|
    decreases |code|
  {
    if code != [] {
      FewInstrs(code[1..]);
    }
  }

  // ---- a body that ends without a return ----

  const X: Str := ['x' as int]

  // x = v
  function OnlyAssigns(v: Value): Unit {
    Unit([], [], [Assign(X, Literal(v))], false)
  }

  lemma OnlyAssignsEmitted(v: Value)
    requires !v.Text?
    ensures EmitUnit(OnlyAssigns(v)).Ok? && EmitUnit(OnlyAssigns(v)).value.cs.constants == [v, Text(X)]
    ensures |EmitUnit(OnlyAssigns(v)).value.code| == 3
  {
    hide AddConstant;
    var u := OnlyAssigns(v);
    var s := u.body[0];
    AddFirst(v);
    AddSecond(v, Text(X));
    assert UnitEntry(u) == NOTHING;
    Unbound(X);
    assert EmitExpr(NOTHING, Literal(v)) == Ok(Emitted([WithOperand(OP_PUSH, Truncate32(0))], NOTHING.(constants := [v])));
    LastEmitted(NOTHING, s, 0);
  }

  lemma OnlyAssignsSmall(v: Value)
    requires !v.Text?
    ensures EmitUnit(OnlyAssigns(v)).Ok? && WithinLimits(OnlyAssigns(v), EmitUnit(OnlyAssigns(v)).value)
    ensures PlainUnit(OnlyAssigns(v)) && Provided(OnlyAssigns(v), map[])
  {
    hide EmitUnit, Bytecode, PutUint32, PutInt64;
    OnlyAssignsEmitted(v);
    var u := OnlyAssigns(v);
    var em := EmitUnit(u).value;
    var pool := Pool(em.cs.constants);
    forall c | c in pool ensures |Serialize(c)| <= 20 {
      var i :| 0 <= i < 2 && pool[i] == c;
    }
    FewBytes(em.code, pool);
    assert u.body[1..] == [];
    assert NeedBlock(u.body) == Max(NeedStmt(u.body[0]), NeedBlock(u.body[1..]));
    assert X[0] != '.' as int && !IsTemp(X);
    assert PlainStmt(u.body[0]) && PlainBlock(u.body[1..]);
  }

  // The interpreter answers v, compiled code null: the same exactly for null.
  lemma LastResultDropped(v: Value, limit: nat)
    requires !v.Text?
    ensures var u := OnlyAssigns(v);
            && EmitUnit(u).Ok? && InterpreterAnswer(Interpreted(u, map[], limit)) == Some(Ok(v))
            && var p, st := Loadable(EmitUnit(u).value), Launch(EmitUnit(u).value, map[]);
               FinishesWith(p, st, Ok(Null)) && (FinishesWith(p, st, Ok(v)) <==> v == Null)
  {
    hide EmitUnit, WithinLimits, PlainUnit, Provided, FinishesWith, Loadable, Launch;
    var u := OnlyAssigns(v);
    OnlyAssignsSmall(v);
    var env := Initially(map[]);
    assert Eval(AsWritten, Literal(v), env) == Eval(AsCompiled, Literal(v), env) == Ok(v);
    assert u.body[0] == Assign(X, Literal(v));
    assert Exec(AsWritten, limit, u.body[0], env) == Normal(AssignVar(env, X, v), v);
    assert Exec(AsCompiled, limit, u.body[0], env) == Normal(AssignVar(env, X, v), v);
    assert Interpreted(u, map[], limit) == Normal(AssignVar(env, X, v), v);
    assert MachineAnswer(CompiledRun(u, map[], limit)) == Some(Ok(Null));
    assert OfExpr(Literal(v), env) == None && Parts(limit, u.body[0], env) == None;
    assert PartsBlock(limit, u.body, env) == None;
    SameAnswers(u, map[], Ok(Null));
    CompiledAgainstInterpreter(u, map[], limit, Ok(v));
  }

  // ---- a validation ----

  // ? validate, where the validation gives v;  return 1
  function Validates(v: Value): Unit {
    Unit([], [], [Validation(Literal(v)), Return(Literal(Int(1)))], false)
  }

  lemma ValidatesEmitted(v: Value)
    ensures EmitUnit(Validates(v)).Ok? && EmitUnit(Validates(v)).value.cs.constants == [Int(1)]
    ensures |EmitUnit(Validates(v)).value.code| == 2
  {
    hide AddConstant;
    var u := Validates(v);
    var last := u.body[1];
    AddFirst(Int(1));
    assert UnitEntry(u) == NOTHING;
    assert u.body[1..] == [last];
    assert EmitStmt(NOTHING, u.body[0], 0, None) == Ok(Emitted([], NOTHING));
    assert Size([]) == 0;
    LastEmitted(NOTHING, last, 0);
  }

  lemma ValidatesSmall(v: Value)
    ensures EmitUnit(Validates(v)).Ok? && WithinLimits(Validates(v), EmitUnit(Validates(v)).value)
    ensures PlainUnit(Validates(v)) && Provided(Validates(v), map[])
  {
    hide EmitUnit, Bytecode, PutUint32, PutInt64;
    ValidatesEmitted(v);
    var u := Validates(v);
    var em := EmitUnit(u).value;
    var pool := Pool(em.cs.constants);
    forall c | c in pool ensures |Serialize(c)| <= 20 {
      assert c == pool[0];
    }
    FewBytes(em.code, pool);
    assert u.body[1..] == [u.body[1]] && u.body[1..][1..] == [];
    assert NeedBlock(u.body) == Max(NeedStmt(u.body[0]), NeedBlock(u.body[1..]));
    assert NeedBlock(u.body[1..]) == Max(NeedStmt(u.body[1]), NeedBlock(u.body[1..][1..]));
    assert PlainStmt(u.body[0]) && PlainStmt(u.body[1]) && PlainBlock(u.body[1..][1..]);
    assert PlainBlock(u.body[1..]);
  }

  predicate Passes(v: Value) {
    v == Bool(true) || v == Null
  }

  function Verdict(v: Value): Evaluated {
    if Passes(v) then Ok(Int(1)) else Err(ValidationFailed(None))
  }

  // Compiled code answers 1 whatever the validation says; the interpreter does if it passes.
  lemma ValidationDropped(v: Value, limit: nat)
    ensures var u := Validates(v);
            && EmitUnit(u).Ok?
            && InterpreterAnswer(Interpreted(u, map[], limit)) == Some(Verdict(v))
            && var p, st := Loadable(EmitUnit(u).value), Launch(EmitUnit(u).value, map[]);
               FinishesWith(p, st, Ok(Int(1))) && (FinishesWith(p, st, Verdict(v)) <==> Passes(v))
  {
    hide EmitUnit, WithinLimits, PlainUnit, Provided, FinishesWith, Loadable, Launch;
    var u := Validates(v);
    ValidatesSmall(v);
    var env := Initially(map[]);
    var rest := u.body[1..];
    assert rest == [u.body[1]];
    assert Eval(AsWritten, Literal(Int(1)), env) == Eval(AsCompiled, Literal(Int(1)), env) == Ok(Int(1));
    assert Eval(AsWritten, Literal(v), env) == Ok(v);
    assert u.body[0] == Validation(Literal(v));
    assert Exec(AsWritten, limit, u.body[0], env) == Validated(Ok(v), env);
    assert Exec(AsCompiled, limit, u.body[0], env) == Normal(env, Null);
    assert ExecBlock(AsCompiled, limit, rest, env) == ExecBlock(AsWritten, limit, rest, env) == Returned(Int(1));
    assert PartsBlock(limit, rest, env) == None;
    assert ExecBlock(AsCompiled, limit, u.body, env) == Returned(Int(1));
    assert CompiledRun(u, map[], limit) == Returned(Int(1));
    assert MachineAnswer(CompiledRun(u, map[], limit)) == Some(Ok(Int(1)));
    SameAnswers(u, map[], Ok(Int(1)));
    CompiledAgainstInterpreter(u, map[], limit, Verdict(v));
  }
}
