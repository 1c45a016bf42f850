/** The compiler keeps a switch's value in a variable of its own making. A program that uses the same
  * name sees it: the reserved prefix has to be left alone. */
module ReservedNames {
  import opened Bytes
  import opened Lang
  import opened Opcodes
  import opened Interpreter
  import opened CodeGen
  import opened EmissionFacts
  import opened Vm
  import opened Placement
  import opened Format
  import opened Theorems
  import opened Readings

  // A unit with the parameter __switch_0:  switch 1 { }  return __switch_0
  function Clashing(): Unit {
    Unit([TempName(0)], [], [Switch(Literal(Int(1)), [], []), Return(Variable(TempName(0)))], false)
  }

  function ClashingCode(): seq<Instr> {
    [WithOperand(OP_PUSH, 1)] + ([WithOperand(OP_STORE_VAR, 0)] + ([WithOperand(OP_LOAD_VAR, 0)] + [Plain(OP_RETURN)]))
  }

  function ClashingPool(): seq<Value> {
    [Text(TempName(0)), Int(1)]
  }

  lemma EntryEmitted()
    ensures UnitEntry(Clashing()) == CState([Text(TempName(0))], [map[], map[TempName(0) := Symbol(0, false)]], 0)
  {
    var name := TempName(0);
    var start := CState([], [map[], map[]], 0);
    var names: seq<Str> := [name];
    assert names[1..] == [];
    assert Define(start.scopes, name, Symbol(0, false)) == [map[], map[name := Symbol(0, false)]];
    AddFirst(Text(name));
  }

  lemma AddFirst(v: Value)
    ensures AddConstant([], v) == ([v], 0)
  {
    var none: seq<Value> := [];
    assert none + [v] == [v];
  }

  lemma DefineAgain(scopes: seq<Scope>, name: Str, symbol: Symbol)
    requires scopes != [] && name in scopes[|scopes| - 1] && scopes[|scopes| - 1][name] == symbol
    ensures Define(scopes, name, symbol) == scopes
  {
    assert scopes[|scopes| - 1][name := symbol] == scopes[|scopes| - 1];
  }

  lemma OneEmitted(cs: CState)
    requires cs.constants == [Text(TempName(0))]
    ensures EmitExpr(cs, Literal(Int(1))) == Ok(Emitted([WithOperand(OP_PUSH, 1)], cs.(constants := ClashingPool())))
  {
    hide TempName;
    assert cs.constants[1..] == [] && IndexOf(cs.constants, Int(1)) == 1;
    assert cs.constants + [Int(1)] == ClashingPool();
  }

  lemma SwitchEmitted()
    ensures var cs := UnitEntry(Clashing());
            EmitStmt(cs, Clashing().body[0], 0, None) ==
              Ok(Emitted([WithOperand(OP_PUSH, 1)] + [WithOperand(OP_STORE_VAR, 0)], cs.(constants := ClashingPool(), labels := 1)))
  {
    EntryEmitted();
    hide UnitEntry, EmitArms, EmitExpr, Define, TempName, Size;
    var cs := UnitEntry(Clashing());
    var s := Clashing().body[0];
    assert AddConstant(cs.constants, Text(TempName(0))) == (cs.constants, 0);
    DefineAgain(cs.scopes, TempName(0), Symbol(0, false));
    var inner := CState(cs.constants, cs.scopes, 1);
    OneEmitted(inner);
    var push := [WithOperand(OP_PUSH, 1)];
    var after := inner.(constants := ClashingPool());
    ArmsEmitted(after, s, 0, 0 + Size(push) + 5);
    var code := push + [WithOperand(OP_STORE_VAR, 0)];
    assert code + [] == code;
  }

  lemma ArmsEmitted(cs: CState, s: Stmt, temp: nat, base: nat)
    requires cs.scopes != [] && s.Switch? && s.cases == [] && s.defaultBlock == []
    ensures EmitArms(cs, s, temp, base, None) == Ok(Emitted([], cs))
  {
    var none: seq<Instr> := [];
    var inner := cs.(scopes := cs.scopes + [map[]]);
    assert EmitBlock(inner, [], base, None) == Ok(Emitted(none, inner));
    assert inner.scopes[..|cs.scopes|] == cs.scopes;
    assert EmitScope(cs, [], base, None) == Ok(Emitted(none, cs));
    assert EmitCases(cs, [], temp, base, None) == Ok(Emitted(none, cs));
    assert Fill(none, ToSwitchEnd, Truncate32(base)) == none && none + none == none;
  }

  lemma UnitEmitted()
    ensures EmitUnit(Clashing()).Ok?
    ensures var em := EmitUnit(Clashing()).value; em.code == ClashingCode() && em.cs.constants == ClashingPool()
  {
    hide EmitStmt;
    SwitchEmitted();
    EntryEmitted();
    var u := Clashing();
    var cs := UnitEntry(u);
    var first := EmitStmt(cs, u.body[0], 0, None).value;
    var load := WithOperand(OP_LOAD_VAR, 0);
    ReturnEmitted(first.cs, Size(first.code));
    assert u.body[1..] == [u.body[1]];
    LastEmitted(first.cs, u.body[1], Size(first.code));
    assert first.code + ([load] + [Plain(OP_RETURN)]) == ClashingCode();
  }

  lemma LastEmitted(cs: CState, s: Stmt, base: nat)
    requires cs.scopes != [] && EmitStmt(cs, s, base, None).Ok?
    ensures EmitBlock(cs, [s], base, None) == EmitStmt(cs, s, base, None)
  {
    hide EmitStmt;
    var em := EmitStmt(cs, s, base, None).value;
    assert [s][1..] == [];
    assert em.code + [] == em.code;
  }

  lemma ReturnEmitted(cs: CState, base: nat)
    requires cs.scopes == [map[], map[TempName(0) := Symbol(0, false)]]
    ensures EmitStmt(cs, Return(Variable(TempName(0))), base, None) ==
              Ok(Emitted([WithOperand(OP_LOAD_VAR, 0)] + [Plain(OP_RETURN)], cs))
  {
    assert Resolve(cs.scopes, TempName(0)) == Some(Symbol(0, false));
  }

  // Compiled, it returns the switch's value; interpreted, the parameter's: the two agree exactly
  // when those are the same.
  lemma ReservedNameClashes(v: Value, limit: nat)
    ensures var u := Clashing();
            var inputs := map[TempName(0) := v];
            && EmitUnit(u).Ok? && Provided(u, inputs)
            && Interpreted(u, inputs, limit) == Returned(v)
            && var p, st := Loadable(EmitUnit(u).value), Launch(EmitUnit(u).value, inputs);
               FinishesWith(p, st, Ok(Int(1))) && (FinishesWith(p, st, Ok(v)) <==> v == Int(1))
  {
    hide EmitUnit, Finishes, ExecBlock, Loadable, Launch;
    UnitEmitted();
    MachineAnswers(v);
    InterpreterAnswers(v, limit);
    var p, st := Loadable(EmitUnit(Clashing()).value), Launch(EmitUnit(Clashing()).value, map[TempName(0) := v]);
    if FinishesWith(p, st, Ok(v)) {
      var j: nat, k: nat :| Finishes(p, st, j, Ok(v)) && Finishes(p, st, k, Ok(Int(1)));
      FinishesOnce(p, st, j, k, Ok(v), Ok(Int(1)));
    }
  }

  lemma InterpreterAnswers(v: Value, limit: nat)
    ensures Interpreted(Clashing(), map[TempName(0) := v], limit) == Returned(v)
  {
    var u := Clashing();
    var env := Initially(map[TempName(0) := v]);
    assert CloseScope(ExecBlock(AsWritten, limit, [], env + [map[]])) == Normal(env, Null) by {
      assert (env + [map[]])[..2] == env;
    }
    assert Exec(AsWritten, limit, u.body[0], env) == Normal(env, Null);
    assert Eval(AsWritten, Variable(TempName(0)), env) == Ok(v);
    assert u.body[1..][0] == u.body[1];
  }

  lemma MachineAnswers(v: Value)
    requires EmitUnit(Clashing()).Ok?
    requires var em := EmitUnit(Clashing()).value; em.code == ClashingCode() && em.cs.constants == ClashingPool()
    ensures var em := EmitUnit(Clashing()).value;
            FinishesWith(Loadable(em), Launch(em, map[TempName(0) := v]), Ok(Int(1)))
  {
    hide EmitUnit, Bytecode, Placed, Header, Size, Run, Finishes;
    var em := EmitUnit(Clashing()).value;
    var name := TempName(0);
    UnitSealed(Clashing());
    ClashingSmall();
    FinishedPlaced(em.code, em.cs.constants);
    var pl := Place(Loadable(em), CodeStart(em), 0, 0);
    var push, store := [WithOperand(OP_PUSH, 1)], [WithOperand(OP_STORE_VAR, 0)];
    var load, ret := [WithOperand(OP_LOAD_VAR, 0)], [Plain(OP_RETURN)];
    OperandSize(OP_PUSH, 1);
    OperandSize(OP_STORE_VAR, 0);
    OperandSize(OP_LOAD_VAR, 0);
    PlacedSplit(pl, 0, push, store + (load + ret));
    PlacedSplit(pl, 5, store, load + ret);
    PlacedSplit(pl, 10, load, ret);
    var st := Launch(em, map[name := v]);
    var s1 := st.(pc := st.pc + 5, stack := [Int(1)]);
    var s2 := s1.(pc := st.pc + 10, stack := [], locals := map[name := Int(1)]);
    var s3 := s2.(pc := st.pc + 15, stack := [Int(1)]);
    assert Truncate32(0) == 0 && Truncate32(1) == 1;
    StepPush(pl, 0, 1, st);
    assert [] + [Int(1)] == [Int(1)];
    StepStore(pl, 5, 0, name, s1, [], Int(1));
    assert map[name := v][name := Int(1)] == map[name := Int(1)];
    StepLoad(pl, 10, 0, name, s2);
    StepPlain(pl, 15, OP_RETURN, s3);
    RunCompose(pl.p, st, 1, 1);
    RunCompose(pl.p, st, 2, 1);
    RunCompose(pl.p, st, 3, 1);
    LastStep(pl.p, st, s3);
  }

  lemma LastStep(p: Program, st: State, s3: State)
    requires s3.pc < |p.code| && p.code[s3.pc] == OP_RETURN && s3.stack == [Int(1)] && !s3.halted
    requires Run(p, st, 4) == Step(p, s3)
    ensures FinishesWith(p, st, Ok(Int(1)))
  {
    hide Run;
    ReturnStep(p, s3);
    assert Finishes(p, st, 4, Ok(Int(1)));
  }

  lemma ReturnStep(p: Program, st: State)
    requires st.pc < |p.code| && p.code[st.pc] == OP_RETURN
    ensures Step(p, st) == Ok(st.(pc := st.pc + 1, halted := true))
  {
    hide StepOperand, StepBinary, StepUnary;
  }

  lemma OperandSize(op: Byte, arg: U32)
    ensures Size([WithOperand(op, arg)]) == 5
  {
    assert [WithOperand(op, arg)][1..] == [];
  }

  lemma ClashingSmall()
    ensures |Bytecode(Pool(ClashingPool()), ClashingCode())| < TWO32
    ensures forall v | v in ClashingPool() :: Storable(Of(v))
  {
    var pool := Pool(ClashingPool());
    var code := ClashingCode();
    assert Decimal(0) == [48];
    PoolSize(pool);
    LayoutKept(code, ToLoopEnd, 0, Truncate32(|Header(pool, Size(code))|));
    CodeSize(code);
  }

  lemma PoolSize(pool: seq<Constant>)
    requires pool == Pool(ClashingPool())
    ensures |SerializePool(pool)| < 100
  {
    assert pool[1..][1..] == [];
    assert pool[1..] == [pool[1]];
    assert Decimal(0) == [48];
    assert |TempName(0)| == 10;
    assert |Serialize(pool[0])| == 15 && |Serialize(pool[1])| == 9;
    assert SerializePool(pool[1..]) == Serialize(pool[1]) + SerializePool(pool[1..][1..]);
  }

  lemma CodeSize(code: seq<Instr>)
    requires code == ClashingCode()
    ensures Size(code) == 16
  {
    EncodeAppend([WithOperand(OP_PUSH, 1)], [WithOperand(OP_STORE_VAR, 0)] + ([WithOperand(OP_LOAD_VAR, 0)] + [Plain(OP_RETURN)]));
    EncodeAppend([WithOperand(OP_STORE_VAR, 0)], [WithOperand(OP_LOAD_VAR, 0)] + [Plain(OP_RETURN)]);
    EncodeAppend([WithOperand(OP_LOAD_VAR, 0)], [Plain(OP_RETURN)]);
    OperandSize(OP_PUSH, 1);
    OperandSize(OP_STORE_VAR, 0);
    OperandSize(OP_LOAD_VAR, 0);
    assert [Plain(OP_RETURN)][1..] == [];
  }
}
