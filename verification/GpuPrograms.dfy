/** Compiled programs on the GPU machine: straight-line programs run as they should, programs with
  * branches do not, and two variables whose names are 64 places apart in the pool are one. */
module GpuPrograms {
  import opened Bytes
  import opened Lang
  import opened Opcodes
  import opened Interpreter
  import opened CodeGen
  import opened EmissionFacts
  import opened Format
  import opened Vm
  import opened Placement
  import opened Simulation
  import opened Theorems
  import opened Readings
  import opened Heights
  import opened LockStep
  import opened GpuReader
  import opened GpuMachine
  import opened GpuAgreement
  import opened GpuShipped
  import opened ReservedNames
  import opened Differences

  // ---- code without jumps ----

  // Statements for which no jump is emitted.
  predicate Unbranched(s: Stmt) {
    s.Assign? || s.Reassign? || s.Return? || s.ExprStmt? || s.Validation?
  }

  predicate UnbranchedBody(body: seq<Stmt>) {
    forall i | 0 <= i < |body| :: Unbranched(body[i])
  }

  lemma StmtStraight(cs: CState, s: Stmt, base: nat)
    requires cs.scopes != [] && Unbranched(s) && EmitStmt(cs, s, base, None).Ok?
    ensures Straight(EmitStmt(cs, s, base, None).value.code)
  {
    hide EmitExpr, AddConstant;
    match s
    case Assign(_, e) => ExprKeeps(cs, e);
    case Reassign(_, e) => ExprKeeps(cs, e);
    case Return(e) => ExprKeeps(cs, e);
    case ExprStmt(e) => ExprKeeps(cs, e);
    case Validation(_) =>
  }

  lemma {:induction false} BlockStraight(cs: CState, body: seq<Stmt>, base: nat)
    requires cs.scopes != [] && UnbranchedBody(body) && EmitBlock(cs, body, base, None).Ok?
    ensures Straight(EmitBlock(cs, body, base, None).value.code)
    decreases |body|
  {
    hide EmitStmt;
    if body != [] {
      var first := EmitStmt(cs, body[0], base, None).value;
      StmtStraight(cs, body[0], base);
      BlockStraight(first.cs, body[1..], base + Size(first.code));
    }
  }

  // A straight-line unit's file has nothing to move: its code is as emitted.
  lemma StraightFile(u: Unit)
    requires EmitUnit(u).Ok? && UnbranchedBody(u.body)
    ensures UnitBytecode(EmitUnit(u).value) == RawFile(EmitUnit(u).value)
  {
    hide Encode, Header, EmitBlock;
    var em := EmitUnit(u).value;
    BlockStraight(UnitEntry(u), u.body, 0);
    assert Straight(em.code);
    var h := Truncate32(|Header(Pool(em.cs.constants), Size(em.code))|);
    assert Relocate(em.code, h) == em.code;
  }

  // So its compiled file gives on the GPU what the program gives, within the limits of GpuAgrees.
  lemma StraightOnGpu(job: Job, u: Unit, names: set<Str>, inputs: map<Str, Value>, limit: nat)
    requires EmitUnit(u).Ok? && PlainUnit(u) && Provided(u, inputs) && Blank(names, inputs) && UnbranchedBody(u.body)
    requires NeedBlock(u.body) <= MAX_GPU_STACK
    requires var em := EmitUnit(u).value;
             && job.bytecode == UnitBytecode(em) && |job.bytecode| < TWO32 && LayoutOf(job.bytecode) == Some(job.config)
             && (forall v | v in em.cs.constants :: Storable(Of(v)))
             && Apart(em.cs.constants, names) && Always(RawProgram(em), names, First(inputs))
    ensures GpuMatches(RawProgram(EmitUnit(u).value), First(inputs), limit, CompiledRun(u, inputs, limit),
                       ResultOf(RunOn(job, AT_START)))
  {
    hide EmitUnit, UnitBytecode, RawFile, PlainUnit, Provided, UnbranchedBody, LayoutOf, Apart, Always, GpuMatches, Storable;
    StraightFile(u);
    GpuAgrees(job, u, names, inputs, limit);
  }

  // ---- one instruction after another ----

  lemma StepAt(instrs: seq<Instr>, constants: seq<Value>, names: set<Str>, st: State, j: nat)
    requires WellFormed(instrs) && j < |instrs| && st.pc == Size(instrs[..j])
    ensures var p, i := Raw(instrs, constants), instrs[j];
            && st.pc < |p.code| && Step(p, st) == Effect(p, st, i) && Size(instrs[..j + 1]) == st.pc + InstrSize(i)
            && (JumpTaken(p, st) <==> Taking(i, st))
            && (i.op != OP_EQ && i.op != OP_NE ==> Alike(p, st))
            && ((i.op == OP_LOAD_VAR || i.op == OP_STORE_VAR ==> i.WithOperand? && Named(constants, names, i.arg)) ==>
                  Known(p, names, st))
  {
    hide Step, Effect, EncodeInstr, Encode;
    EncodeAt(instrs, j);
    StepIsEffect(Raw(instrs, constants), Encode(instrs[..j]), instrs[j], Encode(instrs[j + 1..]), st);
    FetchAt(Encode(instrs), Encode(instrs[..j]), instrs[j], Encode(instrs[j + 1..]));
  }

  // A run that suits the GPU, one step longer at its front.
  lemma OneMore(p: Program, names: set<Str>, st: State, next: State, k: nat)
    requires Modest(names, st) && Clear(p, names, st) && !Stopped(p, st) && Step(p, st) == Ok(next)
    requires Suits(p, names, next, k)
    ensures Suits(p, names, st, k + 1) && Run(p, st, k + 1) == Run(p, next, k) && Taken(p, st, k + 1) == 1 + Taken(p, next, k)
    ensures JumpFree(p, st, k + 1) <==> !JumpTaken(p, st) && JumpFree(p, next, k)
  {
    hide Step, Modest, Clear, JumpTaken;
  }

  lemma LastOne(p: Program, names: set<Str>, st: State)
    requires Modest(names, st) && st.halted && (st.pc >= |p.code| || Clear(p, names, st))
    ensures Suits(p, names, st, 0) && Run(p, st, 0) == Ok(st) && Taken(p, st, 0) == 0 && JumpFree(p, st, 0)
  {
  }

  // ---- a branch ----

  // if b { };  return i
  function Branches(b: bool, i: Int64): Unit {
    Unit([], [], [If(Literal(Bool(b)), [], []), Return(Literal(Int(i)))], false)
  }

  function BranchesCode(): seq<Instr> {
    [WithOperand(OP_PUSH, 0), WithOperand(OP_JUMP_IF_FALSE, 15), WithOperand(OP_JUMP, 15),
     WithOperand(OP_PUSH, 1), Plain(OP_RETURN)]
  }

  lemma EmptyScope(cs: CState, base: nat)
    requires cs.scopes != []
    ensures EmitScope(cs, [], base, None) == Ok(Emitted([], cs))
  {
    var inner := cs.(scopes := cs.scopes + [map[]]);
    assert EmitBlock(inner, [], base, None) == Ok(Emitted([], inner));
    assert inner.scopes[..|cs.scopes|] == cs.scopes;
  }

  lemma BranchEmitted(b: bool)
    ensures EmitStmt(NOTHING, If(Literal(Bool(b)), [], []), 0, None) ==
              Ok(Emitted(BranchesCode()[..3], NOTHING.(constants := [Bool(b)])))
  {
    hide AddConstant, EmitScope;
    AddFirst(Bool(b));
    var cs := NOTHING.(constants := [Bool(b)]);
    var cond := [WithOperand(OP_PUSH, 0)];
    assert Truncate32(0) == 0 && Truncate32(15) == 15;
    assert EmitExpr(NOTHING, Literal(Bool(b))) == Ok(Emitted(cond, cs));
    OperandSize(OP_PUSH, 0);
    EmptyScope(cs, 10);
    EmptyScope(cs, 15);
    var none: seq<Instr> := [];
    assert Size(none) == 0;
    assert cond + [WithOperand(OP_JUMP_IF_FALSE, 15)] + none + [WithOperand(OP_JUMP, 15)] + none == BranchesCode()[..3];
  }

  lemma ReturnIntEmitted(b: bool, i: Int64, base: nat)
    ensures EmitStmt(NOTHING.(constants := [Bool(b)]), Return(Literal(Int(i))), base, None) ==
              Ok(Emitted(BranchesCode()[3..], NOTHING.(constants := [Bool(b), Int(i)])))
  {
    AddSecond(Bool(b), Int(i));
    assert Truncate32(1) == 1;
    assert [WithOperand(OP_PUSH, 1)] + [Plain(OP_RETURN)] == BranchesCode()[3..];
  }

  lemma BranchesEmitted(b: bool, i: Int64)
    ensures EmitUnit(Branches(b, i)) == Ok(Emitted(BranchesCode(), NOTHING.(constants := [Bool(b), Int(i)])))
  {
    hide EmitStmt;
    var u := Branches(b, i);
    assert UnitEntry(u) == NOTHING;
    BranchEmitted(b);
    var first := EmitStmt(NOTHING, u.body[0], 0, None).value;
    assert u.body[1..] == [u.body[1]];
    ReturnIntEmitted(b, i, Size(first.code));
    LastEmitted(first.cs, u.body[1], Size(first.code));
    assert BranchesCode()[..3] + BranchesCode()[3..] == BranchesCode();
  }

  // 27 bytes of header, 21 of code.
  lemma BranchesSizes(b: bool, i: Int64)
    ensures var em := Emitted(BranchesCode(), NOTHING.(constants := [Bool(b), Int(i)]));
            CodeStart(em) == 27 && Size(em.code) == 21 && |UnitBytecode(em)| == 48 && WellFormed(em.code)
  {
    hide Encode, Relocate, Size, SerializePool;
    var em := Emitted(BranchesCode(), NOTHING.(constants := [Bool(b), Int(i)]));
    PrefixSizes();
    PoolBytes([Of(Bool(b)), Of(Int(i))]);
    assert Pool(em.cs.constants) == [Of(Bool(b)), Of(Int(i))];
    LayoutKept(em.code, ToLoopEnd, 0, Truncate32(CodeStart(em)));
  }

  lemma PoolBytes(pool: seq<Constant>)
    requires |pool| == 2 && pool[0].Of? && pool[0].v.Bool? && pool[1].Of? && pool[1].v.Int?
    ensures |SerializePool(pool)| == 11
  {
    hide PutInt64;
    assert pool[1..][1..] == [];
    assert |Serialize(pool[0])| == 2 && |Serialize(pool[1])| == 9;
    assert SerializePool(pool[1..]) == Serialize(pool[1]) + SerializePool(pool[1..][1..]);
  }

  lemma PrefixSizes()
    ensures var code := BranchesCode();
            && Size(code[..0]) == 0 && Size(code[..1]) == 5 && Size(code[..2]) == 10 && Size(code[..3]) == 15
            && Size(code[..4]) == 20 && Size(code) == 21
  {
    var code := BranchesCode();
    assert code[..0] == [] && Size([]) == 0;
    hide Encode, EncodeInstr, Size;
    EncodeAt(code, 0);
    EncodeAt(code, 1);
    EncodeAt(code, 2);
    EncodeAt(code, 3);
    EncodeAt(code, 4);
    assert code[..5] == code;
  }

  function BranchesProgram(b: bool, i: Int64): Program {
    Raw(BranchesCode(), [Bool(b), Int(i)])
  }

  // `return i`, the last two instructions.
  lemma ReturnRun(b: bool, i: Int64)
    requires Fits32(Int(i))
    ensures var p, st := BranchesProgram(b, i), State(15, [], map[], false);
            Suits(p, {}, st, 2) && Run(p, st, 2) == Ok(State(21, [Int(i)], map[], true)) && Taken(p, st, 2) == 2
  {
    hide Step, Run, Suits, Taken, JumpFree, Encode, JumpTaken, Alike, Known, WellFormed, Size;
    var code := BranchesCode();
    var p := BranchesProgram(b, i);
    BranchesSizes(b, i);
    PrefixSizes();
    var s0, s1, s2 := State(15, [], map[], false), State(20, [Int(i)], map[], false), State(21, [Int(i)], map[], true);
    StepAt(code, p.constants, {}, s0, 3);
    StepAt(code, p.constants, {}, s1, 4);
    assert [] + [Int(i)] == [Int(i)];
    LastOne(p, {}, s2);
    OneMore(p, {}, s1, s2, 0);
    OneMore(p, {}, s0, s1, 1);
  }

  // The jump that leads there: from the condition if it is false, from the empty branch if not.
  lemma BranchRun(b: bool, i: Int64) returns (k: nat)
    requires Fits32(Int(i))
    ensures var p, st := BranchesProgram(b, i), State(5, [Bool(b)], map[], false);
            && k <= 4 && Suits(p, {}, st, k) && Taken(p, st, k) == k && !JumpFree(p, st, k)
            && Run(p, st, k) == Ok(State(21, [Int(i)], map[], true))
  {
    hide Step, Run, Suits, Taken, JumpFree, Encode, JumpTaken, Alike, Known, WellFormed, Size;
    var code := BranchesCode();
    var p := BranchesProgram(b, i);
    BranchesSizes(b, i);
    PrefixSizes();
    ReturnRun(b, i);
    var s0, s1, s2 := State(5, [Bool(b)], map[], false), State(10, [], map[], false), State(15, [], map[], false);
    StepAt(code, p.constants, {}, s0, 1);
    if b {
      StepAt(code, p.constants, {}, s1, 2);
      OneMore(p, {}, s1, s2, 2);
      OneMore(p, {}, s0, s1, 3);
      k := 4;
    } else {
      OneMore(p, {}, s0, s2, 2);
      k := 3;
    }
  }

  lemma BranchesRun(b: bool, i: Int64) returns (k: nat)
    requires Fits32(Int(i))
    ensures var p, st := BranchesProgram(b, i), First(map[]);
            && k <= 5 && Suits(p, {}, st, k) && Taken(p, st, k) == k && !JumpFree(p, st, k)
            && Run(p, st, k) == Ok(State(21, [Int(i)], map[], true))
  {
    hide Step, Run, Suits, Taken, JumpFree, Encode, JumpTaken, Alike, Known, WellFormed, Size;
    var p := BranchesProgram(b, i);
    BranchesSizes(b, i);
    PrefixSizes();
    var j := BranchRun(b, i);
    var s0, s1 := First(map[]), State(5, [Bool(b)], map[], false);
    StepAt(BranchesCode(), p.constants, {}, s0, 0);
    assert [] + [Bool(b)] == [Bool(b)];
    OneMore(p, {}, s0, s1, j);
    k := j + 1;
  }

  // The program returns i, whichever way it goes; its file on the GPU ends without an error and shows null.
  lemma BranchLost(job: Job, b: bool, i: Int64, limit: nat)
    requires Fits32(Int(i)) && EmitUnit(Branches(b, i)).Ok? && job.bytecode == UnitBytecode(EmitUnit(Branches(b, i)).value)
    requires LayoutOf(job.bytecode) == Some(job.config)
    ensures Interpreted(Branches(b, i), map[], limit) == Returned(Int(i))
    ensures var r := ResultOf(RunOn(job, AT_START)); r.error == ErrNone && r.value == GpuNull
  {
    hide EmitUnit, RunOn, LayoutOf, CodeStart, UnitBytecode, Suits, Taken, JumpFree, Run, Size, Encode;
    var u := Branches(b, i);
    var em := Emitted(BranchesCode(), NOTHING.(constants := [Bool(b), Int(i)]));
    BranchesEmitted(b, i);
    BranchesSizes(b, i);
    var k := BranchesRun(b, i);
    assert Apart(em.cs.constants, {});
    assert Finishes(RawProgram(em), First(map[]), k, Ok(Int(i)));
    ShippedOnGpu(job, u, {}, map[], k, Ok(Int(i)));
    BranchTaken(b, i, limit);
  }

  lemma BranchTaken(b: bool, i: Int64, limit: nat)
    ensures Interpreted(Branches(b, i), map[], limit) == Returned(Int(i))
  {
    var u := Branches(b, i);
    var env := Initially(map[]);
    assert CloseScope(ExecBlock(AsWritten, limit, [], env + [map[]])) == Normal(env, Null) by {
      assert (env + [map[]])[..2] == env;
    }
    assert Eval(AsWritten, Literal(Bool(b)), env) == Ok(Bool(b));
    assert Exec(AsWritten, limit, u.body[0], env) == Normal(env, Null);
    assert u.body[1..] == [u.body[1]];
    assert Eval(AsWritten, Literal(Int(i)), env) == Ok(Int(i));
    assert ExecBlock(AsWritten, limit, [u.body[1]], env) == Returned(Int(i));
  }

  // ---- shared slots ----

  // The variables as the GPU tells them apart: named by where the pool keeps their names, modulo 64.
  function Merged(p: Program): Program {
    p.(constants := MergedNames(p.constants))
  }

  function MergedNames(constants: seq<Value>): (merged: seq<Value>)
    ensures |merged| == |constants|
  {
    seq(|constants|, i requires 0 <= i < |constants| =>
      if constants[i].Text? then Text([i % MAX_VARS]) else constants[i])
  }

  lemma MergedHolds(job: Job, p: Program)
    requires Holds(job, p)
    ensures Holds(job, Merged(p))
  {
    hide ConstantAt;
    var q := Merged(p);
    forall i | 0 <= i < |q.constants| && Fits32(q.constants[i]) ensures ConstantAt(job, i) == Narrowed(q.constants[i]) {
      assert q.constants[i] == p.constants[i];
    }
  }

  // Whatever names share a slot, the GPU gives what the main machine gives once they are merged.
  lemma MergedOnGpu(job: Job, p: Program, names: set<Str>, k: nat, v: Value)
    requires Holds(job, p) && Suits(Merged(p), names, First(map[]), k)
    requires Run(Merged(p), First(map[]), k).Ok? && Run(Merged(p), First(map[]), k).value.halted
    requires Answer(Run(Merged(p), First(map[]), k).value) == v
    ensures AnswersIn(Taken(Merged(p), First(map[]), k), Ok(v), ResultOf(RunOn(job, AT_START)))
  {
    hide ConstantAt, RunOn, Run, Suits, Mirrors, Taken, Fits32;
    var q := Merged(p);
    MergedHolds(job, p);
    assert Apart(q.constants, names);
    FirstMirrors(q.constants, names, map[]);
    RunMirrors(job, q, names, First(map[]), AT_START, k);
    LastFits(q, names, First(map[]), k);
  }

  // A unit with these parameters:  names[i] = v;  return names[j]
  function TwoNames(names: seq<Str>, i: nat, j: nat, v: Value): Unit
    requires i < |names| && j < |names|
  {
    Unit(names, [], [Reassign(names[i], Literal(v)), Return(Variable(names[j]))], false)
  }

  predicate Distinct(names: seq<Str>) {
    forall i, j | 0 <= i < j < |names| :: names[i] != names[j]
  }

  function Texts(names: seq<Str>): (texts: seq<Value>)
    ensures |texts| == |names|
  {
    seq(|names|, i requires 0 <= i < |names| => Text(names[i]))
  }

  predicate Tabled(cs: CState, names: seq<Str>) {
    && |cs.scopes| == 2 && cs.constants == Texts(names)
    && forall k | 0 <= k < |names| :: names[k] in cs.scopes[1] && cs.scopes[1][names[k]] == Symbol(k, false)
  }

  lemma {:induction false} AllTabled(cs: CState, before: seq<Str>, names: seq<Str>)
    requires Tabled(cs, before) && Distinct(before + names)
    ensures Tabled(DefineNames(cs, names, false), before + names)
    decreases |names|
  {
    if names == [] {
      assert before + names == before;
    } else {
      assert forall k | 0 <= k <= |before| :: (before + [names[0]])[k] == (before + names)[k];
      OneTabled(cs, before, names[0]);
      var (constants, index) := AddConstant(cs.constants, Text(names[0]));
      var scopes := Define(cs.scopes, names[0], Symbol(index, false));
      assert before + [names[0]] + names[1..] == before + names;
      assert forall k | 0 <= k < |before| :: (before + names)[k] == before[k];
      AllTabled(cs.(constants := constants, scopes := scopes), before + [names[0]], names[1..]);
    }
  }

  lemma OneTabled(cs: CState, before: seq<Str>, name: Str)
    requires Tabled(cs, before) && Distinct(before + [name])
    ensures var (constants, index) := AddConstant(cs.constants, Text(name));
            Tabled(cs.(constants := constants, scopes := Define(cs.scopes, name, Symbol(index, false))), before + [name])
  {
    var all := before + [name];
    assert all[|before|] == name && forall k | 0 <= k < |before| :: all[k] == before[k];
    assert AddConstant(cs.constants, Text(name)) == (Texts(all), |before|) by {
      assert forall k | 0 <= k < |before| :: cs.constants[k] == Text(all[k]) && all[k] != all[|before|];
      assert cs.constants + [Text(name)] == Texts(all);
    }
  }

  // Where the pool has a value already, it is found.
  lemma Found(constants: seq<Value>, k: nat)
    requires k < |constants| && forall i | 0 <= i < |constants| && constants[i] == constants[k] :: i == k
    ensures AddConstant(constants, constants[k]) == (constants, k)
  {
    assert constants[k] in constants && constants[..|constants|] == constants;
  }

  function TwoNamesCode(n: nat, i: nat, j: nat): seq<Instr> {
    [WithOperand(OP_PUSH, Truncate32(n)), WithOperand(OP_STORE_VAR, Truncate32(i)),
     WithOperand(OP_LOAD_VAR, Truncate32(j)), Plain(OP_RETURN)]
  }

  lemma TwoNamesEmitted(names: seq<Str>, i: nat, j: nat, v: Value)
    requires Distinct(names) && i < |names| && j < |names| && Fits32(v)
    ensures EmitUnit(TwoNames(names, i, j, v)).Ok?
    ensures var em := EmitUnit(TwoNames(names, i, j, v)).value;
            em.code == TwoNamesCode(|names|, i, j) && em.cs.constants == Texts(names) + [v]
  {
    hide EmitStmt, DefineNames, Truncate32, Distinct;
    var u := TwoNames(names, i, j, v);
    var cs := UnitEntry(u);
    EntryTabled(u);
    var pool := Texts(names) + [v];
    var after := cs.(constants := pool);
    ReassignEmitted(cs, names, i, v);
    ReturnNameEmitted(after, names[j], j, 10);
    var first := EmitStmt(cs, u.body[0], 0, None).value;
    assert u.body[1..] == [u.body[1]];
    assert Size(first.code) == 10 by { OperandSizes(first.code[0], first.code[1]); }
    LastEmitted(after, u.body[1], 10);
    var code := TwoNamesCode(|names|, i, j);
    assert code[..2] + code[2..] == code && code[2..] == [code[2]] + [code[3]];
  }

  lemma OperandSizes(a: Instr, b: Instr)
    requires a.WithOperand? && b.WithOperand?
    ensures Size([a, b]) == 10
  {
    assert [a, b] == [a] + [b];
    EncodeAppend([a], [b]);
  }

  lemma EntryTabled(u: Unit)
    requires u.builtins == [] && Distinct(u.names)
    ensures Tabled(UnitEntry(u), u.names)
  {
    var start := CState([], [map[], map[]], 0);
    assert [] + u.names == u.names;
    AllTabled(start, [], u.names);
  }

  lemma ReassignEmitted(cs: CState, names: seq<Str>, i: nat, v: Value)
    requires Tabled(cs, names) && Distinct(names) && i < |names| && !v.Text?
    ensures EmitStmt(cs, Reassign(names[i], Literal(v)), 0, None) ==
              Ok(Emitted([WithOperand(OP_PUSH, Truncate32(|names|)), WithOperand(OP_STORE_VAR, Truncate32(i))],
                         cs.(constants := Texts(names) + [v])))
  {
    hide Truncate32;
    var pool := Texts(names) + [v];
    assert forall k | 0 <= k < |names| :: pool[k] == Text(names[k]);
    assert AddConstant(cs.constants, v) == (pool, |names|);
    Found(pool, i);
    assert Resolve(cs.scopes, names[i]).Some?;
    assert [WithOperand(OP_PUSH, Truncate32(|names|))] + [WithOperand(OP_STORE_VAR, Truncate32(i))]
        == [WithOperand(OP_PUSH, Truncate32(|names|)), WithOperand(OP_STORE_VAR, Truncate32(i))];
  }

  lemma ReturnNameEmitted(cs: CState, name: Str, j: nat, base: nat)
    requires |cs.scopes| == 2 && name in cs.scopes[1] && cs.scopes[1][name] == Symbol(j, false)
    ensures EmitStmt(cs, Return(Variable(name)), base, None) ==
              Ok(Emitted([WithOperand(OP_LOAD_VAR, Truncate32(j))] + [Plain(OP_RETURN)], cs))
  {
    hide Truncate32;
    assert Resolve(cs.scopes, name) == Some(Symbol(j, false));
  }

  // The assignment, and then the return.
  lemma TwoNamesRun(n: nat, i: nat, j: nat, constants: seq<Value>, slot: Str, v: Value)
    requires n < TWO32 && i < n && j < n && |constants| == n + 1 && Fits32(v)
    requires constants[n] == v && constants[i] == constants[j] == Text(slot)
    ensures var p, st := Raw(TwoNamesCode(n, i, j), constants), First(map[]);
            && Suits(p, {slot}, st, 4) && Taken(p, st, 4) == 4
            && Run(p, st, 4) == Ok(State(16, [v], map[slot := v], true))
  {
    hide Step, Run, Suits, Taken, JumpFree, Encode, JumpTaken, Alike, Known, Size, Fits32;
    var code := TwoNamesCode(n, i, j);
    var p := Raw(code, constants);
    TwoNamesSizes(n, i, j);
    TwoNamesEnd(n, i, j, constants, slot, v);
    var s0, s1, s2 := First(map[]), State(5, [v], map[], false), State(10, [], map[slot := v], false);
    StepAt(code, constants, {slot}, s0, 0);
    StepAt(code, constants, {slot}, s1, 1);
    assert [] + [v] == [v] && [v][..0] == [];
    OneMore(p, {slot}, s1, s2, 2);
    OneMore(p, {slot}, s0, s1, 3);
  }

  lemma TwoNamesEnd(n: nat, i: nat, j: nat, constants: seq<Value>, slot: Str, v: Value)
    requires n < TWO32 && j < n && |constants| == n + 1 && constants[j] == Text(slot) && Fits32(v)
    ensures var p, st := Raw(TwoNamesCode(n, i, j), constants), State(10, [], map[slot := v], false);
            && Suits(p, {slot}, st, 2) && Taken(p, st, 2) == 2
            && Run(p, st, 2) == Ok(State(16, [v], map[slot := v], true))
  {
    hide Step, Run, Suits, Taken, JumpFree, Encode, JumpTaken, Alike, Known, Size, Fits32;
    var code := TwoNamesCode(n, i, j);
    var p := Raw(code, constants);
    TwoNamesSizes(n, i, j);
    var s2 := State(10, [], map[slot := v], false);
    var s3, s4 := s2.(pc := 15, stack := [v]), s2.(pc := 16, stack := [v], halted := true);
    StepAt(code, constants, {slot}, s2, 2);
    StepAt(code, constants, {slot}, s3, 3);
    assert [] + [v] == [v];
    LastOne(p, {slot}, s4);
    OneMore(p, {slot}, s3, s4, 0);
    OneMore(p, {slot}, s2, s3, 1);
  }

  lemma TwoNamesSizes(n: nat, i: nat, j: nat)
    ensures var code := TwoNamesCode(n, i, j);
            && Size(code[..0]) == 0 && Size(code[..1]) == 5 && Size(code[..2]) == 10 && Size(code[..3]) == 15
            && Size(code) == 16 && WellFormed(code)
  {
    var code := TwoNamesCode(n, i, j);
    assert code[..0] == [] && Size([]) == 0;
    hide Encode, EncodeInstr, Size, Truncate32;
    EncodeAt(code, 0);
    EncodeAt(code, 1);
    EncodeAt(code, 2);
    EncodeAt(code, 3);
    assert code[..4] == code;
  }

  lemma TwoNamesReturn(names: seq<Str>, i: nat, j: nat, v: Value, inputs: map<Str, Value>, limit: nat)
    requires Distinct(names) && i < |names| && j < |names| && i != j && Provided(TwoNames(names, i, j, v), inputs)
    ensures Interpreted(TwoNames(names, i, j, v), inputs, limit) == Returned(inputs[names[j]])
  {
    var u := TwoNames(names, i, j, v);
    var env := Initially(inputs);
    var env' := [map[], inputs[names[i] := v]];
    assert SetExisting(env, names[i], v) == env';
    assert Eval(AsWritten, Literal(v), env) == Ok(v);
    assert Exec(AsWritten, limit, u.body[0], env) == Normal(env', v);
    assert u.body[1..] == [u.body[1]];
    assert Eval(AsWritten, Variable(names[j]), env') == Ok(inputs[names[j]]);
    assert ExecBlock(AsWritten, limit, [u.body[1]], env') == Returned(inputs[names[j]]);
  }

  // The interpreter returns the one parameter's value; the GPU, the value given to the other.
  lemma SharedSlot(job: Job, names: seq<Str>, i: nat, j: nat, v: Value, inputs: map<Str, Value>, limit: nat)
    requires Distinct(names) && i < |names| && j < |names| && i != j && i % MAX_VARS == j % MAX_VARS && Fits32(v)
    requires Provided(TwoNames(names, i, j, v), inputs) && EmitUnit(TwoNames(names, i, j, v)).Ok?
    requires var em := EmitUnit(TwoNames(names, i, j, v)).value;
             && job.bytecode == UnitBytecode(em) && |job.bytecode| < TWO32 && LayoutOf(job.bytecode) == Some(job.config)
             && (forall c | c in em.cs.constants :: Storable(Of(c)))
    ensures Interpreted(TwoNames(names, i, j, v), inputs, limit) == Returned(inputs[names[j]])
    ensures ResultOf(RunOn(job, AT_START)) == GpuResult(Narrowed(v), ErrNone, 4)
  {
    hide EmitUnit, RunOn, LayoutOf, Suits, Taken, Run, Size, Encode, Header, Fits32, Storable, Provided, Holds;
    var u := TwoNames(names, i, j, v);
    var em := EmitUnit(u).value;
    TwoNamesEmitted(names, i, j, v);
    StraightFile(u);
    FileHolds(job, em.cs.constants, Encode(em.code));
    assert |em.cs.constants| < TWO32 by { SmallPool(job, em); }
    var p := RawProgram(em);
    SlotsMerged(names, i, v);
    SlotsMerged(names, j, v);
    TwoNamesRun(|names|, i, j, Merged(p).constants, [i % MAX_VARS], v);
    MergedOnGpu(job, p, {[i % MAX_VARS]}, 4, v);
    TwoNamesReturn(names, i, j, v, inputs, limit);
  }

  lemma SlotsMerged(names: seq<Str>, i: nat, v: Value)
    requires i < |names| && Fits32(v)
    ensures var merged := MergedNames(Texts(names) + [v]); merged[i] == Text([i % MAX_VARS]) && merged[|names|] == v
  {
  }

  lemma SmallPool(job: Job, em: Emitted)
    requires job.bytecode == UnitBytecode(em) && |job.bytecode| < TWO32
    ensures |em.cs.constants| < TWO32
  {
    assert |SerializePool(Pool(em.cs.constants))| >= |em.cs.constants|;
  }
}
