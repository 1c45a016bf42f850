/** What every emission keeps: the pool only grows, outer scopes stay as they were, opcodes and
  * operands match, and no forward jump is left open where nothing would ever patch it. */
module EmissionFacts {
  import opened Bytes
  import opened Lang
  import opened Opcodes
  import opened CodeGen
  import opened Scoping

  // Neither jumps nor holes: the code means the same wherever it is placed.
  predicate Straight(instrs: seq<Instr>) {
    forall i | 0 <= i < |instrs| :: !instrs[i].Hole? && !IsJump(instrs[i].op)
  }

  ghost predicate Grows(cs: CState, cs': CState) {
    && cs.constants <= cs'.constants
    && (Pooled(cs.scopes, cs.constants) ==> Pooled(cs'.scopes, cs'.constants))
  }

  // Opcodes and operands match, and only the permitted kinds of hole are open.
  predicate SealedInstr(i: Instr, loopHoles: bool, switchHoles: bool) {
    match i
    case Plain(op) => !HasOperand(op)
    case WithOperand(op, _) => HasOperand(op) && op != OP_ASYNC
    case Hole(kind) => if kind.ToLoopEnd? then loopHoles else switchHoles
  }

  predicate Sealed(code: seq<Instr>, loopHoles: bool, switchHoles: bool) {
    forall k | 0 <= k < |code| :: SealedInstr(code[k], loopHoles, switchHoles)
  }

  lemma SealedWellFormed(code: seq<Instr>)
    requires Sealed(code, false, false)
    ensures WellFormed(code)
  {
    forall k | 0 <= k < |code| ensures WellFormedInstr(code[k]) {
      assert SealedInstr(code[k], false, false);
    }
  }

  lemma SealedAppend(a: seq<Instr>, b: seq<Instr>, loopHoles: bool, switchHoles: bool)
    requires Sealed(a, loopHoles, switchHoles) && Sealed(b, loopHoles, switchHoles)
    ensures Sealed(a + b, loopHoles, switchHoles)
  {
  }

  lemma SealedWeaken(a: seq<Instr>, loopHoles: bool, switchHoles: bool)
    requires Sealed(a, false, false) || (Sealed(a, loopHoles, false) && !switchHoles)
          || Sealed(a, loopHoles, false)
    ensures Sealed(a, loopHoles, switchHoles)
  {
    forall k | 0 <= k < |a| ensures SealedInstr(a[k], loopHoles, switchHoles) {
      assert SealedInstr(a[k], false, false) || SealedInstr(a[k], loopHoles, false);
    }
  }

  lemma FillSeals(code: seq<Instr>, target: U32, loopHoles: bool, switchHoles: bool)
    ensures Sealed(code, true, switchHoles) ==> Sealed(Fill(code, ToLoopEnd, target), false, switchHoles)
    ensures Sealed(code, loopHoles, true) ==> Sealed(Fill(code, ToSwitchEnd, target), loopHoles, false)
  {
    if Sealed(code, true, switchHoles) {
      forall k | 0 <= k < |code| ensures SealedInstr(Fill(code, ToLoopEnd, target)[k], false, switchHoles) {
        assert SealedInstr(code[k], true, switchHoles);
      }
    }
    if Sealed(code, loopHoles, true) {
      forall k | 0 <= k < |code| ensures SealedInstr(Fill(code, ToSwitchEnd, target)[k], loopHoles, false) {
        assert SealedInstr(code[k], loopHoles, true);
      }
    }
  }

  lemma PooledGrows(scopes: seq<Scope>, constants: seq<Value>, constants': seq<Value>)
    requires constants <= constants'
    ensures Pooled(scopes, constants) ==> Pooled(scopes, constants')
  {
    if Pooled(scopes, constants) {
      forall k | 0 <= k < |scopes| ensures PooledLevel(scopes[k], constants') {
        assert PooledLevel(scopes[k], constants);
      }
    }
  }

  lemma PooledDefine(scopes: seq<Scope>, constants: seq<Value>, x: Str, symbol: Symbol)
    requires scopes != [] && symbol.index < |constants| && constants[symbol.index] == Text(x)
    ensures Pooled(scopes, constants) ==> Pooled(Define(scopes, x, symbol), constants)
  {
    var r := Define(scopes, x, symbol);
    if Pooled(scopes, constants) {
      forall k | 0 <= k < |r| ensures PooledLevel(r[k], constants) {
        assert PooledLevel(scopes[k], constants);
      }
    }
  }

  lemma {:induction false} ExprKeeps(cs: CState, e: Expr)
    requires EmitExpr(cs, e).Ok?
    ensures var em := EmitExpr(cs, e).value;
            cs.constants <= em.cs.constants && Straight(em.code) && Sealed(em.code, false, false)
    decreases e
  {
    var em := EmitExpr(cs, e).value;
    match e
    case Literal(_) =>
    case Variable(_) =>
    case Unary(op, operand) =>
      ExprKeeps(cs, operand);
      SealedAppend(EmitExpr(cs, operand).value.code, [Plain(UnaryOpcode(op))], false, false);
    case Binary(op, l, r) =>
      ExprKeeps(cs, l);
      var left := EmitExpr(cs, l).value;
      ExprKeeps(left.cs, r);
      var right := EmitExpr(left.cs, r).value;
      SealedAppend(left.code, right.code, false, false);
      SealedAppend(left.code + right.code, [Plain(BinaryOpcode(op))], false, false);
  }

  // The same, for the uses where holes are allowed around the expression.
  lemma ExprGrows(cs: CState, e: Expr, loopHoles: bool, switchHoles: bool)
    requires EmitExpr(cs, e).Ok?
    ensures Grows(cs, EmitExpr(cs, e).value.cs)
    ensures Sealed(EmitExpr(cs, e).value.code, loopHoles, switchHoles)
  {
    ExprKeeps(cs, e);
    PooledGrows(cs.scopes, cs.constants, EmitExpr(cs, e).value.cs.constants);
    SealedWeaken(EmitExpr(cs, e).value.code, loopHoles, switchHoles);
  }

  // Only the innermost table changes while a statement is compiled.
  ghost predicate OuterKept(cs: CState, cs': CState) {
    |cs'.scopes| == |cs.scopes| && forall k | 0 <= k < |cs.scopes| - 1 :: cs'.scopes[k] == cs.scopes[k]
  }

  lemma OuterPrefix(cs: CState, cs': CState)
    requires cs.scopes != [] && OuterKept(cs, cs')
    ensures |cs'.scopes| == |cs.scopes| && cs'.scopes[..|cs.scopes| - 1] == cs.scopes[..|cs.scopes| - 1]
  {
  }

  lemma {:induction false} StmtKeeps(cs: CState, s: Stmt, base: nat, loop: Option<nat>)
    requires cs.scopes != [] && EmitStmt(cs, s, base, loop).Ok?
    ensures var em := EmitStmt(cs, s, base, loop).value;
            Grows(cs, em.cs) && OuterKept(cs, em.cs) && Sealed(em.code, loop.Some?, false)
    decreases s, 2
  {
    match s
    case Assign(x, e) => StoreKeeps(cs, x, e, loop);
    case Reassign(x, e) => StoreKeeps(cs, x, e, loop);
    case Return(e) => ExprGrows(cs, e, loop.Some?, false);
    case ExprStmt(e) => ExprGrows(cs, e, loop.Some?, false);
    case Validation(_) =>
    case Break =>
    case Continue =>
    case If(_, _, _) => IfKeeps(cs, s, base, loop);
    case While(_, _) => WhileKeeps(cs, s, base, loop);
    case Switch(_, _, _) => SwitchKeeps(cs, s, base, loop);
  }

  lemma StoreKeeps(cs: CState, x: Str, e: Expr, loop: Option<nat>)
    requires cs.scopes != [] && EmitExpr(cs, e).Ok?
    ensures var store := EmitStore(EmitExpr(cs, e).value, x);
            var symbol := Symbol(AddConstant(EmitExpr(cs, e).value.cs.constants, Text(x)).1, false);
            && Grows(cs, store.cs)
            && (Pooled(cs.scopes, cs.constants) ==> Pooled(Define(cs.scopes, x, symbol), store.cs.constants))
            && Sealed(store.code, loop.Some?, false)
  {
    ExprGrows(cs, e, loop.Some?, false);
    var value := EmitExpr(cs, e).value;
    var (constants, index) := AddConstant(value.cs.constants, Text(x));
    PooledGrows(cs.scopes, value.cs.constants, constants);
    PooledDefine(cs.scopes, constants, x, Symbol(index, false));
  }

  lemma {:induction false} IfKeeps(cs: CState, s: Stmt, base: nat, loop: Option<nat>)
    requires cs.scopes != [] && EmitStmt(cs, s, base, loop).Ok? && s.If?
    ensures var em := EmitStmt(cs, s, base, loop).value;
            Grows(cs, em.cs) && em.cs.scopes == cs.scopes && Sealed(em.code, loop.Some?, false)
    decreases s, 1
  {
    hide EmitScope, EmitExpr, Size;
    ExprGrows(cs, s.cond, loop.Some?, false);
    var cond := EmitExpr(cs, s.cond).value;
    var thenBase := base + Size(cond.code) + 5;
    ScopeKeeps(cond.cs, s.thenBlock, thenBase, loop);
    var thn := EmitScope(cond.cs, s.thenBlock, thenBase, loop).value;
    var elseBase := thenBase + Size(thn.code) + 5;
    ScopeKeeps(thn.cs, s.elseBlock, elseBase, loop);
    var els := EmitScope(thn.cs, s.elseBlock, elseBase, loop).value;
    var a := cond.code + [WithOperand(OP_JUMP_IF_FALSE, Truncate32(elseBase))];
    var b := [WithOperand(OP_JUMP, Truncate32(elseBase + Size(els.code)))];
    SealedAppend(a, thn.code, loop.Some?, false);
    SealedAppend(a + thn.code, b, loop.Some?, false);
    SealedAppend(a + thn.code + b, els.code, loop.Some?, false);
  }

  lemma {:induction false} WhileKeeps(cs: CState, s: Stmt, base: nat, loop: Option<nat>)
    requires cs.scopes != [] && EmitStmt(cs, s, base, loop).Ok? && s.While?
    ensures var em := EmitStmt(cs, s, base, loop).value;
            Grows(cs, em.cs) && em.cs.scopes == cs.scopes && Sealed(em.code, loop.Some?, false)
    decreases s, 1
  {
    hide EmitScope, EmitExpr, Size;
    ExprGrows(cs, s.cond, loop.Some?, false);
    var cond := EmitExpr(cs, s.cond).value;
    var bodyBase := base + Size(cond.code) + 5;
    ScopeKeeps(cond.cs, s.body, bodyBase, Some(base));
    var body := EmitScope(cond.cs, s.body, bodyBase, Some(base)).value;
    var end := Truncate32(bodyBase + Size(body.code) + 5);
    FillSeals(body.code, end, true, false);
    SealedWeaken(Fill(body.code, ToLoopEnd, end), loop.Some?, false);
    var a := cond.code + [WithOperand(OP_JUMP_IF_FALSE, end)];
    SealedAppend(a, Fill(body.code, ToLoopEnd, end), loop.Some?, false);
  }

  // The state in which the switch value is compiled: its variable is already in scope.
  function SwitchEntry(cs: CState): CState
    requires cs.scopes != []
  {
    var (constants, temp) := AddConstant(cs.constants, Text(TempName(cs.labels)));
    CState(constants, Define(cs.scopes, TempName(cs.labels), Symbol(temp, false)), cs.labels + 1)
  }

  lemma SwitchEntryKeeps(cs: CState)
    requires cs.scopes != []
    ensures Grows(cs, SwitchEntry(cs)) && OuterKept(cs, SwitchEntry(cs))
  {
    var (constants, temp) := AddConstant(cs.constants, Text(TempName(cs.labels)));
    PooledGrows(cs.scopes, cs.constants, constants);
    PooledDefine(cs.scopes, constants, TempName(cs.labels), Symbol(temp, false));
  }

  lemma {:induction false} SwitchKeeps(cs: CState, s: Stmt, base: nat, loop: Option<nat>)
    requires cs.scopes != [] && EmitStmt(cs, s, base, loop).Ok? && s.Switch?
    ensures var em := EmitStmt(cs, s, base, loop).value;
            && Grows(cs, em.cs) && em.cs.scopes == SwitchEntry(cs).scopes && OuterKept(cs, em.cs)
            && Sealed(em.code, loop.Some?, false)
    decreases s, 1
  {
    hide EmitArms, EmitExpr, Size;
    var temp := AddConstant(cs.constants, Text(TempName(cs.labels))).1;
    var cs1 := SwitchEntry(cs);
    SwitchEntryKeeps(cs);
    ExprGrows(cs1, s.value, loop.Some?, false);
    var value := EmitExpr(cs1, s.value).value;
    var armsBase := base + Size(value.code) + 5;
    ArmsKeep(value.cs, s, temp, armsBase, loop);
    var arms := EmitArms(value.cs, s, temp, armsBase, loop).value;
    SealedAppend(value.code + [WithOperand(OP_STORE_VAR, Truncate32(temp))], arms.code, loop.Some?, false);
  }

  lemma {:induction false} ArmsKeep(cs: CState, s: Stmt, temp: nat, base: nat, loop: Option<nat>)
    requires s.Switch? && cs.scopes != []
    requires EmitArms(cs, s, temp, base, loop).Ok?
    ensures var em := EmitArms(cs, s, temp, base, loop).value;
            Grows(cs, em.cs) && em.cs.scopes == cs.scopes && Sealed(em.code, loop.Some?, false)
    decreases s, 0
  {
    hide EmitCases, EmitScope, Size;
    CasesKeep(cs, s.cases, temp, base, loop);
    var body := EmitCases(cs, s.cases, temp, base, loop).value;
    ScopeKeeps(body.cs, s.defaultBlock, base + Size(body.code), loop);
    var dflt := EmitScope(body.cs, s.defaultBlock, base + Size(body.code), loop).value;
    var end := Truncate32(base + Size(body.code) + Size(dflt.code));
    FillSeals(body.code, end, loop.Some?, true);
    SealedAppend(Fill(body.code, ToSwitchEnd, end), dflt.code, loop.Some?, false);
  }

  lemma {:induction false} BlockKeeps(cs: CState, stmts: seq<Stmt>, base: nat, loop: Option<nat>)
    requires cs.scopes != [] && EmitBlock(cs, stmts, base, loop).Ok?
    ensures var em := EmitBlock(cs, stmts, base, loop).value;
            Grows(cs, em.cs) && OuterKept(cs, em.cs) && Sealed(em.code, loop.Some?, false)
    decreases stmts, 0
  {
    hide EmitStmt;
    if stmts != [] {
      StmtKeeps(cs, stmts[0], base, loop);
      var first := EmitStmt(cs, stmts[0], base, loop).value;
      BlockKeeps(first.cs, stmts[1..], base + Size(first.code), loop);
      SealedAppend(first.code, EmitBlock(first.cs, stmts[1..], base + Size(first.code), loop).value.code,
                   loop.Some?, false);
    }
  }

  // A block with its own scope leaves the whole chain of tables as it was.
  lemma {:induction false} ScopeKeeps(cs: CState, stmts: seq<Stmt>, base: nat, loop: Option<nat>)
    requires cs.scopes != [] && EmitScope(cs, stmts, base, loop).Ok?
    ensures var em := EmitScope(cs, stmts, base, loop).value;
            Grows(cs, em.cs) && em.cs.scopes == cs.scopes && Sealed(em.code, loop.Some?, false)
    decreases stmts, 1
  {
    BlockKeeps(cs.(scopes := cs.scopes + [map[]]), stmts, base, loop);
    var inner := EmitBlock(cs.(scopes := cs.scopes + [map[]]), stmts, base, loop).value;
    assert inner.cs.scopes[..|cs.scopes|] == cs.scopes;
    PooledGrows(cs.scopes, cs.constants, inner.cs.constants);
  }

  lemma {:induction false} CaseKeeps(cs: CState, c: Case, temp: nat, base: nat, loop: Option<nat>)
    requires cs.scopes != [] && EmitCase(cs, c, temp, base, loop).Ok?
    ensures var em := EmitCase(cs, c, temp, base, loop).value;
            Grows(cs, em.cs) && em.cs.scopes == cs.scopes && Sealed(em.code, loop.Some?, true)
    decreases c, 0
  {
    hide EmitScope, EmitExpr, Size;
    ExprGrows(cs, c.value, loop.Some?, true);
    var value := EmitExpr(cs, c.value).value;
    var bodyBase := base + 5 + Size(value.code) + 6;
    ScopeKeeps(value.cs, c.body, bodyBase, loop);
    var body := EmitScope(value.cs, c.body, bodyBase, loop).value;
    SealedWeaken(body.code, loop.Some?, true);
    var next := Truncate32(bodyBase + Size(body.code) + 5);
    var a := [WithOperand(OP_LOAD_VAR, Truncate32(temp))] + value.code;
    var b := [Plain(OP_EQ), WithOperand(OP_JUMP_IF_FALSE, next)];
    SealedAppend([WithOperand(OP_LOAD_VAR, Truncate32(temp))], value.code, loop.Some?, true);
    SealedAppend(a, b, loop.Some?, true);
    SealedAppend(a + b, body.code, loop.Some?, true);
    SealedAppend(a + b + body.code, [Hole(ToSwitchEnd)], loop.Some?, true);
  }

  lemma {:induction false} CasesKeep(cs: CState, cases: seq<Case>, temp: nat, base: nat, loop: Option<nat>)
    requires cs.scopes != [] && EmitCases(cs, cases, temp, base, loop).Ok?
    ensures var em := EmitCases(cs, cases, temp, base, loop).value;
            Grows(cs, em.cs) && em.cs.scopes == cs.scopes && Sealed(em.code, loop.Some?, true)
    decreases cases, 0
  {
    hide EmitCase, Size;
    if cases != [] {
      CaseKeeps(cs, cases[0], temp, base, loop);
      var first := EmitCase(cs, cases[0], temp, base, loop).value;
      CasesKeep(first.cs, cases[1..], temp, base + Size(first.code), loop);
      SealedAppend(first.code, EmitCases(first.cs, cases[1..], temp, base + Size(first.code), loop).value.code,
                   loop.Some?, true);
    }
  }

  // Finished code has no holes left, and no asynchronous blocks.
  lemma UnitSealed(u: Unit)
    requires EmitUnit(u).Ok?
    ensures Sealed(EmitUnit(u).value.code, false, false)
  {
    hide EmitBlock, Size;
    var body := EmitBlock(UnitEntry(u), u.body, 0, None).value;
    BlockKeeps(UnitEntry(u), u.body, 0, None);
    var index := AddConstant(body.cs.constants, Null).1;
    SealedAppend(body.code, [Plain(OP_HALT)], false, false);
    SealedAppend(body.code, [WithOperand(OP_PUSH, Truncate32(index)), Plain(OP_RETURN)], false, false);
  }
}
