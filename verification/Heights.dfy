/** How far compiled code raises the stack: an expression by one, a statement not at all, and never
  * higher in between than its need. */
module Heights {
  import opened Bytes
  import opened Lang
  import opened Opcodes
  import opened CodeGen
  import opened EmissionFacts
  import opened Vm
  import opened Simulation

  // What an instruction adds to the stack's height. A return takes its value along.
  function Rise(i: Instr): int {
    if i.Hole? then 0
    else if i.op == OP_PUSH || i.op == OP_LOAD_VAR then 1
    else if i.op == OP_STORE_VAR || i.op == OP_POP || i.op == OP_RETURN then -1
    else if IsJump(i.op) then (if i.op == OP_JUMP then 0 else -1)
    else if OperatorOf(i.op).Some? then -1
    else 0
  }

  function Height(code: seq<Instr>): int {
    if code == [] then 0 else Rise(code[0]) + Height(code[1..])
  }

  lemma {:induction false} HeightAppend(a: seq<Instr>, b: seq<Instr>)
    ensures Height(a + b) == Height(a) + Height(b)
    decreases |a|
  {
    if a == [] {
      assert a + b == b;
    } else {
      assert (a + b)[1..] == a[1..] + b;
      HeightAppend(a[1..], b);
    }
  }

  lemma HeightOne(i: Instr)
    ensures Height([i]) == Rise(i) && Height([]) == 0
  {
    assert [i][1..] == [];
  }

  // An operator, which leaves its result.
  predicate Operates(i: Instr) {
    i.Plain? && (OperatorOf(i.op).Some? || i.op == OP_NOT || i.op == OP_NEG)
  }

  // On top of a stack of height h, no less than empty and no more than n anywhere on the way, and
  // every operator finds its operands.
  ghost predicate Bounded(code: seq<Instr>, h: int, n: int) {
    && (forall k | 0 <= k <= |code| :: 0 <= h + Height(code[..k]) <= n)
    && (forall k | 0 <= k < |code| && Operates(code[k]) :: h + Height(code[..k + 1]) >= 1)
  }

  predicate Leaves(i: Instr) {
    i.Hole? || IsJump(i.op)
  }

  // Wherever control may leave, nothing is left on the stack.
  ghost predicate LowJumps(code: seq<Instr>) {
    forall k | 0 <= k < |code| && Leaves(code[k]) :: Height(code[..k + 1]) == 0
  }

  // A statement's code.
  ghost predicate Level(code: seq<Instr>, n: nat) {
    Height(code) == 0 && Bounded(code, 0, n) && LowJumps(code)
  }

  // An expression's code, above a stack of height h.
  ghost predicate Lifts(code: seq<Instr>, h: int, n: int) {
    Height(code) == 1 && Bounded(code, h, n) && Straight(code)
  }

  lemma BoundedAppend(a: seq<Instr>, b: seq<Instr>, h: int, n: int)
    requires Bounded(a, h, n) && Bounded(b, h + Height(a), n)
    ensures Bounded(a + b, h, n)
  {
    forall k | 0 <= k <= |a + b| ensures 0 <= h + Height((a + b)[..k]) <= n {
      if k <= |a| {
        assert (a + b)[..k] == a[..k];
      } else {
        assert (a + b)[..k] == a + b[..k - |a|];
        HeightAppend(a, b[..k - |a|]);
      }
    }
    forall k | 0 <= k < |a + b| && Operates((a + b)[k]) ensures h + Height((a + b)[..k + 1]) >= 1 {
      if k < |a| {
        assert (a + b)[..k + 1] == a[..k + 1];
      } else {
        assert (a + b)[..k + 1] == a + b[..k + 1 - |a|];
        HeightAppend(a, b[..k + 1 - |a|]);
      }
    }
  }

  lemma BoundedOne(i: Instr, h: int, n: int)
    requires 0 <= h <= n && 0 <= h + Rise(i) <= n && (Operates(i) ==> h + Rise(i) >= 1)
    ensures Bounded([i], h, n)
  {
    HeightOne(i);
    assert [i][..0] == [] && [i][..1] == [i];
  }

  lemma BoundedWiden(code: seq<Instr>, h: int, n: int, m: int)
    requires Bounded(code, h, n) && n <= m
    ensures Bounded(code, h, m)
  {
  }

  lemma LevelAppend(a: seq<Instr>, b: seq<Instr>, n: nat)
    requires Level(a, n) && Level(b, n)
    ensures Level(a + b, n)
  {
    HeightAppend(a, b);
    BoundedAppend(a, b, 0, n);
    forall k | 0 <= k < |a + b| && Leaves((a + b)[k]) ensures Height((a + b)[..k + 1]) == 0 {
      if k < |a| {
        assert (a + b)[..k + 1] == a[..k + 1];
      } else {
        assert (a + b)[..k + 1] == a + b[..k + 1 - |a|];
        HeightAppend(a, b[..k + 1 - |a|]);
      }
    }
  }

  lemma LevelWiden(code: seq<Instr>, n: nat, m: nat)
    requires Level(code, n) && n <= m
    ensures Level(code, m)
  {
  }

  lemma LevelNone(n: nat)
    ensures Level([], n)
  {
  }

  lemma LevelOne(i: Instr, n: nat)
    requires Rise(i) == 0 && !Operates(i)
    ensures Level([i], n)
  {
    HeightOne(i);
    BoundedOne(i, 0, n);
    assert [i][..1] == [i];
  }

  // An expression whose value is used up at once: by a store, a pop, a return or a conditional jump.
  lemma LevelUsed(code: seq<Instr>, last: Instr, n: nat)
    requires Lifts(code, 0, n) && Rise(last) == -1 && !Operates(last)
    ensures Level(code + [last], n)
  {
    HeightOne(last);
    HeightAppend(code, [last]);
    assert code[..|code|] == code;
    BoundedOne(last, 1, n);
    BoundedAppend(code, [last], 0, n);
    forall k | 0 <= k < |code + [last]| && Leaves((code + [last])[k]) ensures Height((code + [last])[..k + 1]) == 0 {
      assert k == |code| && (code + [last])[..k + 1] == code + [last];
    }
  }

  lemma {:induction false} LevelFill(code: seq<Instr>, kind: HoleKind, target: U32, n: nat)
    requires Level(code, n)
    ensures Level(Fill(code, kind, target), n)
  {
    var filled := Fill(code, kind, target);
    forall k | 0 <= k <= |code| ensures Height(filled[..k]) == Height(code[..k]) {
      SameHeights(filled[..k], code[..k]);
    }
    assert filled[..|code|] == filled && code[..|code|] == code;
    forall k | 0 <= k < |filled| && Leaves(filled[k]) ensures Height(filled[..k + 1]) == 0 {
      assert Leaves(code[k]);
    }
    forall k | 0 <= k < |filled| && Operates(filled[k]) ensures Height(filled[..k + 1]) >= 1 {
      assert Operates(code[k]);
    }
  }

  lemma {:induction false} SameHeights(a: seq<Instr>, b: seq<Instr>)
    requires |a| == |b| && forall i | 0 <= i < |a| :: Rise(a[i]) == Rise(b[i])
    ensures Height(a) == Height(b)
    decreases |a|
  {
    if a != [] {
      SameHeights(a[1..], b[1..]);
    }
  }

  // ---- emitted code ----

  lemma {:induction false} ExprLifts(cs: CState, e: Expr, h: nat)
    requires EmitExpr(cs, e).Ok?
    ensures Lifts(EmitExpr(cs, e).value.code, h, h + Need(e))
    decreases e
  {
    hide EmitExpr, Bounded, Straight, Height, Rise, Operates;
    assert Straight(EmitExpr(cs, e).value.code) by { ExprKeeps(cs, e); }
    Emits(cs, e);
    match e
    case Literal(_) => OneLifts(EmitExpr(cs, e).value.code[0], h);
    case Variable(_) => OneLifts(EmitExpr(cs, e).value.code[0], h);
    case Unary(op, operand) =>
      ExprLifts(cs, operand, h);
      NeedPositive(operand);
      UnaryLifts(EmitExpr(cs, operand).value.code, op, h, h + Need(operand));
    case Binary(op, l, r) =>
      var left := EmitExpr(cs, l).value;
      ExprLifts(cs, l, h);
      ExprLifts(left.cs, r, h + 1);
      NeedPositive(r);
      BinaryLifts(left.code, EmitExpr(left.cs, r).value.code, op, h, h + Need(l), h + 1 + Need(r));
  }

  // An expression's code by its parts.
  lemma Emits(cs: CState, e: Expr)
    requires EmitExpr(cs, e).Ok?
    ensures var code := EmitExpr(cs, e).value.code;
            && (e.Literal? || e.Variable? ==>
                  |code| == 1 && code == [code[0]] && code[0].WithOperand? && (code[0].op == OP_PUSH || code[0].op == OP_LOAD_VAR))
            && (e.Unary? ==>
                  EmitExpr(cs, e.operand).Ok? && code == EmitExpr(cs, e.operand).value.code + [Plain(UnaryOpcode(e.uop))])
            && (e.Binary? ==>
                  && EmitExpr(cs, e.left).Ok?
                  && var left := EmitExpr(cs, e.left).value;
                     EmitExpr(left.cs, e.right).Ok?
                     && code == left.code + EmitExpr(left.cs, e.right).value.code + [Plain(BinaryOpcode(e.op))])
  {
  }

  lemma OneLifts(i: Instr, h: nat)
    requires i.WithOperand? && (i.op == OP_PUSH || i.op == OP_LOAD_VAR)
    ensures Height([i]) == 1 && Bounded([i], h, h + 1)
  {
    HeightOne(i);
    BoundedOne(i, h, h + 1);
  }

  lemma UnaryLifts(code: seq<Instr>, op: UnOp, h: nat, n: nat)
    requires Height(code) == 1 && Bounded(code, h, n) && n > h
    ensures var all := code + [Plain(UnaryOpcode(op))]; Height(all) == 1 && Bounded(all, h, n)
  {
    hide Bounded, Height;
    var last := Plain(UnaryOpcode(op));
    HeightOne(last);
    HeightAppend(code, [last]);
    BoundedOne(last, h + 1, n);
    BoundedAppend(code, [last], h, n);
  }

  lemma BinaryLifts(l: seq<Instr>, r: seq<Instr>, op: BinOp, h: nat, m: nat, n: nat)
    requires Height(l) == 1 && Height(r) == 1 && n >= h + 2
    requires Bounded(l, h, m) && Bounded(r, h + 1, n)
    ensures var code := l + r + [Plain(BinaryOpcode(op))]; Height(code) == 1 && Bounded(code, h, Max(m, n))
  {
    hide Bounded, Height;
    var last := Plain(BinaryOpcode(op));
    HeightOne(last);
    HeightAppend(l, r);
    HeightAppend(l + r, [last]);
    BoundedWiden(l, h, m, Max(m, n));
    BoundedWiden(r, h + 1, n, Max(m, n));
    BoundedAppend(l, r, h, Max(m, n));
    BoundedOne(last, h + 2, Max(m, n));
    BoundedAppend(l + r, [last], h, Max(m, n));
  }

  lemma {:induction false} StmtLevel(cs: CState, s: Stmt, base: nat, loop: Option<nat>)
    requires cs.scopes != [] && EmitStmt(cs, s, base, loop).Ok?
    ensures Level(EmitStmt(cs, s, base, loop).value.code, NeedStmt(s))
    decreases s, 2
  {
    hide EmitScope, EmitExpr, EmitArms, Level, Size, Need;
    match s
    case If(_, _, _) => IfLevel(cs, s, base, loop);
    case While(_, _) => WhileLevel(cs, s, base, loop);
    case Switch(_, _, _) => SwitchLevel(cs, s, base, loop);
    case Assign(x, e) => UsedLevel(cs, e, WithOperand(OP_STORE_VAR, StoreIndex(EmitExpr(cs, e).value, x)));
    case Reassign(x, e) => UsedLevel(cs, e, WithOperand(OP_STORE_VAR, StoreIndex(EmitExpr(cs, e).value, x)));
    case Return(e) => UsedLevel(cs, e, Plain(OP_RETURN));
    case ExprStmt(e) => UsedLevel(cs, e, Plain(OP_POP));
    case Validation(_) => LevelNone(0);
    case Break => LevelOne(Hole(ToLoopEnd), 0);
    case Continue => LevelOne(WithOperand(OP_JUMP, Truncate32(loop.value)), 0);
  }

  function StoreIndex(em: Emitted, x: Str): U32 {
    Truncate32(AddConstant(em.cs.constants, Text(x)).1)
  }

  lemma UsedLevel(cs: CState, e: Expr, last: Instr)
    requires EmitExpr(cs, e).Ok? && Rise(last) == -1 && !Operates(last)
    ensures Level(EmitExpr(cs, e).value.code + [last], Need(e))
  {
    hide EmitExpr, Level, Lifts;
    ExprLifts(cs, e, 0);
    LevelUsed(EmitExpr(cs, e).value.code, last, Need(e));
  }

  lemma {:induction false} IfLevel(cs: CState, s: Stmt, base: nat, loop: Option<nat>)
    requires s.If? && cs.scopes != [] && EmitStmt(cs, s, base, loop).Ok?
    ensures Level(EmitStmt(cs, s, base, loop).value.code, NeedStmt(s))
    decreases s, 1
  {
    hide EmitScope, EmitExpr, Level, Size, Need, NeedBlock, Rise;
    var n := NeedStmt(s);
    var cond := EmitExpr(cs, s.cond).value;
    var thenBase := base + Size(cond.code) + 5;
    var thn := EmitScope(cond.cs, s.thenBlock, thenBase, loop).value;
    var elseBase := thenBase + Size(thn.code) + 5;
    var els := EmitScope(thn.cs, s.elseBlock, elseBase, loop).value;
    var jif := WithOperand(OP_JUMP_IF_FALSE, Truncate32(elseBase));
    var jump := WithOperand(OP_JUMP, Truncate32(elseBase + Size(els.code)));
    Rises(jif, jump);
    UsedLevel(cs, s.cond, jif);
    ScopeLevel(cond.cs, s.thenBlock, thenBase, loop);
    ScopeLevel(thn.cs, s.elseBlock, elseBase, loop);
    LevelWiden(cond.code + [jif], Need(s.cond), n);
    LevelWiden(thn.code, NeedBlock(s.thenBlock), n);
    LevelWiden(els.code, NeedBlock(s.elseBlock), n);
    LevelOne(jump, n);
    LevelAppend(cond.code + [jif], thn.code, n);
    LevelAppend(cond.code + [jif] + thn.code, [jump], n);
    LevelAppend(cond.code + [jif] + thn.code + [jump], els.code, n);
  }

  lemma Rises(jif: Instr, jump: Instr)
    requires jif.WithOperand? && jif.op == OP_JUMP_IF_FALSE && jump.WithOperand? && jump.op == OP_JUMP
    ensures Rise(jif) == -1 && Rise(jump) == 0 && Rise(Hole(ToSwitchEnd)) == 0
  {
  }

  lemma {:induction false} WhileLevel(cs: CState, s: Stmt, base: nat, loop: Option<nat>)
    requires s.While? && cs.scopes != [] && EmitStmt(cs, s, base, loop).Ok?
    ensures Level(EmitStmt(cs, s, base, loop).value.code, NeedStmt(s))
    decreases s, 1
  {
    hide EmitScope, EmitExpr, Level, Size, Need, NeedBlock, Rise, Fill;
    var n := NeedStmt(s);
    var cond := EmitExpr(cs, s.cond).value;
    var bodyBase := base + Size(cond.code) + 5;
    var body := EmitScope(cond.cs, s.body, bodyBase, Some(base)).value;
    var end := Truncate32(bodyBase + Size(body.code) + 5);
    var filled := Fill(body.code, ToLoopEnd, end);
    var jif, jump := WithOperand(OP_JUMP_IF_FALSE, end), WithOperand(OP_JUMP, Truncate32(base));
    Rises(jif, jump);
    UsedLevel(cs, s.cond, jif);
    ScopeLevel(cond.cs, s.body, bodyBase, Some(base));
    LevelFill(body.code, ToLoopEnd, end, NeedBlock(s.body));
    LevelWiden(cond.code + [jif], Need(s.cond), n);
    LevelWiden(filled, NeedBlock(s.body), n);
    LevelOne(jump, n);
    LevelAppend(cond.code + [jif], filled, n);
    LevelAppend(cond.code + [jif] + filled, [jump], n);
  }

  lemma {:induction false} SwitchLevel(cs: CState, s: Stmt, base: nat, loop: Option<nat>)
    requires s.Switch? && cs.scopes != [] && EmitStmt(cs, s, base, loop).Ok?
    ensures Level(EmitStmt(cs, s, base, loop).value.code, NeedStmt(s))
    decreases s, 1
  {
    hide EmitArms, EmitExpr, Level, Size, Need, NeedBlock, NeedCases, Rise;
    var n := NeedStmt(s);
    var temp := AddConstant(cs.constants, Text(TempName(cs.labels))).1;
    var cs1 := SwitchEntry(cs);
    var value := EmitExpr(cs1, s.value).value;
    var armsBase := base + Size(value.code) + 5;
    var arms := EmitArms(value.cs, s, temp, armsBase, loop).value;
    var store := WithOperand(OP_STORE_VAR, Truncate32(temp));
    assert Rise(store) == -1 by { StoreFalls(store); }
    UsedLevel(cs1, s.value, store);
    ArmsLevel(value.cs, s, temp, armsBase, loop);
    LevelWiden(value.code + [store], Need(s.value), n);
    LevelWiden(arms.code, Max(NeedCases(s.cases), NeedBlock(s.defaultBlock)), n);
    LevelAppend(value.code + [store], arms.code, n);
  }

  lemma StoreFalls(i: Instr)
    requires i.WithOperand? && i.op == OP_STORE_VAR
    ensures Rise(i) == -1
  {
  }

  lemma {:induction false} ArmsLevel(cs: CState, s: Stmt, temp: nat, base: nat, loop: Option<nat>)
    requires s.Switch? && cs.scopes != [] && EmitArms(cs, s, temp, base, loop).Ok?
    ensures Level(EmitArms(cs, s, temp, base, loop).value.code, Max(NeedCases(s.cases), NeedBlock(s.defaultBlock)))
    decreases s, 0
  {
    hide EmitCases, EmitScope, Level, Size, NeedBlock, NeedCases, Fill;
    var n := Max(NeedCases(s.cases), NeedBlock(s.defaultBlock));
    var body := EmitCases(cs, s.cases, temp, base, loop).value;
    var dfltBase := base + Size(body.code);
    var dflt := EmitScope(body.cs, s.defaultBlock, dfltBase, loop).value;
    var end := Truncate32(dfltBase + Size(dflt.code));
    CasesLevel(cs, s.cases, temp, base, loop);
    ScopeLevel(body.cs, s.defaultBlock, dfltBase, loop);
    LevelFill(body.code, ToSwitchEnd, end, NeedCases(s.cases));
    LevelWiden(Fill(body.code, ToSwitchEnd, end), NeedCases(s.cases), n);
    LevelWiden(dflt.code, NeedBlock(s.defaultBlock), n);
    LevelAppend(Fill(body.code, ToSwitchEnd, end), dflt.code, n);
  }

  lemma {:induction false} BlockLevel(cs: CState, stmts: seq<Stmt>, base: nat, loop: Option<nat>)
    requires cs.scopes != [] && EmitBlock(cs, stmts, base, loop).Ok?
    ensures Level(EmitBlock(cs, stmts, base, loop).value.code, NeedBlock(stmts))
    decreases stmts, 0
  {
    hide EmitStmt, Level, NeedStmt;
    if stmts == [] {
      LevelNone(0);
    } else {
      var n := NeedBlock(stmts);
      var first := EmitStmt(cs, stmts[0], base, loop).value;
      var rest := EmitBlock(first.cs, stmts[1..], base + Size(first.code), loop).value;
      StmtLevel(cs, stmts[0], base, loop);
      BlockLevel(first.cs, stmts[1..], base + Size(first.code), loop);
      LevelWiden(first.code, NeedStmt(stmts[0]), n);
      LevelWiden(rest.code, NeedBlock(stmts[1..]), n);
      LevelAppend(first.code, rest.code, n);
    }
  }

  lemma {:induction false} ScopeLevel(cs: CState, stmts: seq<Stmt>, base: nat, loop: Option<nat>)
    requires cs.scopes != [] && EmitScope(cs, stmts, base, loop).Ok?
    ensures Level(EmitScope(cs, stmts, base, loop).value.code, NeedBlock(stmts))
    decreases stmts, 1
  {
    BlockLevel(cs.(scopes := cs.scopes + [map[]]), stmts, base, loop);
  }

  lemma {:induction false} CaseLevel(cs: CState, c: Case, temp: nat, base: nat, loop: Option<nat>)
    requires cs.scopes != [] && EmitCase(cs, c, temp, base, loop).Ok?
    ensures Level(EmitCase(cs, c, temp, base, loop).value.code, Max(1 + Need(c.value), NeedBlock(c.body)))
    decreases c, 0
  {
    hide EmitScope, EmitExpr, Level, Size, Need, NeedBlock, Rise, Lifts;
    var n := Max(1 + Need(c.value), NeedBlock(c.body));
    var value := EmitExpr(cs, c.value).value;
    var bodyBase := base + 5 + Size(value.code) + 6;
    var body := EmitScope(value.cs, c.body, bodyBase, loop).value;
    var next := Truncate32(bodyBase + Size(body.code) + 5);
    var load, jif := WithOperand(OP_LOAD_VAR, Truncate32(temp)), WithOperand(OP_JUMP_IF_FALSE, next);
    var test := [load] + value.code + [Plain(OP_EQ)];
    ExprLifts(cs, c.value, 1);
    TestLifts(load, value.code, 1 + Need(c.value));
    Rises(jif, WithOperand(OP_JUMP, 0));
    LevelUsed(test, jif, 1 + Need(c.value));
    ScopeLevel(value.cs, c.body, bodyBase, loop);
    LevelWiden(test + [jif], 1 + Need(c.value), n);
    LevelWiden(body.code, NeedBlock(c.body), n);
    LevelOne(Hole(ToSwitchEnd), n);
    LevelAppend(test + [jif], body.code, n);
    LevelAppend(test + [jif] + body.code, [Hole(ToSwitchEnd)], n);
    assert test + [jif] == [load] + value.code + [Plain(OP_EQ), jif];
  }

  lemma TestLifts(load: Instr, value: seq<Instr>, n: nat)
    requires load.WithOperand? && load.op == OP_LOAD_VAR && Lifts(value, 1, n)
    ensures Lifts([load] + value + [Plain(OP_EQ)], 0, n)
  {
    hide Height, Bounded;
    HeightOne(load);
    HeightOne(Plain(OP_EQ));
    HeightAppend([load], value);
    HeightAppend([load] + value, [Plain(OP_EQ)]);
    TopBounded(value, 1, n);
    BoundedOne(load, 0, n);
    BoundedAppend([load], value, 0, n);
    BoundedOne(Plain(OP_EQ), 2, n);
    BoundedAppend([load] + value, [Plain(OP_EQ)], 0, n);
  }

  lemma TopBounded(code: seq<Instr>, h: int, n: int)
    requires Bounded(code, h, n)
    ensures 0 <= h <= n && 0 <= h + Height(code) <= n
  {
    assert code[..0] == [] && code[..|code|] == code;
  }

  lemma {:induction false} CasesLevel(cs: CState, cases: seq<Case>, temp: nat, base: nat, loop: Option<nat>)
    requires cs.scopes != [] && EmitCases(cs, cases, temp, base, loop).Ok?
    ensures Level(EmitCases(cs, cases, temp, base, loop).value.code, NeedCases(cases))
    decreases cases, 0
  {
    hide EmitCase, Level, Need, NeedBlock;
    if cases == [] {
      LevelNone(0);
    } else {
      var n := NeedCases(cases);
      var first := EmitCase(cs, cases[0], temp, base, loop).value;
      var rest := EmitCases(first.cs, cases[1..], temp, base + Size(first.code), loop).value;
      CaseLevel(cs, cases[0], temp, base, loop);
      CasesLevel(first.cs, cases[1..], temp, base + Size(first.code), loop);
      LevelWiden(first.code, Max(1 + Need(cases[0].value), NeedBlock(cases[0].body)), n);
      LevelWiden(rest.code, NeedCases(cases[1..]), n);
      LevelAppend(first.code, rest.code, n);
    }
  }

  // A unit's code is level too; a function's own null needs one slot.
  lemma UnitLevel(u: Unit)
    requires EmitUnit(u).Ok?
    ensures Level(EmitUnit(u).value.code, Max(1, NeedBlock(u.body)))
  {
    hide EmitBlock, Level, Size, NeedBlock;
    var n := Max(1, NeedBlock(u.body));
    var body := EmitBlock(UnitEntry(u), u.body, 0, None).value;
    BlockLevel(UnitEntry(u), u.body, 0, None);
    LevelWiden(body.code, NeedBlock(u.body), n);
    if !EndsInReturn(u.body) {
      if u.returnsNull {
        var push := WithOperand(OP_PUSH, Truncate32(AddConstant(body.cs.constants, Null).1));
        NullLevel(push, n);
        LevelAppend(body.code, [push, Plain(OP_RETURN)], n);
      } else {
        LevelOne(Plain(OP_HALT), n);
        LevelAppend(body.code, [Plain(OP_HALT)], n);
      }
    }
  }

  lemma NullLevel(push: Instr, n: nat)
    requires push.WithOperand? && push.op == OP_PUSH && n >= 1
    ensures Level([push, Plain(OP_RETURN)], n)
  {
    HeightOne(push);
    BoundedOne(push, 0, n);
    assert Lifts([push], 0, n);
    LevelUsed([push], Plain(OP_RETURN), n);
    assert [push] + [Plain(OP_RETURN)] == [push, Plain(OP_RETURN)];
  }
}
