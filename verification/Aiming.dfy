/** Every jump of compiled code, patched or not, goes to where some instruction starts, and where
  * nothing is on the stack. */
module Aiming {
  import opened Bytes
  import opened Lang
  import opened Opcodes
  import opened CodeGen
  import opened EmissionFacts
  import opened Format
  import opened Vm
  import opened Simulation
  import opened Heights
  import opened LockStep

  // An instruction starts here, or the code ends, and all code before it raises the stack by nothing.
  ghost predicate LowBoundary(code: seq<Instr>, off: nat) {
    exists k :: 0 <= k <= |code| && Size(code[..k]) == off && Height(code[..k]) == 0
  }

  // Code placed at `base` has such a boundary at t.
  ghost predicate StartsAt(code: seq<Instr>, base: nat, t: nat) {
    t >= base && LowBoundary(code, t - base)
  }

  // Where the jumps of a fragment may go: to its own instructions, to its end, or back to the loop.
  ghost function Targets(code: seq<Instr>, base: nat, loop: Option<nat>): iset<nat> {
    iset t: nat | (loop.Some? && t == loop.value) || StartsAt(code, base, t)
  }

  ghost predicate AimsInto(code: seq<Instr>, targets: iset<nat>) {
    forall i | i in code :: i.WithOperand? && IsJump(i.op) ==> i.arg in targets
  }

  lemma AimsWider(code: seq<Instr>, targets: iset<nat>, wider: iset<nat>)
    requires AimsInto(code, targets) && targets <= wider
    ensures AimsInto(code, wider)
  {
  }

  lemma AimsAppend(a: seq<Instr>, b: seq<Instr>, targets: iset<nat>)
    requires AimsInto(a, targets) && AimsInto(b, targets)
    ensures AimsInto(a + b, targets)
  {
  }

  lemma StraightAims(code: seq<Instr>, targets: iset<nat>)
    requires Straight(code)
    ensures AimsInto(code, targets)
  {
    forall i | i in code ensures !(i.WithOperand? && IsJump(i.op)) {
      var k :| 0 <= k < |code| && code[k] == i;
    }
  }

  // A piece's boundaries are the whole's.
  lemma PieceTargets(a: seq<Instr>, piece: seq<Instr>, b: seq<Instr>, base: nat, loop: Option<nat>)
    requires Height(a) == 0
    ensures Targets(piece, base + Size(a), loop) <= Targets(a + piece + b, base, loop)
  {
    hide Size, Height;
    var whole := a + piece + b;
    forall t: nat | StartsAt(piece, base + Size(a), t) ensures StartsAt(whole, base, t) {
      var k :| 0 <= k <= |piece| && Size(piece[..k]) == t - (base + Size(a)) && Height(piece[..k]) == 0;
      assert whole[..|a| + k] == a + piece[..k];
      EncodeAppend(a, piece[..k]);
      HeightAppend(a, piece[..k]);
    }
  }

  lemma BetweenTargets(a: seq<Instr>, b: seq<Instr>, base: nat, loop: Option<nat>)
    requires Height(a) == 0
    ensures base + Size(a) in Targets(a + b, base, loop)
  {
    assert (a + b)[..|a|] == a;
    assert StartsAt(a + b, base, base + Size(a));
  }

  lemma FillTargets(code: seq<Instr>, kind: HoleKind, target: U32, base: nat, loop: Option<nat>)
    ensures Targets(Fill(code, kind, target), base, loop) == Targets(code, base, loop)
  {
    forall k | 0 <= k <= |code|
      ensures Size(Fill(code, kind, target)[..k]) == Size(code[..k]) && Height(Fill(code, kind, target)[..k]) == Height(code[..k])
    {
      SameSizes(Fill(code, kind, target)[..k], code[..k]);
      SameHeights(Fill(code, kind, target)[..k], code[..k]);
    }
    forall t: nat ensures StartsAt(Fill(code, kind, target), base, t) <==> StartsAt(code, base, t) {
      if t >= base {
        SameBoundary(Fill(code, kind, target), code, t - base);
      }
    }
  }

  lemma SameBoundary(a: seq<Instr>, b: seq<Instr>, off: nat)
    requires |a| == |b| && forall k | 0 <= k <= |a| :: Size(a[..k]) == Size(b[..k]) && Height(a[..k]) == Height(b[..k])
    ensures LowBoundary(a, off) <==> LowBoundary(b, off)
  {
    if k :| 0 <= k <= |a| && Size(a[..k]) == off && Height(a[..k]) == 0 {
      assert Size(b[..k]) == off && Height(b[..k]) == 0;
    }
    if k :| 0 <= k <= |b| && Size(b[..k]) == off && Height(b[..k]) == 0 {
      assert Size(a[..k]) == off && Height(a[..k]) == 0;
    }
  }

  lemma FillFlat(code: seq<Instr>, kind: HoleKind, target: U32)
    ensures Height(Fill(code, kind, target)) == Height(code)
  {
    SameHeights(Fill(code, kind, target), code);
  }

  lemma FillAims(code: seq<Instr>, kind: HoleKind, target: U32, targets: iset<nat>)
    requires AimsInto(code, targets) && target in targets
    ensures AimsInto(Fill(code, kind, target), targets)
  {
    forall i | i in Fill(code, kind, target) && i.WithOperand? && IsJump(i.op) ensures i.arg in targets {
      var k :| 0 <= k < |code| && Fill(code, kind, target)[k] == i;
      assert code[k] in code;
    }
  }

  lemma JumpAims(i: Instr, targets: iset<nat>)
    requires i.WithOperand? ==> IsJump(i.op) ==> i.arg in targets
    ensures AimsInto([i], targets)
  {
  }

  // A fragment with a jump in its middle: both sides, and the jump, aim into the whole.
  lemma AroundJump(a: seq<Instr>, jump: Instr, b: seq<Instr>, base: nat, loop: Option<nat>)
    requires AimsInto(a, Targets(a, base, loop)) && jump.WithOperand? && Height(a + [jump]) == 0
    requires AimsInto(b, Targets(b, base + Size(a) + 5, loop))
    requires jump.arg in Targets(a + [jump] + b, base, loop)
    ensures AimsInto(a + [jump] + b, Targets(a + [jump] + b, base, loop))
  {
    hide Targets, AimsInto, Size, Height;
    var whole := a + [jump] + b;
    var targets := Targets(whole, base, loop);
    HeightOne(jump);
    PieceTargets([], a, [jump] + b, base, loop);
    assert [] + a + ([jump] + b) == whole && base + Size([]) == base by { Nothing(); }
    Sizes(a, jump, []);
    assert a + [jump] + [] == a + [jump] && Size([]) == 0 by { Nothing(); }
    PieceTargets(a + [jump], b, [], base, loop);
    assert a + [jump] + b + [] == whole;
    JumpAims(jump, targets);
    AimsWider(a, Targets(a, base, loop), targets);
    AimsWider(b, Targets(b, base + Size(a) + 5, loop), targets);
    AimsAppend(a, [jump], targets);
    AimsAppend(a + [jump], b, targets);
  }

  lemma AimsJoin(a: seq<Instr>, b: seq<Instr>, base: nat, loop: Option<nat>)
    requires AimsInto(a, Targets(a, base, loop)) && AimsInto(b, Targets(b, base + Size(a), loop)) && Height(a) == 0
    ensures AimsInto(a + b, Targets(a + b, base, loop))
  {
    hide Targets;
    HalfTargets(a, b, base, loop);
    AimsAppend(a, b, Targets(a + b, base, loop));
  }

  ghost predicate AimedCode(em: Emitted, base: nat, loop: Option<nat>) {
    AimsInto(em.code, Targets(em.code, base, loop))
  }

  // The addresses of a statement's code, and its loop's, fit into an operand.
  ghost predicate Reachable(em: Emitted, base: nat, loop: Option<nat>) {
    base + Size(em.code) < TWO32 && (loop.Some? ==> loop.value < TWO32)
  }

  lemma ExprAims(cs: CState, e: Expr, base: nat, loop: Option<nat>)
    requires EmitExpr(cs, e).Ok?
    ensures AimedCode(EmitExpr(cs, e).value, base, loop)
  {
    ExprKeeps(cs, e);
    var code := EmitExpr(cs, e).value.code;
    StraightAims(code, Targets(code, base, loop));
  }

  lemma {:induction false} StmtAims(cs: CState, s: Stmt, base: nat, loop: Option<nat>)
    requires cs.scopes != [] && EmitStmt(cs, s, base, loop).Ok? && Reachable(EmitStmt(cs, s, base, loop).value, base, loop)
    ensures AimedCode(EmitStmt(cs, s, base, loop).value, base, loop)
    decreases s, 2
  {
    hide EmitScope, EmitExpr, EmitArms, Targets, Size;
    match s
    case If(_, _, _) => IfAims(cs, s, base, loop);
    case While(_, _) => WhileAims(cs, s, base, loop);
    case Switch(_, _, _) => SwitchAims(cs, s, base, loop);
    case _ => SimpleAims(cs, s, base, loop);
  }

  lemma ExprThen(cs: CState, e: Expr, last: Instr, base: nat, loop: Option<nat>)
    requires EmitExpr(cs, e).Ok? && !last.Hole? && !IsJump(last.op)
    ensures var code := EmitExpr(cs, e).value.code + [last]; AimsInto(code, Targets(code, base, loop))
  {
    hide EmitExpr, Targets;
    ExprKeeps(cs, e);
    var code := EmitExpr(cs, e).value.code + [last];
    StraightAims(code, Targets(code, base, loop));
  }

  lemma LeavesOrBack(code: seq<Instr>, base: nat, loop: Option<nat>)
    requires code == [] || (|code| == 1 && (code[0].Hole? || (loop.Some? && code[0].WithOperand? && code[0].arg == loop.value)))
    ensures AimsInto(code, Targets(code, base, loop))
  {
  }

  lemma SimpleAims(cs: CState, s: Stmt, base: nat, loop: Option<nat>)
    requires !s.If? && !s.While? && !s.Switch?
    requires cs.scopes != [] && EmitStmt(cs, s, base, loop).Ok? && Reachable(EmitStmt(cs, s, base, loop).value, base, loop)
    ensures AimedCode(EmitStmt(cs, s, base, loop).value, base, loop)
  {
    hide EmitExpr, Targets, AimsInto, Size, AddConstant;
    var em := EmitStmt(cs, s, base, loop).value;
    match s
    case Assign(x, e) => ExprThen(cs, e, WithOperand(OP_STORE_VAR, StoreIndex(EmitExpr(cs, e).value, x)), base, loop);
    case Reassign(x, e) => ExprThen(cs, e, WithOperand(OP_STORE_VAR, StoreIndex(EmitExpr(cs, e).value, x)), base, loop);
    case Return(e) => ExprThen(cs, e, Plain(OP_RETURN), base, loop);
    case ExprStmt(e) => ExprThen(cs, e, Plain(OP_POP), base, loop);
    case _ => LeavesOrBack(em.code, base, loop);
  }

  lemma {:induction false} IfAims(cs: CState, s: Stmt, base: nat, loop: Option<nat>)
    requires s.If?
    requires cs.scopes != [] && EmitStmt(cs, s, base, loop).Ok? && Reachable(EmitStmt(cs, s, base, loop).value, base, loop)
    ensures AimedCode(EmitStmt(cs, s, base, loop).value, base, loop)
    decreases s, 1
  {
    hide EmitScope, EmitExpr, Targets, AimsInto, Size, Truncate32;
    var cond := EmitExpr(cs, s.cond).value;
    var thenBase := base + Size(cond.code) + 5;
    var thn := EmitScope(cond.cs, s.thenBlock, thenBase, loop).value;
    var elseBase := thenBase + Size(thn.code) + 5;
    var els := EmitScope(thn.cs, s.elseBlock, elseBase, loop).value;
    var end := elseBase + Size(els.code);
    var jif, jump := WithOperand(OP_JUMP_IF_FALSE, Truncate32(elseBase)), WithOperand(OP_JUMP, Truncate32(end));
    var code := EmitStmt(cs, s, base, loop).value.code;
    Regrouped(cond.code + [jif], thn.code, [jump], els.code);
    Sizes(thn.code, jump, els.code);
    Sizes(cond.code, jif, thn.code + [jump] + els.code);
    Fits(elseBase);
    Fits(end);
    CondFlat(cs, s.cond, jif);
    Flat(cond.cs, s.thenBlock, thenBase, loop);
    Flat(thn.cs, s.elseBlock, elseBase, loop);
    Rises(jif, jump);
    ExprAims(cs, s.cond, base, loop);
    ScopeAims(cond.cs, s.thenBlock, thenBase, loop);
    ScopeAims(thn.cs, s.elseBlock, elseBase, loop);
    IfJoin(cond.code, jif, thn.code, jump, els.code, base, loop);
  }

  lemma CondFlat(cs: CState, e: Expr, last: Instr)
    requires EmitExpr(cs, e).Ok? && Rise(last) == -1 && !last.Plain?
    ensures Height(EmitExpr(cs, e).value.code + [last]) == 0
  {
    UsedLevel(cs, e, last);
  }

  lemma Flat(cs: CState, stmts: seq<Stmt>, base: nat, loop: Option<nat>)
    requires cs.scopes != [] && EmitScope(cs, stmts, base, loop).Ok?
    ensures Height(EmitScope(cs, stmts, base, loop).value.code) == 0
  {
    hide EmitScope;
    ScopeLevel(cs, stmts, base, loop);
  }

  lemma StmtFlat(cs: CState, s: Stmt, base: nat, loop: Option<nat>)
    requires cs.scopes != [] && EmitStmt(cs, s, base, loop).Ok?
    ensures Height(EmitStmt(cs, s, base, loop).value.code) == 0
  {
    hide EmitStmt;
    StmtLevel(cs, s, base, loop);
  }

  lemma CaseFlat(cs: CState, c: Case, temp: nat, base: nat, loop: Option<nat>)
    requires cs.scopes != [] && EmitCase(cs, c, temp, base, loop).Ok?
    ensures Height(EmitCase(cs, c, temp, base, loop).value.code) == 0
  {
    hide EmitCase;
    CaseLevel(cs, c, temp, base, loop);
  }

  lemma CasesFlat(cs: CState, cases: seq<Case>, temp: nat, base: nat, loop: Option<nat>)
    requires cs.scopes != [] && EmitCases(cs, cases, temp, base, loop).Ok?
    ensures Height(EmitCases(cs, cases, temp, base, loop).value.code) == 0
  {
    hide EmitCases;
    CasesLevel(cs, cases, temp, base, loop);
  }

  lemma NothingAims(base: nat, loop: Option<nat>)
    ensures AimsInto([], Targets([], base, loop))
  {
  }

  lemma Regrouped(a: seq<Instr>, b: seq<Instr>, c: seq<Instr>, d: seq<Instr>)
    ensures a + b + c + d == a + (b + c + d)
  {
  }

  lemma Sizes(a: seq<Instr>, i: Instr, b: seq<Instr>)
    ensures Size(a + [i] + b) == Size(a) + InstrSize(i) + Size(b)
  {
    EncodeAppend(a, [i]);
    EncodeAppend(a + [i], b);
    assert Size([i]) == InstrSize(i);
  }

  lemma IfJoin(cond: seq<Instr>, jif: Instr, thn: seq<Instr>, jump: Instr, els: seq<Instr>, base: nat, loop: Option<nat>)
    requires jif.WithOperand? && jump.WithOperand?
    requires var thenBase := base + Size(cond) + 5;
             var elseBase := thenBase + Size(thn) + 5;
             && AimsInto(cond, Targets(cond, base, loop)) && AimsInto(thn, Targets(thn, thenBase, loop))
             && AimsInto(els, Targets(els, elseBase, loop))
             && jif.arg == elseBase && jump.arg == elseBase + Size(els)
    requires Height(cond + [jif]) == 0 && Height(thn) == 0 && Rise(jump) == 0 && Height(els) == 0
    ensures var code := cond + [jif] + (thn + [jump] + els); AimsInto(code, Targets(code, base, loop))
  {
    hide Targets, AimsInto, Size, Height;
    var thenBase := base + Size(cond) + 5;
    var rest := thn + [jump] + els;
    HeightOne(jump);
    HeightAppend(thn, [jump]);
    HeightAppend(thn + [jump], els);
    HeightAppend(cond + [jif], thn + [jump]);
    Sizes(thn, jump, els);
    BetweenTargets(rest, [], thenBase, loop);
    assert rest + [] == rest;
    AroundJump(thn, jump, els, thenBase, loop);
    var code := cond + [jif] + rest;
    var front := cond + [jif] + (thn + [jump]);
    assert front + els == code;
    Sizes(cond, jif, thn + [jump]);
    Sizes(thn, jump, []);
    assert thn + [jump] + [] == thn + [jump];
    assert Size([]) == 0 by { Nothing(); }
    BetweenTargets(front, els, base, loop);
    AroundJump(cond, jif, rest, base, loop);
  }

  lemma Nothing()
    ensures Size([]) == 0
  {
  }

  lemma {:induction false} WhileAims(cs: CState, s: Stmt, base: nat, loop: Option<nat>)
    requires s.While?
    requires cs.scopes != [] && EmitStmt(cs, s, base, loop).Ok? && Reachable(EmitStmt(cs, s, base, loop).value, base, loop)
    ensures AimedCode(EmitStmt(cs, s, base, loop).value, base, loop)
    decreases s, 1
  {
    hide EmitScope, EmitExpr, Targets, AimsInto, Fill, Size;
    var cond := EmitExpr(cs, s.cond).value;
    var bodyBase := base + Size(cond.code) + 5;
    var body := EmitScope(cond.cs, s.body, bodyBase, Some(base)).value;
    var end := bodyBase + Size(body.code) + 5;
    var filled := Fill(body.code, ToLoopEnd, Truncate32(end));
    LayoutKept(body.code, ToLoopEnd, Truncate32(end), 0);
    var jif, jump := WithOperand(OP_JUMP_IF_FALSE, Truncate32(end)), WithOperand(OP_JUMP, Truncate32(base));
    var code := EmitStmt(cs, s, base, loop).value.code;
    assert code == cond.code + [jif] + (filled + [jump]);
    Sizes(filled, jump, []);
    assert filled + [jump] + [] == filled + [jump];
    Sizes(cond.code, jif, filled + [jump]);
    Rises(jif, jump);
    CondFlat(cs, s.cond, jif);
    Flat(cond.cs, s.body, bodyBase, Some(base));
    ExprAims(cs, s.cond, base, loop);
    ScopeAims(cond.cs, s.body, bodyBase, Some(base));
    WhileJoin(cond.code, jif, body.code, jump, base, loop);
  }

  lemma WhileJoin(cond: seq<Instr>, jif: Instr, body: seq<Instr>, jump: Instr, base: nat, loop: Option<nat>)
    requires jif.WithOperand? && jump.WithOperand?
    requires var bodyBase := base + Size(cond) + 5;
             && AimsInto(cond, Targets(cond, base, loop)) && AimsInto(body, Targets(body, bodyBase, Some(base)))
             && jif.arg == bodyBase + Size(body) + 5 && jump.arg == base
    requires Height(cond + [jif]) == 0 && Height(body) == 0 && Rise(jump) == 0
    ensures var code := cond + [jif] + (Fill(body, ToLoopEnd, jif.arg) + [jump]);
            AimsInto(code, Targets(code, base, loop))
  {
    hide Targets, Size, Fill, AimsInto, Height;
    var filled := Fill(body, ToLoopEnd, jif.arg);
    LayoutKept(body, ToLoopEnd, jif.arg, 0);
    FillFlat(body, ToLoopEnd, jif.arg);
    HeightOne(jump);
    HeightAppend(filled, [jump]);
    HeightAppend(cond + [jif], filled + [jump]);
    var rest := filled + [jump];
    var code := cond + [jif] + rest;
    var targets := Targets(code, base, loop);
    var bodyBase := base + Size(cond) + 5;
    Sizes(cond, jif, []);
    Nothing();
    assert cond + [jif] + [] == cond + [jif];
    // the end and the start of the loop, and the boundaries of its body
    Sizes(filled, jump, []);
    assert filled + [jump] + [] == rest;
    Sizes(cond, jif, rest);
    BetweenTargets(code, [], base, loop);
    BetweenTargets([], code, base, loop);
    assert code + [] == code == [] + code;
    FillTargets(body, ToLoopEnd, jif.arg, bodyBase, Some(base));
    PieceTargets(cond + [jif], filled, [jump], base, loop);
    assert cond + [jif] + filled + [jump] == code;
    InnerLoop(body, bodyBase, base, loop, targets, filled);
    AimsWider(body, Targets(body, bodyBase, Some(base)), targets);
    FillAims(body, ToLoopEnd, jif.arg, targets);
    PieceTargets([], cond, [jif] + rest, base, loop);
    assert [] + cond + ([jif] + rest) == code;
    AimsWider(cond, Targets(cond, base, loop), targets);
    JumpAims(jif, targets);
    JumpAims(jump, targets);
    AimsAppend(cond, [jif], targets);
    AimsAppend(filled, [jump], targets);
    AimsAppend(cond + [jif], rest, targets);
  }

  lemma InnerLoop(body: seq<Instr>, bodyBase: nat, base: nat, loop: Option<nat>, targets: iset<nat>, filled: seq<Instr>)
    requires Targets(filled, bodyBase, Some(base)) == Targets(body, bodyBase, Some(base))
    requires Targets(filled, bodyBase, loop) <= targets && base in targets
    ensures Targets(body, bodyBase, Some(base)) <= targets
  {
    forall t | t in Targets(filled, bodyBase, Some(base)) ensures t in targets {
      assert t == base || t in Targets(filled, bodyBase, loop);
    }
  }

  lemma {:induction false} SwitchAims(cs: CState, s: Stmt, base: nat, loop: Option<nat>)
    requires s.Switch?
    requires cs.scopes != [] && EmitStmt(cs, s, base, loop).Ok? && Reachable(EmitStmt(cs, s, base, loop).value, base, loop)
    ensures AimedCode(EmitStmt(cs, s, base, loop).value, base, loop)
    decreases s, 1
  {
    hide EmitArms, EmitExpr, Targets, AimsInto, Size;
    var temp := AddConstant(cs.constants, Text(TempName(cs.labels))).1;
    var cs1 := SwitchEntry(cs);
    var value := EmitExpr(cs1, s.value).value;
    var armsBase := base + Size(value.code) + 5;
    var arms := EmitArms(value.cs, s, temp, armsBase, loop).value;
    var store := WithOperand(OP_STORE_VAR, Truncate32(temp));
    Sizes(value.code, store, arms.code);
    ArmsAim(value.cs, s, temp, armsBase, loop);
    ExprAims(cs1, s.value, base, loop);
    ExprThen(cs1, s.value, store, base, loop);
    Sizes(value.code, store, []);
    Nothing();
    assert value.code + [store] + [] == value.code + [store];
    StoreFalls(store);
    CondFlat(cs1, s.value, store);
    AimsJoin(value.code + [store], arms.code, base, loop);
  }

  lemma StoreAims(i: Instr, base: nat, loop: Option<nat>)
    requires !(i.WithOperand? && IsJump(i.op))
    ensures AimsInto([i], Targets([i], base, loop))
  {
  }

  lemma {:induction false} ArmsAim(cs: CState, s: Stmt, temp: nat, base: nat, loop: Option<nat>)
    requires s.Switch? && cs.scopes != []
    requires EmitArms(cs, s, temp, base, loop).Ok? && Reachable(EmitArms(cs, s, temp, base, loop).value, base, loop)
    ensures AimedCode(EmitArms(cs, s, temp, base, loop).value, base, loop)
    decreases s, 0
  {
    hide EmitCases, EmitScope, Targets, AimsInto, Size, Fill, Height, Truncate32;
    var body := EmitCases(cs, s.cases, temp, base, loop).value;
    var dfltBase := base + Size(body.code);
    var dflt := EmitScope(body.cs, s.defaultBlock, dfltBase, loop).value;
    var end := dfltBase + Size(dflt.code);
    var filled := Fill(body.code, ToSwitchEnd, Truncate32(end));
    LayoutKept(body.code, ToSwitchEnd, Truncate32(end), 0);
    EncodeAppend(filled, dflt.code);
    CasesAim(cs, s.cases, temp, base, loop);
    ScopeAims(body.cs, s.defaultBlock, dfltBase, loop);
    Flat(body.cs, s.defaultBlock, dfltBase, loop);
    CasesFlat(cs, s.cases, temp, base, loop);
    Fits(end);
    ArmsJoin(body.code, dflt.code, base, loop, Truncate32(end));
  }

  lemma ArmsJoin(body: seq<Instr>, dflt: seq<Instr>, base: nat, loop: Option<nat>, end: U32)
    requires AimsInto(body, Targets(body, base, loop)) && AimsInto(dflt, Targets(dflt, base + Size(body), loop))
    requires end == base + Size(body) + Size(dflt) && Height(body) == 0 && Height(dflt) == 0
    ensures var code := Fill(body, ToSwitchEnd, end) + dflt; AimsInto(code, Targets(code, base, loop))
  {
    hide Targets, AimsInto, Size, Fill, Height;
    var filled := Fill(body, ToSwitchEnd, end);
    var code := filled + dflt;
    var targets := Targets(code, base, loop);
    FillFlat(body, ToSwitchEnd, end);
    LayoutKept(body, ToSwitchEnd, end, 0);
    EndTargets(filled, dflt, base, loop);
    FillTargets(body, ToSwitchEnd, end, base, loop);
    HalfTargets(filled, dflt, base, loop);
    AimsWider(body, Targets(body, base, loop), targets);
    FillAims(body, ToSwitchEnd, end, targets);
    AimsWider(dflt, Targets(dflt, base + Size(filled), loop), targets);
    AimsAppend(filled, dflt, targets);
  }

  // The end of two pieces that leave the stack as it was.
  lemma EndTargets(a: seq<Instr>, b: seq<Instr>, base: nat, loop: Option<nat>)
    requires Height(a) == 0 && Height(b) == 0
    ensures base + Size(a) + Size(b) in Targets(a + b, base, loop)
  {
    hide Targets, Size, Height;
    HeightAppend(a, b);
    EncodeAppend(a, b);
    BetweenTargets(a + b, [], base, loop);
    assert a + b + [] == a + b;
  }

  lemma HalfTargets(a: seq<Instr>, b: seq<Instr>, base: nat, loop: Option<nat>)
    requires Height(a) == 0
    ensures Targets(a, base, loop) <= Targets(a + b, base, loop)
    ensures Targets(b, base + Size(a), loop) <= Targets(a + b, base, loop)
  {
    hide Targets, Size, Height;
    assert Height([]) == 0 by { HeightOne(Hole(ToLoopEnd)); }
    assert Size([]) == 0 by { Nothing(); }
    PieceTargets([], a, b, base, loop);
    assert [] + a + b == a + b;
    PieceTargets(a, b, [], base, loop);
    assert a + b + [] == a + b;
  }

  lemma {:induction false} BlockAims(cs: CState, stmts: seq<Stmt>, base: nat, loop: Option<nat>)
    requires cs.scopes != [] && EmitBlock(cs, stmts, base, loop).Ok? && Reachable(EmitBlock(cs, stmts, base, loop).value, base, loop)
    ensures AimedCode(EmitBlock(cs, stmts, base, loop).value, base, loop)
    decreases stmts, 0
  {
    hide EmitStmt, Size, Targets, AimsInto, Height;
    if stmts == [] {
      NothingAims(base, loop);
    } else {
      var first := EmitStmt(cs, stmts[0], base, loop).value;
      var rest := EmitBlock(first.cs, stmts[1..], base + Size(first.code), loop).value;
      EncodeAppend(first.code, rest.code);
      StmtAims(cs, stmts[0], base, loop);
      BlockAims(first.cs, stmts[1..], base + Size(first.code), loop);
      StmtFlat(cs, stmts[0], base, loop);
      AimsJoin(first.code, rest.code, base, loop);
    }
  }

  lemma {:induction false} ScopeAims(cs: CState, stmts: seq<Stmt>, base: nat, loop: Option<nat>)
    requires cs.scopes != [] && EmitScope(cs, stmts, base, loop).Ok? && Reachable(EmitScope(cs, stmts, base, loop).value, base, loop)
    ensures AimedCode(EmitScope(cs, stmts, base, loop).value, base, loop)
    decreases stmts, 1
  {
    BlockAims(cs.(scopes := cs.scopes + [map[]]), stmts, base, loop);
  }

  lemma {:induction false} CaseAims(cs: CState, c: Case, temp: nat, base: nat, loop: Option<nat>)
    requires cs.scopes != [] && EmitCase(cs, c, temp, base, loop).Ok? && Reachable(EmitCase(cs, c, temp, base, loop).value, base, loop)
    ensures AimedCode(EmitCase(cs, c, temp, base, loop).value, base, loop)
    decreases c, 0
  {
    hide EmitScope, EmitExpr, Targets, AimsInto, Size;
    var value := EmitExpr(cs, c.value).value;
    var bodyBase := base + 5 + Size(value.code) + 6;
    var body := EmitScope(value.cs, c.body, bodyBase, loop).value;
    var next := bodyBase + Size(body.code) + 5;
    var load, jif := WithOperand(OP_LOAD_VAR, Truncate32(temp)), WithOperand(OP_JUMP_IF_FALSE, Truncate32(next));
    var test := [load] + value.code + [Plain(OP_EQ)];
    var code := EmitCase(cs, c, temp, base, loop).value.code;
    assert code == test + [jif] + (body.code + [Hole(ToSwitchEnd)]);
    TestSize(load, value.code);
    Sizes(body.code, Hole(ToSwitchEnd), []);
    Nothing();
    assert body.code + [Hole(ToSwitchEnd)] + [] == body.code + [Hole(ToSwitchEnd)];
    Sizes(test, jif, body.code + [Hole(ToSwitchEnd)]);
    TestAims(cs, c.value, load, base, loop);
    ScopeAims(value.cs, c.body, bodyBase, loop);
    StoreAims(Hole(ToSwitchEnd), bodyBase + Size(body.code), loop);
    Flat(value.cs, c.body, bodyBase, loop);
    CaseFlat(cs, c, temp, base, loop);
    assert Height(test + [jif]) == 0 by { TestFlat(cs, c.value, load, jif); }
    AimsJoin(body.code, [Hole(ToSwitchEnd)], bodyBase, loop);
    BetweenTargets(code, [], base, loop);
    assert code + [] == code;
    AroundJump(test, jif, body.code + [Hole(ToSwitchEnd)], base, loop);
  }

  lemma TestFlat(cs: CState, e: Expr, load: Instr, jif: Instr)
    requires EmitExpr(cs, e).Ok? && load.WithOperand? && load.op == OP_LOAD_VAR && Rise(jif) == -1 && !jif.Plain?
    ensures Height([load] + EmitExpr(cs, e).value.code + [Plain(OP_EQ)] + [jif]) == 0
  {
    hide EmitExpr;
    ExprLifts(cs, e, 1);
    TestLifts(load, EmitExpr(cs, e).value.code, 1 + Need(e));
    LevelUsed([load] + EmitExpr(cs, e).value.code + [Plain(OP_EQ)], jif, 1 + Need(e));
  }

  lemma TestSize(load: Instr, value: seq<Instr>)
    requires load.WithOperand?
    ensures Size([load] + value + [Plain(OP_EQ)]) == 5 + Size(value) + 1
  {
    Sizes([], load, value);
    assert [] + [load] + value == [load] + value;
    Sizes([load] + value, Plain(OP_EQ), []);
    assert [load] + value + [Plain(OP_EQ)] + [] == [load] + value + [Plain(OP_EQ)];
  }

  lemma TestAims(cs: CState, e: Expr, load: Instr, base: nat, loop: Option<nat>)
    requires EmitExpr(cs, e).Ok? && load.WithOperand? && load.op == OP_LOAD_VAR
    ensures var test := [load] + EmitExpr(cs, e).value.code + [Plain(OP_EQ)]; AimsInto(test, Targets(test, base, loop))
  {
    hide EmitExpr;
    ExprKeeps(cs, e);
    var test := [load] + EmitExpr(cs, e).value.code + [Plain(OP_EQ)];
    StraightAims(test, Targets(test, base, loop));
  }

  lemma {:induction false} CasesAim(cs: CState, cases: seq<Case>, temp: nat, base: nat, loop: Option<nat>)
    requires cs.scopes != [] && EmitCases(cs, cases, temp, base, loop).Ok?
    requires Reachable(EmitCases(cs, cases, temp, base, loop).value, base, loop)
    ensures AimedCode(EmitCases(cs, cases, temp, base, loop).value, base, loop)
    decreases cases, 0
  {
    hide EmitCase, Size, Targets, AimsInto, Height;
    if cases == [] {
      NothingAims(base, loop);
    } else {
      var first := EmitCase(cs, cases[0], temp, base, loop).value;
      var rest := EmitCases(first.cs, cases[1..], temp, base + Size(first.code), loop).value;
      EncodeAppend(first.code, rest.code);
      CaseAims(cs, cases[0], temp, base, loop);
      CasesAim(first.cs, cases[1..], temp, base + Size(first.code), loop);
      CaseFlat(cs, cases[0], temp, base, loop);
      AimsJoin(first.code, rest.code, base, loop);
    }
  }

  // Every jump goes to where an instruction starts and nothing is on the stack.
  ghost predicate AimedLow(code: seq<Instr>) {
    forall k | 0 <= k < |code| :: code[k].WithOperand? && IsJump(code[k].op) ==> LowBoundary(code, code[k].arg)
  }

  // No jump of a compiled unit goes into the middle of an instruction or an expression, or out of the code.
  lemma UnitAims(u: Unit)
    requires EmitUnit(u).Ok? && Size(EmitUnit(u).value.code) < TWO32
    ensures Aimed(EmitUnit(u).value.code) && AimedLow(EmitUnit(u).value.code)
  {
    hide EmitBlock, Size, Targets, AimsInto, Height;
    var cs := UnitEntry(u);
    var body := EmitBlock(cs, u.body, 0, None).value;
    var code := EmitUnit(u).value.code;
    var tail := code[|body.code|..];
    assert code == body.code + tail;
    EncodeAppend(body.code, tail);
    BlockAims(cs, u.body, 0, None);
    TailAims(tail, Size(body.code));
    assert Height(body.code) == 0 by { BlockLevel(cs, u.body, 0, None); }
    AimsJoin(body.code, tail, 0, None);
    AimedFrom(code);
  }

  lemma TailAims(tail: seq<Instr>, base: nat)
    requires forall i | i in tail :: !IsJump(if i.Hole? then OP_JUMP else i.op)
    ensures AimsInto(tail, Targets(tail, base, None))
  {
  }

  lemma AimedFrom(code: seq<Instr>)
    requires AimsInto(code, Targets(code, 0, None))
    ensures Aimed(code) && AimedLow(code)
  {
    forall k | 0 <= k < |code| && code[k].WithOperand? && IsJump(code[k].op)
      ensures Boundary(code, code[k].arg) && LowBoundary(code, code[k].arg)
    {
      assert code[k] in code;
      assert StartsAt(code, 0, code[k].arg);
    }
  }

  // So the file a unit compiles to runs in step with its code as emitted, before any jump was moved.
  lemma UnitInStep(u: Unit, locals: map<Str, Value>, n: nat)
    requires EmitUnit(u).Ok? && |UnitBytecode(EmitUnit(u).value)| < TWO32
    requires forall v | v in EmitUnit(u).value.cs.constants :: Storable(Of(v))
    ensures var em := EmitUnit(u).value;
            var raw, file := Raw(em.code, em.cs.constants), Program(UnitBytecode(em), em.cs.constants);
            InStep(Run(raw, State(0, [], locals, false), n), Run(file, State(CodeStart(em), [], locals, false), n), CodeStart(em))
  {
    hide EmitUnit, Size, Encode, Aimed, WellFormed, Run, Header, Relocate, SerializePool;
    var em := EmitUnit(u).value;
    var header := Header(Pool(em.cs.constants), Size(em.code));
    UnitSealed(u);
    SealedWellFormed(em.code);
    BytecodeParts(Pool(em.cs.constants), em.code);
    UnitAims(u);
    assert UnitBytecode(em) == header + Encode(Relocate(em.code, |header|));
    assert Boundary(em.code, 0) by { FirstBoundary(em.code); }
    RunsTogether(em.code, header, em.cs.constants, State(0, [], locals, false), n);
  }

  lemma FirstBoundary(code: seq<Instr>)
    ensures Boundary(code, 0)
  {
    assert code[..0] == [] && Size(code[..0]) == 0;
  }
}
