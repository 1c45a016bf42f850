/** The bytecode compiler: bytes are appended to a buffer and forward jumps are patched in place. */
module Compiler {
  import opened Bytes
  import opened Lang
  import opened Opcodes
  import opened CodeGen
  import opened Symbols
  import opened Patching
  import opened Relocation
  import opened EmissionFacts
  import opened Format

  // Where `continue` goes, and the jumps that wait for the loop's end.
  datatype LoopContext = LoopContext(continueTarget: nat, breakJumps: seq<nat>)

  type Outcome = Result<(), CompileError>

  function InLoop(loops: seq<LoopContext>): Option<nat> {
    if loops == [] then None else Some(loops[|loops| - 1].continueTarget)
  }

  // The innermost loop has further jumps waiting for its end.
  function WithBreaks(loops: seq<LoopContext>, sites: seq<nat>): (r: seq<LoopContext>)
    ensures |r| == |loops|
  {
    if loops == [] then loops
    else
      var last := loops[|loops| - 1];
      loops[..|loops| - 1] + [last.(breakJumps := last.breakJumps + sites)]
  }

  lemma WithBreaksTwice(loops: seq<LoopContext>, a: seq<nat>, b: seq<nat>)
    ensures WithBreaks(WithBreaks(loops, a), b) == WithBreaks(loops, a + b)
    ensures InLoop(WithBreaks(loops, a)) == InLoop(loops)
    ensures WithBreaks(loops, []) == loops
  {
    if loops != [] {
      var last := loops[|loops| - 1];
      assert last.breakJumps + a + b == last.breakJumps + (a + b);
      assert last.breakJumps + [] == last.breakJumps;
    }
  }

  class Compiler {
    var constants: seq<Value>
    var code: seq<Byte>
    var symbolTable: SymbolTable
    var labelCounter: nat
    var loopStack: seq<LoopContext>

    ghost predicate Valid()
      reads this
    {
      symbolTable.Linked()
    }

    ghost function State(): (cs: CState)
      requires Valid()
      reads this, symbolTable.chain
      ensures cs.scopes != []
    {
      CState(constants, symbolTable.Scopes(), labelCounter)
    }

    constructor ()
      ensures Valid() && fresh(symbolTable.chain)
      ensures State() == CState([], [map[]], 0) && code == [] && loopStack == []
    {
      constants, code, labelCounter, loopStack := [], [], 0, [];
      symbolTable := new SymbolTable(null);
    }

    // Finds the value in the pool or appends it.
    method AddConstantToPool(v: Value) returns (index: nat)
      modifies this`constants
      ensures (constants, index) == AddConstant(old(constants), v)
    {
      index := 0;
      while index < |constants|
        invariant index <= |constants| && v !in constants[..index]
        invariant constants == old(constants)
      {
        if constants[index] == v {
          FirstIndex(constants, v, index);
          return;
        }
        assert constants[..index + 1] == constants[..index] + [constants[index]];
        index := index + 1;
      }
      assert constants[..|constants|] == constants;
      NoIndex(constants, v);
      constants := constants + [v];
    }

    method Emit(op: Byte)
      modifies this`code
      ensures code == old(code) + Encode([Plain(op)])
    {
      code := code + [op];
    }

    method EmitWithOperand(op: Byte, operand: U32)
      modifies this`code
      ensures code == old(code) + Encode([WithOperand(op, operand)])
    {
      code := code + [op];
      var buf := PutUint32(operand);
      code := code + buf;
      assert Encode([WithOperand(op, operand)]) == [op] + buf;
    }

    // Overwrites the operand of the jump at an offset.
    method PatchJump(offset: nat, target: U32)
      requires offset + 5 <= |code|
      modifies this`code
      ensures code == PatchAt(old(code), offset, target)
    {
      code := code[..offset + 1] + PutUint32(target) + code[offset + 5..];
    }

    method PatchJumps(sites: seq<nat>, target: U32)
      requires InRange(code, sites)
      modifies this`code
      ensures code == PatchAll(old(code), sites, target)
    {
      var i := 0;
      while i < |sites|
        invariant i <= |sites| && InRange(code, sites[i..])
        invariant PatchAll(code, sites[i..], target) == PatchAll(old(code), sites, target)
      {
        assert sites[i..][0] == sites[i] && sites[i..][1..] == sites[i + 1..];
        PatchJump(sites[i], target);
        i := i + 1;
      }
    }

    method PushLoop(continueTarget: nat)
      modifies this`loopStack
      ensures loopStack == old(loopStack) + [LoopContext(continueTarget, [])]
    {
      loopStack := loopStack + [LoopContext(continueTarget, [])];
    }

    // Leaves the innermost loop and sends its breaks to the end.
    method PopLoop(endOffset: nat)
      requires loopStack != [] ==> InRange(code, loopStack[|loopStack| - 1].breakJumps)
      modifies this`loopStack, this`code
      ensures old(loopStack) == [] ==> loopStack == [] && code == old(code)
      ensures old(loopStack) != [] ==>
                && loopStack == old(loopStack)[..|old(loopStack)| - 1]
                && code == PatchAll(old(code), old(loopStack)[|old(loopStack)| - 1].breakJumps, Truncate32(endOffset))
    {
      if |loopStack| == 0 {
        return;
      }
      var loop := loopStack[|loopStack| - 1];
      loopStack := loopStack[..|loopStack| - 1];
      PatchJumps(loop.breakJumps, Truncate32(endOffset));
    }

    // The call failed as specified, or appended the specified code and left the specified state.
    ghost predicate Did(before: seq<Byte>, e: Emission, r: Outcome)
      reads this, symbolTable.chain
    {
      match e
      case Err(x) => r == Err(x)
      case Ok(em) => r.Ok? && Valid() && code == before + Encode(em.code) && State() == em.cs
    }

    // ---- expressions: only the pool and the code change ----

    method CompileExpression(e: Expr) returns (r: Outcome)
      requires Valid()
      modifies this`constants, this`code
      ensures Did(old(code), EmitExpr(old(State()), e), r)
      decreases e, 1
    {
      match e
      case Literal(v) => r := CompileLiteral(v);
      case Variable(name) => r := CompileVariable(name);
      case Unary(op, operand) => r := CompileUnaryOp(op, operand);
      case Binary(op, left, right) => r := CompileBinaryOp(op, left, right);
    }

    method CompileLiteral(v: Value) returns (r: Outcome)
      requires Valid()
      modifies this`constants, this`code
      ensures Did(old(code), EmitExpr(old(State()), Literal(v)), r)
    {
      var index := AddConstantToPool(v);
      EmitWithOperand(OP_PUSH, Truncate32(index));
      return Ok(());
    }

    method CompileVariable(name: Str) returns (r: Outcome)
      requires Valid()
      modifies this`constants, this`code
      ensures Did(old(code), EmitExpr(old(State()), Variable(name)), r)
    {
      var symbol := symbolTable.Resolve(name);
      if symbol.None? {
        return Err(UndefinedName(name));
      }
      EmitWithOperand(OP_LOAD_VAR, Truncate32(symbol.value.index));
      return Ok(());
    }

    method CompileUnaryOp(op: UnOp, operand: Expr) returns (r: Outcome)
      requires Valid()
      modifies this`constants, this`code
      ensures Did(old(code), EmitExpr(old(State()), Unary(op, operand)), r)
      decreases Unary(op, operand), 0
    {
      hide Encode;
      r := CompileExpression(operand);
      if r.Err? {
        return;
      }
      Emit(UnaryOpcode(op));
      Appended(old(code), EmitExpr(old(State()), operand).value.code, [Plain(UnaryOpcode(op))]);
    }

    method CompileBinaryOp(op: BinOp, left: Expr, right: Expr) returns (r: Outcome)
      requires Valid()
      modifies this`constants, this`code
      ensures Did(old(code), EmitExpr(old(State()), Binary(op, left, right)), r)
      decreases Binary(op, left, right), 0
    {
      hide Encode;
      r := CompileExpression(left);
      if r.Err? {
        return;
      }
      ghost var l := EmitExpr(old(State()), left).value;
      r := CompileExpression(right);
      if r.Err? {
        return;
      }
      ghost var m := EmitExpr(l.cs, right).value;
      Emit(BinaryOpcode(op));
      Appended(old(code), l.code, m.code);
      Appended(old(code), l.code + m.code, [Plain(BinaryOpcode(op))]);
    }
  
    // ---- statements: the innermost table and the innermost loop's breaks may change too ----

    ghost predicate DidStmt(before: seq<Byte>, loops: seq<LoopContext>, table: SymbolTable, e: Emission, r: Outcome)
      reads this, symbolTable.chain
    {
      Did(before, e, r) &&
      (e.Ok? ==>
         symbolTable == table && loopStack == WithBreaks(loops, Sites(e.value.code, ToLoopEnd, |before|)))
    }

    method CompileStatement(s: Stmt) returns (r: Outcome)
      requires Valid()
      modifies this, symbolTable
      ensures DidStmt(old(code), old(loopStack), old(symbolTable),
                      EmitStmt(old(State()), s, |old(code)|, InLoop(old(loopStack))), r)
      decreases s, 2
    {
      match s
      case Assign(_, _) => r := CompileAssign(s);
      case Reassign(_, _) => r := CompileReassign(s);
      case Return(_) => r := CompileSimple(s);
      case ExprStmt(_) => r := CompileSimple(s);
      case If(_, _, _) => r := CompileIf(s);
      case While(_, _) => r := CompileWhile(s);
      case Switch(_, _, _) => r := CompileSwitch(s);
      case Validation(_) =>
        WithBreaksTwice(loopStack, [], []);
        return Ok(());
      case Break => r := CompileBreak();
      case Continue => r := CompileContinue();
    }

    method CompileAssign(s: Stmt) returns (r: Outcome)
      requires Valid() && s.Assign?
      modifies this, symbolTable
      ensures DidStmt(old(code), old(loopStack), old(symbolTable),
                      EmitStmt(old(State()), s, |old(code)|, InLoop(old(loopStack))), r)
    {
      hide Encode, Sites, EmitExpr, Size, Truncate32, WithBreaks, InLoop;
      var existing := symbolTable.ResolveLocal(s.target);
      if existing.Some? && !existing.value.builtin {
        return Err(Redeclared(s.target));
      }
      r := CompileExpression(s.value);
      if r.Err? {
        return;
      }
      var index := AddConstantToPool(Text(s.target));
      EmitWithOperand(OP_STORE_VAR, Truncate32(index));
      ghost var value := EmitExpr(old(State()), s.value).value;
      Appended(old(code), value.code, [WithOperand(OP_STORE_VAR, Truncate32(index))]);
      NoBreaks(old(State()), s.value, WithOperand(OP_STORE_VAR, Truncate32(index)), |old(code)|);
      WithBreaksTwice(loopStack, [], []);
      var known := symbolTable.Resolve(s.target);
      if known.None? {
        symbolTable.Define(s.target, index);
      }
    }

    method CompileReassign(s: Stmt) returns (r: Outcome)
      requires Valid() && s.Reassign?
      modifies this`constants, this`code
      ensures DidStmt(old(code), old(loopStack), old(symbolTable),
                      EmitStmt(old(State()), s, |old(code)|, InLoop(old(loopStack))), r)
    {
      hide Encode, Sites, EmitExpr, Size;
      var known := symbolTable.Resolve(s.target);
      if known.None? {
        return Err(Undeclared(s.target));
      }
      r := CompileExpression(s.value);
      if r.Err? {
        return;
      }
      var index := AddConstantToPool(Text(s.target));
      EmitWithOperand(OP_STORE_VAR, Truncate32(index));
      ghost var value := EmitExpr(old(State()), s.value).value;
      Appended(old(code), value.code, [WithOperand(OP_STORE_VAR, Truncate32(index))]);
      NoBreaks(old(State()), s.value, WithOperand(OP_STORE_VAR, Truncate32(index)), |old(code)|);
      WithBreaksTwice(loopStack, [], []);
    }

    // A return, or an expression whose value is dropped.
    method CompileSimple(s: Stmt) returns (r: Outcome)
      requires Valid() && (s.Return? || s.ExprStmt?)
      modifies this`constants, this`code
      ensures DidStmt(old(code), old(loopStack), old(symbolTable),
                      EmitStmt(old(State()), s, |old(code)|, InLoop(old(loopStack))), r)
    {
      hide Encode, Sites, EmitExpr, Size;
      r := CompileExpression(s.value);
      if r.Err? {
        return;
      }
      var op := if s.Return? then OP_RETURN else OP_POP;
      Emit(op);
      Appended(old(code), EmitExpr(old(State()), s.value).value.code, [Plain(op)]);
      NoBreaks(old(State()), s.value, Plain(op), |old(code)|);
      WithBreaksTwice(loopStack, [], []);
    }

    method CompileBreak() returns (r: Outcome)
      requires Valid()
      modifies this`code, this`loopStack
      ensures DidStmt(old(code), old(loopStack), old(symbolTable),
                      EmitStmt(old(State()), Break, |old(code)|, InLoop(old(loopStack))), r)
    {
      if |loopStack| == 0 {
        return Err(BreakOutsideLoop);
      }
      var jumpOffset := |code|;
      EmitWithOperand(OP_JUMP, 0);
      EncodeOne(Hole(ToLoopEnd));
      EncodeOne(WithOperand(OP_JUMP, 0));
      assert Sites([Hole(ToLoopEnd)], ToLoopEnd, jumpOffset) == [jumpOffset];
      var last := |loopStack| - 1;
      var loop := loopStack[last];
      loopStack := loopStack[..last] + [loop.(breakJumps := loop.breakJumps + [jumpOffset])];
      return Ok(());
    }

    method CompileContinue() returns (r: Outcome)
      requires Valid()
      modifies this`code
      ensures DidStmt(old(code), old(loopStack), old(symbolTable),
                      EmitStmt(old(State()), Continue, |old(code)|, InLoop(old(loopStack))), r)
    {
      hide Encode, Size;
      if |loopStack| == 0 {
        return Err(ContinueOutsideLoop);
      }
      var target := Truncate32(loopStack[|loopStack| - 1].continueTarget);
      EmitWithOperand(OP_JUMP, target);
      assert Sites([WithOperand(OP_JUMP, target)], ToLoopEnd, |old(code)|) == [];
      WithBreaksTwice(loopStack, [], []);
      return Ok(());
    }

    method CompileIf(s: Stmt) returns (r: Outcome)
      requires Valid() && s.If?
      modifies this
      ensures DidStmt(old(code), old(loopStack), old(symbolTable),
                      EmitStmt(old(State()), s, |old(code)|, InLoop(old(loopStack))), r)
      decreases s, 1
    {
      hide Encode, Sites, EmitExpr, EmitScope, EmitStmt, Size, WithBreaks, InLoop, PatchAt, Truncate32, EmitThen;
      ghost var before, loops, loop := code, loopStack, InLoop(loopStack);
      IfSpec(State(), s, |before|, loop);
      var jumpToEnd;
      r, jumpToEnd := CompileThen(s);
      if r.Err? {
        return;
      }
      ghost var thn := EmitThen(old(State()), s, |before|, loop).value;
      var elseOffset := |code|;
      ghost var els := EmitScope(thn.cs, s.elseBlock, elseOffset, loop);
      ghost var thnBreaks := Sites(thn.code, ToLoopEnd, |before|);
      WithBreaksTwice(loops, thnBreaks, []);
      r := CompileElse(s.elseBlock);
      if r.Err? {
        return;
      }
      var endOffset := |code|;
      Joined(before, thn.code + [WithOperand(OP_JUMP, 0)], els.value.code);
      PatchOperand(before, thn.code, OP_JUMP, 0, els.value.code, Truncate32(endOffset));
      PatchJump(jumpToEnd, Truncate32(endOffset));
      NoBreakBetween(thn.code, WithOperand(OP_JUMP, Truncate32(endOffset)), els.value.code, |before|);
      WithBreaksTwice(loops, thnBreaks, Sites(els.value.code, ToLoopEnd, elseOffset));
    }

    // Up to the then branch and the jump behind it, whose target is not known yet.
    method CompileThen(s: Stmt) returns (r: Outcome, jumpToEnd: nat)
      requires Valid() && s.If?
      modifies this
      ensures match EmitThen(old(State()), s, |old(code)|, InLoop(old(loopStack)))
              case Err(x) => r == Err(x)
              case Ok(em) =>
                && r.Ok? && Valid() && State() == em.cs && symbolTable == old(symbolTable)
                && code == old(code) + Encode(em.code + [WithOperand(OP_JUMP, 0)])
                && jumpToEnd == |old(code)| + Size(em.code) && |code| == jumpToEnd + 5
                && loopStack == WithBreaks(old(loopStack), Sites(em.code, ToLoopEnd, |old(code)|))
      decreases s, 0
    {
      hide Encode, Sites, EmitExpr, EmitScope, EmitStmt, Size, WithBreaks, InLoop, PatchAt, Truncate32;
      ghost var before, loops, loop := code, loopStack, InLoop(loopStack);
      jumpToEnd := 0;
      r := CompileExpression(s.cond);
      if r.Err? {
        return;
      }
      ghost var cond := EmitExpr(old(State()), s.cond).value;
      var jumpToElse := |code|;
      EmitWithOperand(OP_JUMP_IF_FALSE, 0);
      Joined(before, cond.code, [WithOperand(OP_JUMP_IF_FALSE, 0)]);
      ghost var thn := EmitScope(cond.cs, s.thenBlock, |code|, loop);
      r := CompileBlock(s.thenBlock);
      if r.Err? {
        return;
      }
      ghost var thenCode := thn.value.code;
      Joined(before, cond.code + [WithOperand(OP_JUMP_IF_FALSE, 0)], thenCode);
      jumpToEnd := |code|;
      EmitWithOperand(OP_JUMP, 0);
      Joined(before, cond.code + [WithOperand(OP_JUMP_IF_FALSE, 0)] + thenCode, [WithOperand(OP_JUMP, 0)]);
      var elseOffset := |code|;
      PatchBefore(before, cond.code, OP_JUMP_IF_FALSE, 0, thenCode, [WithOperand(OP_JUMP, 0)], Truncate32(elseOffset));
      PatchJump(jumpToElse, Truncate32(elseOffset));
      NoBreaks(old(State()), s.cond, WithOperand(OP_JUMP_IF_FALSE, 0), |before|);
      Joined(before, cond.code, [WithOperand(OP_JUMP_IF_FALSE, Truncate32(elseOffset))]);
      Joined(before, cond.code + [WithOperand(OP_JUMP_IF_FALSE, Truncate32(elseOffset))], thenCode);
      NoBreakBetween(cond.code, WithOperand(OP_JUMP_IF_FALSE, Truncate32(elseOffset)), thenCode, |before|);
    }

    // No scope is opened for an else branch that is not there.
    method CompileElse(stmts: seq<Stmt>) returns (r: Outcome)
      requires Valid()
      modifies this
      ensures DidStmt(old(code), old(loopStack), old(symbolTable),
                      EmitScope(old(State()), stmts, |old(code)|, InLoop(old(loopStack))), r)
      decreases stmts, 2
    {
      if |stmts| > 0 {
        r := CompileBlock(stmts);
      } else {
        EmptyScope(State(), |code|, InLoop(loopStack));
        WithBreaksTwice(loopStack, [], []);
        EmptyCode(code, |code|);
        return Ok(());
      }
    }

    method CompileWhile(s: Stmt) returns (r: Outcome)
      requires Valid() && s.While?
      modifies this
      ensures DidStmt(old(code), old(loopStack), old(symbolTable),
                      EmitStmt(old(State()), s, |old(code)|, InLoop(old(loopStack))), r)
      decreases s, 1
    {
      hide Encode, Sites, EmitExpr, EmitScope, EmitStmt, Size, WithBreaks, InLoop, PatchAt, PatchAll, InRange, Truncate32,
        Fill;
      ghost var before, loops := code, loopStack;
      WhileSpec(State(), s, |before|, InLoop(loops));
      var loopStart := |code|;
      r := CompileExpression(s.cond);
      if r.Err? {
        return;
      }
      ghost var cond := EmitExpr(old(State()), s.cond).value;
      var jumpToEnd := |code|;
      EmitWithOperand(OP_JUMP_IF_FALSE, 0);
      Joined(before, cond.code, [WithOperand(OP_JUMP_IF_FALSE, 0)]);
      ghost var bodyBase := |code|;
      r := CompileLoopBody(s.body, loopStart);
      if r.Err? {
        return;
      }
      ghost var bodyCode := EmitScope(cond.cs, s.body, bodyBase, Some(loopStart)).value.code;
      ghost var back := WithOperand(OP_JUMP, Truncate32(loopStart));
      Grouped(cond.code + [WithOperand(OP_JUMP_IF_FALSE, 0)], bodyCode, [back]);
      Joined(before, cond.code + [WithOperand(OP_JUMP_IF_FALSE, 0)], bodyCode + [back]);
      ghost var end := Truncate32(|code|);
      CloseLoop(jumpToEnd, before, cond.code, bodyCode, back);
      ghost var jif := WithOperand(OP_JUMP_IF_FALSE, end);
      NoBreaks(old(State()), s.cond, jif, |before|);
      WhileNoBreaks(cond.code, jif, bodyCode, back, end, |before|);
      WithBreaksTwice(loops, [], []);
    }

    // The exit jump and the breaks are pointed to the end of the code, and the loop is left.
    method CloseLoop(jumpToEnd: nat, ghost before: seq<Byte>, ghost cond: seq<Instr>, ghost body: seq<Instr>, ghost back: Instr)
      requires code == before + Encode(cond + [WithOperand(OP_JUMP_IF_FALSE, 0)] + body + [back])
      requires jumpToEnd == |before| + Size(cond) && loopStack != []
      requires loopStack[|loopStack| - 1].breakJumps == Sites(body, ToLoopEnd, jumpToEnd + 5)
      modifies this`code, this`loopStack
      ensures loopStack == old(loopStack)[..|old(loopStack)| - 1]
      ensures var end := Truncate32(|old(code)|);
              code == before + Encode(cond + [WithOperand(OP_JUMP_IF_FALSE, end)] + Fill(body, ToLoopEnd, end) + [back])
    {
      hide Encode, Sites, Size, PatchAt, PatchAll, InRange, Truncate32, Fill;
      var endOffset := |code|;
      ghost var end := Truncate32(endOffset);
      ghost var jif := WithOperand(OP_JUMP_IF_FALSE, end);
      PatchBefore(before, cond, OP_JUMP_IF_FALSE, 0, body, [back], end);
      PatchJump(jumpToEnd, Truncate32(endOffset));
      Joined(before, cond, [jif]);
      PatchFragment(before, cond + [jif], body, [back], ToLoopEnd, end);
      PopLoop(endOffset);
    }

    // The body inside a new loop context, and the jump back.
    method CompileLoopBody(stmts: seq<Stmt>, loopStart: nat) returns (r: Outcome)
      requires Valid()
      modifies this
      ensures match EmitScope(old(State()), stmts, |old(code)|, Some(loopStart))
              case Err(x) => r == Err(x)
              case Ok(em) =>
                && r.Ok? && Valid() && State() == em.cs && symbolTable == old(symbolTable)
                && code == old(code) + Encode(em.code + [WithOperand(OP_JUMP, Truncate32(loopStart))])
                && |code| == |old(code)| + Size(em.code) + 5
                && loopStack == old(loopStack) + [LoopContext(loopStart, Sites(em.code, ToLoopEnd, |old(code)|))]
      decreases stmts, 2
    {
      hide Encode, Sites, EmitScope, Size, WithBreaks, InLoop, Truncate32;
      ghost var em := EmitScope(State(), stmts, |code|, Some(loopStart));
      PushLoop(loopStart);
      PushedLoop(old(loopStack), loopStart, if em.Ok? then Sites(em.value.code, ToLoopEnd, |code|) else []);
      r := CompileBlock(stmts);
      if r.Err? {
        return;
      }
      EmitWithOperand(OP_JUMP, Truncate32(loopStart));
      Joined(old(code), em.value.code, [WithOperand(OP_JUMP, Truncate32(loopStart))]);
    }

    method CompileSwitch(s: Stmt) returns (r: Outcome)
      requires Valid() && s.Switch?
      modifies this, symbolTable
      ensures DidStmt(old(code), old(loopStack), old(symbolTable),
                      EmitStmt(old(State()), s, |old(code)|, InLoop(old(loopStack))), r)
      decreases s, 1
    {
      hide Encode, Sites, EmitExpr, EmitArms, EmitStmt, Size, WithBreaks, InLoop, Truncate32, TempName;
      ghost var before, loops := code, loopStack;
      SwitchSpec(State(), s, |before|, InLoop(loops));
      var index := DefineTemp();
      ghost var entry := State();
      r := CompileExpression(s.value);
      if r.Err? {
        return;
      }
      ghost var value := EmitExpr(entry, s.value).value;
      ghost var store := WithOperand(OP_STORE_VAR, Truncate32(index));
      EmitWithOperand(OP_STORE_VAR, Truncate32(index));
      Joined(before, value.code, [store]);
      ghost var arms := EmitArms(value.cs, s, index, |code|, InLoop(loops));
      r := CompileArms(s, index);
      if r.Err? {
        return;
      }
      Joined(before, value.code + [store], arms.value.code);
      NoBreaks(entry, s.value, store, |before|);
      NoBreakBetween(value.code, store, arms.value.code, |before|);
    }

    // The variable that keeps the switch value, under a name programs are not meant to use.
    method DefineTemp() returns (index: nat)
      requires Valid()
      modifies this`constants, this`labelCounter, symbolTable
      ensures Valid() && State() == SwitchEntry(old(State()))
      ensures index == AddConstant(old(constants), Text(TempName(old(labelCounter)))).1
    {
      hide Decimal;
      var name := TempName(labelCounter);
      labelCounter := labelCounter + 1;
      index := AddConstantToPool(Text(name));
      symbolTable.Define(name, index);
    }

    // The cases, the default, and the patching of every jump that leaves a case.
    method CompileArms(s: Stmt, temp: nat) returns (r: Outcome)
      requires Valid() && s.Switch?
      modifies this
      ensures DidStmt(old(code), old(loopStack), old(symbolTable),
                      EmitArms(old(State()), s, temp, |old(code)|, InLoop(old(loopStack))), r)
      decreases s, 0
    {
      hide Encode, Sites, EmitCases, EmitScope, Size, WithBreaks, InLoop, Truncate32, PatchAll, InRange, Fill;
      ghost var before, loops, loop := code, loopStack, InLoop(loopStack);
      var jumpToEnd;
      r, jumpToEnd := CompileCases(s.cases, temp);
      if r.Err? {
        return;
      }
      ghost var cases := EmitCases(old(State()), s.cases, temp, |before|, loop).value;
      ghost var dflt := EmitScope(cases.cs, s.defaultBlock, |code|, loop);
      ghost var breaks := Sites(cases.code, ToLoopEnd, |before|);
      WithBreaksTwice(loops, breaks, []);
      r := CompileElse(s.defaultBlock);
      if r.Err? {
        return;
      }
      ghost var dfltCode := dflt.value.code;
      var endOffset := |code|;
      Joined(before, cases.code, dfltCode);
      PatchFromStart(before, cases.code, dfltCode, Truncate32(endOffset));
      PatchJumps(jumpToEnd, Truncate32(endOffset));
      ArmsBreaks(cases.code, dfltCode, Truncate32(endOffset), |before|);
      WithBreaksTwice(loops, breaks, Sites(dfltCode, ToLoopEnd, |before| + Size(cases.code)));
    }

    method CompileCases(cases: seq<Case>, temp: nat) returns (r: Outcome, jumpToEnd: seq<nat>)
      requires Valid()
      modifies this
      ensures var e := EmitCases(old(State()), cases, temp, |old(code)|, InLoop(old(loopStack)));
              && DidStmt(old(code), old(loopStack), old(symbolTable), e, r)
              && (e.Ok? ==> |code| == |old(code)| + Size(e.value.code))
              && (e.Ok? ==> jumpToEnd == Sites(e.value.code, ToSwitchEnd, |old(code)|))
      decreases cases, 0
    {
      hide Encode, Sites, EmitCase, EmitCases, Size, WithBreaks, InLoop;
      ghost var loop, base, start := InLoop(loopStack), |code|, State();
      ghost var done := Emitted([], start);
      jumpToEnd := [];
      var i := 0;
      WithBreaksTwice(loopStack, [], []);
      NothingYet(done, EmitCases(start, cases, temp, base, loop), code, base);
      assert cases[0..] == cases;
      while i < |cases|
        invariant i <= |cases| && Valid() && symbolTable == old(symbolTable)
        invariant code == old(code) + Encode(done.code) && State() == done.cs
        invariant loopStack == WithBreaks(old(loopStack), Sites(done.code, ToLoopEnd, base))
        invariant jumpToEnd == Sites(done.code, ToSwitchEnd, base)
        invariant EmitCases(start, cases, temp, base, loop)
               == Combine(done, EmitCases(done.cs, cases[i..], temp, base + Size(done.code), loop))
      {
        WithBreaksTwice(old(loopStack), Sites(done.code, ToLoopEnd, base), []);
        ghost var here := base + Size(done.code);
        assert cases[i..][0] == cases[i] && cases[i..][1..] == cases[i + 1..];
        ghost var step := EmitCase(done.cs, cases[i], temp, here, loop);
        CasesStep(done.cs, cases[i..], temp, here, loop);
        var exit;
        r, exit := CompileCase(cases[i], temp);
        if r.Err? {
          return;
        }
        jumpToEnd := jumpToEnd + [exit];
        Appended(old(code), done.code, step.value.code);
        SitesAppend(done.code, step.value.code, ToLoopEnd, base);
        SitesAppend(done.code, step.value.code, ToSwitchEnd, base);
        WithBreaksTwice(old(loopStack), Sites(done.code, ToLoopEnd, base), Sites(step.value.code, ToLoopEnd, here));
        CombineStep(done, step.value,
                    EmitCases(step.value.cs, cases[i + 1..], temp, here + Size(step.value.code), loop));
        done := Emitted(done.code + step.value.code, step.value.cs);
        i := i + 1;
      }
      assert cases[i..] == [];
      CasesEnd(done.cs, temp, base + Size(done.code), loop);
      assert done.code + [] == done.code;
      return Ok(()), jumpToEnd;
    }

    // One case: compare, skip to the next if different, body, and a jump out whose place is returned.
    method CompileCase(c: Case, temp: nat) returns (r: Outcome, exit: nat)
      requires Valid()
      modifies this
      ensures var e := EmitCase(old(State()), c, temp, |old(code)|, InLoop(old(loopStack)));
              && DidStmt(old(code), old(loopStack), old(symbolTable), e, r)
              && (e.Ok? ==> Sites(e.value.code, ToSwitchEnd, |old(code)|) == [exit])
      decreases c, 0
    {
      hide Encode, Sites, EmitExpr, EmitScope, EmitCase, Size, WithBreaks, InLoop, PatchAt, Truncate32;
      ghost var before, loops, loop := code, loopStack, InLoop(loopStack);
      ghost var load := WithOperand(OP_LOAD_VAR, Truncate32(temp));
      CaseSpec(State(), c, temp, |before|, loop);
      exit := 0;
      var jumpToNextCase;
      r, jumpToNextCase := CompileTest(c.value, temp);
      if r.Err? {
        return;
      }
      ghost var value := EmitExpr(old(State()), c.value).value;
      ghost var test := [load] + value.code + [Plain(OP_EQ)];
      ghost var body := EmitScope(value.cs, c.body, |code|, loop);
      r := CompileBlock(c.body);
      if r.Err? {
        return;
      }
      ghost var bodyCode := body.value.code;
      Joined(before, test + [WithOperand(OP_JUMP_IF_FALSE, 0)], bodyCode);
      exit := |code|;
      EmitWithOperand(OP_JUMP, 0);
      HoleBytes();
      Joined(before, test + [WithOperand(OP_JUMP_IF_FALSE, 0)] + bodyCode, [Hole(ToSwitchEnd)]);
      var next := |code|;
      PatchBefore(before, test, OP_JUMP_IF_FALSE, 0, bodyCode, [Hole(ToSwitchEnd)], Truncate32(next));
      PatchJump(jumpToNextCase, Truncate32(next));
      CaseSites(old(State()), c.value, load, WithOperand(OP_JUMP_IF_FALSE, Truncate32(next)),
                value.cs, c.body, loop, |before|);
    }

    // Loads the switch value, compares, and jumps to a place not known yet if it differs.
    method CompileTest(e: Expr, temp: nat) returns (r: Outcome, jumpToNextCase: nat)
      requires Valid()
      modifies this`constants, this`code
      ensures match EmitExpr(old(State()), e)
              case Err(x) => r == Err(x)
              case Ok(em) =>
                var test := [WithOperand(OP_LOAD_VAR, Truncate32(temp))] + em.code + [Plain(OP_EQ)];
                && r.Ok? && State() == em.cs
                && code == old(code) + Encode(test + [WithOperand(OP_JUMP_IF_FALSE, 0)])
                && jumpToNextCase == |old(code)| + Size(test) && Size(test) == 5 + Size(em.code) + 1
                && |code| == jumpToNextCase + 5
    {
      hide Encode, EmitExpr, Size, Truncate32;
      ghost var before := code;
      ghost var load := [WithOperand(OP_LOAD_VAR, Truncate32(temp))];
      jumpToNextCase := 0;
      EmitWithOperand(OP_LOAD_VAR, Truncate32(temp));
      r := CompileExpression(e);
      if r.Err? {
        return;
      }
      ghost var value := EmitExpr(old(State()), e).value;
      Joined(before, load, value.code);
      Emit(OP_EQ);
      Joined(before, load + value.code, [Plain(OP_EQ)]);
      jumpToNextCase := |code|;
      EmitWithOperand(OP_JUMP_IF_FALSE, 0);
      Joined(before, load + value.code + [Plain(OP_EQ)], [WithOperand(OP_JUMP_IF_FALSE, 0)]);
      SizeThen([], load[0]);
    }

    method CompileStatements(stmts: seq<Stmt>) returns (r: Outcome)
      requires Valid()
      modifies this, symbolTable
      ensures DidStmt(old(code), old(loopStack), old(symbolTable),
                      EmitBlock(old(State()), stmts, |old(code)|, InLoop(old(loopStack))), r)
      decreases stmts, 0
    {
      hide Encode, Sites, EmitStmt, EmitBlock, Size, WithBreaks, InLoop;
      ghost var loop, base, start := InLoop(loopStack), |code|, State();
      ghost var done := Emitted([], start);
      var i := 0;
      WithBreaksTwice(loopStack, [], []);
      NothingYet(done, EmitBlock(start, stmts, base, loop), code, base);
      assert stmts[0..] == stmts;
      while i < |stmts|
        invariant i <= |stmts| && Valid() && symbolTable == old(symbolTable)
        invariant code == old(code) + Encode(done.code) && State() == done.cs
        invariant loopStack == WithBreaks(old(loopStack), Sites(done.code, ToLoopEnd, base))
        invariant EmitBlock(start, stmts, base, loop)
               == Combine(done, EmitBlock(done.cs, stmts[i..], base + Size(done.code), loop))
      {
        WithBreaksTwice(old(loopStack), Sites(done.code, ToLoopEnd, base), []);
        ghost var here := base + Size(done.code);
        assert stmts[i..][0] == stmts[i] && stmts[i..][1..] == stmts[i + 1..];
        ghost var step := EmitStmt(done.cs, stmts[i], here, loop);
        BlockStep(done.cs, stmts[i..], here, loop);
        r := CompileStatement(stmts[i]);
        if r.Err? {
          return;
        }
        Appended(old(code), done.code, step.value.code);
        SitesAppend(done.code, step.value.code, ToLoopEnd, base);
        WithBreaksTwice(old(loopStack), Sites(done.code, ToLoopEnd, base), Sites(step.value.code, ToLoopEnd, here));
        CombineStep(done, step.value, EmitBlock(step.value.cs, stmts[i + 1..], here + Size(step.value.code), loop));
        done := Emitted(done.code + step.value.code, step.value.cs);
        i := i + 1;
      }
      assert stmts[i..] == [];
      BlockEnd(done.cs, base + Size(done.code), loop);
      assert done.code + [] == done.code;
      return Ok(());
    }

    // A block in a scope of its own, which is left again at its end.
    method CompileBlock(stmts: seq<Stmt>) returns (r: Outcome)
      requires Valid()
      modifies this
      ensures DidStmt(old(code), old(loopStack), old(symbolTable),
                      EmitScope(old(State()), stmts, |old(code)|, InLoop(old(loopStack))), r)
      decreases stmts, 1
    {
      hide Encode, Sites, EmitBlock, WithBreaks, InLoop;
      symbolTable := symbolTable.EnterScope();
      assert State() == old(State()).(scopes := old(State()).scopes + [map[]]);
      r := CompileStatements(stmts);
      if r.Err? {
        return;
      }
      ghost var inner := State();
      symbolTable := symbolTable.parent;
      assert symbolTable.Scopes() == inner.scopes[..|old(State()).scopes|];
    }

    // ---- whole units ----

    method DefineAll(names: seq<Str>, builtin: bool)
      requires Valid()
      modifies this`constants, symbolTable
      ensures State() == DefineNames(old(State()), names, builtin)
    {
      var i := 0;
      assert names[0..] == names;
      while i < |names|
        invariant i <= |names|
        invariant DefineNames(State(), names[i..], builtin) == DefineNames(old(State()), names, builtin)
      {
        assert names[i..][0] == names[i] && names[i..][1..] == names[i + 1..];
        var index := AddConstantToPool(Text(names[i]));
        if builtin {
          symbolTable.DefineBuiltin(names[i], index);
        } else {
          symbolTable.Define(names[i], index);
        }
        i := i + 1;
      }
    }

    // Forgets whatever was compiled before.
    method Reset()
      modifies this
      ensures Valid() && fresh(symbolTable) && fresh(symbolTable.chain)
      ensures State() == CState([], [map[]], 0) && code == [] && loopStack == []
    {
      constants, code, labelCounter, loopStack := [], [], 0, [];
      symbolTable := new SymbolTable(null);
    }

    method CompileUnit(u: Unit) returns (r: Result<seq<Byte>, CompileError>)
      modifies this
      ensures match EmitUnit(u)
              case Err(x) => r == Err(x)
              case Ok(em) => r == Ok(UnitBytecode(em))
    {
      hide Encode, Sites, EmitBlock, EmitStmt, Size, Bytecode, Pool, AddConstant, WithBreaks;
      Reset();
      symbolTable := symbolTable.EnterScope();
      assert State() == CState([], [map[], map[]], 0);
      DefineAll(u.names, false);
      DefineAll(u.builtins, true);
      assert State() == UnitEntry(u);
      var body := CompileStatements(u.body);
      if body.Err? {
        return Err(body.error);
      }
      ghost var em := EmitBlock(UnitEntry(u), u.body, 0, None).value;
      assert [] + Encode(em.code) == Encode(em.code);
      CompileEnd(u, em.code);
      UnitSealed(u);
      var bytecode := BuildBytecode(EmitUnit(u).value.code);
      return Ok(bytecode);
    }

    // What follows a body that does not end in a return.
    method CompileEnd(u: Unit, ghost body: seq<Instr>)
      requires Valid() && code == Encode(body)
      modifies this`constants, this`code
      ensures EndsInReturn(u.body) ==> code == old(code) && constants == old(constants)
      ensures !EndsInReturn(u.body) && u.returnsNull ==>
                var (pool, index) := AddConstant(old(constants), Null);
                constants == pool && code == Encode(body + [WithOperand(OP_PUSH, Truncate32(index)), Plain(OP_RETURN)])
      ensures !EndsInReturn(u.body) && !u.returnsNull ==>
                constants == old(constants) && code == Encode(body + [Plain(OP_HALT)])
    {
      hide Encode, Truncate32, AddConstant;
      if |u.body| == 0 || !u.body[|u.body| - 1].Return? {
        if u.returnsNull {
          var index := AddConstantToPool(Null);
          EmitWithOperand(OP_PUSH, Truncate32(index));
          ghost var push := [WithOperand(OP_PUSH, Truncate32(index))];
          EncodeAppend(body, push);
          Emit(OP_RETURN);
          EncodeAppend(body + push, [Plain(OP_RETURN)]);
          Grouped(body, push, [Plain(OP_RETURN)]);
          assert push + [Plain(OP_RETURN)] == [push[0], Plain(OP_RETURN)];
        } else {
          Emit(OP_HALT);
          EncodeAppend(body, [Plain(OP_HALT)]);
        }
      }
    }

    // The header, then the code with its jumps made absolute.
    method BuildBytecode(ghost instrs: seq<Instr>) returns (bytecode: seq<Byte>)
      requires code == Encode(instrs) && Sealed(instrs, false, false)
      modifies this`code
      ensures bytecode == Bytecode(Pool(old(constants)), instrs)
    {
      hide Encode, SerializePool, Adjust, PutUint32, Truncate32, Sealed, Size, Relocate;
      bytecode := MAGIC;
      bytecode := bytecode + PutUint32(1);
      bytecode := bytecode + PutUint32(Truncate32(|constants|));
      var pool := SerializeConstants();
      bytecode := bytecode + pool;
      bytecode := bytecode + PutUint32(Truncate32(|code|));
      var headerSize := |bytecode|;
      AdjustJumpTargets(Truncate32(headerSize));
      SealedWellFormed(instrs);
      AdjustEncoded(instrs, Truncate32(headerSize));
      bytecode := bytecode + code;
    }

    method SerializeConstants() returns (b: seq<Byte>)
      ensures b == SerializePool(Pool(constants))
    {
      hide Serialize;
      ghost var pool := Pool(constants);
      b := [];
      var i := 0;
      assert pool[0..] == pool;
      while i < |constants|
        invariant i <= |constants| && b + SerializePool(pool[i..]) == SerializePool(pool)
      {
        assert pool[i..][0] == pool[i] && pool[i..][1..] == pool[i + 1..];
        Grouped(b, Serialize(pool[i]), SerializePool(pool[i + 1..]));
        b := b + Serialize(Of(constants[i]));
        i := i + 1;
      }
      assert pool[i..] == [];
      assert b + [] == b;
    }

    // Adds the header's size to the operand of every jump, walking from instruction to instruction.
    method AdjustJumpTargets(headerOffset: U32)
      modifies this`code
      ensures code == Adjust(old(code), headerOffset)
    {
      var i := 0;
      assert code[..0] + Adjust(code[0..], headerOffset) == Adjust(code, headerOffset);
      while i < |code|
        invariant Adjusted(old(code), code, i, headerOffset)
      {
        AdjustStep(old(code), code, i, headerOffset);
        var opcode := code[i];
        i := i + 1;
        if IsJump(opcode) {
          if i + 4 <= |code| {
            var currentTarget := Uint32(code[i..i + 4]);
            var newTarget := Truncate32(currentTarget + headerOffset);
            code := code[..i] + PutUint32(newTarget) + code[i + 4..];
          }
          i := i + 4;
        } else if HasOperand(opcode) {
          i := i + 4;
        }
      }
    }
  }

  // What is done so far, and what the rest will add to it.
  function Combine(done: Emitted, rest: Emission): Emission {
    match rest
    case Err(x) => Err(x)
    case Ok(em) => Ok(Emitted(done.code + em.code, em.cs))
  }

  lemma Grouped<T>(a: seq<T>, b: seq<T>, c: seq<T>)
    ensures a + b + c == a + (b + c)
  {
  }

  // A jump patched where code follows it in two pieces.
  lemma PatchBefore(before: seq<Byte>, a: seq<Instr>, op: Byte, x: U32, b: seq<Instr>, c: seq<Instr>, target: U32)
    ensures var code := before + Encode(a + [WithOperand(op, x)] + b + c);
            && |code| == |before| + Size(a) + 5 + Size(b) + Size(c)
            && PatchAt(code, |before| + Size(a), target) == before + Encode(a + [WithOperand(op, target)] + b + c)
  {
    Grouped(a + [WithOperand(op, x)], b, c);
    Grouped(a + [WithOperand(op, target)], b, c);
    PatchOperand(before, a, op, x, b + c, target);
    hide *;
    SizeThen(a, WithOperand(op, x));
    EncodeAppend(a + [WithOperand(op, x)], b);
    EncodeAppend(a + [WithOperand(op, x)] + b, c);
  }

  // An if statement without its second half: condition, conditional jump, then branch.
  function EmitThen(cs: CState, s: Stmt, base: nat, loop: Option<nat>): Emission
    requires s.If? && cs.scopes != []
  {
    var cond :- EmitExpr(cs, s.cond);
    var thn :- EmitScope(cond.cs, s.thenBlock, base + Size(cond.code) + 5, loop);
    var elseBase := base + Size(cond.code) + 5 + Size(thn.code) + 5;
    Ok(Emitted(cond.code + [WithOperand(OP_JUMP_IF_FALSE, Truncate32(elseBase))] + thn.code, thn.cs))
  }

  lemma IfSpec(cs: CState, s: Stmt, base: nat, loop: Option<nat>)
    requires s.If? && cs.scopes != []
    ensures var em, thn := EmitStmt(cs, s, base, loop), EmitThen(cs, s, base, loop);
            if thn.Err? then em == Err(thn.error)
            else
              var elseBase := base + Size(thn.value.code) + 5;
              thn.value.cs.scopes != [] &&
              var els := EmitScope(thn.value.cs, s.elseBlock, elseBase, loop);
              if els.Err? then em == Err(els.error)
              else
                var jump := WithOperand(OP_JUMP, Truncate32(elseBase + Size(els.value.code)));
                em == Ok(Emitted(thn.value.code + [jump] + els.value.code, els.value.cs))
  {
    hide EmitScope, EmitExpr, Size;
    if EmitThen(cs, s, base, loop).Ok? {
      var cond := EmitExpr(cs, s.cond).value;
      var thn := EmitScope(cond.cs, s.thenBlock, base + Size(cond.code) + 5, loop).value;
      var jif := WithOperand(OP_JUMP_IF_FALSE, Truncate32(base + Size(cond.code) + 5 + Size(thn.code) + 5));
      SizeThen(cond.code, jif);
      EncodeAppend(cond.code + [jif], thn.code);
    }
  }

  lemma WhileSpec(cs: CState, s: Stmt, base: nat, loop: Option<nat>)
    requires s.While? && cs.scopes != []
    ensures var em, cond := EmitStmt(cs, s, base, loop), EmitExpr(cs, s.cond);
            if cond.Err? then em == Err(cond.error)
            else
              cond.value.cs.scopes != [] &&
              var bodyBase := base + Size(cond.value.code) + 5;
              var body := EmitScope(cond.value.cs, s.body, bodyBase, Some(base));
              if body.Err? then em == Err(body.error)
              else
                var end := Truncate32(bodyBase + Size(body.value.code) + 5);
                em == Ok(Emitted(cond.value.code + [WithOperand(OP_JUMP_IF_FALSE, end)]
                                 + Fill(body.value.code, ToLoopEnd, end) + [WithOperand(OP_JUMP, Truncate32(base))],
                                 body.value.cs))
  {
    hide EmitScope, EmitExpr, Size;
  }

  lemma PushedLoop(loops: seq<LoopContext>, start: nat, sites: seq<nat>)
    ensures var pushed := loops + [LoopContext(start, [])];
            && InLoop(pushed) == Some(start)
            && WithBreaks(pushed, sites) == loops + [LoopContext(start, sites)]
            && WithBreaks(pushed, sites)[..|loops|] == loops
  {
    assert [] + sites == sites;
  }

  lemma FilledHasNone(body: seq<Instr>, end: U32, base: nat)
    ensures Sites(Fill(body, ToLoopEnd, end), ToLoopEnd, base) == []
  {
    NoSites(Fill(body, ToLoopEnd, end), ToLoopEnd, base);
  }

  // A loop's breaks are its own affair: none is left open outside.
  lemma WhileNoBreaks(cond: seq<Instr>, jif: Instr, body: seq<Instr>, back: Instr, end: U32, base: nat)
    requires jif.WithOperand? && back.WithOperand? && Sites(cond, ToLoopEnd, base) == []
    ensures Sites(cond + [jif] + Fill(body, ToLoopEnd, end) + [back], ToLoopEnd, base) == []
  {
    hide *;
    var filled := Fill(body, ToLoopEnd, end);
    var after := base + Size(cond) + 5;
    FilledHasNone(body, end, after);
    NoBreakHere(back, after + Size(filled));
    NoBreakBetween(cond, jif, filled, base);
    SizeThen(cond, jif);
    EncodeAppend(cond + [jif], filled);
    SitesAppend(cond + [jif] + filled, [back], ToLoopEnd, base);
  }

  lemma SwitchSpec(cs: CState, s: Stmt, base: nat, loop: Option<nat>)
    requires s.Switch? && cs.scopes != []
    ensures var em, entry := EmitStmt(cs, s, base, loop), SwitchEntry(cs);
            var temp := AddConstant(cs.constants, Text(TempName(cs.labels))).1;
            var value := EmitExpr(entry, s.value);
            if value.Err? then em == Err(value.error)
            else
              value.value.cs.scopes != [] &&
              var arms := EmitArms(value.value.cs, s, temp, base + Size(value.value.code) + 5, loop);
              if arms.Err? then em == Err(arms.error)
              else em == Ok(Emitted(value.value.code + [WithOperand(OP_STORE_VAR, Truncate32(temp))] + arms.value.code,
                                    arms.value.cs))
  {
    hide EmitArms, EmitExpr, Size;
  }

  lemma HoleBytes()
    ensures Encode([Hole(ToSwitchEnd)]) == Encode([WithOperand(OP_JUMP, 0)])
  {
    EncodeOne(Hole(ToSwitchEnd));
    EncodeOne(WithOperand(OP_JUMP, 0));
  }

  lemma CaseSpec(cs: CState, c: Case, temp: nat, base: nat, loop: Option<nat>)
    requires cs.scopes != []
    ensures var em, value := EmitCase(cs, c, temp, base, loop), EmitExpr(cs, c.value);
            if value.Err? then em == Err(value.error)
            else
              value.value.cs.scopes != [] &&
              var bodyBase := base + 5 + Size(value.value.code) + 6;
              var body := EmitScope(value.value.cs, c.body, bodyBase, loop);
              if body.Err? then em == Err(body.error)
              else
                var next := Truncate32(bodyBase + Size(body.value.code) + 5);
                var test := [WithOperand(OP_LOAD_VAR, Truncate32(temp))] + value.value.code + [Plain(OP_EQ)];
                em == Ok(Emitted(test + [WithOperand(OP_JUMP_IF_FALSE, next)] + body.value.code + [Hole(ToSwitchEnd)],
                                 body.value.cs))
  {
    hide EmitScope, EmitExpr, Size, Truncate32;
    if EmitCase(cs, c, temp, base, loop).Ok? {
      var value := EmitExpr(cs, c.value).value;
      var bodyBase := base + 5 + Size(value.code) + 6;
      var next := Truncate32(bodyBase + Size(EmitScope(value.cs, c.body, bodyBase, loop).value.code) + 5);
      var jif := WithOperand(OP_JUMP_IF_FALSE, next);
      assert [Plain(OP_EQ), jif] == [Plain(OP_EQ)] + [jif];
      Grouped([WithOperand(OP_LOAD_VAR, Truncate32(temp))] + value.code, [Plain(OP_EQ)], [jif]);
    }
  }

  // In a case, one jump leaves the switch, the last one; breaks come from the body only.
  lemma CaseSites(cs: CState, e: Expr, load: Instr, jif: Instr, inner: CState, body: seq<Stmt>, loop: Option<nat>, base: nat)
    requires EmitExpr(cs, e).Ok? && load.WithOperand? && jif.WithOperand?
    requires cs.scopes != [] && inner == EmitExpr(cs, e).value.cs
    requires var bodyBase := base + 5 + Size(EmitExpr(cs, e).value.code) + 6; EmitScope(inner, body, bodyBase, loop).Ok?
    ensures var value := EmitExpr(cs, e).value.code;
            var bodyBase := base + 5 + Size(value) + 6;
            var bodyCode := EmitScope(inner, body, bodyBase, loop).value.code;
            var all := [load] + value + [Plain(OP_EQ)] + [jif] + bodyCode + [Hole(ToSwitchEnd)];
            && Sites(all, ToSwitchEnd, base) == [bodyBase + Size(bodyCode)]
            && Sites(all, ToLoopEnd, base) == Sites(bodyCode, ToLoopEnd, bodyBase)
  {
    hide EmitExpr, EmitScope, Size, Encode, Sites, Sealed;
    var value := EmitExpr(cs, e).value.code;
    var bodyBase := base + 5 + Size(value) + 6;
    ExprKeeps(cs, e);
    ScopeKeeps(inner, body, bodyBase, loop);
    var bodyCode := EmitScope(inner, body, bodyBase, loop).value.code;
    NoneSealed(value, ToSwitchEnd, base + 5);
    NoneSealed(value, ToLoopEnd, base + 5);
    NoneBody(bodyCode, loop.Some?, bodyBase);
    TestQuiet(load, value, ToSwitchEnd, base);
    TestQuiet(load, value, ToLoopEnd, base);
    SitesBehind([load] + value + [Plain(OP_EQ)], jif, bodyCode, ToSwitchEnd, base);
    SitesBehind([load] + value + [Plain(OP_EQ)], jif, bodyCode, ToLoopEnd, base);
  }

  lemma NoneBody(code: seq<Instr>, loopHoles: bool, base: nat)
    requires Sealed(code, loopHoles, false)
    ensures Sites(code, ToSwitchEnd, base) == []
  {
    forall i | 0 <= i < |code| ensures code[i] != Hole(ToSwitchEnd) {
      assert SealedInstr(code[i], loopHoles, false);
    }
    NoSites(code, ToSwitchEnd, base);
  }

  lemma NoneSealed(code: seq<Instr>, kind: HoleKind, base: nat)
    requires Sealed(code, false, false)
    ensures Sites(code, kind, base) == []
  {
    forall i | 0 <= i < |code| ensures code[i] != Hole(kind) {
      assert SealedInstr(code[i], false, false);
    }
    NoSites(code, kind, base);
  }

  lemma TestQuiet(load: Instr, value: seq<Instr>, kind: HoleKind, base: nat)
    requires load.WithOperand? && Sites(value, kind, base + 5) == []
    ensures Sites([load] + value + [Plain(OP_EQ)], kind, base) == []
    ensures Size([load] + value + [Plain(OP_EQ)]) == 6 + Size(value)
  {
    LoadQuiet(load, value, kind, base);
    hide *;
    OneSite(Plain(OP_EQ), kind, base + 5 + Size(value));
    SitesAfter([load] + value, [Plain(OP_EQ)], kind, base);
    SizeThen([load] + value, Plain(OP_EQ));
  }

  lemma LoadQuiet(load: Instr, value: seq<Instr>, kind: HoleKind, base: nat)
    requires load.WithOperand? && Sites(value, kind, base + 5) == []
    ensures Sites([load] + value, kind, base) == [] && Size([load] + value) == 5 + Size(value)
  {
    OneSite(load, kind, base);
    EncodeOne(load);
    assert Size([load]) == 5 && Sites([load], kind, base) == [];
    hide *;
    SitesAfter([load], value, kind, base);
  }

  lemma SitesBehind(quiet: seq<Instr>, jif: Instr, body: seq<Instr>, kind: HoleKind, base: nat)
    requires jif.WithOperand? && Sites(quiet, kind, base) == []
    ensures var bodyBase := base + Size(quiet) + 5;
            Sites(quiet + [jif] + body + [Hole(ToSwitchEnd)], kind, base)
            == Sites(body, kind, bodyBase) + if kind.ToSwitchEnd? then [bodyBase + Size(body)] else []
  {
    hide *;
    OneSite(jif, kind, base + Size(quiet));
    OneSite(Hole(ToSwitchEnd), kind, base + Size(quiet) + 5 + Size(body));
    SitesAfter(quiet, [jif], kind, base);
    SizeThen(quiet, jif);
    SitesAfter(quiet + [jif], body, kind, base);
    SitesAppend(quiet + [jif] + body, [Hole(ToSwitchEnd)], kind, base);
  }

  lemma SitesAfter(quiet: seq<Instr>, b: seq<Instr>, kind: HoleKind, base: nat)
    requires Sites(quiet, kind, base) == []
    ensures Sites(quiet + b, kind, base) == Sites(b, kind, base + Size(quiet))
    ensures Size(quiet + b) == Size(quiet) + Size(b)
  {
    hide *;
    SitesAppend(quiet, b, kind, base);
    EncodeAppend(quiet, b);
    assert [] + Sites(b, kind, base + Size(quiet)) == Sites(b, kind, base + Size(quiet));
  }

  lemma OneSite(i: Instr, kind: HoleKind, base: nat)
    ensures Sites([i], kind, base) == if i == Hole(kind) then [base] else []
  {
  }

  lemma CasesStep(cs: CState, cases: seq<Case>, temp: nat, base: nat, loop: Option<nat>)
    requires cs.scopes != [] && cases != []
    ensures EmitCases(cs, cases, temp, base, loop) ==
            match EmitCase(cs, cases[0], temp, base, loop)
            case Err(x) => Err(x)
            case Ok(em) => Combine(em, EmitCases(em.cs, cases[1..], temp, base + Size(em.code), loop))
  {
    hide EmitCase;
  }

  lemma CasesEnd(cs: CState, temp: nat, base: nat, loop: Option<nat>)
    requires cs.scopes != []
    ensures EmitCases(cs, [], temp, base, loop) == Ok(Emitted([], cs))
  {
  }

  lemma PatchFromStart(before: seq<Byte>, holes: seq<Instr>, after: seq<Instr>, target: U32)
    ensures var sites := Sites(holes, ToSwitchEnd, |before|);
            && InRange(before + Encode(holes + after), sites)
            && PatchAll(before + Encode(holes + after), sites, target)
               == before + Encode(Fill(holes, ToSwitchEnd, target) + after)
  {
    hide *;
    Appended(before, holes, after);
    Appended(before, Fill(holes, ToSwitchEnd, target), after);
    PatchHoles(before, holes, Encode(after), ToSwitchEnd, target);
  }

  // Closing the switch leaves the enclosing loop's breaks where they are.
  lemma {:induction false} OtherSites(instrs: seq<Instr>, target: U32, base: nat)
    ensures Sites(Fill(instrs, ToSwitchEnd, target), ToLoopEnd, base) == Sites(instrs, ToLoopEnd, base)
    decreases |instrs|
  {
    if instrs != [] {
      FillCons(instrs, ToSwitchEnd, target);
      OtherSites(instrs[1..], target, base + InstrSize(instrs[0]));
    }
  }

  lemma ArmsBreaks(cases: seq<Instr>, dflt: seq<Instr>, end: U32, base: nat)
    ensures Sites(Fill(cases, ToSwitchEnd, end) + dflt, ToLoopEnd, base)
            == Sites(cases, ToLoopEnd, base) + Sites(dflt, ToLoopEnd, base + Size(cases))
  {
    hide *;
    OtherSites(cases, end, base);
    LayoutKept(cases, ToSwitchEnd, end, 0);
    SitesAppend(Fill(cases, ToSwitchEnd, end), dflt, ToLoopEnd, base);
  }

  lemma EmptyScope(cs: CState, base: nat, loop: Option<nat>)
    requires cs.scopes != []
    ensures EmitScope(cs, [], base, loop) == Ok(Emitted([], cs))
  {
    assert (cs.scopes + [map[]])[..|cs.scopes|] == cs.scopes;
  }

  lemma EmptyCode(code: seq<Byte>, base: nat)
    ensures code + Encode([]) == code && Sites([], ToLoopEnd, base) == [] && Size([]) == 0
  {
  }

  lemma BlockStep(cs: CState, stmts: seq<Stmt>, base: nat, loop: Option<nat>)
    requires cs.scopes != [] && stmts != []
    ensures EmitBlock(cs, stmts, base, loop) ==
            match EmitStmt(cs, stmts[0], base, loop)
            case Err(x) => Err(x)
            case Ok(em) => Combine(em, EmitBlock(em.cs, stmts[1..], base + Size(em.code), loop))
  {
    hide EmitStmt;
  }

  lemma BlockEnd(cs: CState, base: nat, loop: Option<nat>)
    requires cs.scopes != []
    ensures EmitBlock(cs, [], base, loop) == Ok(Emitted([], cs))
  {
  }

  lemma NothingYet(done: Emitted, rest: Emission, before: seq<Byte>, base: nat)
    requires done.code == []
    ensures Combine(done, rest) == rest && Size(done.code) == 0 && before + Encode(done.code) == before
    ensures forall kind :: Sites(done.code, kind, base) == []
  {
    if rest.Ok? {
      assert [] + rest.value.code == rest.value.code;
    }
  }

  lemma CombineStep(done: Emitted, step: Emitted, rest: Emission)
    ensures Combine(done, Combine(step, rest)) == Combine(Emitted(done.code + step.code, step.cs), rest)
    ensures Size(done.code + step.code) == Size(done.code) + Size(step.code)
  {
    hide Size, Encode;
    EncodeAppend(done.code, step.code);
    if rest.Ok? {
      assert done.code + (step.code + rest.value.code) == done.code + step.code + rest.value.code;
    }
  }

  lemma NoBreakBetween(a: seq<Instr>, i: Instr, b: seq<Instr>, base: nat)
    requires i.WithOperand?
    ensures Sites(a + [i] + b, ToLoopEnd, base)
            == Sites(a, ToLoopEnd, base) + Sites(b, ToLoopEnd, base + Size(a) + 5)
    ensures Sites(a, ToLoopEnd, base) == [] ==>
              Sites(a + [i] + b, ToLoopEnd, base) == Sites(b, ToLoopEnd, base + Size(a) + 5)
  {
    NoBreakHere(i, base + Size(a));
    hide *;
    SitesAppend(a + [i], b, ToLoopEnd, base);
    SitesAppend(a, [i], ToLoopEnd, base);
    SizeThen(a, i);
    assert Sites(a, ToLoopEnd, base) + [] == Sites(a, ToLoopEnd, base);
  }

  lemma NoBreakHere(i: Instr, base: nat)
    requires !i.Hole?
    ensures Sites([i], ToLoopEnd, base) == []
  {
  }

  lemma SizeThen(a: seq<Instr>, i: Instr)
    ensures Size(a + [i]) == Size(a) + Size([i]) && Size([i]) == InstrSize(i)
    ensures i.Plain? ==> Size([i]) == 1
    ensures !i.Plain? ==> Size([i]) == 5
  {
    EncodeAppend(a, [i]);
    EncodeOne(i);
  }

  // Expression code holds no breaks.
  lemma NoBreaks(cs: CState, e: Expr, last: Instr, base: nat)
    requires EmitExpr(cs, e).Ok? && !last.Hole?
    ensures Sites(EmitExpr(cs, e).value.code + [last], ToLoopEnd, base) == []
    ensures Sites(EmitExpr(cs, e).value.code, ToLoopEnd, base) == []
    ensures NoHoles(EmitExpr(cs, e).value.code, ToLoopEnd)
  {
    ExprKeeps(cs, e);
    NoSites(EmitExpr(cs, e).value.code + [last], ToLoopEnd, base);
    NoSites(EmitExpr(cs, e).value.code, ToLoopEnd, base);
  }

  lemma Appended(before: seq<Byte>, a: seq<Instr>, b: seq<Instr>)
    ensures before + Encode(a) + Encode(b) == before + Encode(a + b)
  {
    hide Encode;
    EncodeAppend(a, b);
    Grouped(before, Encode(a), Encode(b));
  }

  // The same, with the sizes spelled out.
  lemma Joined(before: seq<Byte>, a: seq<Instr>, b: seq<Instr>)
    ensures before + Encode(a) + Encode(b) == before + Encode(a + b)
    ensures Size(a + b) == Size(a) + Size(b) && |before + Encode(a + b)| == |before| + Size(a) + Size(b)
    ensures |b| == 1 && !b[0].Plain? ==> Size(b) == 5
    ensures |b| == 1 && b[0].Plain? ==> Size(b) == 1
  {
    Appended(before, a, b);
    EncodeAppend(a, b);
    if |b| == 1 {
      assert b == [b[0]];
      EncodeOne(b[0]);
    }
  }

  lemma {:induction false} FirstIndex(constants: seq<Value>, v: Value, i: nat)
    requires i < |constants| && constants[i] == v && v !in constants[..i]
    ensures IndexOf(constants, v) == i
    decreases i
  {
    if i > 0 {
      assert constants[0] in constants[..i];
      assert constants[1..][..i - 1] == constants[..i][1..];
      FirstIndex(constants[1..], v, i - 1);
    }
  }

  lemma {:induction false} NoIndex(constants: seq<Value>, v: Value)
    requires v !in constants
    ensures IndexOf(constants, v) == |constants|
    decreases |constants|
  {
    if constants != [] {
      NoIndex(constants[1..], v);
    }
  }
}
