/** Compiler correctness: every outcome of a program, as compiled code reads it, is the machine's too. */
module Correctness {
  import opened Bytes
  import opened Lang
  import opened Opcodes
  import opened Interpreter
  import opened CodeGen
  import opened Scoping
  import opened EmissionFacts
  import opened Vm
  import opened Placement
  import opened Simulation
  import opened Landing

  // The machine is about to run code compiled from here, in a loop or not.
  ghost predicate Begun(pl: Place, cs: CState, base: nat, loop: Option<nat>, env: Env, st: State) {
    && Entered(pl, cs, base, env, st)
    && cs.scopes != [] && |env| == |cs.scopes|
    && (loop.Some? ==> pl.header + loop.value < TWO32)
  }

  ghost predicate Done(pl: Place, cs: CState, em: Emitted, base: nat, loop: Option<nat>, depth: nat, limit: nat,
                       st: State, k: nat, o: Outcome) {
    Lands(pl, Exit(loop, base + Size(em.code), em.cs.scopes, depth, limit), st, k, o)
  }

  lemma {:induction false} SimStmt(pl: Place, cs: CState, s: Stmt, base: nat, loop: Option<nat>, env: Env,
                                   limit: nat, st: State) returns (k: nat)
    requires PlainStmt(s) && NeedStmt(s) + |st.stack| <= MAX_STACK && Begun(pl, cs, base, loop, env, st)
    requires EmitStmt(cs, s, base, loop).Ok? && Loaded(pl, base, EmitStmt(cs, s, base, loop).value)
    ensures Done(pl, cs, EmitStmt(cs, s, base, loop).value, base, loop, |env| - 1, limit, st, k,
                 Exec(AsCompiled, limit, s, env))
    decreases s, 3, 0
  {
    hide Run, EmitStmt, PlainStmt, NeedStmt, Lands, Placed, Agree, Pooled, ExecWhile, ExecSwitch, ExecBlock, Eval;
    match s
    case Assign(_, _) => k := SimAssign(pl, cs, s, base, loop, env, limit, st);
    case Reassign(_, _) => k := SimAssign(pl, cs, s, base, loop, env, limit, st);
    case Return(_) => k := SimSimple(pl, cs, s, base, loop, env, limit, st);
    case ExprStmt(_) => k := SimSimple(pl, cs, s, base, loop, env, limit, st);
    case If(_, _, _) => k := SimIf(pl, cs, s, base, loop, env, limit, st);
    case While(_, _) => k := SimWhile(pl, cs, s, base, loop, env, limit, 0, Null, st);
    case Switch(_, _, _) => k := SimSwitch(pl, cs, s, base, loop, env, limit, st);
    case Validation(_) => k := SimJump(pl, cs, s, base, loop, env, limit, st);
    case Break => k := SimJump(pl, cs, s, base, loop, env, limit, st);
    case Continue => k := SimJump(pl, cs, s, base, loop, env, limit, st);
  }

  lemma SimJump(pl: Place, cs: CState, s: Stmt, base: nat, loop: Option<nat>, env: Env, limit: nat, st: State)
    returns (k: nat)
    requires s.Validation? || s.Break? || s.Continue?
    requires Begun(pl, cs, base, loop, env, st)
    requires EmitStmt(cs, s, base, loop).Ok? && Loaded(pl, base, EmitStmt(cs, s, base, loop).value)
    ensures Done(pl, cs, EmitStmt(cs, s, base, loop).value, base, loop, |env| - 1, limit, st, k,
                 Exec(AsCompiled, limit, s, env))
  {
    AgreePrefix(env, cs.scopes, st.locals, |env| - 1);
    k := if s.Validation? then 0 else 1;
    if s.Validation? {
      assert Run(pl.p, st, 0) == Ok(st);
    } else if s.Break? {
      StepHole(pl, base, ToLoopEnd, st);
    } else {
      StepJump(pl, base, loop.value, st);
    }
  }

  lemma {:induction false} SimBlock(pl: Place, cs: CState, stmts: seq<Stmt>, base: nat, loop: Option<nat>, env: Env,
                                    limit: nat, st: State) returns (k: nat)
    requires PlainBlock(stmts) && NeedBlock(stmts) + |st.stack| <= MAX_STACK && Begun(pl, cs, base, loop, env, st)
    requires EmitBlock(cs, stmts, base, loop).Ok? && Loaded(pl, base, EmitBlock(cs, stmts, base, loop).value)
    ensures Done(pl, cs, EmitBlock(cs, stmts, base, loop).value, base, loop, |env| - 1, limit, st, k,
                 ExecBlock(AsCompiled, limit, stmts, env))
    decreases stmts, 0, 1
  {
    if stmts == [] {
      k := 0;
      SizeNil();
    } else {
      hide Run, EmitStmt, Exec, Lands, Placed, Agree, Pooled, NeedStmt, PlainStmt, Size;
      k := SimCons(pl, cs, stmts, base, loop, env, limit, st);
    }
  }

  lemma {:induction false} SimCons(pl: Place, cs: CState, stmts: seq<Stmt>, base: nat, loop: Option<nat>, env: Env,
                                   limit: nat, st: State) returns (k: nat)
    requires stmts != []
    requires PlainBlock(stmts) && NeedBlock(stmts) + |st.stack| <= MAX_STACK && Begun(pl, cs, base, loop, env, st)
    requires EmitBlock(cs, stmts, base, loop).Ok? && Loaded(pl, base, EmitBlock(cs, stmts, base, loop).value)
    ensures Done(pl, cs, EmitBlock(cs, stmts, base, loop).value, base, loop, |env| - 1, limit, st, k,
                 ExecBlock(AsCompiled, limit, stmts, env))
    decreases stmts, 0, 0
  {
    hide EmitStmt, Exec, Placed, Agree, Pooled, NeedStmt, PlainStmt, Size, Run, Lands, Sealed, Straight;
    var first := EmitStmt(cs, stmts[0], base, loop).value;
    var next := base + Size(first.code);
    var rest := EmitBlock(first.cs, stmts[1..], next, loop).value;
    StmtKeeps(cs, stmts[0], base, loop);
    BlockKeeps(first.cs, stmts[1..], next, loop);
    OuterPrefix(first.cs, rest.cs);
    PlacedSplit(pl, base, first.code, rest.code);
    k := SimStmt(pl, cs, stmts[0], base, loop, env, limit, st);
    var o := Exec(AsCompiled, limit, stmts[0], env);
    var x := Exit(loop, next + Size(rest.code), rest.cs.scopes, |env| - 1, limit);
    if o.Normal? && |stmts| > 1 {
      var mid := Resumes(pl, Exit(loop, next, first.cs.scopes, |env| - 1, limit), st, k, o);
      var j := SimBlock(pl, first.cs, stmts[1..], next, loop, o.env, limit, mid);
      LandsAfter(pl, x, st, k, mid, j, ExecBlock(AsCompiled, limit, stmts[1..], o.env));
      k := k + j;
    } else {
      SizeNil();
      LandsOutside(pl, Exit(loop, next, first.cs.scopes, |env| - 1, limit), x, st, k, o);
    }
  }

  lemma Resumes(pl: Place, x: Exit, st: State, k: nat, o: Outcome) returns (mid: State)
    requires o.Normal? && Lands(pl, x, st, k, o)
    ensures Run(pl.p, st, k) == Ok(mid) && Ready(pl, x.next, mid) && mid.stack == st.stack
    ensures Agree(o.env, x.scopes, mid.locals)
  {
    mid := Run(pl.p, st, k).value;
  }

  lemma SizeShort(i: Instr, j: Instr)
    ensures Size([i]) == InstrSize(i) && Size([i, j]) == InstrSize(i) + InstrSize(j)
  {
    assert [i, j][1..] == [j];
    assert Size([j]) == InstrSize(j) + Size([]);
  }

  lemma SizeNil()
    ensures Size([]) == 0
  {
  }

  // A block in its own scope; afterwards all the scopes around it matter again.
  lemma {:induction false} SimScope(pl: Place, cs: CState, stmts: seq<Stmt>, base: nat, loop: Option<nat>, env: Env,
                                    limit: nat, st: State) returns (k: nat)
    requires PlainBlock(stmts) && NeedBlock(stmts) + |st.stack| <= MAX_STACK && Begun(pl, cs, base, loop, env, st)
    requires EmitScope(cs, stmts, base, loop).Ok? && Loaded(pl, base, EmitScope(cs, stmts, base, loop).value)
    ensures Done(pl, cs, EmitScope(cs, stmts, base, loop).value, base, loop, |env|, limit, st, k,
                 CloseScope(ExecBlock(AsCompiled, limit, stmts, env + [map[]])))
    decreases stmts, 1, 0
  {
    hide EmitBlock, ExecBlock, Placed, NeedBlock, PlainBlock, Size, Run;
    var inner := cs.(scopes := cs.scopes + [map[]]);
    AgreePush(env, cs.scopes, st.locals);
    k := SimBlock(pl, inner, stmts, base, loop, env + [map[]], limit, st);
    var em := EmitBlock(inner, stmts, base, loop).value;
    LandsClosed(pl, Exit(loop, base + Size(em.code), em.cs.scopes, |env|, limit), st, k,
                ExecBlock(AsCompiled, limit, stmts, env + [map[]]), em.cs.scopes[..|env|]);
  }

  // Where the pieces of an if's code lie.
  lemma IfPlaced(pl: Place, cs: CState, s: Stmt, base: nat, loop: Option<nat>)
    returns (cond: Emitted, thn: Emitted, els: Emitted, thenBase: nat, elseBase: nat, end: nat)
    requires s.If? && cs.scopes != [] && Small(pl)
    requires EmitStmt(cs, s, base, loop).Ok? && Loaded(pl, base, EmitStmt(cs, s, base, loop).value)
    ensures EmitExpr(cs, s.cond) == Ok(cond) && Grows(cs, cond.cs) && Loaded(pl, base, cond)
    ensures cond.cs.scopes == cs.scopes && EmitScope(cond.cs, s.thenBlock, thenBase, loop) == Ok(thn)
    ensures Grows(cs, thn.cs) && thn.cs.scopes == cs.scopes && EmitScope(thn.cs, s.elseBlock, elseBase, loop) == Ok(els)
    ensures thenBase == base + Size(cond.code) + 5 && elseBase == thenBase + Size(thn.code) + 5
    ensures end == elseBase + Size(els.code) == base + Size(EmitStmt(cs, s, base, loop).value.code)
    ensures pl.header + end < TWO32 && EmitStmt(cs, s, base, loop).value.cs.scopes == cs.scopes
    ensures Placed(pl, base, cond.code + [WithOperand(OP_JUMP_IF_FALSE, Truncate32(elseBase))])
    ensures Loaded(pl, thenBase, thn) && Loaded(pl, elseBase, els)
    ensures Placed(pl, thenBase + Size(thn.code), [WithOperand(OP_JUMP, Truncate32(end))])
  {
    hide EmitScope, EmitExpr, Placed, Pooled, Truncate32, Sealed;
    cond := EmitExpr(cs, s.cond).value;
    thenBase := base + Size(cond.code) + 5;
    thn := EmitScope(cond.cs, s.thenBlock, thenBase, loop).value;
    elseBase := thenBase + Size(thn.code) + 5;
    els := EmitScope(thn.cs, s.elseBlock, elseBase, loop).value;
    end := elseBase + Size(els.code);
    var jif := [WithOperand(OP_JUMP_IF_FALSE, Truncate32(elseBase))];
    var jump := WithOperand(OP_JUMP, Truncate32(end));
    ExprGrows(cs, s.cond, false, false);
    ScopeKeeps(cond.cs, s.thenBlock, thenBase, loop);
    ScopeKeeps(thn.cs, s.elseBlock, elseBase, loop);
    PlacedSplit(pl, base, cond.code + jif + thn.code + [jump], els.code);
    PlacedSplit(pl, base, cond.code + jif + thn.code, [jump]);
    PlacedSplit(pl, base, cond.code + jif, thn.code);
    PlacedSplit(pl, base, cond.code, jif);
    SizeShort(jif[0], jump);
    SizeShort(jump, jump);
  }

  lemma {:induction false} SimIf(pl: Place, cs: CState, s: Stmt, base: nat, loop: Option<nat>, env: Env,
                                 limit: nat, st: State) returns (k: nat)
    requires s.If? && PlainStmt(s) && NeedStmt(s) + |st.stack| <= MAX_STACK && Begun(pl, cs, base, loop, env, st)
    requires EmitStmt(cs, s, base, loop).Ok? && Loaded(pl, base, EmitStmt(cs, s, base, loop).value)
    ensures Done(pl, cs, EmitStmt(cs, s, base, loop).value, base, loop, |env| - 1, limit, st, k,
                 Exec(AsCompiled, limit, s, env))
    decreases s, 2, 0
  {
    hide EmitStmt, EmitScope, EmitExpr, ExecBlock, Eval, Placed, Agree, Pooled, NeedBlock, Need, PlainBlock, PlainExpr;
    hide Run, Truncate32, Sealed, Yields, Lands, CloseScope, Size;
    var cond, thn, els, thenBase, elseBase, end := IfPlaced(pl, cs, s, base, loop);
    var j := SimExpr(pl, cs, s.cond, base, env, st);
    var v := Eval(AsCompiled, s.cond, env);
    j := JoinCond(pl, base, cond.code, elseBase, st, j, v);
    k := j;
    if v.Ok? && v.value.Bool? {
      var mid := Run(pl.p, st, j).value;
      if v.value.b {
        var jump := WithOperand(OP_JUMP, Truncate32(end));
        k := SimBranch(pl, cond.cs, s.thenBlock, thenBase, loop, env, limit, st, j, mid, end, [jump]);
      } else {
        k := SimBranch(pl, thn.cs, s.elseBlock, elseBase, loop, env, limit, st, j, mid, end, []);
      }
    } else {
      LandsStuck(pl, Exit(loop, end, cs.scopes, |env| - 1, limit), st, k, v);
    }
  }

  // A block entered after j steps, and left for `end` by falling through or by a jump behind it.
  lemma {:induction false} SimBranch(pl: Place, cs: CState, stmts: seq<Stmt>, base: nat, loop: Option<nat>, env: Env,
                                     limit: nat, st: State, j: nat, mid: State, end: nat, leave: seq<Instr>)
    returns (k: nat)
    requires PlainBlock(stmts) && NeedBlock(stmts) + |mid.stack| <= MAX_STACK && Begun(pl, cs, base, loop, env, mid)
    requires EmitScope(cs, stmts, base, loop).Ok? && Loaded(pl, base, EmitScope(cs, stmts, base, loop).value)
    requires Run(pl.p, st, j) == Ok(mid) && mid.stack == st.stack
    requires var behind := base + Size(EmitScope(cs, stmts, base, loop).value.code);
             || (leave == [] && end == behind)
             || (leave == [WithOperand(OP_JUMP, Truncate32(end))] && pl.header + end < TWO32 && Placed(pl, behind, leave))
             || (leave == [Hole(ToSwitchEnd)] && end == pl.switchEnd && Placed(pl, behind, leave))
    ensures Lands(pl, Exit(loop, end, cs.scopes, |env| - 1, limit), st, k,
                  CloseScope(ExecBlock(AsCompiled, limit, stmts, env + [map[]])))
    decreases stmts, 2, 0
  {
    hide EmitScope, ExecBlock, Placed, Agree, Pooled, NeedBlock, PlainBlock, Run, Truncate32, Size, Sealed, Lands,
      CloseScope;
    ScopeKeeps(cs, stmts, base, loop);
    var o := CloseScope(ExecBlock(AsCompiled, limit, stmts, env + [map[]]));
    var x := Exit(loop, end, cs.scopes, |env|, limit);
    var i := SimScope(pl, cs, stmts, base, loop, env, limit, mid);
    if leave != [] {
      i := ThenJump(pl, x, base + Size(EmitScope(cs, stmts, base, loop).value.code), leave[0], mid, i, o);
    }
    k := OutOfBranch(pl, x, loop, st, j, mid, i, o);
  }

  lemma OutOfBranch(pl: Place, x: Exit, loop: Option<nat>, st: State, j: nat, mid: State, i: nat, o: Outcome)
    returns (k: nat)
    requires Run(pl.p, st, j) == Ok(mid) && mid.stack == st.stack && Lands(pl, x, mid, i, o)
    requires x.depth > 0 && x.depth == |x.scopes|
    ensures Lands(pl, x.(depth := x.depth - 1), st, k, o)
  {
    LandsAfter(pl, x, st, j, mid, i, o);
    k := j + i;
    LandsOutside(pl, x, x.(depth := x.depth - 1), st, k, o);
  }

  // Where the pieces of a loop's code lie; the body's breaks leave for the loop's end.
  lemma WhilePlaced(pl: Place, cs: CState, s: Stmt, base: nat, loop: Option<nat>)
    returns (cond: Emitted, body: Emitted, bodyBase: nat, end: nat)
    requires s.While? && cs.scopes != [] && Small(pl)
    requires EmitStmt(cs, s, base, loop).Ok? && Loaded(pl, base, EmitStmt(cs, s, base, loop).value)
    ensures EmitExpr(cs, s.cond) == Ok(cond) && Grows(cs, cond.cs) && Loaded(pl, base, cond)
    ensures cond.cs.scopes == cs.scopes && EmitScope(cond.cs, s.body, bodyBase, Some(base)) == Ok(body)
    ensures bodyBase == base + Size(cond.code) + 5 && end == bodyBase + Size(body.code) + 5
    ensures Placed(pl, base, cond.code + [WithOperand(OP_JUMP_IF_FALSE, Truncate32(end))])
    ensures Loaded(pl.(loopEnd := end), bodyBase, body)
    ensures Placed(pl, bodyBase + Size(body.code), [WithOperand(OP_JUMP, Truncate32(base))])
    ensures pl.header + base < |pl.p.code| && pl.header + end < TWO32
    ensures end == base + Size(EmitStmt(cs, s, base, loop).value.code)
    ensures EmitStmt(cs, s, base, loop).value.cs.scopes == cs.scopes == body.cs.scopes
  {
    hide EmitScope, EmitExpr, Placed, Truncate32, Sealed, Pooled;
    cond := EmitExpr(cs, s.cond).value;
    bodyBase := base + Size(cond.code) + 5;
    body := EmitScope(cond.cs, s.body, bodyBase, Some(base)).value;
    end := bodyBase + Size(body.code) + 5;
    var jif := [WithOperand(OP_JUMP_IF_FALSE, Truncate32(end))];
    var filled := Fill(body.code, ToLoopEnd, Truncate32(end));
    var jump := WithOperand(OP_JUMP, Truncate32(base));
    ExprGrows(cs, s.cond, false, false);
    ScopeKeeps(cond.cs, s.body, bodyBase, Some(base));
    LayoutKept(body.code, ToLoopEnd, Truncate32(end), 0);
    PlacedSplit(pl, base, cond.code + jif + filled, [jump]);
    PlacedSplit(pl, base, cond.code + jif, filled);
    PlacedSplit(pl, base, cond.code, jif);
    SizeShort(jif[0], jump);
    SizeShort(jump, jump);
    hide Size, Fill;
    PlacedLoop(pl, bodyBase, body.code, end);
  }

  // The loop from the start of an iteration on.
  lemma {:induction false} SimWhile(pl: Place, cs: CState, s: Stmt, base: nat, loop: Option<nat>, env: Env,
                                    limit: nat, iterations: nat, last: Value, st: State) returns (k: nat)
    requires s.While? && PlainStmt(s) && NeedStmt(s) + |st.stack| <= MAX_STACK && Begun(pl, cs, base, loop, env, st)
    requires EmitStmt(cs, s, base, loop).Ok? && Loaded(pl, base, EmitStmt(cs, s, base, loop).value)
    requires iterations <= limit
    ensures Done(pl, cs, EmitStmt(cs, s, base, loop).value, base, loop, |env| - 1, limit - iterations, st, k,
                 ExecWhile(AsCompiled, limit, s, env, iterations, last))
    decreases s, 2, limit - iterations
  {
    hide EmitStmt, EmitScope, EmitExpr, ExecBlock, Eval, Placed, Agree, Pooled, NeedBlock, Need, PlainBlock, PlainExpr;
    hide Run, Truncate32, Sealed, Yields, Lands, Size;
    var cond, body, bodyBase, end := WhilePlaced(pl, cs, s, base, loop);
    var jump := WithOperand(OP_JUMP, Truncate32(base));
    var pl2 := pl.(loopEnd := end);
    var x := Exit(loop, end, cs.scopes, |env| - 1, limit - iterations);
    if iterations == limit {
      k := 0;
      LandsWaiting(pl, x, st);
      return;
    }
    var j := SimExpr(pl, cs, s.cond, base, env, st);
    var v := Eval(AsCompiled, s.cond, env);
    j := JoinCond(pl, base, cond.code, end, st, j, v);
    k := j;
    if v.Err? || !v.value.Bool? {
      LandsStuck(pl, x, st, k, v);
    } else if !v.value.b {
      LandsPast(pl, x, st, k, env, last);
    } else {
      var mid := Run(pl.p, st, j).value;
      var o := CloseScope(ExecBlock(AsCompiled, limit, s.body, env + [map[]]));
      var i := SimScope(pl2, cond.cs, s.body, bodyBase, Some(base), env, limit, mid);
      i := BackToStart(pl, pl2, cs.scopes, bodyBase + Size(body.code), base, |env|, limit, mid, i, o, jump);
      k := SimWhileOn(pl, cs, s, base, loop, env, limit, iterations, st, j, mid, i, end, o);
    }
  }

  // One pass through the body ends at the loop's start again, behind the loop, or nowhere.
  lemma BackToStart(pl: Place, pl2: Place, scopes: seq<Scope>, from: nat, base: nat, depth: nat, limit: nat,
                    st: State, i: nat, o: Outcome, jump: Instr) returns (k: nat)
    requires Small(pl) && pl2 == pl.(loopEnd := pl2.loopEnd) && pl.header + base < TWO32
    requires jump == WithOperand(OP_JUMP, Truncate32(base)) && Placed(pl, from, [jump])
    requires Lands(pl2, Exit(Some(base), from, scopes, depth, limit), st, i, o)
    ensures Lands(pl2, Exit(Some(base), base, scopes, depth, limit), st, k, o)
  {
    k := i;
    if o.Normal? {
      k := ThenJump(pl, Exit(Some(base), base, scopes, depth, limit), from, jump, st, i, o);
    }
  }

  // After a pass through the body: around again, or out.
  lemma {:induction false} SimWhileOn(pl: Place, cs: CState, s: Stmt, base: nat, loop: Option<nat>, env: Env,
                                      limit: nat, iterations: nat, st: State, j: nat, mid: State, i: nat,
                                      end: nat, o: Outcome) returns (k: nat)
    requires s.While? && PlainStmt(s) && NeedStmt(s) + |st.stack| <= MAX_STACK && Begun(pl, cs, base, loop, env, st)
    requires EmitStmt(cs, s, base, loop).Ok? && Loaded(pl, base, EmitStmt(cs, s, base, loop).value)
    requires EmitStmt(cs, s, base, loop).value.cs.scopes == cs.scopes
    requires end == base + Size(EmitStmt(cs, s, base, loop).value.code) && iterations < limit
    requires Run(pl.p, st, j) == Ok(mid) && mid.stack == st.stack && j > 0
    requires DepthIs(o, |env|)
    requires Lands(pl.(loopEnd := end), Exit(Some(base), base, cs.scopes, |env|, limit), mid, i, o)
    ensures Lands(pl, Exit(loop, end, cs.scopes, |env| - 1, limit - iterations), st, k,
                  match o
                  case Normal(env', result) => ExecWhile(AsCompiled, limit, s, env', iterations + 1, result)
                  case Continued(env') => ExecWhile(AsCompiled, limit, s, env', iterations + 1, Null)
                  case Broke(env') => Normal(env', Null)
                  case Returned(r) => Returned(r)
                  case Failed(e) => Failed(e))
    decreases s, 2, limit - iterations, 0
  {
    hide EmitStmt, ExecWhile, Placed, Agree, Pooled, NeedStmt, PlainStmt, Run, Size;
    var x := Exit(loop, end, cs.scopes, |env| - 1, limit - iterations - 1);
    LandsAfter(pl.(loopEnd := end), Exit(Some(base), base, cs.scopes, |env|, limit), st, j, mid, i, o);
    k := j + i;
    if o.Normal? || o.Continued? {
      var env' := o.env;
      assert env'[..|env|] == env' && cs.scopes[..|env|] == cs.scopes;
      var again := Run(pl.p, st, k).value;
      var last := RoundResult(o);
      var n := SimWhile(pl, cs, s, base, loop, env', limit, iterations + 1, last, again);
      var rest := ExecWhile(AsCompiled, limit, s, env', iterations + 1, last);
      LandsAfter(pl, x, st, k, again, n, rest);
      Patient(pl, x.(patience := x.patience + k), x.(patience := limit - iterations), st, k + n, rest);
      k := k + n;
    } else if o.Broke? {
      assert o.env[..|env|] == o.env && cs.scopes[..|env|] == cs.scopes;
    }
  }

  lemma Patient(pl: Place, x: Exit, y: Exit, st: State, k: nat, o: Outcome)
    requires Lands(pl, x, st, k, o) && y == x.(patience := y.patience) && y.patience <= x.patience
    ensures Lands(pl, y, st, k, o)
  {
  }

  // Where the switch value's code and the arms lie.
  lemma SwitchPlaced(pl: Place, cs: CState, s: Stmt, base: nat, loop: Option<nat>)
    returns (temp: nat, value: Emitted, arms: Emitted, armsBase: nat)
    requires s.Switch? && cs.scopes != [] && Small(pl)
    requires EmitStmt(cs, s, base, loop).Ok? && Loaded(pl, base, EmitStmt(cs, s, base, loop).value)
    ensures var name := TempName(cs.labels);
            && temp == AddConstant(cs.constants, Text(name)).1
            && SwitchEntry(cs).scopes == Define(cs.scopes, name, Symbol(temp, false)) && Grows(cs, SwitchEntry(cs))
            && temp < |pl.p.constants| && pl.p.constants[temp] == Text(name)
    ensures EmitExpr(SwitchEntry(cs), s.value) == Ok(value) && Loaded(pl, base, value)
    ensures value.cs.scopes == SwitchEntry(cs).scopes && Grows(SwitchEntry(cs), value.cs)
    ensures armsBase == base + Size(value.code) + 5
    ensures EmitArms(value.cs, s, temp, armsBase, loop) == Ok(arms) && Loaded(pl, armsBase, arms)
    ensures arms.cs.scopes == value.cs.scopes == EmitStmt(cs, s, base, loop).value.cs.scopes
    ensures armsBase + Size(arms.code) == base + Size(EmitStmt(cs, s, base, loop).value.code)
    ensures Placed(pl, base, value.code + [WithOperand(OP_STORE_VAR, Truncate32(temp))])
  {
    hide EmitArms, EmitExpr, Placed, Pooled, Truncate32, Sealed, TempName;
    temp := AddConstant(cs.constants, Text(TempName(cs.labels))).1;
    var cs1 := SwitchEntry(cs);
    value := EmitExpr(cs1, s.value).value;
    armsBase := base + Size(value.code) + 5;
    arms := EmitArms(value.cs, s, temp, armsBase, loop).value;
    var store := [WithOperand(OP_STORE_VAR, Truncate32(temp))];
    SwitchEntryKeeps(cs);
    ExprGrows(cs1, s.value, false, false);
    ArmsKeep(value.cs, s, temp, armsBase, loop);
    PlacedSplit(pl, base, value.code + store, arms.code);
    PlacedSplit(pl, base, value.code, store);
    SizeShort(store[0], store[0]);
  }

  lemma {:induction false} SimSwitch(pl: Place, cs: CState, s: Stmt, base: nat, loop: Option<nat>, env: Env,
                                     limit: nat, st: State) returns (k: nat)
    requires s.Switch? && PlainStmt(s) && NeedStmt(s) + |st.stack| <= MAX_STACK && Begun(pl, cs, base, loop, env, st)
    requires EmitStmt(cs, s, base, loop).Ok? && Loaded(pl, base, EmitStmt(cs, s, base, loop).value)
    ensures Done(pl, cs, EmitStmt(cs, s, base, loop).value, base, loop, |env| - 1, limit, st, k,
                 Exec(AsCompiled, limit, s, env))
    decreases s, 2, 0
  {
    hide EmitStmt, EmitArms, EmitExpr, ExecSwitch, Eval, Placed, Agree, Pooled, NeedBlock, Need, NeedCases, PlainBlock;
    hide PlainExpr, PlainCases, Run, Truncate32, Sealed, Yields, IsTemp, TempName, SwitchEntry, Size;
    var name := TempName(cs.labels);
    var temp, value, arms, armsBase := SwitchPlaced(pl, cs, s, base, loop);
    var cs1 := SwitchEntry(cs);
    TempNames(cs.labels);
    AgreeTemp(env, cs.scopes, st.locals, name, Null, Symbol(temp, false));
    var j := SimExpr(pl, cs1, s.value, base, env, st);
    var v := Eval(AsCompiled, s.value, env);
    j := JoinStore(pl, base, value.code, temp, name, st, j, v);
    k := j;
    if v.Ok? {
      var mid := Run(pl.p, st, j).value;
      AgreeTemp(env, cs.scopes, st.locals, name, v.value, Symbol(temp, false));
      var i := SimArms(pl, value.cs, s, temp, name, v.value, armsBase, loop, env, limit, mid);
      LandsAfter(pl, Exit(loop, armsBase + Size(arms.code), arms.cs.scopes, |env| - 1, limit), st, j, mid, i,
                 ExecSwitch(AsCompiled, limit, s, v.value, 0, env));
      k := j + i;
    }
  }

  lemma TempNames(n: nat)
    ensures IsTemp(TempName(n))
  {
  }

  // The machine has kept the switch value in the compiler's variable.
  ghost predicate Kept(pl: Place, temp: nat, name: Str, v: Value, st: State) {
    && temp < |pl.p.constants| && pl.p.constants[temp] == Text(name)
    && name in st.locals && st.locals[name] == v
  }

  lemma {:induction false} SimArms(pl: Place, cs: CState, s: Stmt, temp: nat, name: Str, v: Value, base: nat,
                                   loop: Option<nat>, env: Env, limit: nat, st: State) returns (k: nat)
    requires s.Switch? && PlainStmt(s) && NeedStmt(s) + |st.stack| <= MAX_STACK && Begun(pl, cs, base, loop, env, st)
    requires EmitArms(cs, s, temp, base, loop).Ok? && Loaded(pl, base, EmitArms(cs, s, temp, base, loop).value)
    requires Kept(pl, temp, name, v, st)
    ensures Done(pl, cs, EmitArms(cs, s, temp, base, loop).value, base, loop, |env| - 1, limit, st, k,
                 ExecSwitch(AsCompiled, limit, s, v, 0, env))
    decreases s, 1, 0
  {
    hide EmitCases, EmitScope, ExecSwitch, Placed, Agree, Pooled, NeedBlock, Need, NeedCases, PlainBlock,
      PlainExpr, PlainCases, Run, Truncate32, Sealed;
    var cases := EmitCases(cs, s.cases, temp, base, loop).value;
    var dfltBase := base + Size(cases.code);
    var dflt := EmitScope(cases.cs, s.defaultBlock, dfltBase, loop).value;
    var end := dfltBase + Size(dflt.code);
    var filled := Fill(cases.code, ToSwitchEnd, Truncate32(end));
    CasesKeep(cs, s.cases, temp, base, loop);
    ScopeKeeps(cases.cs, s.defaultBlock, dfltBase, loop);
    LayoutKept(cases.code, ToSwitchEnd, Truncate32(end), 0);
    PlacedSplit(pl, base, filled, dflt.code);
    hide Size, Fill;
    PlacedSwitch(pl, base, cases.code, end);
    PlacedElsewhere(pl, dfltBase, dflt.code, end);
    assert s.cases[0..] == s.cases;
    k := SimCases(pl.(switchEnd := end), cs, s, 0, temp, name, v, base, dfltBase, loop, env, limit, st);
  }

  // From the i-th case on, the default included.
  lemma {:induction false} SimCases(pl: Place, cs: CState, s: Stmt, i: nat, temp: nat, name: Str, v: Value, base: nat,
                                    dfltBase: nat, loop: Option<nat>, env: Env, limit: nat, st: State)
    returns (k: nat)
    requires s.Switch? && i <= |s.cases| && PlainCases(s.cases[i..]) && PlainBlock(s.defaultBlock)
    requires NeedCases(s.cases[i..]) + |st.stack| <= MAX_STACK && NeedBlock(s.defaultBlock) + |st.stack| <= MAX_STACK
    requires Begun(pl, cs, base, loop, env, st) && Kept(pl, temp, name, v, st)
    requires EmitCases(cs, s.cases[i..], temp, base, loop).Ok?
    requires var rest := EmitCases(cs, s.cases[i..], temp, base, loop).value;
             && Placed(pl, base, rest.code) && dfltBase == base + Size(rest.code)
             && EmitScope(rest.cs, s.defaultBlock, dfltBase, loop).Ok?
             && Loaded(pl, dfltBase, EmitScope(rest.cs, s.defaultBlock, dfltBase, loop).value)
             && pl.switchEnd == dfltBase + Size(EmitScope(rest.cs, s.defaultBlock, dfltBase, loop).value.code)
    ensures Lands(pl, Exit(loop, pl.switchEnd, cs.scopes, |env| - 1, limit), st, k,
                  ExecSwitch(AsCompiled, limit, s, v, i, env))
    decreases s, 0, |s.cases| - i
  {
    hide EmitCase, EmitScope, ExecBlock, Eval, Placed, Agree, Pooled, NeedBlock, Need, PlainBlock,
      PlainExpr, Run, Truncate32, Sealed, Lands, Size;
    var rest := EmitCases(cs, s.cases[i..], temp, base, loop).value;
    CasesKeep(cs, s.cases[i..], temp, base, loop);
    ScopeKeeps(rest.cs, s.defaultBlock, dfltBase, loop);
    var x := Exit(loop, pl.switchEnd, cs.scopes, |env|, limit);
    if i == |s.cases| {
      SizeNil();
      assert s.cases[i..] == [] && rest == Emitted([], cs);
      k := SimScope(pl, cs, s.defaultBlock, base, loop, env, limit, st);
      LandsOutside(pl, x, x.(depth := |env| - 1), st, k,
                   CloseScope(ExecBlock(AsCompiled, limit, s.defaultBlock, env + [map[]])));
    } else {
      var c := s.cases[i];
      assert s.cases[i..][0] == c && s.cases[i..][1..] == s.cases[i + 1..];
      var first := EmitCase(cs, c, temp, base, loop).value;
      var next := base + Size(first.code);
      var others := EmitCases(first.cs, s.cases[i + 1..], temp, next, loop).value;
      CaseKeeps(cs, c, temp, base, loop);
      CasesKeep(first.cs, s.cases[i + 1..], temp, next, loop);
      PlacedSplit(pl, base, first.code, others.code);
      k := SimCase(pl, cs, c, temp, name, v, base, loop, env, limit, st);
      var w := Eval(AsCompiled, c.value, env);
      if w.Ok? && v != w.value {
        var mid := Run(pl.p, st, k).value;
        var j := SimCases(pl, first.cs, s, i + 1, temp, name, v, next, dfltBase, loop, env, limit, mid);
        LandsAfter(pl, x.(depth := |env| - 1), st, k, mid, j, ExecSwitch(AsCompiled, limit, s, v, i + 1, env));
        k := k + j;
      }
    }
  }

  // A case's test, its body and the jump behind it are where they were emitted to.
  lemma CasePlaced(pl: Place, cs: CState, c: Case, temp: nat, base: nat, loop: Option<nat>)
    returns (value: Emitted, body: Emitted, bodyBase: nat, next: nat)
    requires cs.scopes != [] && Small(pl)
    requires EmitCase(cs, c, temp, base, loop).Ok? && Loaded(pl, base, EmitCase(cs, c, temp, base, loop).value)
    ensures EmitExpr(cs, c.value) == Ok(value) && Grows(cs, value.cs) && Loaded(pl, base + 5, value)
    ensures value.cs.scopes == cs.scopes && EmitScope(value.cs, c.body, bodyBase, loop) == Ok(body)
    ensures bodyBase == base + 5 + Size(value.code) + 6 && next == bodyBase + Size(body.code) + 5
    ensures Placed(pl, base, [WithOperand(OP_LOAD_VAR, Truncate32(temp))] + value.code
                             + [Plain(OP_EQ), WithOperand(OP_JUMP_IF_FALSE, Truncate32(next))])
    ensures Loaded(pl, bodyBase, body) && Placed(pl, bodyBase + Size(body.code), [Hole(ToSwitchEnd)])
    ensures pl.header + next < TWO32 && next == base + Size(EmitCase(cs, c, temp, base, loop).value.code)
  {
    hide EmitScope, EmitExpr, Placed, Truncate32, Sealed, Pooled;
    value := EmitExpr(cs, c.value).value;
    bodyBase := base + 5 + Size(value.code) + 6;
    body := EmitScope(value.cs, c.body, bodyBase, loop).value;
    next := bodyBase + Size(body.code) + 5;
    var load := [WithOperand(OP_LOAD_VAR, Truncate32(temp))];
    var test := [Plain(OP_EQ), WithOperand(OP_JUMP_IF_FALSE, Truncate32(next))];
    ExprGrows(cs, c.value, false, false);
    ScopeKeeps(value.cs, c.body, bodyBase, loop);
    PlacedSplit(pl, base, load + value.code + test + body.code, [Hole(ToSwitchEnd)]);
    PlacedSplit(pl, base, load + value.code + test, body.code);
    PlacedSplit(pl, base, load + value.code, test);
    PlacedSplit(pl, base, load, value.code);
    SizeShort(load[0], load[0]);
    SizeShort(test[0], test[1]);
    SizeShort(Hole(ToSwitchEnd), test[0]);
  }

  // One case: taken to the end of the switch, or passed over.
  lemma {:induction false} SimCase(pl: Place, cs: CState, c: Case, temp: nat, name: Str, v: Value, base: nat,
                                   loop: Option<nat>, env: Env, limit: nat, st: State) returns (k: nat)
    requires PlainExpr(c.value) && PlainBlock(c.body)
    requires 1 + Need(c.value) + |st.stack| <= MAX_STACK && NeedBlock(c.body) + |st.stack| <= MAX_STACK
    requires Begun(pl, cs, base, loop, env, st) && Kept(pl, temp, name, v, st)
    requires EmitCase(cs, c, temp, base, loop).Ok? && Loaded(pl, base, EmitCase(cs, c, temp, base, loop).value)
    ensures var x := Exit(loop, pl.switchEnd, cs.scopes, |env| - 1, limit);
            match Eval(AsCompiled, c.value, env)
            case Err(err) => Lands(pl, x, st, k, Failed(err))
            case Ok(w) =>
              if v == w then
                Lands(pl, x, st, k, CloseScope(ExecBlock(AsCompiled, limit, c.body, env + [map[]])))
              else
                Run(pl.p, st, k)
                == Ok(st.(pc := pl.header + base + Size(EmitCase(cs, c, temp, base, loop).value.code)))
    decreases c, 0, 0
  {
    hide EmitCase, EmitScope, EmitExpr, ExecBlock, Eval, Placed, Agree, Pooled, NeedBlock, PlainBlock, PlainExpr, Run,
      Truncate32, Sealed, Yields, Size;
    var value, body, bodyBase, next := CasePlaced(pl, cs, c, temp, base, loop);
    NeedPositive(c.value);
    hide Need;
    var j := SimExpr(pl, cs, c.value, base + 5, env, Above(st, 5, v));
    var w := Eval(AsCompiled, c.value, env);
    j := JoinTest(pl, base, temp, name, value.code, next, st, j, v, w);
    k := j;
    if w.Ok? && v == w.value {
      k := SimBranch(pl, value.cs, c.body, bodyBase, loop, env, limit, st, j, Run(pl.p, st, j).value, pl.switchEnd,
                     [Hole(ToSwitchEnd)]);
    }
  }
}
