/** Where running code can end up, and how runs of neighbouring pieces of code join. */
module Landing {
  import opened Bytes
  import opened Lang
  import opened Opcodes
  import opened Interpreter
  import opened CodeGen
  import opened Scoping
  import opened EmissionFacts
  import opened Vm
  import opened Placement
  import opened Simulation

  // Running on, the machine gets to `pc` with the same stack and matching bindings.
  ghost predicate Arrives(pl: Place, st: State, k: nat, pc: nat, env: Env, scopes: seq<Scope>) {
    Run(pl.p, st, k).Ok? &&
    var s := Run(pl.p, st, k).value;
    s.pc == pl.header + pc && !s.halted && s.stack == st.stack && Agree(env, scopes, s.locals)
  }

  // Where a statement can leave the machine: behind itself, behind the loop around it, at that
  // loop's start, halted with a value, stopped by an error, or, when a loop reaches the limit on
  // its rounds, still running after that many steps.
  datatype Exit = Exit(loop: Option<nat>, next: nat, scopes: seq<Scope>, depth: nat, patience: nat)

  ghost predicate Lands(pl: Place, x: Exit, st: State, k: nat, o: Outcome) {
    match o
    case Normal(env, _) => Arrives(pl, st, k, x.next, env, x.scopes)
    case Broke(env) =>
      x.loop.Some? && x.depth <= |env| && x.depth <= |x.scopes|
      && Arrives(pl, st, k, pl.loopEnd, env[..x.depth], x.scopes[..x.depth])
    case Continued(env) =>
      x.loop.Some? && x.depth <= |env| && x.depth <= |x.scopes|
      && Arrives(pl, st, k, x.loop.value, env[..x.depth], x.scopes[..x.depth])
    case Returned(v) =>
      Run(pl.p, st, k).Ok? && Run(pl.p, st, k).value.halted && Run(pl.p, st, k).value.stack == st.stack + [v]
    case Failed(e) =>
      if e == LoopLimitExceeded then
        Run(pl.p, st, k).Ok? && !Stopped(pl.p, Run(pl.p, st, k).value) && k >= x.patience
      else Ordinary(Err(e)) && Run(pl.p, st, k) == Err(e)
  }

  // j steps to a middle state, then on from there.
  lemma LandsAfter(pl: Place, x: Exit, st: State, j: nat, mid: State, k: nat, o: Outcome)
    requires Run(pl.p, st, j) == Ok(mid) && mid.stack == st.stack && Lands(pl, x, mid, k, o)
    ensures Lands(pl, x.(patience := x.patience + j), st, j + k, o)
    ensures Lands(pl, x, st, j + k, o)
  {
    hide Run, Agree;
    RunCompose(pl.p, st, j, k);
  }

  // A condition that fails, or is no boolean, stops the machine.
  lemma LandsStuck(pl: Place, x: Exit, st: State, k: nat, r: Evaluated)
    requires if r.Err? then Run(pl.p, st, k) == Err(r.error) && Ordinary(r)
             else !r.value.Bool? && Run(pl.p, st, k) == Err(TypeError)
    ensures Lands(pl, x, st, k, Failed(if r.Err? then r.error else TypeError))
  {
  }

  lemma LandsPast(pl: Place, x: Exit, st: State, k: nat, env: Env, result: Value)
    requires Run(pl.p, st, k) == Ok(st.(pc := pl.header + x.next)) && !st.halted && Agree(env, x.scopes, st.locals)
    ensures Lands(pl, x, st, k, Normal(env, result))
  {
  }

  lemma LandsWaiting(pl: Place, x: Exit, st: State)
    requires !Stopped(pl.p, st) && x.patience == 0
    ensures Lands(pl, x, st, 0, Failed(LoopLimitExceeded))
  {
  }

  // ---- statements without blocks ----

  // What a store leaves of a value, or of the error that came instead.
  ghost predicate Stores(p: Program, st: State, k: nat, size: nat, x: Str, r: Evaluated) {
    Run(p, st, k) ==
    match r
    case Err(err) => Err(err)
    case Ok(v) => Ok(st.(pc := st.pc + size, locals := st.locals[x := v]))
  }

  lemma JoinStore(pl: Place, base: nat, code: seq<Instr>, index: nat, x: Str, st: State, j: nat, r: Evaluated)
    returns (k: nat)
    requires Small(pl) && Ready(pl, base, st) && index < |pl.p.constants| && pl.p.constants[index] == Text(x)
    requires Placed(pl, base, code + [WithOperand(OP_STORE_VAR, Truncate32(index))])
    requires Yields(pl.p, st, j, Size(code), r)
    ensures Stores(pl.p, st, k, Size(code) + 5, x, r)
  {
    hide Placed, Run;
    var store := [WithOperand(OP_STORE_VAR, Truncate32(index))];
    PlacedSplit(pl, base, code, store);
    k := j;
    if r.Ok? {
      StepStore(pl, base + Size(code), index, x, Above(st, Size(code), r.value), st.stack, r.value);
      RunCompose(pl.p, st, j, 1);
      k := j + 1;
    }
  }

  lemma SimStore(pl: Place, cs: CState, x: Str, e: Expr, base: nat, env: Env, st: State) returns (k: nat)
    requires PlainExpr(e) && Need(e) + |st.stack| <= MAX_STACK && Entered(pl, cs, base, env, st)
    requires EmitExpr(cs, e).Ok? && Loaded(pl, base, EmitStore(EmitExpr(cs, e).value, x))
    ensures Stores(pl.p, st, k, Size(EmitStore(EmitExpr(cs, e).value, x).code), x, Eval(AsCompiled, e, env))
    ensures Ordinary(Eval(AsCompiled, e, env))
  {
    hide Placed, Agree, Pooled, Run, EmitExpr, Eval, Yields, Stores, Need, PlainExpr;
    var em := EmitExpr(cs, e).value;
    var (constants, index) := AddConstant(em.cs.constants, Text(x));
    PlacedSplit(pl, base, em.code, [WithOperand(OP_STORE_VAR, Truncate32(index))]);
    var j := SimExpr(pl, cs, e, base, env, st);
    k := JoinStore(pl, base, em.code, index, x, st, j, Eval(AsCompiled, e, env));
  }

  // The new binding, whether the name was known or not.
  lemma AgreeAssign(env: Env, scopes: seq<Scope>, locals: map<Str, Value>, x: Str, v: Value, symbol: Symbol)
    requires Agree(env, scopes, locals) && env != [] && !IsTemp(x)
    ensures Has(env, x) <==> Resolve(scopes, x).Some?
    ensures Agree(AssignVar(env, x, v), if Resolve(scopes, x).Some? then scopes else Define(scopes, x, symbol),
                  locals[x := v])
  {
    hide Agree;
    AgreeGet(env, scopes, locals, x);
    if Has(env, x) {
      AgreeSet(env, scopes, locals, x, v);
    } else {
      AgreeDefine(env, scopes, locals, x, v, symbol);
    }
  }

  lemma SimAssign(pl: Place, cs: CState, s: Stmt, base: nat, loop: Option<nat>, env: Env, limit: nat, st: State)
    returns (k: nat)
    requires s.Assign? || s.Reassign?
    requires PlainStmt(s) && NeedStmt(s) + |st.stack| <= MAX_STACK && Entered(pl, cs, base, env, st)
    requires cs.scopes != [] && EmitStmt(cs, s, base, loop).Ok? && Loaded(pl, base, EmitStmt(cs, s, base, loop).value)
    requires |env| == |cs.scopes|
    ensures var em := EmitStmt(cs, s, base, loop).value;
            Lands(pl, Exit(loop, base + Size(em.code), em.cs.scopes, |env| - 1, limit), st, k,
                  Exec(AsCompiled, limit, s, env))
  {
    hide Placed, Agree, Pooled, Run, EmitExpr, Eval, Need, PlainExpr, Size;
    var em := EmitStmt(cs, s, base, loop).value;
    var x, e := s.target, s.value;
    k := SimStore(pl, cs, x, e, base, env, st);
    var r := Eval(AsCompiled, e, env);
    if r.Ok? {
      AgreeAssign(env, cs.scopes, st.locals, x, r.value,
                  Symbol(AddConstant(EmitExpr(cs, e).value.cs.constants, Text(x)).1, false));
    } else {
      AgreeAssign(env, cs.scopes, st.locals, x, Null, Symbol(0, false));
    }
  }

  lemma JoinSimple(pl: Place, base: nat, code: seq<Instr>, op: Byte, st: State, j: nat, r: Evaluated)
    returns (k: nat)
    requires Ready(pl, base, st) && (op == OP_RETURN || op == OP_POP)
    requires Placed(pl, base, code + [Plain(op)]) && Yields(pl.p, st, j, Size(code), r)
    ensures match r
            case Err(err) => Run(pl.p, st, k) == Err(err)
            case Ok(v) => Run(pl.p, st, k) == Ok(if op == OP_POP then st.(pc := st.pc + Size(code) + 1)
                                                 else Above(st, Size(code) + 1, v).(halted := true))
  {
    hide Placed, Run;
    PlacedSplit(pl, base, code, [Plain(op)]);
    k := j;
    if r.Ok? {
      var top := Above(st, Size(code), r.value);
      StepPlain(pl, base + Size(code), op, top);
      RunCompose(pl.p, st, j, 1);
      assert top.stack[..|top.stack| - 1] == st.stack;
      k := j + 1;
    }
  }

  lemma SimSimple(pl: Place, cs: CState, s: Stmt, base: nat, loop: Option<nat>, env: Env, limit: nat, st: State)
    returns (k: nat)
    requires s.Return? || s.ExprStmt?
    requires PlainStmt(s) && NeedStmt(s) + |st.stack| <= MAX_STACK && Entered(pl, cs, base, env, st)
    requires cs.scopes != [] && EmitStmt(cs, s, base, loop).Ok? && Loaded(pl, base, EmitStmt(cs, s, base, loop).value)
    requires |env| == |cs.scopes|
    ensures var em := EmitStmt(cs, s, base, loop).value;
            Lands(pl, Exit(loop, base + Size(em.code), em.cs.scopes, |env| - 1, limit), st, k,
                  Exec(AsCompiled, limit, s, env))
  {
    hide Placed, Agree, Pooled, Run, EmitExpr, Eval, Need, PlainExpr, Yields;
    var e := s.value;
    var em := EmitExpr(cs, e).value;
    var op := if s.Return? then OP_RETURN else OP_POP;
    PlacedSplit(pl, base, em.code, [Plain(op)]);
    var j := SimExpr(pl, cs, e, base, env, st);
    k := JoinSimple(pl, base, em.code, op, st, j, Eval(AsCompiled, e, env));
  }

  // ---- control flow, over code already in place ----

  // The condition's value decides between the code right behind the jump and its target.
  lemma JoinCond(pl: Place, base: nat, code: seq<Instr>, target: nat, st: State, j: nat, r: Evaluated)
    returns (k: nat)
    requires Ready(pl, base, st) && pl.header + target < TWO32
    requires Placed(pl, base, code + [WithOperand(OP_JUMP_IF_FALSE, Truncate32(target))])
    requires Yields(pl.p, st, j, Size(code), r)
    ensures match r
            case Err(err) => Run(pl.p, st, k) == Err(err)
            case Ok(v) =>
              if !v.Bool? then Run(pl.p, st, k) == Err(TypeError)
              else k > 0 && Run(pl.p, st, k)
                         == Ok(st.(pc := pl.header + if v.b then base + Size(code) + 5 else target))
  {
    hide Placed, Run, Truncate32;
    PlacedSplit(pl, base, code, [WithOperand(OP_JUMP_IF_FALSE, Truncate32(target))]);
    k := j;
    if r.Ok? {
      StepJumpIfFalse(pl, base + Size(code), target, Above(st, Size(code), r.value), st.stack, r.value);
      RunCompose(pl.p, st, j, 1);
      k := j + 1;
    }
  }

  // A switch case: its value against the switch value kept in a variable.
  lemma JoinTest(pl: Place, base: nat, temp: nat, name: Str, code: seq<Instr>, target: nat,
                 st: State, j: nat, v: Value, r: Evaluated) returns (k: nat)
    requires Small(pl) && Ready(pl, base, st) && pl.header + target < TWO32
    requires temp < |pl.p.constants| && pl.p.constants[temp] == Text(name)
    requires name in st.locals && st.locals[name] == v && |st.stack| < MAX_STACK
    requires Placed(pl, base, [WithOperand(OP_LOAD_VAR, Truncate32(temp))] + code
                              + [Plain(OP_EQ), WithOperand(OP_JUMP_IF_FALSE, Truncate32(target))])
    requires Yields(pl.p, Above(st, 5, v), j, Size(code), r)
    ensures match r
            case Err(err) => Run(pl.p, st, k) == Err(err)
            case Ok(w) =>
              Run(pl.p, st, k) == Ok(st.(pc := pl.header + if v == w then base + Size(code) + 11 else target))
  {
    hide Placed, Run, Truncate32, Small;
    var load := [WithOperand(OP_LOAD_VAR, Truncate32(temp))];
    var jump := [WithOperand(OP_JUMP_IF_FALSE, Truncate32(target))];
    assert [Plain(OP_EQ)] + jump == [Plain(OP_EQ), WithOperand(OP_JUMP_IF_FALSE, Truncate32(target))];
    PlacedSplit(pl, base, load + code, [Plain(OP_EQ)] + jump);
    PlacedSplit(pl, base, load, code);
    var eq := base + Size(load + code);
    PlacedSplit(pl, eq, [Plain(OP_EQ)], jump);
    assert Size(load) == 5 && Size([Plain(OP_EQ)]) == 1;
    hide Size;
    StepLoad(pl, base, temp, name, st);
    RunCompose(pl.p, st, 1, j);
    k := 1 + j;
    if r.Ok? {
      var top := Above(Above(st, 5, v), Size(code), r.value);
      assert BinaryOpcode(Eq) == OP_EQ;
      StepBinaryOp(pl, eq, Eq, top, st.stack, v, r.value);
      RunCompose(pl.p, st, 1 + j, 1);
      var decided := Above(st, 5 + Size(code) + 1, Bool(v == r.value));
      StepJumpIfFalse(pl, eq + 1, target, decided, st.stack, Bool(v == r.value));
      RunCompose(pl.p, st, j + 2, 1);
      k := j + 3;
    }
  }

  // Normal completion runs into a jump.
  lemma ThenJump(pl: Place, x: Exit, from: nat, i: Instr, st: State, k: nat, o: Outcome) returns (k': nat)
    requires Small(pl) && Lands(pl, x.(next := from), st, k, o) && Placed(pl, from, [i])
    requires (i == WithOperand(OP_JUMP, Truncate32(x.next)) && pl.header + x.next < TWO32)
          || (i == Hole(ToSwitchEnd) && x.next == pl.switchEnd)
    ensures Lands(pl, x, st, k', o) && k' >= k
  {
    hide Placed, Run, Truncate32, Agree;
    k' := k;
    if o.Normal? {
      var mid := Run(pl.p, st, k).value;
      if i.Hole? {
        StepHole(pl, from, ToSwitchEnd, mid);
      } else {
        StepJump(pl, from, x.next, mid);
      }
      RunCompose(pl.p, st, k, 1);
      k' := k + 1;
    }
  }

  // Leaving a block closes its scope.
  lemma LandsClosed(pl: Place, x: Exit, st: State, k: nat, o: Outcome, outer: seq<Scope>)
    requires Lands(pl, x, st, k, o) && DepthIs(o, x.depth + 1)
    requires |x.scopes| == x.depth + 1 && outer == x.scopes[..x.depth]
    ensures Lands(pl, x.(scopes := outer), st, k, CloseScope(o))
  {
    if o.Normal? {
      AgreePrefix(o.env, x.scopes, Run(pl.p, st, k).value.locals, x.depth);
    } else if o.Broke? || o.Continued? {
      assert Pop(o.env)[..x.depth] == o.env[..x.depth];
      assert outer[..x.depth] == outer;
    }
  }

  // Leaving an enclosing block or loop: fewer scopes matter there.
  lemma LandsOutside(pl: Place, x: Exit, y: Exit, st: State, k: nat, o: Outcome)
    requires Lands(pl, x, st, k, o) && y.depth <= x.depth && y.depth <= |y.scopes|
    requires x.depth <= |x.scopes| && x.scopes[..y.depth] == y.scopes[..y.depth]
    requires y.loop == x.loop && y.patience <= x.patience
    requires o.Normal? ==> y.next == x.next && y.scopes == x.scopes
    ensures Lands(pl, y, st, k, o)
  {
    hide Run;
    if o.Broke? || o.Continued? {
      var env, d, locals := o.env, y.depth, Run(pl.p, st, k).value.locals;
      AgreePrefix(env[..x.depth], x.scopes[..x.depth], locals, d);
      assert env[..x.depth][..d] == env[..d] && x.scopes[..x.depth][..d] == x.scopes[..d];
    }
  }
}
