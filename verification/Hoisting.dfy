/** Loop-invariant code motion, taken by itself: moving the optimizer's invariant assignments in
  * front of the loop. */
module Hoisting {
  import opened Bytes
  import opened Lang
  import opened Interpreter
  import opened Rewriting
  import opened Frames
  import opened Acceptance
  import opened Reads

  // The loop the optimizer makes of a loop, and what it puts in front of it.
  function MovedOut(s: Stmt): seq<Stmt>
    requires s.While?
  {
    Hoisted(s.body, ModifiedBlock(s.body), Used(s.cond)).0
  }

  function Remaining(s: Stmt): seq<Stmt>
    requires s.While?
  {
    Hoisted(s.body, ModifiedBlock(s.body), Used(s.cond)).1
  }

  function HoistedLoop(s: Stmt): seq<Stmt>
    requires s.While?
  {
    MovedOut(s) + [While(s.cond, Remaining(s))]
  }

  // Nothing else in the loop, switches included, sets a moved variable or one its value depends on.
  // The optimizer checks this for the values only, and not inside switches.
  ghost predicate Independent(out: seq<Stmt>, rest: seq<Stmt>) {
    && (forall s | s in out :: s.Assign? && s.target !in AssignedBlock(rest) && Used(s.value) !! AssignedBlock(rest))
    && (forall i, j | 0 <= i < |out| && 0 <= j < |out| :: out[j].target !in Used(out[i].value))
    && (forall i, j | 0 <= i < j < |out| :: out[i].target != out[j].target)
  }

  // The moved variables are new: local to the loop's body.
  ghost predicate Local(out: seq<Stmt>, env: Env) {
    forall s | s in out :: s.Assign? && !Has(env, s.target)
  }

  ghost predicate Total(reading: Reading, out: seq<Stmt>, env: Env) {
    forall s | s in out :: s.Assign? && Eval(reading, s.value, env).Ok?
  }

  function Targets(out: seq<Stmt>): set<Str> {
    set s | s in out && s.Assign? :: s.target
  }

  // Every moved variable has the value its expression has.
  ghost predicate Settled(reading: Reading, out: seq<Stmt>, env: Env) {
    forall s | s in out ::
      s.Assign? && Has(env, s.target) && Eval(reading, s.value, env) == Get(env, s.target)
  }

  // An expression only depends on the variables it uses.
  lemma {:induction false} EvalKept(reading: Reading, e: Expr, env: Env, e': Env)
    requires forall x | x in Used(e) && Has(env, x) :: Has(e', x) && Get(e', x) == Get(env, x)
    requires Eval(reading, e, env).Ok?
    ensures Eval(reading, e, e') == Eval(reading, e, env)
    decreases e
  {
    match e
    case Literal(_) =>
    case Variable(x) => HasGets(env, x);
    case Unary(_, r) => EvalKept(reading, r, env, e');
    case Binary(op, l, r) =>
      EvalKept(reading, l, env, e');
      if Eval(reading, r, env).Ok? {
        EvalKept(reading, r, env, e');
      }
  }

  lemma SettledKept(reading: Reading, out: seq<Stmt>, rest: seq<Stmt>, env: Env, e: Env, d: set<Str>, w: set<Str>)
    requires Settled(reading, out, env) && Independent(out, rest) && Grown(env, e, d, w) && w <= AssignedBlock(rest)
    ensures Settled(reading, out, e)
  {
    hide AssignedBlock;
    forall s | s in out ensures Has(e, s.target) && Eval(reading, s.value, e) == Get(e, s.target) {
      HasGets(env, s.target);
      GrownHas(env, e, d, w, s.target);
      forall x | x in Used(s.value) && Has(env, x) ensures Has(e, x) && Get(e, x) == Get(env, x) {
        GrownHas(env, e, d, w, x);
      }
      EvalKept(reading, s.value, env, e);
    }
  }

  lemma SettledPush(reading: Reading, out: seq<Stmt>, env: Env)
    requires Settled(reading, out, env)
    ensures Settled(reading, out, env + [map[]])
  {
    forall s | s in out ensures Has(env + [map[]], s.target) && Eval(reading, s.value, env + [map[]]) == Get(env + [map[]], s.target) {
      PushHas(env, s.target);
      HasGets(env, s.target);
      forall x | x in Used(s.value) && Has(env, x) ensures Has(env + [map[]], x) && Get(env + [map[]], x) == Get(env, x) {
        PushHas(env, x);
      }
      EvalKept(reading, s.value, env, env + [map[]]);
    }
  }

  // ---- in front of the loop ----

  // The moved statements run through, give every variable its value and change no other.
  lemma {:induction false} RunMoved(reading: Reading, limit: nat, out: seq<Stmt>, n: nat, env: Env) returns (e: Env)
    requires env != [] && n <= |out| && Independent(out, []) && Local(out, env) && Total(reading, out, env) && Distinct(env)
    ensures var o := ExecBlock(reading, limit, out[..n], env); o.Normal? && o.env == e
    ensures e != [] && Distinct(e) && Beside(env, e, Targets(out[..n])) && Settled(reading, out[..n], e)
    decreases n
  {
    hide Exec, Distinct, AssignedBlock, Beside, Local;
    if n == 0 {
      e := env;
      assert Targets(out[..0]) == {};
      BesideSame(env);
    } else {
      var e0 := RunMoved(reading, limit, out, n - 1, env);
      var s := out[n - 1];
      assert s in out;
      BesideSeen(env, e0, Targets(out[..n - 1]));
      EvalSeen(reading, s.value, env, e0);
      var v := Eval(reading, s.value, env).value;
      e := AssignVar(e0, s.target, v);
      RunAssign(reading, limit, s, e0, v);
      assert out[..n] == out[..n - 1] + [s];
      BlockAppend(reading, limit, out[..n - 1], [s], env);
      BlockOfOne(reading, limit, s, e0);
      AssignGrown(e0, s.target, v);
      GrownDistinct(e0, e, {s.target}, {s.target});
      assert !Has(e0, s.target) by { NewTarget(out, n, env, e0); }
      MovedBeside(out, n, env, e0, v);
      MovedSettled(reading, out, n, e0, v);
    }
  }

  lemma BesideSame(env: Env)
    ensures Beside(env, env, {})
  {
  }

  lemma BesideSeen(env: Env, env': Env, extra: set<Str>)
    requires Beside(env, env', extra)
    ensures SeenIn(env, env')
  {
  }

  lemma NewTarget(out: seq<Stmt>, n: nat, env: Env, e0: Env)
    requires 0 < n <= |out| && Independent(out, []) && Local(out, env) && Beside(env, e0, Targets(out[..n - 1]))
    ensures !Has(e0, out[n - 1].target)
  {
    hide AssignedBlock;
    var s := out[n - 1];
    assert s in out;
    forall t | t in out[..n - 1] ensures t.target != s.target {
      var i :| 0 <= i < n - 1 && out[i] == t;
    }
  }

  lemma MovedBeside(out: seq<Stmt>, n: nat, env: Env, e0: Env, v: Value)
    requires 0 < n <= |out| && out[n - 1].Assign? && e0 != [] && Beside(env, e0, Targets(out[..n - 1]))
    requires !Has(e0, out[n - 1].target)
    ensures Beside(env, AssignVar(e0, out[n - 1].target, v), Targets(out[..n]))
  {
    hide AssignVar;
    var s := out[n - 1];
    assert out[..n] == out[..n - 1] + [s];
    forall x ensures Has(AssignVar(e0, s.target, v), x) <==> x == s.target || Has(e0, x)
             ensures x != s.target ==> Get(AssignVar(e0, s.target, v), x) == Get(e0, x)
    {
      AssignGet(e0, s.target, v, x);
    }
  }

  lemma MovedSettled(reading: Reading, out: seq<Stmt>, n: nat, e0: Env, v: Value)
    requires 0 < n <= |out| && Independent(out, []) && e0 != [] && Settled(reading, out[..n - 1], e0)
    requires out[n - 1].Assign? && Eval(reading, out[n - 1].value, e0) == Ok(v) && !Has(e0, out[n - 1].target)
    ensures Settled(reading, out[..n], AssignVar(e0, out[n - 1].target, v))
  {
    hide AssignVar, AssignedBlock;
    var s := out[n - 1];
    var e := AssignVar(e0, s.target, v);
    forall x ensures Has(e, x) <==> x == s.target || Has(e0, x)
             ensures x != s.target ==> Get(e, x) == Get(e0, x)
    {
      AssignGet(e0, s.target, v, x);
    }
    forall t | t in out[..n] ensures t.Assign? && Has(e, t.target) && Eval(reading, t.value, e) == Get(e, t.target) {
      var i :| 0 <= i < n && out[i] == t;
      assert t in out && out[n - 1].target !in Used(out[i].value);
      if i < n - 1 {
        assert t in out[..n - 1];
        HasGets(e0, t.target);
        EvalKept(reading, t.value, e0, e);
      } else {
        AssignGet(e0, s.target, v, s.target);
        EvalKept(reading, t.value, e0, e);
      }
    }
  }

  lemma RunAssign(reading: Reading, limit: nat, s: Stmt, env: Env, v: Value)
    requires env != [] && s.Assign? && Eval(reading, s.value, env) == Ok(v)
    ensures Exec(reading, limit, s, env) == Normal(AssignVar(env, s.target, v), v)
  {
  }

  // ---- inside ----

  lemma MirroredSame(o: Outcome, o': Outcome, p: Outcome, p': Outcome, extra: set<Str>)
    requires Mirrored(o, o', extra) && SameRun(o, p) && SameRun(o', p')
    ensures Mirrored(p, p', extra)
  {
    hide Misses, Beside;
  }

  // One round of the body, from some point on, with and without the moved assignments.
  lemma {:induction false} BodyMirrored(reading: Reading, limit: nat, out: seq<Stmt>, rest: seq<Stmt>, body: seq<Stmt>,
                                        modified: set<Str>, used: set<Str>, env: Env, env': Env)
    requires env != [] && env' != [] && Distinct(env) && Distinct(env') && Beside(env, env', Targets(out))
    requires Settled(reading, out, env') && Independent(out, rest)
    requires var (o, r) := Hoisted(body, modified, used);
             (forall s | s in o :: s in out) && AssignedBlock(r) <= AssignedBlock(rest)
    ensures Mirrored(ExecBlock(reading, limit, body, env), ExecBlock(reading, limit, Hoisted(body, modified, used).1, env'),
                     Targets(out))
    decreases |body|
  {
    hide Exec, ExecBlock, Distinct, Beside, Grown, Settled, Independent, Hoistable, AssignVar, Assigned, Targets, Misses;
    if body == [] {
      NothingRuns(reading, limit, env, env');
    } else {
      var s, later := body[0], body[1..];
      var (o, r) := Hoisted(later, modified, used);
      var first := Exec(reading, limit, s, env);
      assert body == [s] + later;
      BlockAppend(reading, limit, [s], later, env);
      BlockOfOne(reading, limit, s, env);
      if Hoistable(s, modified, used) {
        assert ([s] + o)[0] == s;
        assert forall t | t in o :: t in [s] + o;
        HoistableAssign(s, modified, used);
        SkipMirrored(reading, limit, out, s, env, env');
        if first.Normal? {
          BodyMirrored(reading, limit, out, rest, later, modified, used, first.env, env');
          var run' := ExecBlock(reading, limit, r, env');
          MirroredSame(ExecBlock(reading, limit, later, first.env), run', ExecBlock(reading, limit, body, env), run', Targets(out));
        }
      } else {
        assert ([s] + r)[1..] == r;
        StayMirrored(reading, limit, out, rest, s, r, env, env');
        var first' := Exec(reading, limit, s, env');
        BlockAppend(reading, limit, [s], r, env');
        BlockOfOne(reading, limit, s, env');
        if first.Normal? {
          BodyMirrored(reading, limit, out, rest, later, modified, used, first.env, first'.env);
          MirroredSame(ExecBlock(reading, limit, later, first.env), ExecBlock(reading, limit, r, first'.env),
                       ExecBlock(reading, limit, body, env), ExecBlock(reading, limit, [s] + r, env'), Targets(out));
        }
      }
    }
  }

  lemma NothingRuns(reading: Reading, limit: nat, env: Env, env': Env)
    requires env != [] && env' != []
    ensures ExecBlock(reading, limit, [], env) == Normal(env, Null) && ExecBlock(reading, limit, [], env') == Normal(env', Null)
  {
  }

  lemma HoistableAssign(s: Stmt, modified: set<Str>, used: set<Str>)
    requires Hoistable(s, modified, used)
    ensures s.Assign?
  {
  }

  // A moved assignment: the richer environment has its effect already, and it can only fail for want
  // of a moved variable.
  lemma SkipMirrored(reading: Reading, limit: nat, out: seq<Stmt>, s: Stmt, env: Env, env': Env)
    requires env != [] && env' != [] && Distinct(env) && Beside(env, env', Targets(out))
    requires Settled(reading, out, env') && s in out && s.Assign?
    ensures var o := Exec(reading, limit, s, env);
            if o.Failed? then Misses(o.error, Targets(out))
            else o.Normal? && o.env != [] && Distinct(o.env) && Beside(o.env, env', Targets(out))
  {
    hide Distinct, AssignVar, Has, Get, Targets;
    HasGets(env', s.target);
    EvalBeside(reading, s.value, env, env', Targets(out));
    if Eval(reading, s.value, env).Ok? {
      var v := Eval(reading, s.value, env).value;
      AssignGrown(env, s.target, v);
      GrownDistinct(env, AssignVar(env, s.target, v), {s.target}, {s.target});
      forall x ensures Has(AssignVar(env, s.target, v), x) ==> Has(env', x) && Get(env', x) == Get(AssignVar(env, s.target, v), x)
               ensures Has(env, x) ==> Has(AssignVar(env, s.target, v), x)
      {
        AssignGet(env, s.target, v, x);
      }
    }
  }

  // A statement that stays: both runs take it.
  lemma StayMirrored(reading: Reading, limit: nat, out: seq<Stmt>, rest: seq<Stmt>, s: Stmt, r: seq<Stmt>, env: Env, env': Env)
    requires env != [] && env' != [] && Distinct(env) && Distinct(env') && Beside(env, env', Targets(out))
    requires Settled(reading, out, env') && Independent(out, rest) && AssignedBlock([s] + r) <= AssignedBlock(rest)
    ensures var o := Exec(reading, limit, s, env);
            var o' := Exec(reading, limit, s, env');
            && Mirrored(o, o', Targets(out)) && AssignedBlock(r) <= AssignedBlock(rest)
            && (o.Normal? ==> Distinct(o.env) && Distinct(o'.env) && Settled(reading, out, o'.env))
  {
    hide Exec, Distinct, Beside, Grown, Settled, Independent, Assigned, Targets, Misses;
    AssignedAppend([s], r);
    AssignedOne(s);
    ExecMirrored(reading, limit, s, env, env', Targets(out));
    ExecLeaves(reading, limit, s, env);
    ExecLeaves(reading, limit, s, env');
    var o := Exec(reading, limit, s, env);
    if o.Normal? {
      var o' := Exec(reading, limit, s, env');
      GrownDistinct(env, o.env, Defined(s), Assigned(s));
      GrownDistinct(env', o'.env, Defined(s), Assigned(s));
      SettledKept(reading, out, rest, env', o'.env, Defined(s), Assigned(s));
    }
  }

  // The loop from its n-th round on.
  lemma {:induction false} LoopMirrored(reading: Reading, limit: nat, s: Stmt, env: Env, env': Env, n: nat, last: Value, last': Value)
    requires s.While? && n <= limit && env != [] && env' != [] && Distinct(env) && Distinct(env')
    requires Beside(env, env', Targets(MovedOut(s)))
    requires Settled(reading, MovedOut(s), env') && Independent(MovedOut(s), Remaining(s))
    ensures Mirrored(ExecWhile(reading, limit, s, env, n, last),
                     ExecWhile(reading, limit, While(s.cond, Remaining(s)), env', n, last'), Targets(MovedOut(s)))
    decreases limit - n
  {
    hide ExecBlock, Distinct, Beside, Settled, Independent, Eval, AssignedBlock, CloseScope, Targets, Misses, MovedOut, Remaining;
    if n < limit {
      EvalBeside(reading, s.cond, env, env', Targets(MovedOut(s)));
      RoundMirrored(reading, limit, s, env, env');
      var o := CloseScope(ExecBlock(reading, limit, s.body, env + [map[]]));
      var o' := CloseScope(ExecBlock(reading, limit, Remaining(s), env' + [map[]]));
      if o.Normal? || o.Continued? {
        DepthKept(reading, limit, s.body, env);
        DepthKept(reading, limit, Remaining(s), env');
        LoopMirrored(reading, limit, s, o.env, o'.env, n + 1, RoundResult(o), RoundResult(o'));
      }
    }
  }

  lemma RoundMirrored(reading: Reading, limit: nat, s: Stmt, env: Env, env': Env)
    requires s.While? && env != [] && env' != [] && Distinct(env) && Distinct(env')
    requires Beside(env, env', Targets(MovedOut(s)))
    requires Settled(reading, MovedOut(s), env') && Independent(MovedOut(s), Remaining(s))
    ensures var o := CloseScope(ExecBlock(reading, limit, s.body, env + [map[]]));
            var o' := CloseScope(ExecBlock(reading, limit, Remaining(s), env' + [map[]]));
            && Mirrored(o, o', Targets(MovedOut(s)))
            && (Continues(o) ==> Distinct(o.env) && Distinct(o'.env) && Settled(reading, MovedOut(s), o'.env))
  {
    hide ExecBlock, Distinct, SeenIn, Settled, Independent, Hoisted, AssignedBlock, Grown, Pop, Targets, Misses;
    var rest := Remaining(s);
    var extra := Targets(MovedOut(s));
    PushDistinct(env);
    PushDistinct(env');
    PushBeside(env, env', extra);
    SettledPush(reading, MovedOut(s), env');
    BodyMirrored(reading, limit, MovedOut(s), rest, s.body, ModifiedBlock(s.body), Used(s.cond), env + [map[]], env' + [map[]]);
    BlockLeaves(reading, limit, s.body, env + [map[]]);
    BlockLeaves(reading, limit, rest, env' + [map[]]);
    var o := ExecBlock(reading, limit, s.body, env + [map[]]);
    var o' := ExecBlock(reading, limit, rest, env' + [map[]]);
    if Continues(o) {
      var w := AssignedBlock(s.body);
      var w' := AssignedBlock(rest);
      BesideClosed(env, env', extra, o.env, o'.env, w, w, w', w');
      GrownClosed(env, o.env, w, w);
      GrownClosed(env', o'.env, w', w');
      GrownDistinct(env, Pop(o.env), {}, w);
      GrownDistinct(env', Pop(o'.env), {}, w');
      SettledKept(reading, MovedOut(s), rest, env', Pop(o'.env), {}, w');
    }
  }

  // ---- the theorems ----

  lemma IndependentAlone(out: seq<Stmt>, rest: seq<Stmt>)
    requires Independent(out, rest)
    ensures Independent(out, [])
  {
  }

  // The same way out with the same variables, the same error, the same loop limit.
  ghost predicate Kept(o: Outcome, o': Outcome, extra: set<Str>) {
    Mirrored(o, o', extra) && (o.Failed? ==> o' == o)
  }

  // Moving total assignments to loop-local variables out of the loop keeps every outcome, errors and
  // the loop limit included, with one exception: it is not kept exactly if the original stops because a
  // moved variable is read before its assignment.
  lemma HoistingPreserves(reading: Reading, limit: nat, s: Stmt, env: Env)
    requires s.While? && env != [] && Distinct(env) && Independent(MovedOut(s), Remaining(s))
    requires Local(MovedOut(s), env) && Total(reading, MovedOut(s), env)
    ensures var o, o' := Exec(reading, limit, s, env), ExecBlock(reading, limit, HoistedLoop(s), env);
            Kept(o, o', Targets(MovedOut(s))) <==> !(o.Failed? && Misses(o.error, Targets(MovedOut(s))))
  {
    hide ExecBlock, ExecWhile, Distinct, Beside, Settled, Independent, Local, Total, Remaining, MovedOut, Targets, Misses;
    var out := MovedOut(s);
    var loop := While(s.cond, Remaining(s));
    IndependentAlone(out, Remaining(s));
    var e := RunMoved(reading, limit, out, |out|, env);
    assert out[..|out|] == out;
    BlockAppend(reading, limit, out, [loop], env);
    BlockOfOne(reading, limit, loop, e);
    LoopMirrored(reading, limit, s, env, e, 0, Null, Null);
    SettledThere(reading, out, e);
    TimelyThere(reading, Targets(out), Targets(out), loop);
    ExecFinds(reading, limit, loop, e, Targets(out), Targets(out));
  }

  // For a loop that reads no moved variable before it is assigned, that exception never happens: every
  // outcome is kept.
  lemma TimelyKept(reading: Reading, limit: nat, s: Stmt, env: Env)
    requires s.While? && env != [] && Distinct(env) && Independent(MovedOut(s), Remaining(s))
    requires Local(MovedOut(s), env) && Total(reading, MovedOut(s), env)
    requires Timely(reading, Targets(MovedOut(s)), {}, s)
    ensures Kept(Exec(reading, limit, s, env), ExecBlock(reading, limit, HoistedLoop(s), env), Targets(MovedOut(s)))
  {
    hide ExecBlock, ExecWhile, Distinct, Independent, Local, Total, Remaining, MovedOut, Targets, Misses, Timely, Kept;
    HoistingPreserves(reading, limit, s, env);
    NothingThere(env);
    ExecFinds(reading, limit, s, env, Targets(MovedOut(s)), {});
  }

  lemma NothingThere(env: Env)
    ensures AllThere(env, {})
  {
  }

  // A loop that the compiler accepts as it is written, and that has no validations, is one.
  lemma AcceptedKept(reading: Reading, limit: nat, s: Stmt, env: Env, n: Names, inLoop: bool)
    requires s.While? && env != [] && Distinct(env) && Independent(MovedOut(s), Remaining(s))
    requires Local(MovedOut(s), env) && Total(reading, MovedOut(s), env)
    requires Rejected(n, inLoop, s) == None && (forall x | x in n.known :: Has(env, x))
    requires reading.AsCompiled? || Unvalidated(s)
    ensures Kept(Exec(reading, limit, s, env), ExecBlock(reading, limit, HoistedLoop(s), env), Targets(MovedOut(s)))
  {
    hide ExecBlock, Exec, Distinct, Independent, Total, Remaining, MovedOut, Misses, Timely, Kept, Rejected, Unvalidated;
    assert n.known * Targets(MovedOut(s)) == {};
    AcceptedTimely(reading, Targets(MovedOut(s)), n, {}, inLoop, s);
    TimelyKept(reading, limit, s, env);
  }

  lemma SettledThere(reading: Reading, out: seq<Stmt>, e: Env)
    requires Settled(reading, out, e)
    ensures AllThere(e, Targets(out))
  {
  }

  // while true { return t; t = b }, with t unknown before the loop
  function ReadFirst(t: Str, b: Value): Stmt {
    While(Literal(Bool(true)), [Return(Variable(t))] + [Assign(t, Literal(b))])
  }

  // The exception happens: the loop stops at the unknown t, the rewritten one returns b.
  lemma ReadBeforeAssigned(reading: Reading, limit: nat, t: Str, b: Value, env: Env)
    requires limit > 0 && env != [] && Distinct(env) && !Has(env, t)
    ensures Exec(reading, limit, ReadFirst(t, b), env) == Failed(UndefinedVariable(t))
    ensures ExecBlock(reading, limit, HoistedLoop(ReadFirst(t, b)), env) == Returned(b)
  {
    hide Distinct, AssignVar;
    var s := ReadFirst(t, b);
    var ret, put := Return(Variable(t)), Assign(t, Literal(b));
    ReadFirstMoved(t, b);
    var inner := env + [map[]];
    PushHas(env, t);
    HasGets(inner, t);
    assert Eval(reading, Variable(t), inner) == Err(UndefinedVariable(t));
    assert s.body[0] == ret;
    assert ExecBlock(reading, limit, s.body, inner) == Failed(UndefinedVariable(t));
    assert Eval(reading, s.cond, env) == Ok(Bool(true));
    // the rewritten loop
    var loop := While(s.cond, [ret]);
    var env1 := AssignVar(env, t, b);
    var inner1 := env1 + [map[]];
    AssignGet(env, t, b, t);
    PushHas(env1, t);
    BlockAppend(reading, limit, [put], [loop], env);
    assert Eval(reading, Literal(b), env) == Ok(b);
    BlockOfOne(reading, limit, put, env);
    BlockOfOne(reading, limit, loop, env1);
    assert Eval(reading, Variable(t), inner1) == Ok(b);
    BlockOfOne(reading, limit, ret, inner1);
    assert Eval(reading, loop.cond, env1) == Ok(Bool(true));
    assert ExecWhile(reading, limit, loop, env1, 0, Null) == Returned(b);
  }

  lemma ReadFirstMoved(t: Str, b: Value)
    ensures HoistedLoop(ReadFirst(t, b)) ==
              [Assign(t, Literal(b))] + [While(Literal(Bool(true)), [Return(Variable(t))])]
  {
    var s := ReadFirst(t, b);
    var ret, put := Return(Variable(t)), Assign(t, Literal(b));
    var modified, used := ModifiedBlock(s.body), Used(s.cond);
    assert s.body[1..] == [put] && [put][1..] == [];
    assert Hoistable(put, modified, used) && !Hoistable(ret, modified, used);
    assert Hoisted([put], modified, used) == ([put] + [], []);
    assert Hoisted(s.body, modified, used) == ([put] + [], [ret] + []);
    assert [put] + [] == [put] && [ret] + [] == [ret];
  }

  // The error of the first moved expression that cannot be evaluated in front of the loop.
  function FirstFailure(reading: Reading, out: seq<Stmt>, env: Env): Option<Error>
    decreases |out|
  {
    if out == [] then None
    else
      var last := |out| - 1;
      if FirstFailure(reading, out[..last], env).Some? then FirstFailure(reading, out[..last], env)
      else if !out[last].Assign? then None
      else
        match Eval(reading, out[last].value, env)
        case Ok(_) => None
        case Err(e) => Some(e)
  }

  lemma {:induction false} TotalNoFailure(reading: Reading, out: seq<Stmt>, env: Env)
    requires forall s | s in out :: s.Assign?
    ensures Total(reading, out, env) <==> FirstFailure(reading, out, env) == None
    decreases |out|
  {
    if out != [] {
      var last := |out| - 1;
      assert out == out[..last] + [out[last]];
      TotalNoFailure(reading, out[..last], env);
    }
  }

  // What evaluates an expression is the variables it uses.
  lemma {:induction false} EvalSame(reading: Reading, e: Expr, env: Env, env': Env)
    requires forall x | x in Used(e) :: Get(env', x) == Get(env, x)
    ensures Eval(reading, e, env') == Eval(reading, e, env)
    decreases e
  {
    match e
    case Literal(_) =>
    case Variable(_) =>
    case Unary(_, r) => EvalSame(reading, r, env, env');
    case Binary(_, l, r) =>
      EvalSame(reading, l, env, env');
      EvalSame(reading, r, env, env');
  }

  // What FirstFailure says of the last of them.
  lemma FailureUnfolds(reading: Reading, out: seq<Stmt>, env: Env)
    requires out != [] && out[|out| - 1].Assign?
    ensures FirstFailure(reading, out, env) ==
              if FirstFailure(reading, out[..|out| - 1], env).Some? then FirstFailure(reading, out[..|out| - 1], env)
              else
                match Eval(reading, out[|out| - 1].value, env)
                case Ok(_) => None
                case Err(e) => Some(e)
  {
    hide Eval;
  }

  // The last of them, once those in front of it have run through.
  lemma LastMoved(reading: Reading, limit: nat, out: seq<Stmt>, n: nat, env: Env) returns (e: Env)
    requires env != [] && Distinct(env) && 0 < n <= |out| && Independent(out, []) && Local(out, env)
    requires FirstFailure(reading, out[..n - 1], env) == None
    ensures e != [] && var o := ExecBlock(reading, limit, out[..n - 1], env); o.Normal? && o.env == e
    ensures out[n - 1].Assign?
    ensures match Eval(reading, out[n - 1].value, env)
            case Ok(_) => Exec(reading, limit, out[n - 1], e).Normal?
            case Err(err) => Exec(reading, limit, out[n - 1], e) == Failed(err)
  {
    hide Exec, Distinct, AssignedBlock, Independent, Local, Total, Settled, Beside, FirstFailure, ExecBlock, Eval;
    var s, front := out[n - 1], out[..n - 1];
    PrefixIndependent(out, n - 1, env);
    AllAssign(out, env);
    assert s in out && forall t | t in front :: t in out;
    TotalNoFailure(reading, front, env);
    e := RunMoved(reading, limit, front, n - 1, env);
    assert front[..n - 1] == front;
    UnusedTargets(out, n, front, env, e);
    EvalSame(reading, s.value, env, e);
    AssignRuns(reading, limit, s, e);
  }

  // The moved statements run through, or stop with that error.
  lemma {:induction false} MovedFail(reading: Reading, limit: nat, out: seq<Stmt>, n: nat, env: Env)
    requires env != [] && Distinct(env) && n <= |out| && Independent(out, []) && Local(out, env)
    ensures match FirstFailure(reading, out[..n], env)
            case None => ExecBlock(reading, limit, out[..n], env).Normal?
            case Some(e) => ExecBlock(reading, limit, out[..n], env) == Failed(e)
    decreases n
  {
    if n == 0 {
      assert out[..0] == [] && ExecBlock(reading, limit, [], env) == Normal(env, Null);
    } else {
      hide *;
      MovedFailLast(reading, limit, out, n, env);
    }
  }

  lemma {:induction false} MovedFailLast(reading: Reading, limit: nat, out: seq<Stmt>, n: nat, env: Env)
    requires env != [] && Distinct(env) && 0 < n <= |out| && Independent(out, []) && Local(out, env)
    ensures match FirstFailure(reading, out[..n], env)
            case None => ExecBlock(reading, limit, out[..n], env).Normal?
            case Some(e) => ExecBlock(reading, limit, out[..n], env) == Failed(e)
    decreases n, 0
  {
    hide *;
    var s, front := out[n - 1], out[..n - 1];
    assert out[..n] == front + [s] && out[..n][..n - 1] == front;
    MovedFail(reading, limit, out, n - 1, env);
    BlockAppend(reading, limit, front, [s], env);
    AllAssign(out, env);
    assert s in out;
    FailureUnfolds(reading, out[..n], env);
    if FirstFailure(reading, front, env) == None {
      var e := LastMoved(reading, limit, out, n, env);
      BlockOfOne(reading, limit, s, e);
    }
  }

  lemma AllAssign(out: seq<Stmt>, env: Env)
    requires Local(out, env)
    ensures forall s | s in out :: s.Assign?
  {
  }

  lemma AssignRuns(reading: Reading, limit: nat, s: Stmt, env: Env)
    requires env != [] && s.Assign?
    ensures match Eval(reading, s.value, env)
            case Ok(v) => Exec(reading, limit, s, env).Normal?
            case Err(e) => Exec(reading, limit, s, env) == Failed(e)
  {
  }

  lemma PrefixIndependent(out: seq<Stmt>, n: nat, env: Env)
    requires n <= |out| && Independent(out, []) && Local(out, env)
    ensures Independent(out[..n], []) && Local(out[..n], env)
  {
    forall s | s in out[..n] ensures s in out {
    }
  }

  lemma UnusedTargets(out: seq<Stmt>, n: nat, front: seq<Stmt>, env: Env, e: Env)
    requires 0 < n <= |out| && front == out[..n - 1] && Independent(out, []) && Beside(env, e, Targets(front))
    ensures out[n - 1].Assign? && forall x | x in Used(out[n - 1].value) :: Get(e, x) == Get(env, x)
  {
    assert out[n - 1] in out;
    forall x | x in Used(out[n - 1].value) ensures Get(e, x) == Get(env, x) {
      HasGets(env, x);
      HasGets(e, x);
      forall t | t in front ensures t.target != x {
        var i :| 0 <= i < n - 1 && out[i] == t;
      }
    }
  }

  // If a moved expression cannot be evaluated in front of the loop, the rewritten loop stops there, and
  // the outcome is kept exactly if the original stops with that very error.
  lemma FailingMoved(reading: Reading, limit: nat, s: Stmt, env: Env)
    requires s.While? && env != [] && Distinct(env) && Independent(MovedOut(s), Remaining(s)) && Local(MovedOut(s), env)
    requires FirstFailure(reading, MovedOut(s), env).Some?
    ensures var e := FirstFailure(reading, MovedOut(s), env).value;
            var o, o' := Exec(reading, limit, s, env), ExecBlock(reading, limit, HoistedLoop(s), env);
            o' == Failed(e) && (Kept(o, o', Targets(MovedOut(s))) <==> o == Failed(e))
  {
    hide Exec, ExecBlock, Distinct, Beside, Independent, Local, Remaining, MovedOut, FirstFailure, Targets;
    var out := MovedOut(s);
    IndependentAlone(out, Remaining(s));
    MovedFail(reading, limit, out, |out|, env);
    assert out[..|out|] == out;
    BlockAppend(reading, limit, out, [While(s.cond, Remaining(s))], env);
  }

  // For a loop that is not entered at all, totality is exactly what it takes.
  lemma SkippedLoop(reading: Reading, limit: nat, s: Stmt, env: Env)
    requires s.While? && limit > 0 && env != [] && Distinct(env) && Independent(MovedOut(s), Remaining(s))
    requires Local(MovedOut(s), env) && Eval(reading, s.cond, env) == Ok(Bool(false))
    ensures Kept(Exec(reading, limit, s, env), ExecBlock(reading, limit, HoistedLoop(s), env), Targets(MovedOut(s)))
            <==> Total(reading, MovedOut(s), env)
  {
    hide ExecBlock, Distinct, SeenIn, Settled, Independent, Local, Total, Remaining, MovedOut;
    var out := MovedOut(s);
    assert Exec(reading, limit, s, env) == Normal(env, Null);
    AllAssign(out, env);
    TotalNoFailure(reading, out, env);
    if Total(reading, out, env) {
      HoistingPreserves(reading, limit, s, env);
    } else {
      FailingMoved(reading, limit, s, env);
    }
  }

  // ---- what the optimizer's own check is worth ----

  predicate SwitchFree(s: Stmt)
    decreases s, 0
  {
    match s
    case If(_, t, e) => SwitchFreeBlock(t) && SwitchFreeBlock(e)
    case While(_, body) => SwitchFreeBlock(body)
    case Switch(_, _, _) => false
    case _ => true
  }

  predicate SwitchFreeBlock(stmts: seq<Stmt>)
    decreases stmts, 0
  {
    stmts == [] || (SwitchFree(stmts[0]) && SwitchFreeBlock(stmts[1..]))
  }

  lemma {:induction false} ModifiedIsAssigned(s: Stmt)
    requires SwitchFree(s)
    ensures Modified(s) == Assigned(s)
    decreases s, 0
  {
    match s
    case If(_, t, e) =>
      ModifiedBlockIsAssigned(t);
      ModifiedBlockIsAssigned(e);
    case While(_, body) => ModifiedBlockIsAssigned(body);
    case _ =>
  }

  lemma {:induction false} ModifiedBlockIsAssigned(stmts: seq<Stmt>)
    requires SwitchFreeBlock(stmts)
    ensures ModifiedBlock(stmts) == AssignedBlock(stmts)
    decreases stmts, 0
  {
    if stmts != [] {
      ModifiedIsAssigned(stmts[0]);
      ModifiedBlockIsAssigned(stmts[1..]);
    }
  }

  // Without switches, running a block leaves every variable the optimizer does not call modified.
  lemma ModifiedFrames(reading: Reading, limit: nat, stmts: seq<Stmt>, env: Env, x: Str)
    requires env != [] && Distinct(env) && SwitchFreeBlock(stmts) && x !in ModifiedBlock(stmts) && Has(env, x)
    ensures var o := ExecBlock(reading, limit, stmts, env); Continues(o) ==> Get(o.env, x) == Get(env, x)
  {
    hide ExecBlock;
    ModifiedBlockIsAssigned(stmts);
    BlockLeaves(reading, limit, stmts, env);
  }

  lemma {:induction false} HoistedParts(body: seq<Stmt>, modified: set<Str>, used: set<Str>)
    ensures var (out, rest) := Hoisted(body, modified, used);
            && (forall s | s in out :: s.Assign? && Used(s.value) !! modified && s.target in AssignedBlock(body))
            && AssignedBlock(rest) <= AssignedBlock(body)
  {
    if body != [] {
      HoistedParts(body[1..], modified, used);
      var (out, rest) := Hoisted(body[1..], modified, used);
      assert ([body[0]] + rest)[1..] == rest;
    }
  }

  // A body without switches that sets every moved variable once meets the condition.
  lemma InvariantIndependent(s: Stmt)
    requires s.While? && SwitchFreeBlock(s.body)
    requires forall t | t in MovedOut(s) :: t.Assign? && t.target !in AssignedBlock(Remaining(s))
    requires forall i, j | 0 <= i < j < |MovedOut(s)| :: MovedOut(s)[i].target != MovedOut(s)[j].target
    ensures Independent(MovedOut(s), Remaining(s))
  {
    hide Hoisted, AssignedBlock;
    HoistedParts(s.body, ModifiedBlock(s.body), Used(s.cond));
    ModifiedBlockIsAssigned(s.body);
    forall i, j | 0 <= i < |MovedOut(s)| && 0 <= j < |MovedOut(s)| ensures MovedOut(s)[j].target !in Used(MovedOut(s)[i].value) {
      assert MovedOut(s)[i] in MovedOut(s) && MovedOut(s)[j] in MovedOut(s);
    }
  }
}
