/** What running statements leaves alone, and how a run in a richer environment mirrors one in a poorer. */
module Frames {
  import opened Bytes
  import opened Lang
  import opened Interpreter

  // Every variable a statement may set, switches included.
  function Assigned(s: Stmt): set<Str>
    decreases s, 0
  {
    match s
    case Assign(x, _) => {x}
    case Reassign(x, _) => {x}
    case If(_, t, e) => AssignedBlock(t) + AssignedBlock(e)
    case While(_, body) => AssignedBlock(body)
    case Switch(_, cases, dflt) => AssignedCases(cases) + AssignedBlock(dflt)
    case _ => {}
  }

  function AssignedBlock(stmts: seq<Stmt>): set<Str>
    decreases stmts, 0
  {
    if stmts == [] then {} else Assigned(stmts[0]) + AssignedBlock(stmts[1..])
  }

  function AssignedCases(cases: seq<Case>): set<Str>
    decreases cases, 0
  {
    if cases == [] then {} else AssignedBlock(cases[0].body) + AssignedCases(cases[1..])
  }

  // ---- environments ----

  // No name is bound in two scopes of the chain.
  ghost predicate Distinct(env: Env) {
    forall j, k | 0 <= j < k < |env| :: env[j].Keys !! env[k].Keys
  }

  // Every variable of env is visible in env', with the same value.
  ghost predicate SeenIn(env: Env, env': Env) {
    forall x | Has(env, x) :: Has(env', x) && Get(env', x) == Get(env, x)
  }

  // What a run from env may leave behind: the same scopes, where only the innermost has more
  // variables, all of them among `defined`; and no variable outside `written` has changed.
  ghost predicate Grown(env: Env, e: Env, defined: set<Str>, written: set<Str>) {
    && |e| == |env| && env != [] && Distinct(e)
    && (forall k | 0 <= k < |env| - 1 :: e[k].Keys == env[k].Keys)
    && env[|env| - 1].Keys <= e[|env| - 1].Keys <= env[|env| - 1].Keys + defined
    && (forall x | Has(env, x) && x !in written :: Get(e, x) == Get(env, x))
  }

  predicate Continues(o: Outcome) {
    o.Normal? || o.Broke? || o.Continued?
  }

  lemma {:induction false} HasLevel(env: Env, x: Str)
    ensures Has(env, x) <==> exists k :: 0 <= k < |env| && x in env[k]
  {
    if env != [] {
      var last := |env| - 1;
      HasLevel(env[..last], x);
      if k :| 0 <= k < |env| && x in env[k] {
        assert k == last || x in env[..last][k];
      }
      if k :| 0 <= k < last && x in env[..last][k] {
        assert x in env[k];
      }
    }
  }

  lemma {:induction false} SetExistingGet(env: Env, x: Str, v: Value, y: Str)
    requires Has(env, x)
    ensures Get(SetExisting(env, x, v), y) == (if y == x then Ok(v) else Get(env, y))
    ensures Has(SetExisting(env, x, v), y) <==> Has(env, y)
  {
    var last := |env| - 1;
    if x in env[last] {
      assert SetExisting(env, x, v)[..last] == env[..last];
    } else {
      SetExistingGet(env[..last], x, v, y);
      assert SetExisting(env, x, v)[..last] == SetExisting(env[..last], x, v);
    }
  }

  lemma AssignGet(env: Env, x: Str, v: Value, y: Str)
    requires env != []
    ensures Get(AssignVar(env, x, v), y) == (if y == x then Ok(v) else Get(env, y))
    ensures Has(AssignVar(env, x, v), y) <==> y == x || Has(env, y)
  {
    if Has(env, x) {
      SetExistingGet(env, x, v, y);
    } else {
      assert AssignVar(env, x, v)[..|env| - 1] == env[..|env| - 1];
    }
  }

  lemma AssignGrown(env: Env, x: Str, v: Value)
    requires env != [] && Distinct(env)
    ensures Grown(env, AssignVar(env, x, v), {x}, {x})
    ensures Has(env, x) ==> Grown(env, AssignVar(env, x, v), {}, {x})
  {
    var e := AssignVar(env, x, v);
    forall y | Has(env, y) && y != x ensures Get(e, y) == Get(env, y) {
      AssignGet(env, x, v, y);
    }
    if Has(env, x) {
      SetKeys(env, x, v);
    } else {
      forall j, k | 0 <= j < k < |env| ensures e[j].Keys !! e[k].Keys {
        HasLevel(env, x);
        assert env[j].Keys !! env[k].Keys;
      }
    }
  }

  lemma GrownHas(env: Env, e: Env, defined: set<Str>, written: set<Str>, x: Str)
    requires Grown(env, e, defined, written)
    ensures Has(env, x) ==> Has(e, x)
    ensures Has(e, x) ==> Has(env, x) || x in defined
  {
    HasLevel(env, x);
    HasLevel(e, x);
    if k :| 0 <= k < |env| && x in env[k] {
      assert x in e[k].Keys by {
        assert x in env[k].Keys;
      }
    }
    if k :| 0 <= k < |env| && x in e[k] {
      assert x in e[k].Keys;
      assert x in env[k].Keys || x in defined;
    }
  }

  lemma GrownSame(env: Env)
    requires env != [] && Distinct(env)
    ensures Grown(env, env, {}, {})
  {
  }

  lemma GrownMore(env: Env, e: Env, d: set<Str>, w: set<Str>, d': set<Str>, w': set<Str>)
    requires Grown(env, e, d, w) && d <= d' && w <= w'
    ensures Grown(env, e, d', w')
  {
  }

  lemma GrownOn(env: Env, mid: Env, e: Env, d1: set<Str>, w1: set<Str>, d2: set<Str>, w2: set<Str>)
    requires Grown(env, mid, d1, w1) && Grown(mid, e, d2, w2)
    ensures Grown(env, e, d1 + d2, w1 + w2)
  {
    forall x | Has(env, x) && x !in w1 + w2 ensures Get(e, x) == Get(env, x) {
      GrownHas(env, mid, d1, w1, x);
    }
  }

  lemma PushHas(env: Env, x: Str)
    ensures Has(env + [map[]], x) <==> Has(env, x)
    ensures Get(env + [map[]], x) == Get(env, x)
  {
    assert (env + [map[]])[..|env|] == env;
  }

  // A variable that outlives the innermost scope is the same without it.
  lemma PopGet(e: Env, x: Str)
    requires |e| >= 2 && Distinct(e) && Has(Pop(e), x)
    ensures Has(e, x) && Get(e, x) == Get(Pop(e), x)
  {
    HasLevel(Pop(e), x);
    var k :| 0 <= k < |e| - 1 && x in Pop(e)[k];
    assert e[k].Keys !! e[|e| - 1].Keys;
    assert x in e[k].Keys;
  }

  // Leaving the scope a block ran in.
  lemma GrownClosed(env: Env, e: Env, defined: set<Str>, written: set<Str>)
    requires env != [] && Grown(env + [map[]], e, defined, written)
    ensures Grown(env, Pop(e), {}, written)
    ensures forall x :: Has(Pop(e), x) <==> Has(env, x)
  {
    var env' := env + [map[]];
    forall k | 0 <= k < |env| ensures Pop(e)[k].Keys == env[k].Keys {
      assert e[k].Keys == env'[k].Keys;
    }
    forall x ensures Has(Pop(e), x) <==> Has(env, x) {
      HasLevel(Pop(e), x);
      HasLevel(env, x);
      if k :| 0 <= k < |env| && x in env[k] {
        assert x in Pop(e)[k].Keys;
      }
      if k :| 0 <= k < |env| && x in Pop(e)[k] {
        assert x in env[k].Keys;
      }
    }
    forall x | Has(env, x) && x !in written ensures Get(Pop(e), x) == Get(env, x) {
      PushHas(env, x);
      PopGet(e, x);
    }
    forall j, k | 0 <= j < k < |Pop(e)| ensures Pop(e)[j].Keys !! Pop(e)[k].Keys {
      assert e[j].Keys !! e[k].Keys;
    }
  }

  lemma PushDistinct(env: Env)
    requires Distinct(env)
    ensures Distinct(env + [map[]])
  {
  }

  // ---- running ----

  function Defined(s: Stmt): set<Str> {
    if s.Assign? then {s.target} else {}
  }

  ghost predicate Leaves(env: Env, o: Outcome, defined: set<Str>, written: set<Str>) {
    Continues(o) ==> Grown(env, o.env, defined, written)
  }

  lemma {:induction false} ExecLeaves(reading: Reading, limit: nat, s: Stmt, env: Env)
    requires env != [] && Distinct(env)
    ensures Leaves(env, Exec(reading, limit, s, env), Defined(s), Assigned(s))
    decreases s, 1, 0
  {
    hide Eval, Distinct, Grown, Has, Get, AssignVar, SetExisting;
    GrownSame(env);
    match s
    case Assign(x, e) =>
      if Eval(reading, e, env).Ok? {
        AssignGrown(env, x, Eval(reading, e, env).value);
      }
    case Reassign(x, e) =>
      if Eval(reading, e, env).Ok? && Has(env, x) {
        AssignGrown(env, x, Eval(reading, e, env).value);
        ReassignAssigns(env, x, Eval(reading, e, env).value);
      }
    case Return(_) =>
    case ExprStmt(_) =>
    case If(_, t, e) =>
      ClosedLeaves(reading, limit, t, env, Assigned(s));
      ClosedLeaves(reading, limit, e, env, Assigned(s));
    case While(_, _) => WhileLeaves(reading, limit, s, env, 0, Null);
    case Switch(v, _, _) =>
      if Eval(reading, v, env).Ok? {
        SwitchLeaves(reading, limit, s, Eval(reading, v, env).value, 0, env);
      }
    case Validation(_) =>
    case Break =>
    case Continue =>
  }

  lemma ReassignAssigns(env: Env, x: Str, v: Value)
    requires Has(env, x)
    ensures SetExisting(env, x, v) == AssignVar(env, x, v)
  {
  }

  lemma {:induction false} BlockLeaves(reading: Reading, limit: nat, stmts: seq<Stmt>, env: Env)
    requires env != [] && Distinct(env)
    ensures Leaves(env, ExecBlock(reading, limit, stmts, env), AssignedBlock(stmts), AssignedBlock(stmts))
    decreases stmts, 0, 0
  {
    hide Exec, Distinct, Grown, Assigned;
    if stmts == [] {
      GrownSame(env);
    } else {
      ExecLeaves(reading, limit, stmts[0], env);
      DefinedAssigned(stmts[0]);
      var first := Exec(reading, limit, stmts[0], env);
      if Continues(first) {
        GrownMore(env, first.env, Defined(stmts[0]), Assigned(stmts[0]), AssignedBlock(stmts), AssignedBlock(stmts));
      }
      if first.Normal? && |stmts| > 1 {
        GrownDistinct(env, first.env, AssignedBlock(stmts), AssignedBlock(stmts));
        BlockLeaves(reading, limit, stmts[1..], first.env);
        var rest := ExecBlock(reading, limit, stmts[1..], first.env);
        if Continues(rest) {
          GrownOn(env, first.env, rest.env, AssignedBlock(stmts), AssignedBlock(stmts),
                  AssignedBlock(stmts[1..]), AssignedBlock(stmts[1..]));
          assert AssignedBlock(stmts) + AssignedBlock(stmts[1..]) == AssignedBlock(stmts);
        }
      }
    }
  }

  lemma DefinedAssigned(s: Stmt)
    ensures Defined(s) <= Assigned(s)
  {
  }

  lemma GrownDistinct(env: Env, e: Env, d: set<Str>, w: set<Str>)
    requires Grown(env, e, d, w)
    ensures Distinct(e) && |e| == |env| && e != []
  {
  }

  lemma {:induction false} ClosedLeaves(reading: Reading, limit: nat, stmts: seq<Stmt>, env: Env, written: set<Str>)
    requires env != [] && Distinct(env) && AssignedBlock(stmts) <= written
    ensures Leaves(env, CloseScope(ExecBlock(reading, limit, stmts, env + [map[]])), {}, written)
    decreases stmts, 0, 1
  {
    hide ExecBlock, Distinct, Grown, AssignedBlock, Pop;
    PushDistinct(env);
    BlockLeaves(reading, limit, stmts, env + [map[]]);
    var o := ExecBlock(reading, limit, stmts, env + [map[]]);
    if Continues(o) {
      GrownClosed(env, o.env, AssignedBlock(stmts), AssignedBlock(stmts));
      GrownMore(env, Pop(o.env), {}, AssignedBlock(stmts), {}, written);
    }
  }

  lemma {:induction false} WhileLeaves(reading: Reading, limit: nat, s: Stmt, env: Env, iterations: nat, last: Value)
    requires env != [] && Distinct(env) && s.While? && iterations <= limit
    ensures Leaves(env, ExecWhile(reading, limit, s, env, iterations, last), {}, Assigned(s))
    decreases s, 0, limit - iterations
  {
    hide ExecBlock, Distinct, Grown, AssignedBlock, Eval;
    GrownSame(env);
    GrownMore(env, env, {}, {}, {}, Assigned(s));
    if iterations < limit {
      ClosedLeaves(reading, limit, s.body, env, Assigned(s));
      var o := CloseScope(ExecBlock(reading, limit, s.body, env + [map[]]));
      if o.Normal? || o.Continued? {
        GrownDistinct(env, o.env, {}, Assigned(s));
        var last' := RoundResult(o);
        WhileLeaves(reading, limit, s, o.env, iterations + 1, last');
        var rest := ExecWhile(reading, limit, s, o.env, iterations + 1, last');
        if Continues(rest) {
          GrownOn(env, o.env, rest.env, {}, Assigned(s), {}, Assigned(s));
          var none: set<Str> := {};
          assert none + none == none && Assigned(s) + Assigned(s) == Assigned(s);
        }
      }
    }
  }

  lemma {:induction false} SwitchLeaves(reading: Reading, limit: nat, s: Stmt, v: Value, i: nat, env: Env)
    requires env != [] && Distinct(env) && s.Switch? && i <= |s.cases|
    ensures Leaves(env, ExecSwitch(reading, limit, s, v, i, env), {}, Assigned(s))
    decreases s, 0, |s.cases| - i
  {
    hide ExecBlock, Distinct, Grown, AssignedBlock, Eval;
    if i == |s.cases| {
      ClosedLeaves(reading, limit, s.defaultBlock, env, Assigned(s));
    } else {
      CaseAssigned(s.cases, i);
      ClosedLeaves(reading, limit, s.cases[i].body, env, Assigned(s));
      SwitchLeaves(reading, limit, s, v, i + 1, env);
    }
  }

  lemma {:induction false} CaseAssigned(cases: seq<Case>, i: nat)
    requires i < |cases|
    ensures AssignedBlock(cases[i].body) <= AssignedCases(cases)
    decreases |cases|
  {
    if i > 0 {
      CaseAssigned(cases[1..], i - 1);
    }
  }

  // ---- the same statements in a richer environment ----

  // Every variable of env is visible in env' with the same value, and env' has no others but `extra`.
  ghost predicate Beside(env: Env, env': Env, extra: set<Str>) {
    SeenIn(env, env') && forall x | Has(env', x) :: Has(env, x) || x in extra
  }

  // The error comes from reading, or setting anew, an undefined variable of these names.
  ghost predicate Misses(e: Error, names: set<Str>) {
    || (e.UndefinedVariable? && e.name in names)
    || (e.ValidationFailed? && e.cause.Some? && Misses(e.cause.value, names))
  }

  lemma {:induction false} EvalSeen(reading: Reading, e: Expr, env: Env, env': Env)
    requires SeenIn(env, env') && Eval(reading, e, env).Ok?
    ensures Eval(reading, e, env') == Eval(reading, e, env)
    decreases e
  {
    match e
    case Literal(_) =>
    case Variable(x) => HasGets(env, x);
    case Unary(_, r) => EvalSeen(reading, r, env, env');
    case Binary(op, l, r) =>
      EvalSeen(reading, l, env, env');
      if Eval(reading, r, env).Ok? {
        EvalSeen(reading, r, env, env');
      }
  }

  // Errors are the same too, unless a variable was missing.
  lemma {:induction false} EvalBeside(reading: Reading, e: Expr, env: Env, env': Env, extra: set<Str>)
    requires Beside(env, env', extra)
    ensures var r := Eval(reading, e, env);
            Eval(reading, e, env') == r || (r.Err? && Misses(r.error, extra))
    decreases e
  {
    match e
    case Literal(_) =>
    case Variable(x) =>
      HasGets(env, x);
      HasGets(env', x);
    case Unary(_, r) => EvalBeside(reading, r, env, env', extra);
    case Binary(op, l, r) =>
      EvalBeside(reading, l, env, env', extra);
      EvalBeside(reading, r, env, env', extra);
  }

  lemma AssignSeen(env: Env, env': Env, x: Str, v: Value)
    requires env != [] && env' != [] && SeenIn(env, env')
    ensures SeenIn(AssignVar(env, x, v), AssignVar(env', x, v))
  {
    forall y | Has(AssignVar(env, x, v), y)
      ensures Has(AssignVar(env', x, v), y) && Get(AssignVar(env', x, v), y) == Get(AssignVar(env, x, v), y)
    {
      AssignGet(env, x, v, y);
      AssignGet(env', x, v, y);
    }
  }

  lemma AssignBeside(env: Env, env': Env, x: Str, v: Value, extra: set<Str>)
    requires env != [] && env' != [] && Beside(env, env', extra)
    ensures Beside(AssignVar(env, x, v), AssignVar(env', x, v), extra)
  {
    AssignSeen(env, env', x, v);
    forall y | Has(AssignVar(env', x, v), y) ensures Has(AssignVar(env, x, v), y) || y in extra {
      AssignGet(env, x, v, y);
      AssignGet(env', x, v, y);
    }
  }

  lemma SeenPush(env: Env, env': Env)
    requires SeenIn(env, env')
    ensures SeenIn(env + [map[]], env' + [map[]]) && SeenIn(env + [map[]], env')
  {
    forall x ensures Has(env + [map[]], x) <==> Has(env, x)
             ensures Get(env + [map[]], x) == Get(env, x)
             ensures Has(env' + [map[]], x) <==> Has(env', x)
             ensures Get(env' + [map[]], x) == Get(env', x)
    {
      PushHas(env, x);
      PushHas(env', x);
    }
  }

  lemma PushBeside(env: Env, env': Env, extra: set<Str>)
    requires Beside(env, env', extra)
    ensures Beside(env + [map[]], env' + [map[]], extra)
  {
    SeenPush(env, env');
    forall x | Has(env' + [map[]], x) ensures Has(env + [map[]], x) || x in extra {
      PushHas(env, x);
      PushHas(env', x);
    }
  }

  // Both runs leave the scope.
  lemma SeenClosed(env: Env, env': Env, e: Env, e': Env, d: set<Str>, w: set<Str>, d': set<Str>, w': set<Str>)
    requires env != [] && env' != [] && SeenIn(env, env') && SeenIn(e, e')
    requires Grown(env + [map[]], e, d, w) && Grown(env' + [map[]], e', d', w')
    ensures SeenIn(Pop(e), Pop(e'))
  {
    GrownClosed(env, e, d, w);
    GrownClosed(env', e', d', w');
    forall x | Has(Pop(e), x) ensures Has(Pop(e'), x) && Get(Pop(e'), x) == Get(Pop(e), x) {
      PopGet(e, x);
      PopGet(e', x);
    }
  }

  lemma BesideClosed(env: Env, env': Env, extra: set<Str>, e: Env, e': Env, d: set<Str>, w: set<Str>, d': set<Str>, w': set<Str>)
    requires env != [] && env' != [] && Beside(env, env', extra) && SeenIn(e, e')
    requires Grown(env + [map[]], e, d, w) && Grown(env' + [map[]], e', d', w')
    ensures Beside(Pop(e), Pop(e'), extra)
  {
    SeenClosed(env, env', e, e', d, w, d', w');
    GrownClosed(env, e, d, w);
    GrownClosed(env', e', d', w');
    forall x | Has(Pop(e'), x) ensures Has(Pop(e), x) || x in extra {
      assert Has(env', x);
    }
  }

  // Only the first run leaves the scope.
  lemma SeenHalfClosed(env: Env, e: Env, e': Env, d: set<Str>, w: set<Str>)
    requires env != [] && SeenIn(e, e') && Grown(env + [map[]], e, d, w)
    ensures SeenIn(Pop(e), e')
  {
    forall x | Has(Pop(e), x) ensures Has(e', x) && Get(e', x) == Get(Pop(e), x) {
      PopGet(e, x);
    }
  }

  // The second run goes the same way, errors and a loop's limit included, unless the first stops at a
  // variable that only the second one has.
  ghost predicate Mirrored(o: Outcome, o': Outcome, extra: set<Str>) {
    match o
    case Failed(e) => o' == o || Misses(e, extra)
    case Returned(v) => o' == o
    case Normal(e, _) => o'.Normal? && Beside(e, o'.env, extra)
    case Broke(e) => o'.Broke? && Beside(e, o'.env, extra)
    case Continued(e) => o'.Continued? && Beside(e, o'.env, extra)
  }

  ghost predicate SameResult(o: Outcome, o': Outcome) {
    o.Normal? && o'.Normal? ==> o'.result == o.result
  }

  lemma {:induction false} ExecMirrored(reading: Reading, limit: nat, s: Stmt, env: Env, env': Env, extra: set<Str>)
    requires env != [] && env' != [] && Distinct(env) && Distinct(env') && Beside(env, env', extra)
    ensures var o, o' := Exec(reading, limit, s, env), Exec(reading, limit, s, env');
            Mirrored(o, o', extra) && SameResult(o, o')
    decreases s, 1, 0
  {
    hide Eval, Distinct, Has, Get, AssignVar, SetExisting, ExecBlock, ExecWhile, ExecSwitch;
    match s
    case Assign(x, e) =>
      EvalBeside(reading, e, env, env', extra);
      if Eval(reading, e, env).Ok? {
        AssignBeside(env, env', x, Eval(reading, e, env).value, extra);
      }
    case Reassign(x, e) =>
      EvalBeside(reading, e, env, env', extra);
      if Eval(reading, e, env).Ok? && Has(env, x) {
        AssignBeside(env, env', x, Eval(reading, e, env).value, extra);
        ReassignAssigns(env, x, Eval(reading, e, env).value);
        ReassignAssigns(env', x, Eval(reading, e, env).value);
      }
    case Return(e) => EvalBeside(reading, e, env, env', extra);
    case ExprStmt(e) => EvalBeside(reading, e, env, env', extra);
    case If(c, t, e) =>
      EvalBeside(reading, c, env, env', extra);
      ClosedMirrored(reading, limit, t, env, env', extra);
      ClosedMirrored(reading, limit, e, env, env', extra);
    case While(_, _) => WhileMirrored(reading, limit, s, env, env', extra, 0, Null);
    case Switch(v, _, _) =>
      EvalBeside(reading, v, env, env', extra);
      if Eval(reading, v, env).Ok? {
        SwitchMirrored(reading, limit, s, Eval(reading, v, env).value, 0, env, env', extra);
      }
    case Validation(test) => EvalBeside(reading, test, env, env', extra);
    case Break =>
    case Continue =>
  }

  lemma {:induction false} BlockMirrored(reading: Reading, limit: nat, stmts: seq<Stmt>, env: Env, env': Env, extra: set<Str>)
    requires env != [] && env' != [] && Distinct(env) && Distinct(env') && Beside(env, env', extra)
    ensures var o, o' := ExecBlock(reading, limit, stmts, env), ExecBlock(reading, limit, stmts, env');
            Mirrored(o, o', extra) && SameResult(o, o')
    decreases stmts, 0, 0
  {
    hide Exec, Distinct, Beside, Grown, Misses;
    if stmts != [] {
      ExecMirrored(reading, limit, stmts[0], env, env', extra);
      ExecLeaves(reading, limit, stmts[0], env);
      ExecLeaves(reading, limit, stmts[0], env');
      var first := Exec(reading, limit, stmts[0], env);
      var first' := Exec(reading, limit, stmts[0], env');
      if first.Normal? && |stmts| > 1 {
        GrownDistinct(env, first.env, Defined(stmts[0]), Assigned(stmts[0]));
        GrownDistinct(env', first'.env, Defined(stmts[0]), Assigned(stmts[0]));
        BlockMirrored(reading, limit, stmts[1..], first.env, first'.env, extra);
      }
    }
  }

  lemma {:induction false} ClosedMirrored(reading: Reading, limit: nat, stmts: seq<Stmt>, env: Env, env': Env, extra: set<Str>)
    requires env != [] && env' != [] && Distinct(env) && Distinct(env') && Beside(env, env', extra)
    ensures var o := CloseScope(ExecBlock(reading, limit, stmts, env + [map[]]));
            var o' := CloseScope(ExecBlock(reading, limit, stmts, env' + [map[]]));
            Mirrored(o, o', extra) && SameResult(o, o')
    decreases stmts, 0, 1
  {
    hide ExecBlock, Distinct, SeenIn, Grown, Pop, Misses;
    PushDistinct(env);
    PushDistinct(env');
    PushBeside(env, env', extra);
    BlockMirrored(reading, limit, stmts, env + [map[]], env' + [map[]], extra);
    BlockLeaves(reading, limit, stmts, env + [map[]]);
    BlockLeaves(reading, limit, stmts, env' + [map[]]);
    var o := ExecBlock(reading, limit, stmts, env + [map[]]);
    var o' := ExecBlock(reading, limit, stmts, env' + [map[]]);
    if Continues(o) {
      var w := AssignedBlock(stmts);
      BesideClosed(env, env', extra, o.env, o'.env, w, w, w, w);
    }
  }

  lemma {:induction false} WhileMirrored(reading: Reading, limit: nat, s: Stmt, env: Env, env': Env, extra: set<Str>,
                                         iterations: nat, last: Value)
    requires env != [] && env' != [] && Distinct(env) && Distinct(env') && Beside(env, env', extra)
    requires s.While? && iterations <= limit
    ensures var o := ExecWhile(reading, limit, s, env, iterations, last);
            var o' := ExecWhile(reading, limit, s, env', iterations, last);
            Mirrored(o, o', extra) && SameResult(o, o')
    decreases s, 0, limit - iterations
  {
    hide ExecBlock, Distinct, Beside, Eval, Assigned, Misses, CloseScope;
    if iterations < limit {
      EvalBeside(reading, s.cond, env, env', extra);
      ClosedMirrored(reading, limit, s.body, env, env', extra);
      ClosedDistinct(reading, limit, s.body, env);
      ClosedDistinct(reading, limit, s.body, env');
      var o := CloseScope(ExecBlock(reading, limit, s.body, env + [map[]]));
      var o' := CloseScope(ExecBlock(reading, limit, s.body, env' + [map[]]));
      if o.Normal? || o.Continued? {
        WhileMirrored(reading, limit, s, o.env, o'.env, extra, iterations + 1, RoundResult(o));
      }
    }
  }

  lemma ClosedDistinct(reading: Reading, limit: nat, stmts: seq<Stmt>, env: Env)
    requires env != [] && Distinct(env)
    ensures var o := CloseScope(ExecBlock(reading, limit, stmts, env + [map[]])); Continues(o) ==> o.env != [] && Distinct(o.env)
  {
    hide ExecBlock, Distinct, Grown;
    ClosedLeaves(reading, limit, stmts, env, AssignedBlock(stmts));
    var o := CloseScope(ExecBlock(reading, limit, stmts, env + [map[]]));
    if Continues(o) {
      GrownDistinct(env, o.env, {}, AssignedBlock(stmts));
    }
  }

  lemma {:induction false} SwitchMirrored(reading: Reading, limit: nat, s: Stmt, v: Value, i: nat, env: Env, env': Env,
                                          extra: set<Str>)
    requires env != [] && env' != [] && Distinct(env) && Distinct(env') && Beside(env, env', extra)
    requires s.Switch? && i <= |s.cases|
    ensures var o, o' := ExecSwitch(reading, limit, s, v, i, env), ExecSwitch(reading, limit, s, v, i, env');
            Mirrored(o, o', extra) && SameResult(o, o')
    decreases s, 0, |s.cases| - i
  {
    hide ExecBlock, Distinct, Beside, Eval, Misses;
    if i == |s.cases| {
      ClosedMirrored(reading, limit, s.defaultBlock, env, env', extra);
    } else {
      EvalBeside(reading, s.cases[i].value, env, env', extra);
      ClosedMirrored(reading, limit, s.cases[i].body, env, env', extra);
      SwitchMirrored(reading, limit, s, v, i + 1, env, env', extra);
    }
  }

  // ---- blocks in a row ----

  lemma {:induction false} AssignedAppend(a: seq<Stmt>, b: seq<Stmt>)
    ensures AssignedBlock(a + b) == AssignedBlock(a) + AssignedBlock(b)
    decreases |a|
  {
    if a == [] {
      assert a + b == b;
    } else {
      assert (a + b)[1..] == a[1..] + b;
      AssignedAppend(a[1..], b);
    }
  }

  lemma AssignedOne(s: Stmt)
    ensures AssignedBlock([s]) == Assigned(s)
  {
    assert [s][1..] == [];
  }

  // The same outcome, up to the result of a normal end.
  predicate SameRun(o: Outcome, o': Outcome) {
    if o.Normal? then o'.Normal? && o'.env == o.env else o' == o
  }

  lemma {:induction false} BlockAppend(reading: Reading, limit: nat, a: seq<Stmt>, b: seq<Stmt>, env: Env)
    requires env != []
    ensures var o, whole := ExecBlock(reading, limit, a, env), ExecBlock(reading, limit, a + b, env);
            && whole == (if o.Normal? && b != [] then ExecBlock(reading, limit, b, o.env) else o)
            && SameRun(if o.Normal? then ExecBlock(reading, limit, b, o.env) else o, whole)
    decreases |a|
  {
    hide Exec;
    if a == [] {
      assert a + b == b;
    } else {
      assert (a + b)[1..] == a[1..] + b;
      var first := Exec(reading, limit, a[0], env);
      if |a| == 1 {
        assert a == [a[0]] && a[1..] == [];
      } else if first.Normal? {
        BlockAppend(reading, limit, a[1..], b, first.env);
      }
    }
  }

  lemma BlockOfOne(reading: Reading, limit: nat, s: Stmt, env: Env)
    requires env != []
    ensures ExecBlock(reading, limit, [s], env) == Exec(reading, limit, s, env)
  {
    hide Exec;
    assert [s][1..] == [];
  }

  lemma DepthKept(reading: Reading, limit: nat, block: seq<Stmt>, env: Env)
    requires env != []
    ensures DepthIs(CloseScope(ExecBlock(reading, limit, block, env + [map[]])), |env|)
  {
  }
}
