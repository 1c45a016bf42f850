/** Which programs the compiler rejects, and with what error: a function of the names alone. */
module Acceptance {
  import opened Bytes
  import opened Lang
  import opened Opcodes
  import opened CodeGen
  import opened Scoping
  import opened EmissionFacts
  import opened Rewriting

  // The names that resolve, and those the innermost scope declares itself, built-in ones aside.
  datatype Names = Names(known: set<Str>, own: set<Str>)

  function Inner(n: Names): Names {
    n.(own := {})
  }

  // The names behind a statement.
  function Declared(n: Names, s: Stmt): Names {
    if s.Assign? && s.target !in n.known then Names(n.known + {s.target}, n.own + {s.target}) else n
  }

  function DeclaredBlock(n: Names, stmts: seq<Stmt>): Names
    decreases |stmts|
  {
    if stmts == [] then n else DeclaredBlock(Declared(n, stmts[0]), stmts[1..])
  }

  // The first variable of an expression that does not resolve.
  function FirstUnknown(known: set<Str>, e: Expr): Option<Str> {
    match e
    case Literal(_) => None
    case Variable(x) => if x in known then None else Some(x)
    case Unary(_, r) => FirstUnknown(known, r)
    case Binary(_, l, r) => if FirstUnknown(known, l).Some? then FirstUnknown(known, l) else FirstUnknown(known, r)
  }

  function RejectedExpr(n: Names, e: Expr): Option<CompileError> {
    match FirstUnknown(n.known, e)
    case None => None
    case Some(x) => Some(UndefinedName(x))
  }

  lemma {:induction false} UnknownUsed(known: set<Str>, e: Expr)
    ensures FirstUnknown(known, e) == None <==> Used(e) <= known
    decreases e
  {
    match e
    case Literal(_) =>
    case Variable(_) =>
    case Unary(_, r) => UnknownUsed(known, r);
    case Binary(_, l, r) =>
      UnknownUsed(known, l);
      UnknownUsed(known, r);
  }

  // The first error in a statement, if there is one; `inLoop`: whether a loop encloses it.
  function Rejected(n: Names, inLoop: bool, s: Stmt): Option<CompileError>
    decreases s, 1
  {
    match s
    case Assign(x, e) => if x in n.own then Some(Redeclared(x)) else RejectedExpr(n, e)
    case Reassign(x, e) => if x !in n.known then Some(Undeclared(x)) else RejectedExpr(n, e)
    case Return(e) => RejectedExpr(n, e)
    case ExprStmt(e) => RejectedExpr(n, e)
    case Validation(_) => None
    case Break => if inLoop then None else Some(BreakOutsideLoop)
    case Continue => if inLoop then None else Some(ContinueOutsideLoop)
    case If(c, t, f) =>
      if RejectedExpr(n, c).Some? then RejectedExpr(n, c)
      else if RejectedBlock(Inner(n), inLoop, t).Some? then RejectedBlock(Inner(n), inLoop, t)
      else RejectedBlock(Inner(n), inLoop, f)
    case While(c, b) => if RejectedExpr(n, c).Some? then RejectedExpr(n, c) else RejectedBlock(Inner(n), true, b)
    case Switch(v, cases, d) =>
      if RejectedExpr(n, v).Some? then RejectedExpr(n, v)
      else if RejectedCases(n, inLoop, cases).Some? then RejectedCases(n, inLoop, cases)
      else RejectedBlock(Inner(n), inLoop, d)
  }

  function RejectedBlock(n: Names, inLoop: bool, stmts: seq<Stmt>): Option<CompileError>
    decreases stmts, 0
  {
    if stmts == [] then None
    else if Rejected(n, inLoop, stmts[0]).Some? then Rejected(n, inLoop, stmts[0])
    else RejectedBlock(Declared(n, stmts[0]), inLoop, stmts[1..])
  }

  function RejectedCases(n: Names, inLoop: bool, cases: seq<Case>): Option<CompileError>
    decreases cases, 0
  {
    if cases == [] then None
    else if RejectedCase(n, inLoop, cases[0]).Some? then RejectedCase(n, inLoop, cases[0])
    else RejectedCases(n, inLoop, cases[1..])
  }

  function RejectedCase(n: Names, inLoop: bool, c: Case): Option<CompileError>
    decreases c, 0
  {
    if RejectedExpr(n, c.value).Some? then RejectedExpr(n, c.value) else RejectedBlock(Inner(n), inLoop, c.body)
  }

  // ---- the symbol tables' view ----

  // What the tables say of the program's own names.
  ghost predicate Sees(scopes: seq<Scope>, n: Names) {
    && scopes != []
    && (forall x | !IsTemp(x) :: x in n.known <==> Resolve(scopes, x).Some?)
    && (forall x | !IsTemp(x) :: x in n.own <==> x in scopes[|scopes| - 1] && !scopes[|scopes| - 1][x].builtin)
  }

  lemma SeesPush(scopes: seq<Scope>, n: Names)
    requires Sees(scopes, n)
    ensures Sees(scopes + [map[]], Inner(n))
  {
    var pushed := scopes + [map[]];
    forall x ensures Resolve(pushed, x) == Resolve(scopes, x) {
      assert pushed[..|pushed| - 1] == scopes;
    }
  }

  lemma ResolveDefined(scopes: seq<Scope>, x: Str, symbol: Symbol, y: Str)
    requires scopes != []
    ensures Resolve(Define(scopes, x, symbol), y) == if y == x then Some(symbol) else Resolve(scopes, y)
  {
    var r := Define(scopes, x, symbol);
    assert r[..|r| - 1] == scopes[..|scopes| - 1];
  }

  lemma SeesDefined(scopes: seq<Scope>, n: Names, x: Str, symbol: Symbol)
    requires Sees(scopes, n) && x !in n.known && !IsTemp(x) && !symbol.builtin
    ensures Sees(Define(scopes, x, symbol), Names(n.known + {x}, n.own + {x}))
  {
    forall y ensures Resolve(Define(scopes, x, symbol), y) == if y == x then Some(symbol) else Resolve(scopes, y) {
      ResolveDefined(scopes, x, symbol, y);
    }
  }

  lemma SeesTemp(scopes: seq<Scope>, n: Names, x: Str, symbol: Symbol)
    requires Sees(scopes, n) && IsTemp(x)
    ensures Sees(Define(scopes, x, symbol), n)
  {
    forall y ensures Resolve(Define(scopes, x, symbol), y) == if y == x then Some(symbol) else Resolve(scopes, y) {
      ResolveDefined(scopes, x, symbol, y);
    }
  }

  lemma TempIsTemp(i: nat)
    ensures IsTemp(TempName(i))
  {
  }

  // ---- the compiler rejects exactly that, with exactly this error ----

  lemma {:induction false} ExprRejected(cs: CState, e: Expr, n: Names)
    requires Sees(cs.scopes, n) && PlainExpr(e)
    ensures match RejectedExpr(n, e)
            case None => EmitExpr(cs, e).Ok?
            case Some(err) => EmitExpr(cs, e) == Err(err)
    decreases e
  {
    hide IsTemp, Truncate32;
    match e
    case Literal(_) =>
    case Variable(x) =>
    case Unary(_, r) => ExprRejected(cs, r, n);
    case Binary(_, l, r) =>
      ExprRejected(cs, l, n);
      if EmitExpr(cs, l).Ok? {
        ExprRejected(EmitExpr(cs, l).value.cs, r, n);
      }
  }

  // What compiling gave is what the names say.
  ghost predicate AsNamed(r: Emission, rejected: Option<CompileError>) {
    match rejected
    case None => r.Ok?
    case Some(err) => r == Err(err)
  }

  lemma {:induction false} StmtRejected(cs: CState, s: Stmt, base: nat, loop: Option<nat>, n: Names)
    requires Sees(cs.scopes, n) && PlainStmt(s)
    ensures AsNamed(EmitStmt(cs, s, base, loop), Rejected(n, loop.Some?, s))
    ensures EmitStmt(cs, s, base, loop).Ok? ==> Sees(EmitStmt(cs, s, base, loop).value.cs.scopes, Declared(n, s))
    decreases s, 2
  {
    hide IsTemp, Truncate32, EmitExpr, EmitScope, RejectedExpr, RejectedBlock, Size, Fill, Sees, AddConstant;
    match s
    case Assign(x, e) => AssignRejected(cs, s, base, loop, n);
    case Reassign(x, e) => ReassignRejected(cs, s, base, loop, n);
    case Return(e) => ExprRejected(cs, e, n);
    case ExprStmt(e) => ExprRejected(cs, e, n);
    case Validation(_) =>
    case Break =>
    case Continue =>
    case If(_, _, _) => IfRejected(cs, s, base, loop, n);
    case While(_, _) => WhileRejected(cs, s, base, loop, n);
    case Switch(_, _, _) => SwitchRejected(cs, s, base, loop, n);
  }

  lemma AssignRejected(cs: CState, s: Stmt, base: nat, loop: Option<nat>, n: Names)
    requires Sees(cs.scopes, n) && PlainStmt(s) && s.Assign?
    ensures AsNamed(EmitStmt(cs, s, base, loop), Rejected(n, loop.Some?, s))
    ensures EmitStmt(cs, s, base, loop).Ok? ==> Sees(EmitStmt(cs, s, base, loop).value.cs.scopes, Declared(n, s))
  {
    hide IsTemp, Truncate32, EmitExpr, RejectedExpr, AddConstant, Define;
    ExprRejected(cs, s.value, n);
    if EmitExpr(cs, s.value).Ok? && s.target !in n.known {
      var symbol := Symbol(AddConstant(EmitExpr(cs, s.value).value.cs.constants, Text(s.target)).1, false);
      SeesDefined(cs.scopes, n, s.target, symbol);
    }
  }

  lemma ReassignRejected(cs: CState, s: Stmt, base: nat, loop: Option<nat>, n: Names)
    requires Sees(cs.scopes, n) && PlainStmt(s) && s.Reassign?
    ensures AsNamed(EmitStmt(cs, s, base, loop), Rejected(n, loop.Some?, s))
    ensures EmitStmt(cs, s, base, loop).Ok? ==> Sees(EmitStmt(cs, s, base, loop).value.cs.scopes, Declared(n, s))
  {
    hide IsTemp, Truncate32, EmitExpr, RejectedExpr, AddConstant;
    ExprRejected(cs, s.value, n);
  }

  lemma {:induction false} IfRejected(cs: CState, s: Stmt, base: nat, loop: Option<nat>, n: Names)
    requires Sees(cs.scopes, n) && PlainStmt(s) && s.If?
    ensures AsNamed(EmitStmt(cs, s, base, loop), Rejected(n, loop.Some?, s))
    ensures EmitStmt(cs, s, base, loop).Ok? ==> Sees(EmitStmt(cs, s, base, loop).value.cs.scopes, Declared(n, s))
    decreases s, 1
  {
    assert cs.scopes != [];
    hide IsTemp, Truncate32, EmitExpr, EmitScope, RejectedExpr, RejectedBlock, Size, Sees, PlainExpr, PlainBlock, Inner;
    ExprRejected(cs, s.cond, n);
    if EmitExpr(cs, s.cond).Ok? {
      var cond := EmitExpr(cs, s.cond).value;
      var thenBase := base + Size(cond.code) + 5;
      ScopeRejected(cond.cs, s.thenBlock, thenBase, loop, n);
      if EmitScope(cond.cs, s.thenBlock, thenBase, loop).Ok? {
        var thn := EmitScope(cond.cs, s.thenBlock, thenBase, loop).value;
        ScopeRejected(thn.cs, s.elseBlock, thenBase + Size(thn.code) + 5, loop, n);
      }
    }
  }

  lemma {:induction false} WhileRejected(cs: CState, s: Stmt, base: nat, loop: Option<nat>, n: Names)
    requires Sees(cs.scopes, n) && PlainStmt(s) && s.While?
    ensures AsNamed(EmitStmt(cs, s, base, loop), Rejected(n, loop.Some?, s))
    ensures EmitStmt(cs, s, base, loop).Ok? ==> Sees(EmitStmt(cs, s, base, loop).value.cs.scopes, Declared(n, s))
    decreases s, 1
  {
    assert cs.scopes != [];
    hide IsTemp, Truncate32, EmitExpr, EmitScope, RejectedExpr, RejectedBlock, Size, Fill, Sees;
    ExprRejected(cs, s.cond, n);
    if EmitExpr(cs, s.cond).Ok? {
      var cond := EmitExpr(cs, s.cond).value;
      ScopeRejected(cond.cs, s.body, base + Size(cond.code) + 5, Some(base), n);
    }
  }

  lemma {:induction false} SwitchRejected(cs: CState, s: Stmt, base: nat, loop: Option<nat>, n: Names)
    requires Sees(cs.scopes, n) && PlainStmt(s) && s.Switch?
    ensures AsNamed(EmitStmt(cs, s, base, loop), Rejected(n, loop.Some?, s))
    ensures EmitStmt(cs, s, base, loop).Ok? ==> Sees(EmitStmt(cs, s, base, loop).value.cs.scopes, Declared(n, s))
    decreases s, 1
  {
    hide IsTemp, Truncate32, EmitExpr, EmitArms, RejectedExpr, RejectedBlock, RejectedCases, Size, Sees, TempName, Define;
    var temp := AddConstant(cs.constants, Text(TempName(cs.labels))).1;
    TempIsTemp(cs.labels);
    SeesTemp(cs.scopes, n, TempName(cs.labels), Symbol(temp, false));
    var cs1 := SwitchEntry(cs);
    ExprRejected(cs1, s.value, n);
    if EmitExpr(cs1, s.value).Ok? {
      var value := EmitExpr(cs1, s.value).value;
      ArmsRejected(value.cs, s, temp, base + Size(value.code) + 5, loop, n);
    }
  }

  lemma {:induction false} ArmsRejected(cs: CState, s: Stmt, temp: nat, base: nat, loop: Option<nat>, n: Names)
    requires Sees(cs.scopes, n) && PlainStmt(s) && s.Switch?
    ensures AsNamed(EmitArms(cs, s, temp, base, loop),
                    if RejectedCases(n, loop.Some?, s.cases).Some? then RejectedCases(n, loop.Some?, s.cases)
                    else RejectedBlock(Inner(n), loop.Some?, s.defaultBlock))
    ensures EmitArms(cs, s, temp, base, loop).Ok? ==> Sees(EmitArms(cs, s, temp, base, loop).value.cs.scopes, n)
    decreases s, 0
  {
    assert PlainCases(s.cases) && PlainBlock(s.defaultBlock);
    hide *;
    SomeScope(cs.scopes, n);
    var a := EmitCases(cs, s.cases, temp, base, loop);
    CasesRejected(cs, s.cases, temp, base, loop, n);
    ArmsJoin(cs, s, temp, base, loop);
    if a.Ok? {
      ScopeRejected(a.value.cs, s.defaultBlock, base + Size(a.value.code), loop, n);
    }
    var b := if a.Ok? then EmitScope(a.value.cs, s.defaultBlock, base + Size(a.value.code), loop) else a;
    JoinNamed(a, b, EmitArms(cs, s, temp, base, loop), RejectedCases(n, loop.Some?, s.cases),
              RejectedBlock(Inner(n), loop.Some?, s.defaultBlock), n);
  }

  // One emission after another: the first error is the whole's, and the scopes are the second's.
  ghost predicate Joins(a: Emission, b: Emission, whole: Emission) {
    && (a.Err? ==> whole == a)
    && (a.Ok? && b.Err? ==> whole == b)
    && (a.Ok? && b.Ok? ==> whole.Ok? && whole.value.cs.scopes == b.value.cs.scopes)
  }

  lemma JoinNamed(a: Emission, b: Emission, whole: Emission, ra: Option<CompileError>, rb: Option<CompileError>, n: Names)
    requires Joins(a, b, whole) && AsNamed(a, ra) && (a.Ok? ==> AsNamed(b, rb))
    requires a.Ok? && b.Ok? ==> Sees(b.value.cs.scopes, n)
    ensures AsNamed(whole, if ra.Some? then ra else rb) && (whole.Ok? ==> Sees(whole.value.cs.scopes, n))
  {
  }

  lemma ArmsJoin(cs: CState, s: Stmt, temp: nat, base: nat, loop: Option<nat>)
    requires cs.scopes != [] && s.Switch?
    ensures var a := EmitCases(cs, s.cases, temp, base, loop);
            Joins(a, if a.Ok? then EmitScope(a.value.cs, s.defaultBlock, base + Size(a.value.code), loop) else a,
                  EmitArms(cs, s, temp, base, loop))
  {
    hide EmitCases, EmitScope, Size, Fill, Truncate32;
  }

  lemma BlockJoin(cs: CState, stmts: seq<Stmt>, base: nat, loop: Option<nat>)
    requires cs.scopes != [] && stmts != []
    ensures var a := EmitStmt(cs, stmts[0], base, loop);
            Joins(a, if a.Ok? then EmitBlock(a.value.cs, stmts[1..], base + Size(a.value.code), loop) else a,
                  EmitBlock(cs, stmts, base, loop))
  {
    hide EmitStmt, Size;
  }

  lemma CasesJoin(cs: CState, cases: seq<Case>, temp: nat, base: nat, loop: Option<nat>)
    requires cs.scopes != [] && cases != []
    ensures var a := EmitCase(cs, cases[0], temp, base, loop);
            Joins(a, if a.Ok? then EmitCases(a.value.cs, cases[1..], temp, base + Size(a.value.code), loop) else a,
                  EmitCases(cs, cases, temp, base, loop))
  {
    hide EmitCase, Size;
  }

  lemma {:induction false} BlockRejected(cs: CState, stmts: seq<Stmt>, base: nat, loop: Option<nat>, n: Names)
    requires Sees(cs.scopes, n) && PlainBlock(stmts)
    ensures AsNamed(EmitBlock(cs, stmts, base, loop), RejectedBlock(n, loop.Some?, stmts))
    ensures EmitBlock(cs, stmts, base, loop).Ok? ==> Sees(EmitBlock(cs, stmts, base, loop).value.cs.scopes, DeclaredBlock(n, stmts))
    decreases stmts, 0
  {
    hide *;
    SomeScope(cs.scopes, n);
    if stmts == [] {
      NothingRejected(cs, base, loop, n);
    } else {
      BlockUnfolds(n, loop.Some?, stmts);
      var a := EmitStmt(cs, stmts[0], base, loop);
      var next := Declared(n, stmts[0]);
      StmtRejected(cs, stmts[0], base, loop, n);
      BlockJoin(cs, stmts, base, loop);
      if a.Ok? {
        BlockRejected(a.value.cs, stmts[1..], base + Size(a.value.code), loop, next);
      }
      var b := if a.Ok? then EmitBlock(a.value.cs, stmts[1..], base + Size(a.value.code), loop) else a;
      JoinNamed(a, b, EmitBlock(cs, stmts, base, loop), Rejected(n, loop.Some?, stmts[0]),
                RejectedBlock(next, loop.Some?, stmts[1..]), DeclaredBlock(next, stmts[1..]));
    }
  }

  lemma SomeScope(scopes: seq<Scope>, n: Names)
    requires Sees(scopes, n)
    ensures scopes != []
  {
  }

  lemma NothingRejected(cs: CState, base: nat, loop: Option<nat>, n: Names)
    requires Sees(cs.scopes, n)
    ensures AsNamed(EmitBlock(cs, [], base, loop), RejectedBlock(n, loop.Some?, [])) && DeclaredBlock(n, []) == n
    ensures EmitBlock(cs, [], base, loop).Ok? && EmitBlock(cs, [], base, loop).value.cs == cs
    ensures forall temp :: EmitCases(cs, [], temp, base, loop) == Ok(Emitted([], cs))
    ensures AsNamed(Ok(Emitted([], cs)), RejectedCases(n, loop.Some?, []))
  {
  }

  lemma BlockUnfolds(n: Names, inLoop: bool, stmts: seq<Stmt>)
    requires stmts != [] && PlainBlock(stmts)
    ensures PlainStmt(stmts[0]) && PlainBlock(stmts[1..])
    ensures var next := Declared(n, stmts[0]);
            && RejectedBlock(n, inLoop, stmts) == (if Rejected(n, inLoop, stmts[0]).Some? then Rejected(n, inLoop, stmts[0])
                                                   else RejectedBlock(next, inLoop, stmts[1..]))
            && DeclaredBlock(n, stmts) == DeclaredBlock(next, stmts[1..])
  {
    hide Rejected, Declared;
  }

  // A block in a scope of its own leaves the names as they were.
  lemma {:induction false} ScopeRejected(cs: CState, stmts: seq<Stmt>, base: nat, loop: Option<nat>, n: Names)
    requires Sees(cs.scopes, n) && PlainBlock(stmts)
    ensures AsNamed(EmitScope(cs, stmts, base, loop), RejectedBlock(Inner(n), loop.Some?, stmts))
    ensures EmitScope(cs, stmts, base, loop).Ok? ==> Sees(EmitScope(cs, stmts, base, loop).value.cs.scopes, n)
    decreases stmts, 1
  {
    assert cs.scopes != [];
    hide EmitBlock, RejectedBlock, Sees;
    SeesPush(cs.scopes, n);
    var inner := cs.(scopes := cs.scopes + [map[]]);
    BlockRejected(inner, stmts, base, loop, Inner(n));
    if EmitScope(cs, stmts, base, loop).Ok? {
      ScopeKeeps(cs, stmts, base, loop);
    }
  }

  lemma {:induction false} CaseRejected(cs: CState, c: Case, temp: nat, base: nat, loop: Option<nat>, n: Names)
    requires Sees(cs.scopes, n) && PlainExpr(c.value) && PlainBlock(c.body)
    ensures AsNamed(EmitCase(cs, c, temp, base, loop), RejectedCase(n, loop.Some?, c))
    ensures EmitCase(cs, c, temp, base, loop).Ok? ==> Sees(EmitCase(cs, c, temp, base, loop).value.cs.scopes, n)
    decreases c, 0
  {
    assert cs.scopes != [];
    hide IsTemp, Truncate32, EmitExpr, EmitScope, RejectedExpr, RejectedBlock, Size, Sees, PlainExpr, PlainBlock;
    ExprRejected(cs, c.value, n);
    if EmitExpr(cs, c.value).Ok? {
      var value := EmitExpr(cs, c.value).value;
      ScopeRejected(value.cs, c.body, base + 5 + Size(value.code) + 6, loop, n);
    }
  }

  lemma {:induction false} CasesRejected(cs: CState, cases: seq<Case>, temp: nat, base: nat, loop: Option<nat>, n: Names)
    requires Sees(cs.scopes, n) && PlainCases(cases)
    ensures AsNamed(EmitCases(cs, cases, temp, base, loop), RejectedCases(n, loop.Some?, cases))
    ensures EmitCases(cs, cases, temp, base, loop).Ok? ==> Sees(EmitCases(cs, cases, temp, base, loop).value.cs.scopes, n)
    decreases cases, 0
  {
    hide *;
    SomeScope(cs.scopes, n);
    if cases == [] {
      NothingRejected(cs, base, loop, n);
    } else {
      CasesUnfold(n, loop.Some?, cases);
      var a := EmitCase(cs, cases[0], temp, base, loop);
      CaseRejected(cs, cases[0], temp, base, loop, n);
      CasesJoin(cs, cases, temp, base, loop);
      if a.Ok? {
        CasesRejected(a.value.cs, cases[1..], temp, base + Size(a.value.code), loop, n);
      }
      var b := if a.Ok? then EmitCases(a.value.cs, cases[1..], temp, base + Size(a.value.code), loop) else a;
      JoinNamed(a, b, EmitCases(cs, cases, temp, base, loop), RejectedCase(n, loop.Some?, cases[0]),
                RejectedCases(n, loop.Some?, cases[1..]), n);
    }
  }

  lemma CasesUnfold(n: Names, inLoop: bool, cases: seq<Case>)
    requires cases != [] && PlainCases(cases)
    ensures PlainExpr(cases[0].value) && PlainBlock(cases[0].body) && PlainCases(cases[1..])
    ensures RejectedCases(n, inLoop, cases) == (if RejectedCase(n, inLoop, cases[0]).Some? then RejectedCase(n, inLoop, cases[0])
                                                else RejectedCases(n, inLoop, cases[1..]))
  {
    hide RejectedCase;
  }

  // ---- units ----

  function Entry(u: Unit): Names {
    Names((set x | x in u.names) + (set x | x in u.builtins), (set x | x in u.names) - (set x | x in u.builtins))
  }

  lemma {:induction false} NamesSeen(cs: CState, names: seq<Str>, builtin: bool, n: Names)
    requires Sees(cs.scopes, n) && forall x | x in names :: !IsTemp(x)
    ensures var given := set x | x in names;
            Sees(DefineNames(cs, names, builtin).scopes,
                 Names(n.known + given, if builtin then n.own - given else n.own + given))
    decreases |names|
  {
    hide IsTemp, AddConstant, Define;
    if names != [] {
      var (constants, index) := AddConstant(cs.constants, Text(names[0]));
      NameSeen(cs.scopes, names[0], Symbol(index, builtin), n);
      var one := {names[0]};
      var n1 := Names(n.known + one, if builtin then n.own - one else n.own + one);
      var cs1 := cs.(constants := constants, scopes := Define(cs.scopes, names[0], Symbol(index, builtin)));
      NamesSeen(cs1, names[1..], builtin, n1);
      var given := set x | x in names;
      var more := set x | x in names[1..];
      assert given == one + more;
      assert n.known + given == n1.known + more;
      assert n.own + given == n.own + one + more && n.own - given == n.own - one - more;
    } else {
      assert n.own - {} == n.own == n.own + {} && n.known + {} == n.known;
    }
  }

  lemma NameSeen(scopes: seq<Scope>, x: Str, symbol: Symbol, n: Names)
    requires Sees(scopes, n) && !IsTemp(x)
    ensures Sees(Define(scopes, x, symbol), Names(n.known + {x}, if symbol.builtin then n.own - {x} else n.own + {x}))
  {
    forall y ensures Resolve(Define(scopes, x, symbol), y) == if y == x then Some(symbol) else Resolve(scopes, y) {
      ResolveDefined(scopes, x, symbol, y);
    }
  }

  // A unit compiles exactly if its names are in order, and otherwise the first error is the one reported.
  lemma UnitRejected(u: Unit)
    requires PlainBlock(u.body) && (forall x | x in u.names :: PlainName(x)) && (forall x | x in u.builtins :: PlainName(x))
    ensures AsNamed(EmitUnit(u), RejectedBlock(Entry(u), false, u.body))
  {
    hide EmitBlock, RejectedBlock, DefineNames, IsTemp, PlainBlock;
    var start := CState([], [map[], map[]], 0);
    StartSees();
    var names := set x | x in u.names;
    NamesSeen(start, u.names, false, Names({}, {}));
    NamesSeen(DefineNames(start, u.names, false), u.builtins, true, Names({} + names, {} + names));
    assert Entry(u) == Names({} + names + (set x | x in u.builtins), {} + names - (set x | x in u.builtins));
    BlockRejected(UnitEntry(u), u.body, 0, None, Entry(u));
  }

  lemma StartSees()
    ensures Sees([map[], map[]], Names({}, {}))
  {
    var start: seq<Scope> := [map[], map[]];
    assert start[..1][..0] == [];
    forall x ensures Resolve(start, x) == None {
      assert Resolve(start[..1], x) == Resolve(start[..1][..0], x);
    }
  }
}
