/** Lexical scopes against one flat store: how the interpreter's environment chain, the compiler's
  * symbol tables and the machine's variables stay in step. */
module Scoping {
  import opened Bytes
  import opened Lang
  import opened Interpreter
  import opened CodeGen

  // One scope of the chain: it binds exactly the names the compiler has in that scope (its own
  // temporaries aside), and the flat store holds every bound value.
  ghost predicate AgreeLevel(vars: map<Str, Value>, scope: Scope, locals: map<Str, Value>) {
    && (forall x :: x in vars <==> x in scope && !IsTemp(x))
    && (forall x | x in vars :: x in locals && locals[x] == vars[x])
  }

  // All scopes agree, and no name is bound twice along the chain.
  ghost predicate Agree(env: Env, scopes: seq<Scope>, locals: map<Str, Value>) {
    && |env| == |scopes|
    && (forall k | 0 <= k < |env| :: AgreeLevel(env[k], scopes[k], locals))
    && (forall j, k | 0 <= j < k < |env| :: env[j].Keys !! env[k].Keys)
  }

  lemma AgreePrefix(env: Env, scopes: seq<Scope>, locals: map<Str, Value>, m: nat)
    requires Agree(env, scopes, locals) && m <= |env|
    ensures Agree(env[..m], scopes[..m], locals)
  {
  }

  lemma AgreePush(env: Env, scopes: seq<Scope>, locals: map<Str, Value>)
    requires Agree(env, scopes, locals)
    ensures Agree(env + [map[]], scopes + [map[]], locals)
  {
  }

  // A name the compiler resolves is bound at run time, to what the flat store holds.
  lemma {:induction false} AgreeGet(env: Env, scopes: seq<Scope>, locals: map<Str, Value>, x: Str)
    requires Agree(env, scopes, locals) && !IsTemp(x)
    ensures Has(env, x) <==> Resolve(scopes, x).Some?
    ensures Has(env, x) ==> x in locals && Get(env, x) == Ok(locals[x])
    ensures !Has(env, x) ==> forall k | 0 <= k < |env| :: x !in env[k]
  {
    if env != [] {
      var last := |env| - 1;
      AgreePrefix(env, scopes, locals, last);
      AgreeGet(env[..last], scopes[..last], locals, x);
    }
  }

  // One update of a bound name is one update of the flat store.
  lemma {:induction false} AgreeSet(env: Env, scopes: seq<Scope>, locals: map<Str, Value>, x: Str, v: Value)
    requires Agree(env, scopes, locals) && Has(env, x)
    ensures Agree(SetExisting(env, x, v), scopes, locals[x := v])
  {
    var last := |env| - 1;
    var env' := SetExisting(env, x, v);
    AgreePrefix(env, scopes, locals, last);
    if x in env[last] {
      forall k | 0 <= k < last ensures AgreeLevel(env'[k], scopes[k], locals[x := v]) {
        assert env[k].Keys !! env[last].Keys;
        assert AgreeLevel(env[k], scopes[k], locals);
      }
    } else {
      AgreeSet(env[..last], scopes[..last], locals, x, v);
      SetKeys(env, x, v);
      forall k | 0 <= k < |env| ensures AgreeLevel(env'[k], scopes[k], locals[x := v]) {
        if k < last {
          assert scopes[..last][k] == scopes[k];
        } else {
          assert AgreeLevel(env[k], scopes[k], locals);
        }
      }
    }
  }

  lemma AgreeDefine(env: Env, scopes: seq<Scope>, locals: map<Str, Value>, x: Str, v: Value, symbol: Symbol)
    requires Agree(env, scopes, locals) && env != [] && !IsTemp(x)
    requires forall k | 0 <= k < |env| :: x !in env[k]
    ensures Agree(env[..|env| - 1] + [env[|env| - 1][x := v]], Define(scopes, x, symbol), locals[x := v])
  {
  }

  lemma AgreeTemp(env: Env, scopes: seq<Scope>, locals: map<Str, Value>, x: Str, v: Value, symbol: Symbol)
    requires Agree(env, scopes, locals) && env != [] && IsTemp(x)
    ensures Agree(env, Define(scopes, x, symbol), locals)
    ensures Agree(env, Define(scopes, x, symbol), locals[x := v])
  {
  }

  // Every symbol's index leads to its name in the pool.
  ghost predicate PooledLevel(scope: Scope, constants: seq<Value>) {
    forall x | x in scope :: scope[x].index < |constants| && constants[scope[x].index] == Text(x)
  }

  ghost predicate Pooled(scopes: seq<Scope>, constants: seq<Value>) {
    forall k | 0 <= k < |scopes| :: PooledLevel(scopes[k], constants)
  }

  lemma {:induction false} PooledResolve(scopes: seq<Scope>, constants: seq<Value>, x: Str)
    requires Pooled(scopes, constants) && Resolve(scopes, x).Some?
    ensures var i := Resolve(scopes, x).value.index; i < |constants| && constants[i] == Text(x)
  {
    var last := |scopes| - 1;
    assert PooledLevel(scopes[last], constants);
    if x !in scopes[last] {
      PooledResolve(scopes[..last], constants, x);
    }
  }
}
