/** Symbol tables: one object per scope, chained to the scope around it. */
module Symbols {
  import opened Bytes
  import opened Lang
  import opened CodeGen

  class SymbolTable {
    const parent: SymbolTable?
    // The tables from the outermost one down to this one.
    ghost const chain: seq<SymbolTable>
    var symbols: Scope

    ghost predicate Linked() {
      && |chain| > 0 && chain[|chain| - 1] == this
      && (forall i | 0 <= i < |chain| :: chain[i].chain == chain[..i + 1])
      && (forall i | 0 < i < |chain| :: chain[i].parent == chain[i - 1])
      && chain[0].parent == null
    }

    // The chain's contents, as the specification of the compiler sees them.
    ghost function Scopes(): (s: seq<Scope>)
      reads chain
      ensures |s| == |chain|
    {
      seq(|chain|, i requires 0 <= i < |chain| reads chain => chain[i].symbols)
    }

    constructor (parent: SymbolTable?)
      requires parent != null ==> parent.Linked()
      ensures Linked() && this.parent == parent && symbols == map[]
      ensures chain == (if parent == null then [] else parent.chain) + [this]
    {
      this.parent := parent;
      symbols := map[];
      chain := (if parent == null then [] else parent.chain) + [this];
    }

    method Define(name: Str, index: nat)
      requires Linked()
      modifies this
      ensures Scopes() == CodeGen.Define(old(Scopes()), name, Symbol(index, false))
    {
      symbols := symbols[name := Symbol(index, false)];
      OnlyLast();
    }

    method DefineBuiltin(name: Str, index: nat)
      requires Linked()
      modifies this
      ensures Scopes() == CodeGen.Define(old(Scopes()), name, Symbol(index, true))
    {
      symbols := symbols[name := Symbol(index, true)];
      OnlyLast();
    }

    // A table occurs once in its chain: every table's chain is as long as its own position.
    lemma OnlyLast()
      requires Linked()
      ensures forall i | 0 <= i < |chain| - 1 :: chain[i] != this
    {
      forall i | 0 <= i < |chain| - 1 ensures chain[i] != this {
        assert |chain[i].chain| == i + 1;
      }
    }

    // The innermost definition wins; a null parent ends the search.
    function Resolve(name: Str): (r: Option<Symbol>)
      requires Linked()
      reads chain
      ensures r == CodeGen.Resolve(Scopes(), name)
      decreases |chain|
    {
      var last := |chain| - 1;
      if name in symbols then Some(symbols[name])
      else if parent != null then
        assert parent == chain[last - 1];
        ParentLinked();
        assert parent.Scopes() == Scopes()[..last];
        parent.Resolve(name)
      else None
    }

    lemma ParentLinked()
      requires Linked() && parent != null
      ensures parent.Linked() && parent.chain == chain[..|chain| - 1] && |chain| > 1
    {
      var n := |chain| - 1;
      assert parent == chain[n - 1];
      assert parent.chain == chain[..n];
      forall i | 0 <= i < n ensures chain[..n][i].chain == chain[..n][..i + 1] {
        assert chain[i].chain == chain[..i + 1] == chain[..n][..i + 1];
      }
    }

    function ResolveLocal(name: Str): (r: Option<Symbol>)
      reads this
      ensures r.Some? <==> name in symbols
      ensures r.Some? ==> r.value == symbols[name]
    {
      if name in symbols then Some(symbols[name]) else None
    }

    method EnterScope() returns (t: SymbolTable)
      requires Linked()
      ensures fresh(t) && t.Linked() && t.parent == this && t.chain == chain + [t]
      ensures t.Scopes() == Scopes() + [map[]]
    {
      t := new SymbolTable(this);
    }
  }
}
