/** The edit distance behind the "did you mean" suggestions. */
module Levenshtein {
  import opened Bytes

  type Str = seq<Byte>

  function Min(a: int, b: int, c: int): int {
    if a < b then (if a < c then a else c) else if b < c then b else c
  }

  function Init(s: Str): Str
    requires s != []
  {
    s[..|s| - 1]
  }

  function Last(s: Str): Byte
    requires s != []
  {
    s[|s| - 1]
  }

  function Cost(x: Byte, y: Byte): nat {
    if x != y then 1 else 0
  }

  // Deletion, insertion or substitution of the last character, whichever is cheapest.
  function Distance(a: Str, b: Str): nat
    decreases |a| + |b|
  {
    if a == [] then |b|
    else if b == [] then |a|
    else Min(Distance(Init(a), b) + 1, Distance(a, Init(b)) + 1, Distance(Init(a), Init(b)) + Cost(Last(a), Last(b)))
  }

  // ---- the table ----

  lemma {:induction false} CellEdge(s1: Str, s2: Str, i: nat, j: nat)
    requires i <= |s1| && j <= |s2|
    ensures i == 0 ==> Distance(s1[..i], s2[..j]) == j
    ensures j == 0 ==> Distance(s1[..i], s2[..j]) == i
  {
  }

  lemma {:induction false} CellInside(s1: Str, s2: Str, i: nat, j: nat)
    requires 0 < i <= |s1| && 0 < j <= |s2|
    ensures Distance(s1[..i], s2[..j]) ==
              Min(Distance(s1[..i - 1], s2[..j]) + 1, Distance(s1[..i], s2[..j - 1]) + 1,
                  Distance(s1[..i - 1], s2[..j - 1]) + Cost(s1[i - 1], s2[j - 1]))
  {
    hide Distance;
    assert Init(s1[..i]) == s1[..i - 1] && Init(s2[..j]) == s2[..j - 1];
    Unfolded(s1[..i], s2[..j]);
  }

  lemma {:induction false} Unfolded(a: Str, b: Str)
    requires a != [] && b != []
    ensures Distance(a, b) ==
              Min(Distance(Init(a), b) + 1, Distance(a, Init(b)) + 1, Distance(Init(a), Init(b)) + Cost(Last(a), Last(b)))
  {
  }

  method LevenshteinDistance(s1: Str, s2: Str) returns (r: nat)
    ensures r == Distance(s1, s2)
  {
    hide Distance;
    CellEdge(s1, s2, |s1|, |s2|);
    assert s1[..|s1|] == s1 && s2[..|s2|] == s2;
    if |s1| == 0 {
      return |s2|;
    }
    if |s2| == 0 {
      return |s1|;
    }
    var d := new nat[|s1| + 1, |s2| + 1];
    var i := 0;
    while i <= |s1|
      invariant i <= |s1| + 1 && forall k | 0 <= k < i :: d[k, 0] == k
    {
      d[i, 0] := i;
      i := i + 1;
    }
    var j := 0;
    while j <= |s2|
      invariant j <= |s2| + 1 && forall k | 0 <= k < j :: d[0, k] == k
      invariant forall k | 0 <= k <= |s1| :: d[k, 0] == k
    {
      d[0, j] := j;
      j := j + 1;
    }
    forall l | 0 <= l <= |s2| ensures d[0, l] == Distance(s1[..0], s2[..l]) {
      CellEdge(s1, s2, 0, l);
    }
    i := 1;
    while i <= |s1|
      invariant 1 <= i <= |s1| + 1
      invariant forall k | 0 <= k <= |s1| :: d[k, 0] == k
      invariant forall k, l | 0 <= k < i && 0 <= l <= |s2| :: d[k, l] == Distance(s1[..k], s2[..l])
    {
      CellEdge(s1, s2, i, 0);
      j := 1;
      while j <= |s2|
        invariant 1 <= j <= |s2| + 1
        invariant forall k | 0 <= k <= |s1| :: d[k, 0] == k
        invariant forall k, l | 0 <= k < i && 0 <= l <= |s2| :: d[k, l] == Distance(s1[..k], s2[..l])
        invariant forall l | 0 <= l < j :: d[i, l] == Distance(s1[..i], s2[..l])
      {
        var cost := 0;
        if s1[i - 1] != s2[j - 1] {
          cost := 1;
        }
        CellInside(s1, s2, i, j);
        d[i, j] := Min(d[i - 1, j] + 1, d[i, j - 1] + 1, d[i - 1, j - 1] + cost);
        j := j + 1;
      }
      i := i + 1;
    }
    r := d[|s1|, |s2|];
  }

  // ---- edit scripts ----

  datatype Edit = Insert(at: nat, c: Byte) | Delete(at: nat) | Substitute(at: nat, c: Byte)

  predicate Applies(e: Edit, s: Str) {
    if e.Insert? then e.at <= |s| else e.at < |s|
  }

  function Apply(e: Edit, s: Str): Str
    requires Applies(e, s)
  {
    match e
    case Insert(i, c) => s[..i] + [c] + s[i..]
    case Delete(i) => s[..i] + s[i + 1..]
    case Substitute(i, c) => s[i := c]
  }

  predicate Turns(script: seq<Edit>, a: Str, b: Str)
    decreases |script|
  {
    if script == [] then a == b else Applies(script[0], a) && Turns(script[1..], Apply(script[0], a), b)
  }

  lemma {:induction false} TurnsOn(s: seq<Edit>, t: seq<Edit>, a: Str, b: Str, c: Str)
    requires Turns(s, a, b) && Turns(t, b, c)
    ensures Turns(s + t, a, c)
    decreases |s|
  {
    if s == [] {
      assert s + t == t;
    } else {
      assert (s + t)[1..] == s[1..] + t;
      TurnsOn(s[1..], t, Apply(s[0], a), b, c);
    }
  }

  lemma TurnsOne(e: Edit, a: Str)
    requires Applies(e, a)
    ensures Turns([e], a, Apply(e, a))
  {
    assert [e][1..] == [];
  }

  lemma ApplyBefore(e: Edit, s: Str, x: Byte)
    requires Applies(e, s)
    ensures Applies(e, s + [x]) && Apply(e, s + [x]) == Apply(e, s) + [x]
  {
  }

  // The same edits with a character kept at the end.
  lemma {:induction false} TurnsBefore(script: seq<Edit>, a: Str, b: Str, x: Byte)
    requires Turns(script, a, b)
    ensures Turns(script, a + [x], b + [x])
    decreases |script|
  {
    if script != [] {
      ApplyBefore(script[0], a, x);
      TurnsBefore(script[1..], Apply(script[0], a), b, x);
    }
  }

  lemma InsertLast(b: Str)
    requires b != []
    ensures var e := Insert(|b| - 1, Last(b)); Applies(e, Init(b)) && Apply(e, Init(b)) == b
  {
  }

  lemma DeleteLast(a: Str)
    requires a != []
    ensures var e := Delete(|a| - 1); Applies(e, a) && Apply(e, a) == Init(a)
  {
  }

  // How the distance comes about.
  lemma {:induction false} Cheapest(a: Str, b: Str)
    ensures a == [] && b == [] ==> Distance(a, b) == 0
    ensures a == [] && b != [] ==> Distance(a, b) == Distance(a, Init(b)) + 1
    ensures b == [] && a != [] ==> Distance(a, b) == Distance(Init(a), b) + 1
    ensures a != [] && b != [] ==>
              || Distance(a, b) == Distance(Init(a), b) + 1
              || Distance(a, b) == Distance(a, Init(b)) + 1
              || Distance(a, b) == Distance(Init(a), Init(b)) + Cost(Last(a), Last(b))
  {
  }

  lemma ThenInsert(script: seq<Edit>, a: Str, b: Str)
    requires b != [] && Turns(script, a, Init(b))
    ensures Turns(script + [Insert(|b| - 1, Last(b))], a, b)
  {
    InsertLast(b);
    var e := Insert(|b| - 1, Last(b));
    TurnsOne(e, Init(b));
    TurnsOn(script, [e], a, Init(b), b);
  }

  lemma DeleteThen(script: seq<Edit>, a: Str, b: Str)
    requires a != [] && Turns(script, Init(a), b)
    ensures Turns([Delete(|a| - 1)] + script, a, b)
  {
    DeleteLast(a);
    var e := Delete(|a| - 1);
    TurnsOne(e, a);
    TurnsOn([e], script, a, Init(a), b);
  }

  lemma SubstituteLast(s: Str, x: Byte, y: Byte)
    ensures var e := Substitute(|s|, y); Applies(e, s + [x]) && Apply(e, s + [x]) == s + [y]
  {
  }

  lemma ThenSubstitute(script: seq<Edit>, a: Str, b: Str)
    requires a != [] && b != [] && Turns(script, Init(a), Init(b))
    ensures Last(a) == Last(b) ==> Turns(script, a, b)
    ensures Turns(script + [Substitute(|b| - 1, Last(b))], a, b)
  {
    hide Turns, Apply, Distance;
    TurnsBefore(script, Init(a), Init(b), Last(a));
    assert Init(a) + [Last(a)] == a && Init(b) + [Last(b)] == b;
    var e := Substitute(|b| - 1, Last(b));
    var mid := Init(b) + [Last(a)];
    SubstituteLast(Init(b), Last(a), Last(b));
    TurnsOne(e, mid);
    TurnsOn(script, [e], a, mid, b);
  }

  // There is a script of exactly that length.
  lemma {:induction false} ScriptExists(a: Str, b: Str) returns (script: seq<Edit>)
    ensures Turns(script, a, b) && |script| == Distance(a, b)
    decreases |a| + |b|
  {
    hide Distance;
    Cheapest(a, b);
    if a == [] && b == [] {
      script := [];
    } else if a == [] || (b != [] && Distance(a, b) == Distance(a, Init(b)) + 1) {
      script := ScriptExists(a, Init(b));
      ThenInsert(script, a, b);
      script := script + [Insert(|b| - 1, Last(b))];
    } else if b == [] || Distance(a, b) == Distance(Init(a), b) + 1 {
      script := ScriptExists(Init(a), b);
      DeleteThen(script, a, b);
      script := [Delete(|a| - 1)] + script;
    } else {
      script := ScriptExists(Init(a), Init(b));
      ThenSubstitute(script, a, b);
      if Last(a) != Last(b) {
        script := script + [Substitute(|b| - 1, Last(b))];
      }
    }
  }

  // ---- a metric ----

  lemma {:induction false} Bounds(a: Str, b: Str)
    ensures |a| - |b| <= Distance(a, b) && |b| - |a| <= Distance(a, b)
    ensures Distance(a, b) <= |a| || Distance(a, b) <= |b|
    decreases |a| + |b|
  {
    if a != [] && b != [] {
      Bounds(Init(a), b);
      Bounds(a, Init(b));
      Bounds(Init(a), Init(b));
    }
  }

  lemma {:induction false} Symmetric(a: Str, b: Str)
    ensures Distance(a, b) == Distance(b, a)
    decreases |a| + |b|
  {
    if a != [] && b != [] {
      Symmetric(Init(a), b);
      Symmetric(a, Init(b));
      Symmetric(Init(a), Init(b));
    }
  }

  lemma {:induction false} ZeroIffEqual(a: Str, b: Str)
    ensures Distance(a, b) == 0 <==> a == b
    decreases |a| + |b|
  {
    if a != [] && b != [] {
      ZeroIffEqual(Init(a), Init(b));
      assert Init(a) + [Last(a)] == a && Init(b) + [Last(b)] == b;
    }
  }

  lemma {:induction false} Triangle(a: Str, b: Str, c: Str)
    ensures Distance(a, c) <= Distance(a, b) + Distance(b, c)
    decreases |a| + |b| + |c|
  {
    if a == [] || b == [] || c == [] {
      Bounds(a, b);
      Bounds(b, c);
      Bounds(a, c);
    } else if Distance(a, b) == Distance(Init(a), b) + 1 {
      Triangle(Init(a), b, c);
    } else if Distance(b, c) == Distance(b, Init(c)) + 1 {
      Triangle(a, b, Init(c));
    } else if Distance(a, b) == Distance(a, Init(b)) + 1 {
      if Distance(b, c) == Distance(Init(b), c) + 1 {
        Triangle(a, Init(b), c);
      } else {
        Triangle(a, Init(b), Init(c));
      }
    } else if Distance(b, c) == Distance(Init(b), c) + 1 {
      Triangle(Init(a), Init(b), c);
    } else {
      Triangle(Init(a), Init(b), Init(c));
    }
  }

  lemma {:induction false} OneEdit(e: Edit, s: Str)
    requires Applies(e, s)
    ensures Distance(s, Apply(e, s)) <= 1
    decreases |s|
  {
    var t := Apply(e, s);
    ZeroIffEqual(s, s);
    if e.Insert? && e.at == |s| {
      assert Init(t) == s;
    } else {
      ZeroIffEqual(Init(s), Init(s));
      if e.at == |s| - 1 && e.Delete? {
        assert t == Init(s);
      } else if e.at == |s| - 1 && e.Substitute? {
        assert Init(t) == Init(s);
      } else {
        assert Init(s) + [Last(s)] == s;
        ApplyBefore(e, Init(s), Last(s));
        assert Init(t) == Apply(e, Init(s));
        OneEdit(e, Init(s));
      }
    }
  }

  // No script is shorter.
  lemma {:induction false} NoShorterScript(script: seq<Edit>, a: Str, b: Str)
    requires Turns(script, a, b)
    ensures Distance(a, b) <= |script|
    decreases |script|
  {
    if script == [] {
      ZeroIffEqual(a, b);
    } else {
      var mid := Apply(script[0], a);
      OneEdit(script[0], a);
      NoShorterScript(script[1..], mid, b);
      Triangle(a, mid, b);
    }
  }

  // The distance is the length of a shortest edit script.
  lemma ShortestScript(a: Str, b: Str)
    ensures exists script :: Turns(script, a, b) && |script| == Distance(a, b)
    ensures forall script :: Turns(script, a, b) ==> |script| >= Distance(a, b)
  {
    hide Distance, Turns;
    var script := ScriptExists(a, b);
    forall script | Turns(script, a, b) ensures |script| >= Distance(a, b) {
      NoShorterScript(script, a, b);
    }
  }
}
