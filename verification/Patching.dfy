/** Back-patching: overwriting operands in emitted bytes is filling holes in the instruction list. */
module Patching {
  import opened Bytes
  import opened Opcodes

  // Overwrites the four operand bytes of the instruction at an offset.
  function PatchAt(code: seq<Byte>, offset: nat, target: U32): (r: seq<Byte>)
    requires offset + 5 <= |code|
    ensures |r| == |code|
  {
    code[..offset + 1] + PutUint32(target) + code[offset + 5..]
  }

  predicate InRange(code: seq<Byte>, sites: seq<nat>) {
    forall i | 0 <= i < |sites| :: sites[i] + 5 <= |code|
  }

  function PatchAll(code: seq<Byte>, sites: seq<nat>, target: U32): (r: seq<Byte>)
    requires InRange(code, sites)
    ensures |r| == |code|
    decreases |sites|
  {
    if sites == [] then code else PatchAll(PatchAt(code, sites[0], target), sites[1..], target)
  }

  // The offsets of the holes of one kind, in order, when the code starts at `base`.
  function Sites(instrs: seq<Instr>, kind: HoleKind, base: nat): seq<nat>
  {
    if instrs == [] then []
    else
      (if instrs[0] == Hole(kind) then [base] else [])
      + Sites(instrs[1..], kind, base + InstrSize(instrs[0]))
  }

  lemma {:induction false} SitesAppend(a: seq<Instr>, b: seq<Instr>, kind: HoleKind, base: nat)
    ensures Sites(a + b, kind, base) == Sites(a, kind, base) + Sites(b, kind, base + Size(a))
    decreases |a|
  {
    if a == [] {
      assert a + b == b;
    } else {
      assert (a + b)[1..] == a[1..] + b;
      SitesAppend(a[1..], b, kind, base + InstrSize(a[0]));
    }
  }

  lemma {:induction false} NoSites(instrs: seq<Instr>, kind: HoleKind, base: nat)
    requires NoHoles(instrs, kind)
    ensures Sites(instrs, kind, base) == []
    decreases |instrs|
  {
    if instrs != [] {
      assert forall i :: i in instrs[1..] ==> i in instrs;
      NoSites(instrs[1..], kind, base + InstrSize(instrs[0]));
    }
  }

  lemma PatchInstr(before: seq<Byte>, i: Instr, after: seq<Byte>, target: U32)
    requires !i.Plain?
    ensures PatchAt(before + EncodeInstr(i) + after, |before|, target)
            == before + EncodeInstr(if i.Hole? then WithOperand(OP_JUMP, target) else i.(arg := target)) + after
  {
    hide PutUint32;
    var code := before + EncodeInstr(i) + after;
    assert code[..|before| + 1] == before + EncodeInstr(i)[..1];
    assert code[|before| + 5..] == after;
  }

  lemma PatchCons(code: seq<Byte>, site: nat, sites: seq<nat>, target: U32)
    requires site + 5 <= |code| && InRange(code, sites)
    ensures InRange(code, [site] + sites)
    ensures PatchAll(code, [site] + sites, target) == PatchAll(PatchAt(code, site, target), sites, target)
  {
    hide PatchAt;
    assert ([site] + sites)[1..] == sites;
  }

  // Patching every recorded site of a stretch of code fills exactly its holes of that kind.
  lemma {:induction false} PatchHoles(before: seq<Byte>, instrs: seq<Instr>, after: seq<Byte>, kind: HoleKind, target: U32)
    ensures InRange(before + Encode(instrs) + after, Sites(instrs, kind, |before|))
    ensures PatchAll(before + Encode(instrs) + after, Sites(instrs, kind, |before|), target)
            == before + Encode(Fill(instrs, kind, target)) + after
    decreases |instrs|
  {
    hide PutUint32, EncodeInstr, PatchAt, PatchAll, InRange, Size, Fill;
    if instrs == [] {
      PatchNone(before + after, kind, target);
      assert before + [] + after == before + after;
    } else {
      var i, rest := instrs[0], instrs[1..];
      var i' := if i == Hole(kind) then WithOperand(OP_JUMP, target) else i;
      FillCons(instrs, kind, target);
      var before' := before + EncodeInstr(i');
      var tail := Encode(rest) + after;
      var code, code' := before + Encode(instrs) + after, before' + Encode(rest) + after;
      Regroup(before, EncodeInstr(i), Encode(rest), after);
      Regroup(before, EncodeInstr(i'), Encode(rest), after);
      Regroup(before, EncodeInstr(i'), Encode(Fill(rest, kind, target)), after);
      PatchHoles(before', rest, after, kind, target);
      var sites := Sites(rest, kind, |before'|);
      assert |before'| == |before| + InstrSize(i);
      if i == Hole(kind) {
        assert Sites(instrs, kind, |before|) == [|before|] + sites;
        PatchInstr(before, i, tail, target);
        SameRange(code', code, sites);
        PatchCons(code, |before|, sites, target);
      } else {
        assert Sites(instrs, kind, |before|) == sites;
      }
    }
  }

  lemma PatchNone(code: seq<Byte>, kind: HoleKind, target: U32)
    ensures InRange(code, []) && PatchAll(code, [], target) == code && Fill([], kind, target) == []
  {
  }

  lemma Regroup(before: seq<Byte>, x: seq<Byte>, y: seq<Byte>, after: seq<Byte>)
    ensures before + (x + y) + after == before + x + (y + after) == (before + x) + y + after
  {
  }

  lemma SameRange(a: seq<Byte>, b: seq<Byte>, sites: seq<nat>)
    requires |a| == |b| && InRange(a, sites)
    ensures InRange(b, sites)
  {
  }

  lemma FillCons(instrs: seq<Instr>, kind: HoleKind, target: U32)
    requires instrs != []
    ensures var i' := if instrs[0] == Hole(kind) then WithOperand(OP_JUMP, target) else instrs[0];
            && Fill(instrs, kind, target)[0] == i' && Fill(instrs, kind, target)[1..] == Fill(instrs[1..], kind, target)
            && Encode(Fill(instrs, kind, target)) == EncodeInstr(i') + Encode(Fill(instrs[1..], kind, target))
  {
  }

  lemma EncodeSplit(before: seq<Byte>, a: seq<Instr>, b: seq<Instr>, c: seq<Instr>)
    ensures before + Encode(a + b + c) == (before + Encode(a)) + Encode(b) + Encode(c)
  {
    hide Encode;
    EncodeAppend(a + b, c);
    EncodeAppend(a, b);
    Regroup(before, Encode(a), Encode(b), Encode(c));
    assert before + (Encode(a) + Encode(b) + Encode(c)) == before + (Encode(a) + Encode(b)) + Encode(c);
  }

  // One recorded jump is patched, in the middle of emitted code.
  lemma PatchOperand(before: seq<Byte>, a: seq<Instr>, op: Byte, x: U32, b: seq<Instr>, target: U32)
    ensures |before| + Size(a) + 5 <= |before + Encode(a + [WithOperand(op, x)] + b)|
    ensures PatchAt(before + Encode(a + [WithOperand(op, x)] + b), |before| + Size(a), target)
            == before + Encode(a + [WithOperand(op, target)] + b)
  {
    EncodeOne(WithOperand(op, x));
    EncodeOne(WithOperand(op, target));
    EncodeSplit(before, a, [WithOperand(op, x)], b);
    EncodeSplit(before, a, [WithOperand(op, target)], b);
    hide Encode, PatchAt, EncodeInstr;
    PatchInstr(before + Encode(a), WithOperand(op, x), Encode(b), target);
  }

  // All recorded jumps of one kind are patched, in the middle of emitted code.
  lemma PatchFragment(before: seq<Byte>, a: seq<Instr>, holes: seq<Instr>, b: seq<Instr>, kind: HoleKind, target: U32)
    ensures var sites := Sites(holes, kind, |before| + Size(a));
            && InRange(before + Encode(a + holes + b), sites)
            && PatchAll(before + Encode(a + holes + b), sites, target) == before + Encode(a + Fill(holes, kind, target) + b)
  {
    hide *;
    EncodeSplit(before, a, holes, b);
    EncodeSplit(before, a, Fill(holes, kind, target), b);
    PatchHoles(before + Encode(a), holes, Encode(b), kind, target);
  }
}
