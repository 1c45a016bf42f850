/** The scanner behind ExpandSource and CompactSource: one pass over the text that looks back for its
  * context, proved to compute what module Transformer specifies. */
module SourceScanner {
  import opened Bytes
  import opened Transformer

  lemma AfterNext(s: Source, i: nat)
    requires i < |s|
    ensures After(AT_START, s[..i + 1]) == Step(After(AT_START, s[..i]), s[i])
  {
    assert s[..i + 1] == s[..i] + [s[i]];
    AfterAppend(AT_START, s[..i], [s[i]]);
    AfterOne(After(AT_START, s[..i]), [s[i]]);
  }

  lemma AfterJump(s: Source, i: nat, j: nat)
    requires i <= j <= |s|
    ensures After(AT_START, s[..j]) == After(After(AT_START, s[..i]), s[i..][..j - i])
    ensures s[i..][j - i..] == s[j..]
  {
    assert s[..j] == s[..i] + s[i..][..j - i];
    AfterAppend(AT_START, s[..i], s[i..][..j - i]);
  }

  // ---- looking back ----

  // From a line's start on without a line break, the line is blank exactly if everything is.
  lemma {:induction false} BlankLine(s: Source, start: nat, pos: nat)
    requires start <= pos <= |s| && (start == 0 || s[start - 1] == '\n')
    requires forall k | start <= k < pos :: s[k] != '\n'
    ensures After(AT_START, s[..pos]).blank <==> forall k | start <= k < pos :: IsSpace(s[k])
    decreases pos
  {
    if pos > start {
      AfterNext(s, pos - 1);
      BlankLine(s, start, pos - 1);
    } else if pos > 0 {
      AfterNext(s, pos - 1);
    }
  }

  method BlankBefore(source: Source, pos: nat) returns (blank: bool)
    requires pos <= |source|
    ensures blank == After(AT_START, source[..pos]).blank
  {
    var lineStart := pos;
    while lineStart > 0 && source[lineStart - 1] != '\n'
      invariant 0 <= lineStart <= pos && forall k | lineStart <= k < pos :: source[k] != '\n'
    {
      lineStart := lineStart - 1;
    }
    BlankLine(source, lineStart, pos);
    var beforeOnLine := source[lineStart..pos];
    blank := forall k | 0 <= k < |beforeOnLine| :: IsSpace(beforeOnLine[k]);
    if blank {
      forall k | lineStart <= k < pos ensures IsSpace(source[k]) {
        assert beforeOnLine[k - lineStart] == source[k];
      }
    }
  }

  // How deep in braces the text before a position ends, strings skipped.
  method IsInsideBlock(source: Source, pos: nat) returns (inside: bool)
    requires pos <= |source|
    ensures inside == (After(AT_START, source[..pos]).depth > 0)
  {
    hide After;
    var depth := 0;
    var i := 0;
    AfterNone();
    assert source[..0] == [];
    while i < pos
      invariant i <= pos ==> After(AT_START, source[..i]).depth == depth && After(AT_START, source[..i]).quoting.Code?
      invariant i > pos ==> After(AT_START, source[..pos]).depth == depth
      invariant i == pos ==> After(AT_START, source[..pos]).depth == depth
      decreases pos - i
    {
      AfterNext(source, i);
      if source[i] == '"' || source[i] == '\'' {
        var quote := source[i];
        i := i + 1;
        while i < pos && source[i] != quote
          invariant 0 < i
          invariant i <= pos ==>
              After(AT_START, source[..i]).depth == depth && After(AT_START, source[..i]).quoting == Quoted(quote == '"')
          invariant i > pos ==> After(AT_START, source[..pos]).depth == depth
          decreases pos - i
        {
          AfterNext(source, i);
          if source[i] == '\\' {
            i := i + 1;
            if i < pos {
              AfterNext(source, i);
            }
          }
          i := i + 1;
        }
        if i < pos {
          AfterNext(source, i);
        }
        i := i + 1;
      } else {
        if source[i] == '{' {
          depth := depth + 1;
        } else if source[i] == '}' {
          depth := depth - 1;
        }
        i := i + 1;
      }
    }
    inside := depth > 0;
  }

  lemma AfterNone()
    ensures After(AT_START, []) == AT_START
  {
  }

  method ShouldTransformSymbol(source: Source, pos: nat, symbol: Ascii) returns (b: bool)
    requires pos <= |source| && KeywordOf(symbol).Some?
    ensures b == Expands(After(AT_START, source[..pos]), symbol)
  {
    b := BlankBefore(source, pos);
  }

  method ShouldTransformKeyword(source: Source, pos: nat, word: Source) returns (b: bool)
    requires pos <= |source| && SymbolOf(word).Some?
    ensures b == Converts(After(AT_START, source[..pos]), word)
  {
    b := BlankBefore(source, pos);
    if !b && WithinBlocks(word) {
      b := IsInsideBlock(source, pos);
    }
  }

  // ---- the cursor ----

  method SkipComment(source: Source, start: nat) returns (i: nat)
    requires start <= |source|
    ensures i == start + LineLength(source[start..])
  {
    i := start;
    while i < |source| && source[i] != '\n'
      invariant start <= i <= |source| && start + LineLength(source[start..]) == i + LineLength(source[i..])
    {
      assert source[i..][1..] == source[i + 1..];
      i := i + 1;
    }
  }

  // From an opening quote to behind the closing one.
  method SkipString(source: Source, start: nat) returns (i: nat)
    requires start < |source|
    ensures i == start + 1 + QuotedLength(source[start + 1..], source[start])
  {
    var quote := source[start];
    i := start + 1;
    while i < |source| && source[i] != quote
      invariant start < i <= |source|
      invariant start + 1 + QuotedLength(source[start + 1..], quote) == i + QuotedLength(source[i..], quote)
    {
      assert source[i..][1..] == source[i + 1..];
      if source[i] == '\\' && i + 1 < |source| {
        assert source[i..][2..] == source[i + 2..];
        i := i + 2;
      } else {
        i := i + 1;
      }
    }
    if i < |source| {
      assert source[i..][0] == quote;
      i := i + 1;
    }
  }

  method ReadWord(source: Source, start: nat) returns (i: nat)
    requires start <= |source|
    ensures i == start + WordLength(source[start..])
  {
    i := start;
    while i < |source| && IsWordChar(source[i])
      invariant start <= i <= |source| && start + WordLength(source[start..]) == i + WordLength(source[i..])
    {
      assert source[i..][1..] == source[i + 1..];
      i := i + 1;
    }
  }

  method SkipSpaces(source: Source, start: nat) returns (i: nat)
    requires start <= |source|
    ensures i == start + SpacesLength(source[start..])
  {
    i := start;
    while i < |source| && source[i] == ' '
      invariant start <= i <= |source| && start + SpacesLength(source[start..]) == i + SpacesLength(source[i..])
    {
      assert source[i..][1..] == source[i + 1..];
      i := i + 1;
    }
  }

  function Rest(expandMode: bool, x: Context, r: Source): Source {
    if expandMode then ExpandRest(x, r) else CompactRest(x, r)
  }

  // The text up to i is done, with `result` written for it.
  ghost predicate Done(expandMode: bool, source: Source, i: nat, result: Source) {
    && i <= |source|
    && Rest(expandMode, AT_START, source) == result + Rest(expandMode, After(AT_START, source[..i]), source[i..])
  }

  method Transform(source: Source, expandMode: bool) returns (result: Source)
    ensures result == if expandMode then ExpandSource(source) else CompactSource(source)
  {
    hide ExpandRest, CompactRest, After, Step, Done, SkippedLength, KeywordOf;
    result := [];
    var i := 0;
    DoneNone(expandMode, source);
    while i < |source|
      invariant i <= |source| && Done(expandMode, source, i, result)
      decreases |source| - i
    {
      var c := source[i];
      TokenStarts(source, i);
      if c == '#' || (c == '/' && i + 1 < |source| && source[i + 1] == '/') || c == '"' || c == '\'' {
        i, result := CopyToken(source, expandMode, i, result);
      } else if expandMode && KeywordOf(c).Some? {
        i, result := HandleSymbol(source, i, result);
      } else if !expandMode && IsLetter(c) {
        i, result := HandleWord(source, i, result);
      } else {
        DonePlain(expandMode, source, i, result);
        result := result + [c];
        i := i + 1;
      }
    }
    DoneAll(expandMode, source, result);
  }

  lemma TokenStarts(source: Source, i: nat)
    requires i < |source|
    ensures var c := source[i];
            SkippedLength(source[i..]) > 0 <==>
              c == '#' || (c == '/' && i + 1 < |source| && source[i + 1] == '/') || c == '"' || c == '\''
  {
    var r := source[i..];
    assert r[0] == source[i] && (|r| > 1 ==> r[1] == source[i + 1]);
  }

  lemma DoneNone(expandMode: bool, source: Source)
    ensures Done(expandMode, source, 0, [])
  {
    assert source[..0] == [] && source[0..] == source;
    assert [] + Rest(expandMode, AT_START, source) == Rest(expandMode, AT_START, source);
  }

  lemma DoneAll(expandMode: bool, source: Source, result: Source)
    requires Done(expandMode, source, |source|, result)
    ensures result == if expandMode then ExpandSource(source) else CompactSource(source)
  {
    assert source[|source|..] == [];
    assert result + [] == result;
  }

  // A stretch of text has been rewritten to `out`.
  lemma DoneOn(expandMode: bool, source: Source, i: nat, result: Source, j: nat, out: Source)
    requires Done(expandMode, source, i, result) && i <= j <= |source|
    requires var x, r := After(AT_START, source[..i]), source[i..];
             Rest(expandMode, x, r) == out + Rest(expandMode, After(x, r[..j - i]), r[j - i..])
    ensures Done(expandMode, source, j, result + out)
  {
    hide Rest, After;
    AfterJump(source, i, j);
    var tail := Rest(expandMode, After(AT_START, source[..j]), source[j..]);
    assert result + (out + tail) == result + out + tail;
  }

  lemma DonePlain(expandMode: bool, source: Source, i: nat, result: Source)
    requires i < |source| && Done(expandMode, source, i, result)
    requires SkippedLength(source[i..]) == 0 && !(expandMode && KeywordOf(source[i]).Some?) && !(!expandMode && IsLetter(source[i]))
    ensures Done(expandMode, source, i + 1, result + [source[i]])
  {
    var x, r := After(AT_START, source[..i]), source[i..];
    AfterOne(x, r[..1]);
    DoneOn(expandMode, source, i, result, i + 1, [source[i]]);
  }

  // Comments and strings are copied.
  method CopyToken(source: Source, expandMode: bool, start: nat, before: Source) returns (i: nat, result: Source)
    requires start < |source| && SkippedLength(source[start..]) > 0 && Done(expandMode, source, start, before)
    ensures start < i <= |source| && Done(expandMode, source, i, result)
  {
    hide ExpandRest, CompactRest, After, Step, Done;
    var c := source[start];
    assert source[start..][0] == c && source[start..][1..] == source[start + 1..];
    if c == '"' || c == '\'' {
      i := SkipString(source, start);
    } else {
      i := SkipComment(source, start);
    }
    result := before + source[start..i];
    DoneToken(expandMode, source, start, before, i);
  }

  lemma DoneToken(expandMode: bool, source: Source, start: nat, before: Source, i: nat)
    requires start < |source| && Done(expandMode, source, start, before)
    requires SkippedLength(source[start..]) > 0 && i == start + SkippedLength(source[start..])
    ensures i <= |source| && Done(expandMode, source, i, before + source[start..i])
  {
    var x, r := After(AT_START, source[..start]), source[start..];
    assert source[start..i] == r[..i - start];
    DoneOn(expandMode, source, start, before, i, source[start..i]);
  }

  method HandleSymbol(source: Source, start: nat, before: Source) returns (i: nat, result: Source)
    requires start < |source| && KeywordOf(source[start]).Some? && SkippedLength(source[start..]) == 0
    requires Done(true, source, start, before)
    ensures start < i <= |source| && Done(true, source, i, result)
  {
    hide ExpandRest, CompactRest, After, Step, Done;
    var c := source[start];
    var transforms := ShouldTransformSymbol(source, start, c);
    var out: Source := [c];
    if transforms {
      out := KeywordOf(c).value;
      if start + 1 < |source| && !IsSpace(source[start + 1]) && source[start + 1] != '{' {
        out := out + " ";
      }
    }
    result := before + out;
    i := start + 1;
    DoneSymbol(source, start, before, out);
  }

  lemma DoneSymbol(source: Source, start: nat, before: Source, out: Source)
    requires start < |source| && SkippedLength(source[start..]) == 0 && Done(true, source, start, before)
    requires var x, c := After(AT_START, source[..start]), source[start];
             out == if Expands(x, c) then KeywordOf(c).value + (if NeedsSpace(source[start + 1..]) then " " else "") else [c]
    ensures Done(true, source, start + 1, before + out)
  {
    var x, r := After(AT_START, source[..start]), source[start..];
    assert r[1..] == source[start + 1..];
    AfterOne(x, r[..1]);
    DoneOn(true, source, start, before, start + 1, out);
  }

  method HandleWord(source: Source, start: nat, before: Source) returns (i: nat, result: Source)
    requires start < |source| && IsLetter(source[start]) && SkippedLength(source[start..]) == 0
    requires Done(false, source, start, before)
    ensures start < i <= |source| && Done(false, source, i, result)
  {
    hide ExpandRest, CompactRest, After, Step, Done;
    i := ReadWord(source, start);
    assert source[start..][0] == source[start];
    var word := source[start..i];
    var symbol := SymbolOf(word);
    var transforms := false;
    if symbol.Some? {
      transforms := ShouldTransformKeyword(source, start, word);
    }
    var out := word;
    var end := i;
    if transforms {
      out := [symbol.value];
      if i < |source| && source[i] == ' ' {
        out := out + " ";
        end := SkipSpaces(source, i);
      }
    }
    DoneWord(source, start, before, i, end, out);
    result := before + out;
    i := end;
  }

  lemma DoneWord(source: Source, start: nat, before: Source, i: nat, end: nat, out: Source)
    requires start < |source| && IsLetter(source[start]) && SkippedLength(source[start..]) == 0
    requires Done(false, source, start, before) && i == start + WordLength(source[start..])
    requires var x, word := After(AT_START, source[..start]), source[start..i];
             if Converts(x, word) then
               && end == i + SpacesLength(source[i..])
               && out == [SymbolOf(word).value] + (if end > i then " " else "")
             else end == i && out == word
    ensures Done(false, source, end, before + out)
  {
    hide CompactRest, ExpandRest, After, Converts, SymbolOf, WordLength, SpacesLength, SkippedLength, Done;
    var x, r := After(AT_START, source[..start]), source[start..];
    assert source[start..i] == r[..i - start] && source[i..] == r[i - start..];
    CompactUnfolds(x, r);
    DoneOn(false, source, start, before, end, out);
  }
}
