/** Compact and expanded source text: symbols at the start of a line become keywords and back.
  * ASCII text only. */
module Transformer {
  import opened Bytes

  type Ascii = c: char | c < 128 as char

  type Source = seq<Ascii>

  function KeywordOf(symbol: Ascii): Option<Source> {
    match symbol
    case '@' => Some("route")
    case ':' => Some("type")
    case '$' => Some("let")
    case '>' => Some("return")
    case '+' => Some("middleware")
    case '%' => Some("use")
    case '<' => Some("expects")
    case '?' => Some("validate")
    case '~' => Some("handle")
    case '*' => Some("cron")
    case '!' => Some("command")
    case '&' => Some("queue")
    case '=' => Some("func")
    case _ => None
  }

  function SymbolOf(word: Source): Option<Ascii> {
    if word == "route" then Some('@')
    else if word == "type" then Some(':')
    else if word == "let" then Some('$')
    else if word == "return" then Some('>')
    else if word == "middleware" then Some('+')
    else if word == "use" then Some('%')
    else if word == "expects" then Some('<')
    else if word == "validate" then Some('?')
    else if word == "handle" then Some('~')
    else if word == "cron" then Some('*')
    else if word == "command" then Some('!')
    else if word == "queue" then Some('&')
    else if word == "func" then Some('=')
    else None
  }

  // Keywords that may also stand in the middle of a line, inside a block.
  predicate WithinBlocks(word: Source) {
    word == "let" || word == "return" || word == "middleware" || word == "use" || word == "expects" || word == "validate"
  }

  predicate IsSpace(c: Ascii) {
    c == ' ' || '\t' <= c <= '\r'
  }

  predicate IsLetter(c: Ascii) {
    'a' <= c <= 'z' || 'A' <= c <= 'Z'
  }

  predicate IsWordChar(c: Ascii) {
    IsLetter(c) || '0' <= c <= '9' || c == '_'
  }

  // ---- context ----

  // Where counting braces stands: in code, in a quoted string, or behind a backslash in one.
  datatype Quoting = Code | Quoted(double: bool) | Escaped(double: bool)

  // What the text so far says: only blanks on the current line, and how many blocks are open. The
  // brace count knows strings but not comments.
  datatype Context = Context(blank: bool, depth: int, quoting: Quoting)

  const AT_START := Context(true, 0, Code)

  function Step(x: Context, c: Ascii): Context {
    var blank := c == '\n' || (x.blank && IsSpace(c));
    match x.quoting
    case Code =>
      if c == '"' || c == '\'' then Context(blank, x.depth, Quoted(c == '"'))
      else Context(blank, if c == '{' then x.depth + 1 else if c == '}' then x.depth - 1 else x.depth, Code)
    case Quoted(q) =>
      Context(blank, x.depth, if c == (if q then '"' else '\'') then Code else if c == '\\' then Escaped(q) else Quoted(q))
    case Escaped(q) => Context(blank, x.depth, Quoted(q))
  }

  function After(x: Context, s: Source): Context
    decreases |s|
  {
    if s == [] then x else After(Step(x, s[0]), s[1..])
  }

  lemma {:induction false} AfterAppend(x: Context, s: Source, t: Source)
    ensures After(x, s + t) == After(After(x, s), t)
    decreases |s|
  {
    if s == [] {
      assert s + t == t;
    } else {
      assert (s + t)[1..] == s[1..] + t;
      AfterAppend(Step(x, s[0]), s[1..], t);
    }
  }

  // ---- tokens ----

  predicate IsComment(r: Source) {
    r != [] && (r[0] == '#' || (r[0] == '/' && |r| > 1 && r[1] == '/'))
  }

  // Up to the end of the line, without it.
  function LineLength(r: Source): (n: nat)
    ensures n <= |r|
  {
    if r == [] || r[0] == '\n' then 0 else 1 + LineLength(r[1..])
  }

  // From behind the opening quote to behind the closing one, or to the end.
  function QuotedLength(r: Source, quote: Ascii): (n: nat)
    ensures n <= |r|
    decreases |r|
  {
    if r == [] then 0
    else if r[0] == quote then 1
    else if r[0] == '\\' && |r| > 1 then 2 + QuotedLength(r[2..], quote)
    else 1 + QuotedLength(r[1..], quote)
  }

  function WordLength(r: Source): (n: nat)
    ensures n <= |r|
  {
    if r == [] || !IsWordChar(r[0]) then 0 else 1 + WordLength(r[1..])
  }

  function SpacesLength(r: Source): (n: nat)
    ensures n <= |r|
  {
    if r == [] || r[0] != ' ' then 0 else 1 + SpacesLength(r[1..])
  }

  // The length of a comment or string at the front; 0 if there is none.
  function SkippedLength(r: Source): (n: nat)
    ensures n <= |r|
  {
    if r == [] then 0
    else if IsComment(r) then LineLength(r)
    else if r[0] == '"' || r[0] == '\'' then 1 + QuotedLength(r[1..], r[0])
    else 0
  }

  // ---- the two transformations ----

  predicate Expands(x: Context, c: Ascii) {
    x.blank && KeywordOf(c).Some?
  }

  predicate NeedsSpace(r: Source) {
    r != [] && !IsSpace(r[0]) && r[0] != '{'
  }

  function ExpandRest(x: Context, r: Source): Source
    decreases |r|
  {
    if r == [] then []
    else if SkippedLength(r) > 0 then
      var n := SkippedLength(r);
      r[..n] + ExpandRest(After(x, r[..n]), r[n..])
    else
      (if Expands(x, r[0]) then KeywordOf(r[0]).value + (if NeedsSpace(r[1..]) then " " else "") else [r[0]])
      + ExpandRest(Step(x, r[0]), r[1..])
  }

  predicate Converts(x: Context, word: Source) {
    SymbolOf(word).Some? && (x.blank || (WithinBlocks(word) && x.depth > 0))
  }

  function CompactRest(x: Context, r: Source): Source
    decreases |r|
  {
    if r == [] then []
    else if SkippedLength(r) > 0 then
      var n := SkippedLength(r);
      r[..n] + CompactRest(After(x, r[..n]), r[n..])
    else if IsLetter(r[0]) then
      var n := WordLength(r);
      if Converts(x, r[..n]) then
        var m := n + SpacesLength(r[n..]);
        [SymbolOf(r[..n]).value] + (if m > n then " " else "") + CompactRest(After(x, r[..m]), r[m..])
      else r[..n] + CompactRest(After(x, r[..n]), r[n..])
    else [r[0]] + CompactRest(Step(x, r[0]), r[1..])
  }

  function ExpandSource(s: Source): Source {
    ExpandRest(AT_START, s)
  }

  function CompactSource(s: Source): Source {
    CompactRest(AT_START, s)
  }

  // ---- when compacting undoes expanding ----

  // What may follow a symbol that expands: the end, a brace, or blanks that are not two spaces.
  predicate WellFollowed(r: Source) {
    !NeedsSpace(r) && SpacesLength(r) < 2
  }

  // Every symbol that expands is well followed, and no word is one that compacting would convert.
  predicate Clean(x: Context, r: Source)
    decreases |r|
  {
    if r == [] then true
    else if SkippedLength(r) > 0 then
      var n := SkippedLength(r);
      Clean(After(x, r[..n]), r[n..])
    else if IsLetter(r[0]) then
      var n := WordLength(r);
      !Converts(x, r[..n]) && Clean(After(x, r[..n]), r[n..])
    else (Expands(x, r[0]) ==> WellFollowed(r[1..])) && Clean(Step(x, r[0]), r[1..])
  }

  // ---- how expanding looks from the front ----

  // Only a symbol at the start of a line changes the first character.
  lemma FirstKept(x: Context, r: Source)
    ensures ExpandRest(x, r) == [] <==> r == []
    ensures r != [] && !Expands(x, r[0]) ==> ExpandRest(x, r)[0] == r[0]
  {
  }

  // A line's end or a quoted string's end stays where it is, whatever follows behind.
  lemma {:induction false} LineEnds(r: Source, t: Source)
    requires t == [] || t[0] == '\n'
    ensures LineLength(r) == |r| ==> LineLength(r + t) == |r|
    decreases |r|
  {
    if r == [] {
      assert r + t == t;
    } else {
      assert (r + t)[1..] == r[1..] + t;
      LineEnds(r[1..], t);
    }
  }

  lemma {:induction false} LineLengthStops(r: Source)
    ensures var n := LineLength(r);
            LineLength(r[..n]) == n && (r[n..] == [] || r[n..][0] == '\n')
    decreases |r|
  {
    if r != [] && r[0] != '\n' {
      LineLengthStops(r[1..]);
      var n := LineLength(r);
      assert r[..n][1..] == r[1..][..n - 1] && r[n..] == r[1..][n - 1..];
    }
  }

  // A string that is closed ends where it ends, whatever comes behind.
  lemma {:induction false} QuotedStops(r: Source, quote: Ascii, t: Source)
    requires QuotedLength(r, quote) < |r| || t == []
    ensures var n := QuotedLength(r, quote); QuotedLength(r[..n] + t, quote) == n
    decreases |r|
  {
    var n := QuotedLength(r, quote);
    if t == [] && n == |r| {
      assert r[..n] + t == r;
    } else if r[0] == quote {
      assert (r[..n] + t)[0] == quote;
    } else if r[0] == '\\' && |r| > 1 {
      assert (r[..n] + t)[2..] == r[2..][..n - 2] + t;
      QuotedStops(r[2..], quote, t);
    } else {
      assert (r[..n] + t)[1..] == r[1..][..n - 1] + t;
      QuotedStops(r[1..], quote, t);
    }
  }

  // A comment or string is recognised again in front of anything that starts as what it stood before.
  lemma SkippedAgain(r: Source, t: Source)
    requires SkippedLength(r) > 0
    requires var n := SkippedLength(r); (t == [] <==> n == |r|) && (n < |r| && r[n] == '\n' ==> t[0] == '\n')
    ensures var n := SkippedLength(r); SkippedLength(r[..n] + t) == n
  {
    if IsComment(r) {
      CommentAgain(r, t);
    } else {
      StringAgain(r, t);
    }
  }

  lemma CommentAgain(r: Source, t: Source)
    requires IsComment(r)
    requires var n := LineLength(r); (t == [] <==> n == |r|) && (n < |r| && r[n] == '\n' ==> t[0] == '\n')
    ensures var n := LineLength(r); n > 0 && IsComment(r[..n] + t) && LineLength(r[..n] + t) == n
  {
    var n := LineLength(r);
    assert n >= 1 && (r[0] == '/' ==> n >= 2);
    var e := r[..n] + t;
    assert e[0] == r[0] && (r[0] == '/' ==> e[1] == r[1]);
    hide LineLength;
    LineLengthStops(r);
    LineEnds(r[..n], t);
  }

  lemma StringAgain(r: Source, t: Source)
    requires r != [] && (r[0] == '"' || r[0] == '\'')
    requires var n := 1 + QuotedLength(r[1..], r[0]); t == [] <==> n == |r|
    ensures var n := 1 + QuotedLength(r[1..], r[0]); SkippedLength(r[..n] + t) == n
  {
    hide QuotedLength;
    var n := 1 + QuotedLength(r[1..], r[0]);
    QuotedStops(r[1..], r[0], t);
    var e := r[..n] + t;
    assert e[1..] == r[1..][..n - 1] + t;
    assert e[0] == r[0];
  }

  // A character that starts no comment, string or word starts none after expanding either.
  lemma PlainAgain(x: Context, r: Source)
    requires r != [] && SkippedLength(r) == 0 && !Expands(x, r[0])
    ensures SkippedLength([r[0]] + ExpandRest(Step(x, r[0]), r[1..])) == 0
  {
    var t := ExpandRest(Step(x, r[0]), r[1..]);
    var e := [r[0]] + t;
    FirstKept(Step(x, r[0]), r[1..]);
    if r[0] == '/' && |r| > 1 {
      assert e[1] == t[0] == r[1];
    }
  }

  lemma {:induction false} WordBehind(r: Source)
    ensures var n := WordLength(r); r[n..] == [] || !IsWordChar(r[n..][0])
    decreases |r|
  {
    if r != [] && IsWordChar(r[0]) {
      WordBehind(r[1..]);
      assert r[WordLength(r)..] == r[1..][WordLength(r) - 1..];
    }
  }

  lemma WordCharPlain(c: Ascii)
    requires IsWordChar(c)
    ensures KeywordOf(c).None? && !IsSpace(c) && c != '"' && c != '\'' && c != '#' && c != '/' && c != '{' && c != '}' && c != '\\'
  {
  }

  lemma ExpandCopies(x: Context, r: Source)
    requires r != [] && SkippedLength(r) == 0 && !Expands(x, r[0])
    ensures ExpandRest(x, r) == [r[0]] + ExpandRest(Step(x, r[0]), r[1..])
  {
  }

  // Expanding copies words.
  lemma {:induction false} WordCopied(x: Context, r: Source)
    ensures var n := WordLength(r); ExpandRest(x, r) == r[..n] + ExpandRest(After(x, r[..n]), r[n..])
    decreases |r|
  {
    hide ExpandRest, Step, KeywordOf;
    var n := WordLength(r);
    if n == 0 {
      assert r[..0] + ExpandRest(x, r) == ExpandRest(x, r) && r[0..] == r;
    } else {
      WordCharPlain(r[0]);
      ExpandCopies(x, r);
      WordCopied(Step(x, r[0]), r[1..]);
      assert r[..n][1..] == r[1..][..n - 1] && r[n..] == r[1..][n - 1..];
      assert r[..n] == [r[0]] + r[1..][..n - 1];
    }
  }

  predicate IsWord(w: Source) {
    w != [] && forall c | c in w :: IsWordChar(c)
  }

  // What a word, or a symbol that expands, does to the context.
  function Written(x: Context): Context {
    Context(false, x.depth, if x.quoting.Escaped? then Quoted(x.quoting.double) else x.quoting)
  }

  lemma {:induction false} WordWritten(x: Context, w: Source)
    requires IsWord(w)
    ensures After(x, w) == Written(x)
    decreases |w|
  {
    WordCharPlain(w[0]);
    assert Step(x, w[0]) == Written(x);
    if |w| > 1 {
      WordWritten(Step(x, w[0]), w[1..]);
    }
  }

  lemma SymbolWritten(x: Context, c: Ascii)
    requires KeywordOf(c).Some?
    ensures Step(x, c) == Written(x) && !IsSpace(c) && SkippedLength([c]) == 0 && !IsWordChar(c)
  {
  }

  lemma KeywordIsWord(c: Ascii)
    requires KeywordOf(c).Some?
    ensures IsWord(KeywordOf(c).value) && IsLetter(KeywordOf(c).value[0]) && SymbolOf(KeywordOf(c).value) == Some(c)
  {
  }

  lemma {:induction false} WordLengthOf(w: Source, t: Source)
    requires IsWord(w) && (t == [] || !IsWordChar(t[0]))
    ensures WordLength(w + t) == |w|
    decreases |w|
  {
    if |w| == 1 {
      assert (w + t)[1..] == t;
    } else {
      assert (w + t)[1..] == w[1..] + t;
      WordLengthOf(w[1..], t);
    }
  }

  lemma CompactUnfolds(x: Context, r: Source)
    requires r != [] && SkippedLength(r) == 0 && IsLetter(r[0])
    ensures var n := WordLength(r);
            var m := n + SpacesLength(r[n..]);
            CompactRest(x, r) ==
              if Converts(x, r[..n]) then
                [SymbolOf(r[..n]).value] + (if m > n then " " else "") + CompactRest(After(x, r[..m]), r[m..])
              else r[..n] + CompactRest(After(x, r[..n]), r[n..])
  {
    hide After, Converts, SymbolOf, WordLength, SpacesLength, SkippedLength;
  }

  lemma LetterStarts(r: Source)
    requires r != [] && IsLetter(r[0])
    ensures SkippedLength(r) == 0
  {
  }

  // Compacting text that starts with a keyword it converts.
  lemma CompactKeyword(x: Context, w: Source, t: Source)
    requires IsWord(w) && IsLetter(w[0]) && Converts(x, w) && (t == [] || !IsWordChar(t[0]))
    ensures var k := SpacesLength(t);
            CompactRest(x, w + t) == [SymbolOf(w).value] + (if k > 0 then " " else "") + CompactRest(After(x, w + t[..k]), t[k..])
  {
    hide CompactRest, After, SymbolOf, Converts, SpacesLength, WordLength, SkippedLength;
    var r := w + t;
    var k := SpacesLength(t);
    WordLengthOf(w, t);
    assert r[0] == w[0] && r[..|w|] == w && r[|w|..] == t;
    LetterStarts(r);
    assert r[..|w| + k] == w + t[..k] && r[|w| + k..] == t[k..];
    CompactUnfolds(x, r);
  }

  // Compacting never starts with a space it did not find.
  lemma CompactFirst(x: Context, r: Source)
    requires r == [] || r[0] != ' '
    ensures CompactRest(x, r) == [] || CompactRest(x, r)[0] != ' '
  {
    if r != [] && SkippedLength(r) == 0 && IsLetter(r[0]) {
      SymbolNotSpace(r[..WordLength(r)]);
    }
  }

  lemma SymbolNotSpace(w: Source)
    ensures SymbolOf(w).Some? ==> SymbolOf(w).value != ' '
  {
  }

  // ---- the theorem ----

  ghost predicate Undone(x: Context, r: Source) {
    CompactRest(x, ExpandRest(x, r)) == r
  }

  // Compacting undoes expanding exactly on clean text.
  lemma {:induction false} RoundTrip(x: Context, r: Source)
    ensures Undone(x, r) <==> Clean(x, r)
    decreases |r|, 1
  {
    hide *;
    if r == [] {
      UndoneEmpty(x);
    } else if SkippedLength(r) > 0 {
      UndoneSkipped(x, r);
    } else if IsLetter(r[0]) {
      UndoneWord(x, r);
    } else if Expands(x, r[0]) {
      UndoneSymbol(x, r);
    } else {
      UndonePlain(x, r);
    }
  }

  lemma UndoneEmpty(x: Context)
    ensures Undone(x, []) && Clean(x, [])
  {
  }

  lemma SkipUnfolds(x: Context, r: Source)
    requires SkippedLength(r) > 0
    ensures var n := SkippedLength(r);
            && ExpandRest(x, r) == r[..n] + ExpandRest(After(x, r[..n]), r[n..])
            && (Clean(x, r) <==> Clean(After(x, r[..n]), r[n..]))
  {
  }

  lemma CompactSkip(x: Context, h: Source, t: Source)
    requires h != [] && SkippedLength(h + t) == |h|
    ensures CompactRest(x, h + t) == h + CompactRest(After(x, h), t)
  {
    var r := h + t;
    assert r[..|h|] == h && r[|h|..] == t;
  }

  lemma {:induction false} UndoneSkipped(x: Context, r: Source)
    requires SkippedLength(r) > 0
    ensures Undone(x, r) <==> Clean(x, r)
    decreases |r|, 0
  {
    hide CompactRest, ExpandRest, SkippedLength, Clean, Step, After;
    var n := SkippedLength(r);
    var x' := After(x, r[..n]);
    var t := ExpandRest(x', r[n..]);
    SkipUnfolds(x, r);
    RoundTrip(x', r[n..]);
    ExpandedFront(x', r[n..]);
    SkippedAgain(r, t);
    CompactSkip(x, r[..n], t);
    assert r == r[..n] + r[n..];
    SameHead(r[..n], CompactRest(x', t), r[n..]);
  }

  lemma ExpandedFront(x: Context, r: Source)
    ensures ExpandRest(x, r) == [] <==> r == []
    ensures r != [] && r[0] == '\n' ==> ExpandRest(x, r)[0] == '\n'
  {
    FirstKept(x, r);
  }

  lemma SameHead(h: Source, a: Source, b: Source)
    ensures h + a == h + b <==> a == b
  {
    if h + a == h + b {
      assert (h + a)[|h|..] == a && (h + b)[|h|..] == b;
    }
  }

  lemma {:induction false} UndonePlain(x: Context, r: Source)
    requires r != [] && SkippedLength(r) == 0 && !IsLetter(r[0]) && !Expands(x, r[0])
    ensures Undone(x, r) <==> Clean(x, r)
    decreases |r|, 0
  {
    var x' := Step(x, r[0]);
    var t := ExpandRest(x', r[1..]);
    RoundTrip(x', r[1..]);
    PlainAgain(x, r);
    ExpandCopies(x, r);
    var e := [r[0]] + t;
    assert e[1..] == t;
    assert r == [r[0]] + r[1..];
    SameHead([r[0]], CompactRest(x', t), r[1..]);
  }

  lemma {:induction false} WordIs(r: Source)
    requires r != [] && IsWordChar(r[0])
    ensures IsWord(r[..WordLength(r)])
    decreases |r|
  {
    var n := WordLength(r);
    if |r| > 1 && IsWordChar(r[1]) {
      WordIs(r[1..]);
      assert r[..n] == [r[0]] + r[1..][..n - 1];
    } else {
      assert n == 1;
    }
  }

  lemma SymbolNoLetter(w: Source)
    ensures SymbolOf(w).Some? ==> !IsLetter(SymbolOf(w).value)
  {
  }

  // Compacting text that starts with a word it keeps.
  lemma CompactWord(x: Context, w: Source, t: Source)
    requires IsWord(w) && IsLetter(w[0]) && (t == [] || !IsWordChar(t[0]))
    ensures !Converts(x, w) ==> CompactRest(x, w + t) == w + CompactRest(After(x, w), t)
    ensures Converts(x, w) ==> CompactRest(x, w + t) != [] && CompactRest(x, w + t)[0] == SymbolOf(w).value
  {
    if Converts(x, w) {
      CompactKeyword(x, w, t);
    } else {
      WordLengthOf(w, t);
      WordCharPlain(w[0]);
      var r := w + t;
      assert r[0] == w[0] && r[..|w|] == w && r[|w|..] == t;
    }
  }

  lemma {:induction false} UndoneWord(x: Context, r: Source)
    requires r != [] && SkippedLength(r) == 0 && IsLetter(r[0])
    ensures Undone(x, r) <==> Clean(x, r)
    decreases |r|, 0
  {
    hide CompactRest, ExpandRest, Step, KeywordOf, SymbolOf, SkippedLength;
    var n := WordLength(r);
    var w := r[..n];
    var t := ExpandRest(After(x, w), r[n..]);
    WordIs(r);
    WordWritten(x, w);
    WordCopied(x, r);
    WordBehind(r);
    FirstKept(After(x, w), r[n..]);
    CompactWord(x, w, t);
    SymbolNoLetter(w);
    RoundTrip(After(x, w), r[n..]);
    assert r == w + r[n..];
    SameHead(w, CompactRest(After(x, w), t), r[n..]);
  }

  lemma SpacePlain(x: Context, c: Ascii)
    requires c == ' '
    ensures !Expands(x, c) && Step(x, c).blank == x.blank
  {
  }

  // Expanding copies spaces, and finds no more of them.
  lemma {:induction false} SpacesCopied(x: Context, r: Source)
    requires !x.blank
    ensures var k := SpacesLength(r);
            && ExpandRest(x, r) == r[..k] + ExpandRest(After(x, r[..k]), r[k..])
            && SpacesLength(ExpandRest(x, r)) == k
    decreases |r|
  {
    hide KeywordOf, ExpandRest;
    var k := SpacesLength(r);
    FirstKept(x, r);
    if k == 0 {
      assert r[..0] + ExpandRest(x, r) == ExpandRest(x, r) && r[0..] == r;
    } else {
      var t := ExpandRest(Step(x, r[0]), r[1..]);
      SpacePlain(x, r[0]);
      ExpandCopies(x, r);
      SpacesCopied(Step(x, r[0]), r[1..]);
      assert ([r[0]] + t)[1..] == t;
      assert r[..k][1..] == r[1..][..k - 1] && r[k..] == r[1..][k - 1..];
      assert r[..k] == [r[0]] + r[1..][..k - 1];
    }
  }

  lemma ExpandSymbol(x: Context, r: Source)
    requires r != [] && SkippedLength(r) == 0 && Expands(x, r[0])
    ensures ExpandRest(x, r) == KeywordOf(r[0]).value + ((if NeedsSpace(r[1..]) then " " else "") + ExpandRest(Step(x, r[0]), r[1..]))
  {
  }

  lemma CleanSymbol(x: Context, r: Source)
    requires r != [] && SkippedLength(r) == 0 && Expands(x, r[0])
    ensures Clean(x, r) <==> WellFollowed(r[1..]) && Clean(Step(x, r[0]), r[1..])
  {
    SymbolWritten(x, r[0]);
  }

  lemma {:induction false} UndoneSymbol(x: Context, r: Source)
    requires r != [] && SkippedLength(r) == 0 && Expands(x, r[0])
    ensures Undone(x, r) <==> Clean(x, r)
    decreases |r|, 0
  {
    hide CompactRest, ExpandRest, Step, KeywordOf, SymbolOf, SkippedLength, Clean;
    var c, rest := r[0], r[1..];
    var w := KeywordOf(c).value;
    var t := ExpandRest(Step(x, c), rest);
    SymbolWritten(x, c);
    KeywordIsWord(c);
    WordWritten(x, w);
    ExpandSymbol(x, r);
    CleanSymbol(x, r);
    FirstKept(Step(x, c), rest);
    if NeedsSpace(rest) {
      SpacedSymbol(x, w, c, t, rest, r);
    } else {
      assert "" + t == t;
      SpacesCopied(Step(x, c), rest);
      CompactKeyword(x, w, t);
      RoundTrip(Step(x, c), rest);
      FollowedSymbol(x, w, c, t, rest, r);
    }
  }

  // A space was added that was not there.
  lemma SpacedSymbol(x: Context, w: Source, c: Ascii, t: Source, rest: Source, r: Source)
    requires IsWord(w) && IsLetter(w[0]) && Converts(x, w) && SymbolOf(w) == Some(c)
    requires NeedsSpace(rest) && r == [c] + rest
    ensures CompactRest(x, w + (" " + t)) != r
  {
    hide CompactRest, SymbolOf, KeywordOf;
    var t1: Source := " " + t;
    CompactKeyword(x, w, t1);
    assert t1[0] == ' ';
    assert SpacesLength(t1) > 0;
    assert CompactRest(x, w + t1)[1] == ' ' && r[1] == rest[0];
  }

  lemma FollowedSymbol(x: Context, w: Source, c: Ascii, t: Source, rest: Source, r: Source)
    requires IsWord(w) && After(x, w) == Step(x, c) == Written(x) && r == [c] + rest && !NeedsSpace(rest)
    requires var k := SpacesLength(t);
             && k == SpacesLength(rest)
             && t == rest[..k] + ExpandRest(After(Step(x, c), rest[..k]), rest[k..])
             && CompactRest(x, w + t) == [c] + (if k > 0 then " " else "") + CompactRest(After(x, w + t[..k]), t[k..])
    requires t == ExpandRest(Step(x, c), rest)
    requires Undone(Step(x, c), rest) <==> Clean(Step(x, c), rest)
    ensures CompactRest(x, w + t) == r <==> WellFollowed(rest) && Clean(Step(x, c), rest)
  {
    hide ExpandRest, Step, Clean, Undone;
    var k := SpacesLength(t);
    if k == 0 {
      assert w + t[..0] == w && t[0..] == t;
      NoSpaces(x, w, c, t, rest, r);
    } else if k == 1 {
      OneSpace(x, w, c, t, rest, r);
    } else {
      SpacesBehind(t);
      CompactFirst(After(x, w + t[..k]), t[k..]);
      SpacesFront(rest);
      var out := CompactRest(x, w + t);
      if |out| > 2 {
        assert out[2] == CompactRest(After(x, w + t[..k]), t[k..])[0];
        assert r[2] == rest[1];
      }
    }
  }

  lemma SpacesFront(r: Source)
    ensures SpacesLength(r) >= 2 ==> r[0] == ' ' && r[1] == ' '
    ensures SpacesLength(r) == 1 ==> r[0] == ' '
  {
  }

  lemma {:induction false} SpacesBehind(r: Source)
    ensures var k := SpacesLength(r); r[k..] == [] || r[k..][0] != ' '
    decreases |r|
  {
    if r != [] && r[0] == ' ' {
      SpacesBehind(r[1..]);
      assert r[SpacesLength(r)..] == r[1..][SpacesLength(r) - 1..];
    }
  }

  lemma NoSpaces(x: Context, w: Source, c: Ascii, t: Source, rest: Source, r: Source)
    requires After(x, w) == Step(x, c) && r == [c] + rest && !NeedsSpace(rest) && SpacesLength(rest) == 0
    requires CompactRest(x, w + t) == [c] + "" + CompactRest(After(x, w), t)
    requires t == ExpandRest(Step(x, c), rest)
    requires Undone(Step(x, c), rest) <==> Clean(Step(x, c), rest)
    ensures CompactRest(x, w + t) == r <==> WellFollowed(rest) && Clean(Step(x, c), rest)
  {
    hide CompactRest, ExpandRest, Clean, Step, SpacesLength;
    var head: Source := [c];
    assert [c] + "" + CompactRest(After(x, w), t) == head + CompactRest(After(x, w), t);
    SameHead(head, CompactRest(After(x, w), t), rest);
  }

  lemma CompactSpace(x: Context, t: Source)
    requires t != [] && t[0] == ' '
    ensures CompactRest(x, t) == [t[0]] + CompactRest(Step(x, ' '), t[1..])
  {
  }

  lemma OneSpace(x: Context, w: Source, c: Ascii, t: Source, rest: Source, r: Source)
    requires After(x, w) == Step(x, c) && r == [c] + rest && !NeedsSpace(rest)
    requires SpacesLength(t) == 1 && SpacesLength(rest) == 1
    requires CompactRest(x, w + t) == [c] + " " + CompactRest(After(x, w + t[..1]), t[1..])
    requires t == ExpandRest(Step(x, c), rest)
    requires Undone(Step(x, c), rest) <==> Clean(Step(x, c), rest)
    ensures CompactRest(x, w + t) == r <==> WellFollowed(rest) && Clean(Step(x, c), rest)
  {
    hide CompactRest, ExpandRest, Clean, Step, SpacesLength, After;
    SpacesFront(t);
    SpacesFront(rest);
    CompactSpace(Step(x, c), t);
    AfterAppend(x, w, t[..1]);
    AfterOne(Step(x, c), t[..1]);
    var tail := CompactRest(Step(Step(x, c), ' '), t[1..]);
    var head: Source := [c];
    var space: Source := [' '];
    assert rest == space + rest[1..] && r == head + (space + rest[1..]);
    assert CompactRest(x, w + t) == head + (space + tail);
    SameHead(head, space + tail, space + rest[1..]);
  }

  lemma AfterOne(x: Context, s: Source)
    requires |s| == 1
    ensures After(x, s) == Step(x, s[0])
  {
    assert s[1..] == [];
  }

  // Compacting an expanded file gives the file back exactly if it is clean.
  lemma CompactUndoesExpand(s: Source)
    ensures CompactSource(ExpandSource(s)) == s <==> Clean(AT_START, s)
  {
    hide *;
    RoundTrip(AT_START, s);
    AtStart(s);
  }

  lemma AtStart(s: Source)
    ensures CompactSource(ExpandSource(s)) == s <==> Undone(AT_START, s)
  {
  }
}
