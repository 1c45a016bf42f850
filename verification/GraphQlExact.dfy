/** The parser takes nothing but written queries: whatever it accepts is the text of a document, and
  * what it gives is that document's meaning. */
module GraphQlExact {
  import opened Bytes
  import opened GraphQl
  import opened GraphQlSyntax
  import opened GraphQlBack

  // ---- blanks and words ----

  lemma {:induction false} WordRead(r: Text)
    ensures r == Word(r) + BehindWord(r) && Stops(BehindWord(r)) && (Word(r) != [] ==> IsName(Word(r)))
    decreases |r|
  {
    if r != [] {
      CharClasses(r[0]);
      if IsWordChar(r[0]) {
        WordRead(r[1..]);
        assert BehindWord(r) == BehindWord(r[1..]);
        assert Word(r) == [r[0]] + Word(r[1..]);
      }
    }
  }

  lemma {:induction false} CommentRead(r: Text) returns (text: Text)
    requires BehindComment(r) != []
    ensures '\n' !in text && r == text + BehindComment(r) && BehindComment(r)[0] == '\n'
    decreases |r|
  {
    if r[0] == '\n' {
      text := [];
      NothingInFront(r);
    } else {
      var rest := CommentRead(r[1..]);
      text := [r[0]] + rest;
      OneInFront(r, rest, BehindComment(r[1..]));
    }
  }

  lemma NothingInFront(r: Text)
    ensures [] + r == r
  {
  }

  lemma OneInFront(r: Text, rest: Text, t: Text)
    requires r != [] && r[1..] == rest + t
    ensures r == [r[0]] + rest + t
    ensures forall c :: c in [r[0]] + rest <==> c == r[0] || c in rest
  {
  }

  // What the parser skips in front of anything is a gap.
  lemma {:induction false} GapRead(r: Text) returns (g: Gap)
    requires SkipIgnored(r) != []
    ensures ValidGap(g) && r == GapThen(g, SkipIgnored(r)) && Solid(SkipIgnored(r))
    decreases |r|
  {
    CharClasses(r[0]);
    if IsIgnored(r[0]) {
      var rest := GapRead(r[1..]);
      g := [Space(r[0])] + rest;
      assert g[1..] == rest;
    } else if r[0] == '#' {
      var line := BehindComment(r);
      var text := CommentRead(r);
      CharClasses(line[0]);
      var rest := GapRead(line[1..]);
      g := CommentInFront(r, text, line, rest);
    } else {
      g := [];
    }
  }

  lemma CommentInFront(r: Text, text: Text, line: Text, rest: Gap) returns (g: Gap)
    requires r != [] && r[0] == '#' && r == text + line && line != [] && line[0] == '\n' && '\n' !in text
    requires ValidGap(rest) && line[1..] == GapThen(rest, SkipIgnored(r))
    ensures ValidGap(g) && r == GapThen(g, SkipIgnored(r))
  {
    assert text == [] ==> r == line;
    var comment := text[1..];
    assert forall c | c in comment :: c in text;
    g := [Comment(comment)] + rest;
    assert g[1..] == rest;
    assert text == "#" + comment && line == "\n" + line[1..];
  }

  // ---- values ----

  lemma {:induction false} StringRead(r: Text) returns (pieces: seq<Piece>)
    requires ParseString(r).Ok?
    ensures ValidPieces(pieces) && Chars(pieces) == ParseString(r).value.0
    ensures r == PiecesThen(pieces, "\"" + ParseString(r).value.1)
    decreases |r|
  {
    if r[0] == '"' {
      pieces := [];
      assert r == "\"" + r[1..];
    } else {
      var escaped := r[0] == '\\' && |r| > 1;
      var rest := StringRead(if escaped then r[2..] else r[1..]);
      pieces := [if escaped then Escape(r[1]) else Bare(r[0])] + rest;
      assert pieces[1..] == rest;
      assert r == if escaped then "\\" + ([r[1]] + r[2..]) else [r[0]] + r[1..];
    }
  }

  lemma {:induction false} DigitsRead(r: Text)
    ensures var d := Digits(r);
            && AllDigits(d) && r == d + r[|d|..] && (|d| < |r| ==> !IsDigit(r[|d|]))
    decreases |r|
  {
    if r != [] && IsDigit(r[0]) {
      DigitsRead(r[1..]);
      assert r[1..][DigitsLength(r[1..])..] == r[|Digits(r)|..];
    }
  }

  lemma {:induction false} ZerosEnd(n: nat)
    ensures Zeros(n) + "0" == Zeros(n + 1)
  {
    if n > 0 {
      ZerosEnd(n - 1);
      assert Zeros(n) + "0" == "0" + (Zeros(n - 1) + "0");
    }
  }

  // Digits are zeros and the number they stand for, as it is printed.
  lemma {:induction false} DigitString(s: Text) returns (zeros: nat)
    requires s != [] && AllDigits(s)
    ensures s == Zeros(zeros) + PrintNat(DigitsValue(s))
    decreases |s|
  {
    hide PrintNat, Zeros;
    var front, c := s[..|s| - 1], s[|s| - 1];
    assert forall x | x in front :: x in s;
    assert c in s && s == front + [c];
    OneDigit(c);
    if front == [] {
      zeros := 0;
      NoZeros([c]);
    } else {
      var z := DigitString(front);
      zeros := DigitAppended(DigitsValue(front), z, c);
    }
  }

  lemma NoZeros(s: Text)
    ensures Zeros(0) + s == s
  {
  }

  lemma DigitAppended(v: nat, z: nat, c: Octet) returns (zeros: nat)
    requires IsDigit(c)
    ensures Zeros(z) + PrintNat(v) + [c] == Zeros(zeros) + PrintNat(10 * v + (c as int - '0' as int))
  {
    hide PrintNat, Zeros;
    OneDigit(c);
    if v == 0 {
      zeros := z + 1;
      OneDigit('0');
      ZerosEnd(z);
    } else {
      zeros := z;
      MoreDigits(v, c);
      assert Zeros(z) + PrintNat(v) + [c] == Zeros(z) + (PrintNat(v) + [c]);
    }
  }

  lemma OneDigit(c: Octet)
    requires IsDigit(c)
    ensures PrintNat(c as int - '0' as int) == [c]
  {
  }

  lemma MoreDigits(v: nat, c: Octet)
    requires IsDigit(c) && v > 0
    ensures PrintNat(10 * v + (c as int - '0' as int)) == PrintNat(v) + [c]
  {
    var n := 10 * v + (c as int - '0' as int);
    assert n / 10 == v && n % 10 == c as int - '0' as int;
  }

  lemma WholeRead(digits: Text, negative: bool, t: Text) returns (v: Literal)
    requires AllDigits(digits) && IntegerOf(negative, digits).Ok?
    requires t == [] || (!IsDigit(t[0]) && t[0] != '.')
    ensures ValidLiteral(v, t) && LiteralValue(v) == IntegerOf(negative, digits).value
    ensures Sign(negative) + (digits + t) == LiteralThen(v, t)
  {
    hide DigitsValue, PrintNat, Zeros;
    var zeros := DigitString(digits);
    v := Whole(IntegerOf(negative, digits).value.i, negative, zeros);
  }

  lemma DecimalRead(whole: Text, fraction: Text, negative: bool, t: Text) returns (v: Literal)
    requires AllDigits(whole) && AllDigits(fraction) && FloatOf(whole, fraction).Ok?
    requires (negative || whole != []) && (t == [] || !IsDigit(t[0]))
    ensures v == Decimal(negative, whole, fraction) && ValidLiteral(v, t)
    ensures FloatOf(whole, fraction).value == Float(whole + "." + fraction)
  {
    hide Power2;
    v := Decimal(negative, whole, fraction);
  }

  lemma UnsignedRead(r: Text, negative: bool) returns (v: Literal)
    requires ParseUnsigned(r, negative).Ok? && (negative || (r != [] && IsDigit(r[0])))
    ensures var (value, t) := ParseUnsigned(r, negative).value;
            && ValidLiteral(v, t) && Sign(negative) + r == LiteralThen(v, t)
            && LiteralValue(v) == if negative && value.Float? then Float("-" + value.text) else value
  {
    hide DigitsLength, IntegerOf, FloatOf, DigitsValue, DigitsOf, Power2;
    var digits := Digits(r);
    var t := r[|digits|..];
    DigitsRead(r);
    if t != [] && t[0] == '.' {
      var fraction := Digits(t[1..]);
      DigitsRead(t[1..]);
      var u := t[1 + |fraction|..];
      assert t[1..] == fraction + u && t == "." + (fraction + u);
      FirstDigit(r);
      v := DecimalRead(digits, fraction, negative, u);
      assert digits + "." + fraction == digits + ("." + fraction);
    } else {
      v := WholeRead(digits, negative, t);
      IntegerIsInt(negative, digits);
    }
  }

  lemma FirstDigit(r: Text)
    ensures r != [] && IsDigit(r[0]) ==> Digits(r) != []
  {
  }

  lemma IntegerIsInt(negative: bool, digits: Text)
    requires AllDigits(digits)
    ensures IntegerOf(negative, digits).Ok? ==> IntegerOf(negative, digits).value.Int?
  {
  }

  lemma NumberRead(r: Text) returns (v: Literal)
    requires ParseNumber(r).Ok? && r != [] && (r[0] == '-' || IsDigit(r[0]))
    ensures var (value, t) := ParseNumber(r).value;
            ValidLiteral(v, t) && r == LiteralThen(v, t) && LiteralValue(v) == value
  {
    hide ParseUnsigned, LiteralThen, ValidLiteral, LiteralValue;
    if r[0] == '-' {
      v := UnsignedRead(r[1..], true);
      assert Sign(true) + r[1..] == r;
    } else {
      v := UnsignedRead(r, false);
      assert Sign(false) + r == r;
    }
  }

  lemma UnquotedRead(r: Text) returns (v: Literal)
    requires Solid(r) && r != [] && r[0] != '"' && !(r[0] == '-' || IsDigit(r[0])) && ParseValue(r).Ok?
    ensures var (value, t) := ParseValue(r).value;
            ValidLiteral(v, t) && r == LiteralThen(v, t) && LiteralValue(v) == value
  {
    hide WordLength, ParseNumber;
    SolidKept(r);
    WordRead(r);
    WordFront(r);
    v := Unquoted(Word(r));
    if Word(r) != [] {
      CharClasses(r[0]);
      Digit(r[0]);
    }
  }

  lemma ValueRead(r: Text) returns (v: Literal)
    requires Solid(r) && ParseValue(r).Ok?
    ensures var (value, t) := ParseValue(r).value;
            ValidLiteral(v, t) && r == LiteralThen(v, t) && LiteralValue(v) == value
  {
    hide ParseString, ParseNumber, ValidPieces, PiecesThen, Chars, WordLength;
    SolidKept(r);
    if r[0] == '"' {
      var pieces := StringRead(r[1..]);
      v := Quoted(pieces);
      assert r == "\"" + r[1..];
    } else if r[0] == '-' || IsDigit(r[0]) {
      NumberStart(r);
      v := NumberRead(r);
    } else {
      v := UnquotedRead(r);
    }
  }

  // ---- arguments ----

  // The parts of one argument, as the parser finds them.
  lemma ArgRead(r: Text, before: map<Text, Value>) returns (a: Arg, t: Text)
    requires Solid(r) && ParseArguments(r, before).Ok? && r[0] != ')'
    ensures Solid(t) && |t| < |r| && ValidArg(a, t) && r == ArgThen(a, t)
    ensures ParseArguments(r, before) == ParseArguments(t, before[a.name := LiteralValue(a.value)])
  {
    hide ParseValue, SkipIgnored, WordLength, GapThen, LiteralThen, ValidLiteral, LiteralValue;
    var colon := SkipIgnored(BehindWord(r));
    WordRead(r);
    var g := GapRead(BehindWord(r));
    var h, value, v := ValueBehindColon(colon[1..]);
    var u := ParseValue(value).value.1;
    NonEmpty(SkipIgnored(u), before[Word(r) := LiteralValue(v)]);
    var k := GapRead(u);
    a := Arg(Word(r), g, h, v, k);
    t := SkipIgnored(u);
    assert colon == ":" + colon[1..];
  }

  lemma NonEmpty(r: Text, before: map<Text, Value>)
    ensures ParseArguments(r, before).Ok? ==> r != []
  {
  }

  lemma ValueBehindColon(r: Text) returns (g: Gap, value: Text, v: Literal)
    requires ParseValue(SkipIgnored(r)).Ok?
    ensures value == SkipIgnored(r) && ValidGap(g) && r == GapThen(g, value)
    ensures ParseValue(value).Ok? && var (x, t) := ParseValue(value).value;
            ValidLiteral(v, t) && value == LiteralThen(v, t) && LiteralValue(v) == x
  {
    hide GapThen, LiteralThen, ValidLiteral, LiteralValue, Word;
    value := SkipIgnored(r);
    g := GapRead(r);
    v := ValueRead(value);
  }

  lemma {:induction false} ArgsRead(r: Text, before: map<Text, Value>) returns (args: seq<Arg>)
    requires Solid(r) && ParseArguments(r, before).Ok?
    ensures var (m, t) := ParseArguments(r, before).value;
            ValidArgs(args, ")" + t) && r == ArgsThen(args, ")" + t) && Arguments(args, before) == m
    decreases |r|
  {
    hide ArgThen, ValidArg, LiteralValue, SkipIgnored, ParseValue, Word, BehindWord;
    if r[0] == ')' {
      args := [];
      assert r == ")" + r[1..];
    } else {
      var a, t := ArgRead(r, before);
      var rest := ArgsRead(t, before[a.name := LiteralValue(a.value)]);
      args := [a] + rest;
      assert args[1..] == rest;
    }
  }

  // ---- fields ----

  // The names at the start of a field and the gap behind them; x is where the parser goes on.
  lemma NamesRead(r: Text) returns (alias: Option<Alias>, tail: Text, behindName: Gap)
    requires Solid(r) && Word(r) != [] && ParseNames(Word(r), SkipIgnored(BehindWord(r))).2 != []
    ensures var (name, word, x) := ParseNames(Word(r), SkipIgnored(BehindWord(r)));
            && r == AliasThen(alias, name + tail) && ValidNames(alias, name, tail) && AliasMeaning(alias) == word
            && tail == GapThen(behindName, x) && ValidGap(behindName) && Solid(x)
  {
    hide SkipIgnored, WordLength, GapThen, ValidGap, Solid;
    WordRead(r);
    var y := SkipIgnored(BehindWord(r));
    if y != [] && y[0] == ':' {
      alias, tail, behindName := AliasRead(r, y);
    } else {
      alias, tail := None, BehindWord(r);
      behindName := GapRead(tail);
    }
  }

  lemma AliasRead(r: Text, y: Text) returns (alias: Option<Alias>, tail: Text, behindName: Gap)
    requires Word(r) != [] && y == SkipIgnored(BehindWord(r)) && y != [] && y[0] == ':'
    requires SkipIgnored(BehindWord(SkipIgnored(y[1..]))) != []
    ensures var named := SkipIgnored(y[1..]);
            var name, x := Word(named), SkipIgnored(BehindWord(named));
            && r == AliasThen(alias, name + tail) && ValidNames(alias, name, tail) && AliasMeaning(alias) == Word(r)
            && tail == GapThen(behindName, x) && ValidGap(behindName) && Solid(x)
  {
    hide SkipIgnored, Word, BehindWord, GapThen, ValidGap, Solid;
    var named := SkipIgnored(y[1..]);
    NothingSkipped();
    WordRead(r);
    WordRead(named);
    tail := BehindWord(named);
    var g := GapRead(BehindWord(r));
    var h := GapRead(y[1..]);
    alias := Some(Alias(Word(r), g, h));
    behindName := GapRead(tail);
    assert y == ":" + y[1..];
    assert [] + tail == tail;
  }

  lemma NothingSkipped()
    ensures SkipIgnored([]) == [] && BehindWord([]) == []
  {
  }

  // Arguments in parentheses, in front of what the parser goes on with.
  lemma ParensRead(x: Text) returns (args: Args)
    requires x != [] && x[0] == '(' && ParseArguments(SkipIgnored(x[1..]), map[]).Ok?
    requires SkipIgnored(ParseArguments(SkipIgnored(x[1..]), map[]).value.1) != []
    ensures var (m, u) := ParseArguments(SkipIgnored(x[1..]), map[]).value;
            && x == ParensThen(Some(args), SkipIgnored(u)) && ValidParens(Some(args), SkipIgnored(u))
            && ArgsMeaning(Some(args)) == Some(m) && Solid(SkipIgnored(u))
  {
    hide ParseArguments, SkipIgnored, GapThen, ArgsThen, ValidArgs, Arguments;
    var start := SkipIgnored(x[1..]);
    NonEmpty(start, map[]);
    var inside := GapRead(x[1..]);
    var list := ArgsRead(start, map[]);
    var behind := GapRead(ParseArguments(start, map[]).value.1);
    args := Args(inside, list, behind);
    assert x == "(" + x[1..];
  }

  // The nested set, if there is one, and the gap behind it.
  lemma {:induction false} NestedRead(x: Text, name: Text, alias: Text, args: Option<map<Text, Value>>)
    returns (nested: Option<Braces>, behind: Gap)
    requires Solid(x) && ParseNested(name, alias, args, x).Ok?
    requires SkipIgnored(ParseNested(name, alias, args, x).value.1) != []
    ensures var (selection, u) := ParseNested(name, alias, args, x).value;
            && x == NestedThen(nested, GapThen(behind, SkipIgnored(u)))
            && ValidNested(nested, GapThen(behind, SkipIgnored(u))) && ValidGap(behind)
            && selection == Selection(name, alias, args, NestedMeaning(nested))
    decreases |x|, 3
  {
    hide ParseSelectionSet, SkipIgnored, ValidBraces, BracesThen, FieldsMeaning;
    var u := ParseNested(name, alias, args, x).value.1;
    if x != [] && x[0] == '{' {
      var braces := BracesRead(x);
      nested := Some(braces);
      behind := GapRead(u);
    } else {
      nested, behind := None, [];
      SolidKept(x);
    }
  }

  lemma {:induction false} FieldRead(r: Text) returns (f: Field)
    requires Solid(r) && ParseSelection(r).Ok? && SkipIgnored(ParseSelection(r).value.1) != []
    ensures var (selection, u) := ParseSelection(r).value;
            ValidField(f, SkipIgnored(u)) && r == FieldThen(f, SkipIgnored(u)) && Meaning(f) == selection
    decreases |r|, 0
  {
    hide SkipIgnored, Word, BehindWord, ParseNames, ParseArguments, ParseNested, Solid, GapThen, AliasThen, NestedThen, ValidNames,
      ValidNested, ValidArgs, NestedMeaning, AliasMeaning;
    SolidKept(r);
    SelectionGoesOn(r);
    var (name, word, x) := ParseNames(Word(r), SkipIgnored(BehindWord(r)));
    var end := SkipIgnored(ParseSelection(r).value.1);
    var alias, tail, behindName := NamesRead(r);
    if x[0] == '(' {
      var p := ParseArguments(SkipIgnored(x[1..]), map[]).value;
      var y := SkipIgnored(p.1);
      var args := ParensRead(x);
      Shorter(r, x, y);
      var nested, behind := NestedRead(y, name, word, Some(p.0));
      f := Field(alias, name, behindName, Some(args), nested, behind);
      assert BehindArgs(f, end) == y && BehindName(f, end) == tail;
    } else {
      ShorterNames(r);
      var nested, behind := NestedRead(x, name, word, None);
      f := Field(alias, name, behindName, None, nested, behind);
      assert BehindArgs(f, end) == x && BehindName(f, end) == tail;
    }
  }

  lemma ShorterNames(r: Text)
    requires Word(r) != []
    ensures |ParseNames(Word(r), SkipIgnored(BehindWord(r))).2| < |r|
  {
  }

  lemma Shorter(r: Text, x: Text, y: Text)
    requires Word(r) != [] && x == ParseNames(Word(r), SkipIgnored(BehindWord(r))).2 && x != []
    requires ParseArguments(SkipIgnored(x[1..]), map[]).Ok?
    requires y == SkipIgnored(ParseArguments(SkipIgnored(x[1..]), map[]).value.1)
    ensures |y| < |r|
  {
    ShorterNames(r);
  }

  // A field with text behind it has text behind each of its parts.
  lemma SelectionGoesOn(r: Text)
    requires SkipIgnored(r) == r && ParseSelection(r).Ok? && SkipIgnored(ParseSelection(r).value.1) != []
    ensures Word(r) != []
    ensures var (name, alias, x) := ParseNames(Word(r), SkipIgnored(BehindWord(r)));
            && x != []
            && (x[0] == '(' ==>
                  var p := ParseArguments(SkipIgnored(x[1..]), map[]);
                  && p.Ok? && SkipIgnored(p.value.1) != []
                  && ParseSelection(r) == ParseNested(name, alias, Some(p.value.0), SkipIgnored(p.value.1)))
            && (x[0] != '(' ==> ParseSelection(r) == ParseNested(name, alias, None, x))
  {
    hide Word, BehindWord, ParseArguments, ParseNames;
    var (name, alias, x) := ParseNames(Word(r), SkipIgnored(BehindWord(r)));
    NestedEnd(name, alias, None);
    if x != [] && x[0] == '(' {
      var p := ParseArguments(SkipIgnored(x[1..]), map[]);
      if p.Ok? {
        NestedEnd(name, alias, Some(p.value.0));
      }
    }
  }

  lemma NestedEnd(name: Text, alias: Text, args: Option<map<Text, Value>>)
    ensures ParseNested(name, alias, args, []) == Ok((Selection(name, alias, args, []), []))
    ensures SkipIgnored([]) == []
  {
  }

  lemma SelectionsGoOn(r: Text)
    requires Solid(r) && ParseSelections(r).Ok? && r[0] != '}'
    ensures ParseSelection(r).Ok?
    ensures var (selection, t) := ParseSelection(r).value;
            && SkipIgnored(t) != [] && |SkipIgnored(t)| < |r| && ParseSelections(SkipIgnored(t)).Ok?
            && var (rest, u) := ParseSelections(SkipIgnored(t)).value;
            ParseSelections(r).value == ([selection] + rest, u)
  {
    hide ParseSelection;
    NoSelections();
  }

  lemma NoSelections()
    ensures ParseSelections([]).Err?
  {
  }

  lemma {:induction false} FieldsRead(r: Text) returns (fields: seq<Field>)
    requires Solid(r) && ParseSelections(r).Ok?
    ensures var (selections, t) := ParseSelections(r).value;
            && ValidFields(fields, "}" + t) && r == FieldsThen(fields, "}" + t) && FieldsMeaning(fields) == selections
    decreases |r|, 1
  {
    hide ParseSelection, SkipIgnored, FieldThen, ValidField, Meaning;
    if r[0] == '}' {
      fields := [];
      assert r == "}" + r[1..];
    } else {
      hide ParseSelections;
      SelectionsGoOn(r);
      var t := SkipIgnored(ParseSelection(r).value.1);
      var f := FieldRead(r);
      var g := GapRead(ParseSelection(r).value.1);
      var rest := FieldsRead(t);
      fields := [f] + rest;
      assert fields[1..] == rest;
    }
  }

  lemma {:induction false} BracesRead(r: Text) returns (braces: Braces)
    requires ParseSelectionSet(r).Ok?
    ensures var (selections, t) := ParseSelectionSet(r).value;
            && ValidBraces(braces, t) && r == BracesThen(braces, t) && FieldsMeaning(braces.fields) == selections
    decreases |r|, 2
  {
    hide ParseSelections, SkipIgnored, FieldsThen, ValidFields, FieldsMeaning, GapThen;
    var start := SkipIgnored(r[1..]);
    NoSelections();
    var inside := GapRead(r[1..]);
    var fields := FieldsRead(start);
    braces := Braces(inside, fields);
    assert r == "{" + r[1..];
  }

  // ---- documents ----

  // Parentheses counted in pairs are pairs.
  lemma {:induction false} InsideRead(r: Text, depth: nat) returns (parts: seq<Inside>, u: Text)
    requires depth >= 1 && Balanced(r, depth).Some?
    ensures ValidInside(parts) && r == InsideThen(parts, ")" + u) && Balanced(u, depth - 1) == Balanced(r, depth)
    ensures |u| < |r|
    decreases |r|
  {
    if r[0] == ')' {
      parts, u := [], r[1..];
      assert r == ")" + u;
    } else if r[0] == '(' {
      var inner, v := InsideRead(r[1..], depth + 1);
      var rest, w := InsideRead(v, depth);
      parts, u := [Group(inner)] + rest, w;
      assert parts[1..] == rest;
      assert r == "(" + r[1..];
    } else {
      var rest, w := InsideRead(r[1..], depth);
      parts, u := [Mark(r[0])] + rest, w;
      assert parts[1..] == rest;
      assert r == [r[0]] + r[1..];
    }
  }

  // Behind the operation's name: the variables, if there are any, in front of the selections.
  lemma VariablesRead(r: Text, braces: Text) returns (variables: Option<Variables>)
    requires braces != [] && braces[0] == '{'
    requires if r != [] && r[0] == '(' then Balanced(r[1..], 1).Some? && SkipIgnored(Balanced(r[1..], 1).value) == braces
             else r == braces
    ensures ValidVariables(variables) && r == VariablesThen(variables, braces)
  {
    hide Balanced, SkipIgnored, InsideThen, ValidInside, GapThen;
    if r[0] == '(' {
      var parts, u := InsideRead(r[1..], 1);
      EndOfCount(u);
      var g := GapRead(u);
      variables := Some(Variables(parts, g));
      assert r == "(" + r[1..];
    } else {
      variables := None;
    }
  }

  lemma EndOfCount(u: Text)
    ensures Balanced(u, 0) == Some(u)
  {
  }

  // What the parser makes of a text that starts with an operation.
  lemma HeaderUnfolds(r: Text) returns (name: Text, behindName: Text, braces: Text)
    requires SkipIgnored(r) == r && IsOperation(Word(r)) && ParseQuery(r).Ok?
    ensures ParseQuery(r) == ParseBody(Word(r), name, braces) && braces != [] && braces[0] == '{'
    ensures SkipIgnored(BehindWord(r)) == name + behindName && SkipIgnored(BehindWord(r)) != []
    ensures Stops(behindName) && (name == [] || IsName(name))
    ensures var u := SkipIgnored(behindName);
            && u != []
            && if u[0] == '(' then Balanced(u[1..], 1).Some? && SkipIgnored(Balanced(u[1..], 1).value) == braces
               else u == braces
  {
    hide ParseSelections, Word, BehindWord, Balanced, SkipIgnored;
    NothingSkipped();
    var t := SkipIgnored(BehindWord(r));
    WordRead(t);
    var named := t != [] && t[0] != '{' && t[0] != '(';
    if named {
      name, behindName := Word(t), BehindWord(t);
    } else {
      name, behindName := [], t;
      assert [] + t == t;
      EitherBracket(t);
    }
    var u := SkipIgnored(behindName);
    braces := if u != [] && u[0] == '(' && Balanced(u[1..], 1).Some? then SkipIgnored(Balanced(u[1..], 1).value) else u;
  }

  lemma EitherBracket(t: Text)
    requires t == [] || t[0] == '{' || t[0] == '('
    ensures SkipIgnored(t) == t && Stops(t)
  {
    if t != [] {
      assert t == [t[0]] + t[1..];
      if t[0] == '{' {
        BraceSolid(t[1..]);
      } else {
        ParenSolid(t[1..]);
      }
      SolidKept(t);
    }
  }

  lemma HeaderRead(r: Text) returns (h: Header, braces: Text)
    requires SkipIgnored(r) == r && IsOperation(Word(r)) && ParseQuery(r).Ok?
    ensures ParseQuery(r) == ParseBody(h.word, h.name, braces)
    ensures r == h.word + BehindHead(h, braces) && ValidHeader(h, braces)
  {
    hide ParseQuery, ParseBody, Word, BehindWord, Balanced, SkipIgnored, GapThen, VariablesThen, ValidVariables, Solid;
    NothingSkipped();
    WordRead(r);
    var name, behindName, b := HeaderUnfolds(r);
    braces := b;
    var u := SkipIgnored(behindName);
    var variables := VariablesRead(u, braces);
    var g := GapRead(BehindWord(r));
    var k := GapRead(behindName);
    h := Header(Word(r), g, name, k, variables);
  }

  // Whatever the parser accepts is a document, and the query is what it means.
  lemma QueryRead(input: Text) returns (d: Document, t: Text)
    requires ParseQuery(input).Ok?
    ensures ValidDocument(d, t) && input == DocumentThen(d, t) && ParseQuery(input).value == DocumentMeaning(d)
  {
    hide ParseSelectionSet, Word, BehindWord, Balanced, SkipIgnored, GapThen, FieldsMeaning, ValidBraces, ValidHeader,
      BehindHead, BracesThen, Solid;
    var r := SkipIgnored(input);
    AcceptedIsSomething(input);
    var front := GapRead(input);
    SolidKept(r);
    SkippedFirst(input);
    if IsOperation(Word(r)) {
      var h, text := HeaderRead(r);
      var braces := BracesRead(text);
      d, t := Document(front, Some(h), braces), ParseSelectionSet(text).value.1;
    } else {
      var braces := BracesRead(r);
      d, t := Document(front, None, braces), ParseSelectionSet(r).value.1;
    }
  }

  lemma SkippedFirst(input: Text)
    requires SkipIgnored(SkipIgnored(input)) == SkipIgnored(input)
    ensures ParseQuery(SkipIgnored(input)) == ParseQuery(input)
  {
    hide ParseBody, Word, BehindWord, Balanced, SkipIgnored;
  }

  lemma AcceptedIsSomething(input: Text)
    ensures ParseQuery(input).Ok? ==> SkipIgnored(input) != []
  {
    hide ParseSelections;
  }

  // The parser accepts exactly the written queries, each for what it means.
  lemma ParsesExactly(input: Text, q: Query)
    ensures ParseQuery(input) == Ok(q) <==>
            exists d: Document, t: Text :: ValidDocument(d, t) && input == DocumentThen(d, t) && q == DocumentMeaning(d)
  {
    hide ParseQuery, ValidDocument, DocumentThen, DocumentMeaning;
    if ParseQuery(input) == Ok(q) {
      var d, t := QueryRead(input);
    }
    forall d: Document, t: Text | ValidDocument(d, t) && input == DocumentThen(d, t) && q == DocumentMeaning(d)
      ensures ParseQuery(input) == Ok(q)
    {
      QueryBack(d, t);
    }
  }
}
