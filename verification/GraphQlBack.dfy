/** The parser inverts writing: it makes of every written query what the query means, wherever blanks,
  * commas and comments stand. */
module GraphQlBack {
  import opened Bytes
  import opened GraphQl
  import opened GraphQlSyntax

  // ---- characters, blanks and words ----

  lemma CharClasses(c: Octet)
    ensures IsWordChar(c) <==> InName(c)
    ensures IsIgnored(c) <==> c in " \t\n\r,"
  {
    Digit(c);
  }

  lemma Digit(c: Octet)
    ensures c in "0123456789_" <==> IsDigit(c) || c == '_'
  {
    if IsDigit(c) {
      var d := c as int - '0' as int;
      assert "0123456789_"[d] == c;
    }
  }

  lemma SolidKept(t: Text)
    requires Solid(t)
    ensures SkipIgnored(t) == t
  {
    if t != [] {
      CharClasses(t[0]);
    }
  }

  lemma {:induction false} CommentPassed(text: Text, t: Text)
    requires '\n' !in text && t != [] && t[0] == '\n'
    ensures BehindComment(text + t) == t
    decreases |text|
  {
    if text == [] {
      assert text + t == t;
    } else {
      assert (text + t)[0] == text[0] && text[0] in text;
      assert (text + t)[1..] == text[1..] + t;
      CommentPassed(text[1..], t);
    }
  }

  lemma CommentSkipped(text: Text, t: Text)
    requires '\n' !in text
    ensures SkipIgnored("#" + text + ("\n" + t)) == SkipIgnored(t)
  {
    hide SkipIgnored, BehindComment;
    var line := "\n" + t;
    var r := "#" + text + line;
    CommentPassed(text, line);
    assert r[1..] == text + line && r[0] == '#';
    SignSkipped(r);
    assert line[1..] == t && line[0] == '\n';
    LineEndSkipped(line);
  }

  lemma SignSkipped(r: Text)
    requires r != [] && r[0] == '#'
    ensures SkipIgnored(r) == SkipIgnored(BehindComment(r[1..]))
  {
    assert BehindComment(r) == BehindComment(r[1..]);
  }

  lemma LineEndSkipped(r: Text)
    requires r != [] && r[0] == '\n'
    ensures SkipIgnored(r) == SkipIgnored(r[1..])
  {
  }

  lemma {:induction false} GapSkipped(g: Gap, t: Text)
    requires ValidGap(g)
    ensures SkipIgnored(GapThen(g, t)) == SkipIgnored(t)
    decreases |g|
  {
    if g != [] {
      var more := GapThen(g[1..], t);
      assert forall b | b in g[1..] :: b in g;
      GapSkipped(g[1..], t);
      assert g[0] in g;
      match g[0]
      case Space(c) => {
        CharClasses(c);
        assert ([c] + more)[1..] == more;
      }
      case Comment(text) => CommentSkipped(text, more);
    }
  }

  // A gap does not go on with a name.
  lemma GapStops(g: Gap, t: Text)
    requires ValidGap(g) && (g == [] ==> Stops(t))
    ensures Stops(GapThen(g, t))
  {
    if g != [] {
      assert g[0] in g;
      if g[0].Space? {
        CharClasses(g[0].c);
      }
    }
  }

  lemma GapKeeps(g: Gap, t: Text)
    requires ValidGap(g) && Stops(t)
    ensures Stops(GapThen(g, t))
  {
    GapStops(g, t);
  }

  lemma {:induction false} WordBack(w: Text, t: Text)
    requires IsName(w) && Stops(t)
    ensures Word(w + t) == w && BehindWord(w + t) == t && Solid(w + t)
  {
    WordLengthOf(w, t);
    assert (w + t)[..|w|] == w && (w + t)[|w|..] == t;
    assert (w + t)[0] == w[0] && w[0] in w;
    CharClasses(w[0]);
  }

  lemma {:induction false} WordLengthOf(w: Text, t: Text)
    requires (forall c | c in w :: InName(c)) && Stops(t)
    ensures WordLength(w + t) == |w|
    decreases |w|
  {
    if w == [] {
      assert w + t == t;
      if t != [] {
        CharClasses(t[0]);
      }
    } else {
      assert (w + t)[0] == w[0] && w[0] in w && (w + t)[1..] == w[1..] + t;
      CharClasses(w[0]);
      WordLengthOf(w[1..], t);
    }
  }

  // There is no word in front of this.
  lemma NoWord(t: Text)
    requires Stops(t)
    ensures Word(t) == [] && BehindWord(t) == t
  {
    if t != [] {
      CharClasses(t[0]);
    }
  }

  // ---- values ----

  lemma {:induction false} StringBack(pieces: seq<Piece>, t: Text)
    requires ValidPieces(pieces)
    ensures ParseString(PiecesThen(pieces, "\"" + t)) == Ok((Chars(pieces), t))
    decreases |pieces|
  {
    if pieces == [] {
      assert ("\"" + t)[1..] == t;
    } else {
      var more := PiecesThen(pieces[1..], "\"" + t);
      StringBack(pieces[1..], t);
      assert pieces[0] in pieces;
      match pieces[0]
      case Bare(c) => assert ([c] + more)[1..] == more;
      case Escape(c) => {
        var r := "\\" + ([c] + more);
        assert r[0] == '\\' && r[1] == c && r[2..] == more;
      }
    }
  }

  // Every string can be written.
  function Spelled(s: Text): seq<Piece> {
    if s == [] then []
    else
      var c := s[0];
      [if c == '"' || c == '\\' then Escape(c) else if c == '\n' then Escape('n') else if c == '\t' then Escape('t')
       else Bare(c)] + Spelled(s[1..])
  }

  lemma {:induction false} SpelledBack(s: Text)
    ensures ValidPieces(Spelled(s)) && Chars(Spelled(s)) == s
  {
    if s != [] {
      SpelledBack(s[1..]);
      var rest := Spelled(s[1..]);
      assert Spelled(s)[1..] == rest;
      assert s == [s[0]] + s[1..];
    }
  }

  lemma {:induction false} NatDigits(n: nat)
    ensures PrintNat(n) != [] && AllDigits(PrintNat(n)) && DigitsValue(PrintNat(n)) == n
    decreases n
  {
    var p := PrintNat(n);
    if n < 10 {
      assert p[..0] == [];
    } else {
      NatDigits(n / 10);
      assert p[..|p| - 1] == PrintNat(n / 10);
    }
  }

  lemma {:induction false} ZerosInFront(zeros: nat, s: Text)
    requires AllDigits(s)
    ensures AllDigits(Zeros(zeros) + s) && DigitsValue(Zeros(zeros) + s) == DigitsValue(s)
    decreases zeros
  {
    hide AllDigits, DigitsValue;
    if zeros == 0 {
      assert Zeros(zeros) + s == s;
    } else {
      var r := Zeros(zeros - 1) + s;
      ZerosInFront(zeros - 1, s);
      assert Zeros(zeros) + s == "0" + r;
      ZeroInFront(r);
    }
  }

  lemma {:induction false} ZeroInFront(s: Text)
    requires AllDigits(s)
    ensures AllDigits("0" + s) && DigitsValue("0" + s) == DigitsValue(s)
    decreases |s|
  {
    var r := "0" + s;
    assert forall c | c in r :: c == '0' || c in s;
    if s == [] {
      assert r[..0] == [];
    } else {
      var front := s[..|s| - 1];
      assert forall c | c in front :: c in s;
      assert r[..|r| - 1] == "0" + front && r[|r| - 1] == s[|s| - 1];
      ZeroInFront(front);
    }
  }

  lemma {:induction false} DigitsBack(s: Text, t: Text)
    requires AllDigits(s) && (t == [] || !IsDigit(t[0]))
    ensures DigitsLength(s + t) == |s| && Digits(s + t) == s
    decreases |s|
  {
    if s == [] {
      assert s + t == t;
    } else {
      assert (s + t)[1..] == s[1..] + t && (s + t)[0] == s[0] && s[0] in s;
      assert forall c | c in s[1..] :: c in s;
      DigitsBack(s[1..], t);
    }
    assert (s + t)[..|s|] == s;
  }

  lemma UnsignedBack(digits: Text, negative: bool, t: Text)
    requires AllDigits(digits) && IntegerOf(negative, digits).Ok?
    requires t == [] || (!IsDigit(t[0]) && t[0] != '.')
    ensures ParseUnsigned(digits + t, negative) == Ok((IntegerOf(negative, digits).value, t))
  {
    hide IntegerOf, DigitsLength;
    DigitsBack(digits, t);
    assert (digits + t)[|digits|..] == t;
  }

  lemma IntegerRead(i: Int64, negative: bool, digits: Text)
    requires digits != [] && AllDigits(digits) && (if negative then i <= 0 else i >= 0)
    requires DigitsValue(digits) == Magnitude(i)
    ensures IntegerOf(negative, digits) == Ok(Int(i))
  {
    hide DigitsValue;
  }

  // Every 64-bit integer reads back, its sign and zeros in front of it or not.
  lemma NumberBack(i: Int64, negative: bool, zeros: nat, t: Text)
    requires ValidLiteral(Whole(i, negative, zeros), t)
    ensures ParseNumber(LiteralThen(Whole(i, negative, zeros), t)) == Ok((Int(i), t))
  {
    hide ParseUnsigned, PrintNat, DigitsValue, IntegerOf, Zeros;
    var digits := DigitsOf(i, zeros);
    NatDigits(Magnitude(i));
    ZerosInFront(zeros, PrintNat(Magnitude(i)));
    IntegerRead(i, negative, digits);
    UnsignedBack(digits, negative, t);
    assert digits != [] && digits[0] in digits;
    SignRead(negative, digits, t);
  }

  // A sign is seen as one, and what starts with none is read without.
  lemma SignRead(negative: bool, u: Text, t: Text)
    requires u != [] && u[0] != '-'
    ensures ParseNumber(Sign(negative) + (u + t)) ==
              match ParseUnsigned(u + t, negative)
              case Err(e) => Err(e)
              case Ok((v, rest)) => Ok((if negative && v.Float? then Float("-" + v.text) else v, rest))
  {
    hide ParseUnsigned;
    var r := Sign(negative) + (u + t);
    if negative {
      assert r[0] == '-' && r[1..] == u + t;
      assert [r[0]] == "-";
    } else {
      assert r == u + t && r[0] == u[0];
    }
  }

  lemma FloatKept(whole: Text, fraction: Text)
    requires AllDigits(whole) && whole + fraction != [] && DigitsValue(whole) < FLOAT_LIMIT
    ensures FloatOf(whole, fraction) == Ok(Float(whole + ("." + fraction)))
  {
    hide Power2;
    assert whole + "." + fraction == whole + ("." + fraction);
  }

  lemma FractionBack(whole: Text, fraction: Text, negative: bool, t: Text)
    requires AllDigits(whole) && AllDigits(fraction) && (t == [] || !IsDigit(t[0])) && FloatOf(whole, fraction).Ok?
    ensures ParseUnsigned(whole + ("." + (fraction + t)), negative) == Ok((FloatOf(whole, fraction).value, t))
  {
    hide DigitsLength, FloatOf;
    var u := "." + (fraction + t);
    var r := whole + u;
    DigitsBack(whole, u);
    assert r[|whole|..] == u && u[1..] == fraction + t;
    DigitsBack(fraction, t);
    assert u[1 + |fraction|..] == t;
  }

  // So does every float a query can write, as it is written.
  lemma FloatBack(negative: bool, whole: Text, fraction: Text, t: Text)
    requires ValidLiteral(Decimal(negative, whole, fraction), t)
    ensures ParseNumber(LiteralThen(Decimal(negative, whole, fraction), t)) ==
              Ok((LiteralValue(Decimal(negative, whole, fraction)), t))
  {
    hide DigitsLength, DigitsValue, ParseUnsigned, ParseNumber, FloatOf;
    var u := whole + ("." + fraction);
    FloatKept(whole, fraction);
    FractionBack(whole, fraction, negative, t);
    assert whole + ("." + (fraction + t)) == u + t;
    assert whole == [] || whole[0] in whole;
    SignRead(negative, u, t);
    assert Sign(negative) + u == if negative then "-" + u else u;
  }

  lemma WordFront(r: Text)
    requires r != []
    ensures Word(r) == [] || Word(r)[0] == r[0]
  {
  }

  // A number is no keyword.
  lemma NumberStart(r: Text)
    requires r != [] && (r[0] == '-' || IsDigit(r[0]))
    ensures Word(r) != "true" && Word(r) != "false" && Word(r) != "null" && Solid(r)
  {
    hide Word;
    WordFront(r);
  }

  lemma WholeStart(i: Int64, negative: bool, zeros: nat, t: Text)
    ensures var r := LiteralThen(Whole(i, negative, zeros), t);
            r != [] && (r[0] == '-' || IsDigit(r[0]))
  {
    hide PrintNat, Zeros, DigitsValue;
    NatDigits(Magnitude(i));
    ZerosInFront(zeros, PrintNat(Magnitude(i)));
    var digits := DigitsOf(i, zeros);
    assert digits[0] in digits;
    assert (digits + t)[0] == digits[0];
  }

  lemma DecimalStart(negative: bool, whole: Text, fraction: Text, t: Text)
    requires AllDigits(whole) && (negative || whole != [])
    ensures var r := LiteralThen(Decimal(negative, whole, fraction), t);
            r != [] && (r[0] == '-' || IsDigit(r[0]))
  {
    if !negative {
      assert whole[0] in whole;
      assert Sign(negative) + (whole + ("." + (fraction + t))) == whole + ("." + (fraction + t));
    }
  }

  lemma NumberValue(r: Text)
    requires r != [] && (r[0] == '-' || IsDigit(r[0]))
    ensures ParseValue(r) == ParseNumber(r) && Solid(r)
  {
    hide Word, BehindWord, ParseNumber;
    NumberStart(r);
    SolidKept(r);
  }

  lemma QuotedValue(u: Text)
    ensures ParseValue("\"" + u) == match ParseString(u) case Err(e) => Err(e) case Ok((s, t)) => Ok((Str(s), t))
    ensures Solid("\"" + u)
  {
    hide ParseString;
    var r := "\"" + u;
    SolidKept(r);
    assert r[1..] == u;
  }

  lemma UnquotedValue(word: Text, t: Text)
    requires ValidLiteral(Unquoted(word), t)
    ensures ParseValue(word + t) == Ok((LiteralValue(Unquoted(word)), t)) && Solid(word + t)
  {
    hide WordLength, ParseNumber;
    var r := word + t;
    WordBack(word, t);
    SolidKept(r);
    assert r[0] == word[0];
    assert IsLetter(r[0]) || r[0] == '_';
  }

  // Every value: strings with any escapes, numbers, keywords, and other words, which mean their letters.
  lemma ValueBack(v: Literal, t: Text)
    requires ValidLiteral(v, t)
    ensures ParseValue(LiteralThen(v, t)) == Ok((LiteralValue(v), t)) && Solid(LiteralThen(v, t))
  {
    hide ParseString, ParseNumber, ParseValue, PiecesThen, Chars, DigitsOf, DigitsValue;
    match v
    case Quoted(pieces) => {
      StringBack(pieces, t);
      QuotedValue(PiecesThen(pieces, "\"" + t));
    }
    case Whole(i, negative, zeros) => {
      WholeStart(i, negative, zeros, t);
      NumberBack(i, negative, zeros, t);
      NumberValue(LiteralThen(v, t));
    }
    case Decimal(negative, whole, fraction) => {
      DecimalStart(negative, whole, fraction, t);
      FloatBack(negative, whole, fraction, t);
      NumberValue(LiteralThen(v, t));
    }
    case Unquoted(word) => UnquotedValue(word, t);
  }

  // ---- arguments ----

  lemma ColonSolid(t: Text)
    ensures Solid(":" + t) && Stops(":" + t) && (":" + t)[1..] == t
  {
  }

  lemma ParenSolid(t: Text)
    ensures Solid("(" + t) && Stops("(" + t) && ("(" + t)[1..] == t
    ensures Solid(")" + t) && Stops(")" + t) && (")" + t)[1..] == t
  {
  }

  lemma BraceSolid(t: Text)
    ensures Solid("{" + t) && Stops("{" + t) && ("{" + t)[1..] == t
    ensures Solid("}" + t) && Stops("}" + t) && ("}" + t)[1..] == t
  {
  }

  // One argument, its value v in front of u.
  lemma ArgUnfolds(r: Text, t: Text, v: Value, u: Text, before: map<Text, Value>)
    requires r != [] && r[0] != ')' && Word(r) != [] && SkipIgnored(BehindWord(r)) == ":" + t
    requires ParseValue(SkipIgnored(t)) == Ok((v, u))
    ensures ParseArguments(r, before) == ParseArguments(SkipIgnored(u), before[Word(r) := v])
  {
    hide ParseValue, WordLength, SkipIgnored;
    ColonSolid(t);
  }

  // The text of arguments is solid, so that a gap ends in front of it.
  lemma ArgsSolid(args: seq<Arg>, t: Text)
    requires ValidArgs(args, ")" + t)
    ensures Solid(ArgsThen(args, ")" + t))
  {
    hide LiteralThen;
    ParenSolid(t);
    if args != [] {
      var r := ArgsThen(args, ")" + t);
      assert r[0] == args[0].name[0] && args[0].name[0] in args[0].name;
      CharClasses(r[0]);
    }
  }

  lemma ArgBack(a: Arg, t: Text, before: map<Text, Value>)
    requires ValidArg(a, t)
    ensures ParseArguments(ArgThen(a, t), before) == ParseArguments(SkipIgnored(t), before[a.name := LiteralValue(a.value)])
  {
    hide ParseArguments, ParseValue, SkipIgnored, Word, BehindWord, LiteralThen, ValidLiteral, GapThen, Solid;
    var u := GapThen(a.behind, t);
    var value := LiteralThen(a.value, u);
    var colon := ":" + GapThen(a.behindColon, value);
    var r := ArgThen(a, t);
    ColonSolid(GapThen(a.behindColon, value));
    GapKeeps(a.beforeColon, colon);
    WordBack(a.name, GapThen(a.beforeColon, colon));
    GapSkipped(a.beforeColon, colon);
    SolidKept(colon);
    ValueBack(a.value, u);
    GapSkipped(a.behindColon, value);
    SolidKept(value);
    GapSkipped(a.behind, t);
    assert r[0] == a.name[0] && a.name[0] in a.name;
    ArgUnfolds(r, GapThen(a.behindColon, value), LiteralValue(a.value), u, before);
  }

  // Arguments in any layout parse to the map in which the last of equal names wins.
  lemma {:induction false} ArgsBack(args: seq<Arg>, before: map<Text, Value>, t: Text)
    requires ValidArgs(args, ")" + t)
    ensures ParseArguments(ArgsThen(args, ")" + t), before) == Ok((Arguments(args, before), t))
    decreases |args|
  {
    hide ParseValue, SkipIgnored, Word, BehindWord, Solid, ArgThen, ValidArg, LiteralValue;
    if args == [] {
      ParenSolid(t);
    } else {
      hide ParseArguments;
      ArgBack(args[0], ArgsThen(args[1..], ")" + t), before);
      ArgsSolid(args[1..], t);
      SolidKept(ArgsThen(args[1..], ")" + t));
      ArgsBack(args[1..], before[args[0].name := LiteralValue(args[0].value)], t);
    }
  }

  // ---- fields ----

  // What stands behind a field: another one, or the end of the set.
  predicate FieldEnd(t: Text) {
    t != [] && (t[0] == '}' || InName(t[0]))
  }

  lemma EndSolid(t: Text)
    requires FieldEnd(t)
    ensures Solid(t) && t[0] != ':' && t[0] != '(' && t[0] != '{'
  {
    CharClasses(t[0]);
  }

  // The names of a field, and where the parser goes on.
  lemma NamesBack(alias: Option<Alias>, name: Text, tail: Text)
    requires ValidNames(alias, name, tail)
    requires SkipIgnored(tail) != [] && SkipIgnored(tail)[0] != ':'
    ensures var r := AliasThen(alias, name + tail);
            && Solid(r) && Word(r) != []
            && ParseNames(Word(r), SkipIgnored(BehindWord(r))) == (name, AliasMeaning(alias), SkipIgnored(tail))
  {
    hide SkipIgnored, Word, BehindWord, Solid, GapThen;
    var named := name + tail;
    if alias.None? {
      WordBack(name, tail);
    } else {
      var a := alias.value;
      var colon := ":" + GapThen(a.behindColon, named);
      ColonSolid(GapThen(a.behindColon, named));
      GapKeeps(a.beforeColon, colon);
      WordBack(a.word, GapThen(a.beforeColon, colon));
      GapSkipped(a.beforeColon, colon);
      SolidKept(colon);
      GapSkipped(a.behindColon, named);
      NameBack(name, tail);
      SolidKept(named);
    }
  }

  lemma NameBack(name: Text, tail: Text)
    requires Stops(tail) && (name == [] || IsName(name)) && (name == [] ==> Solid(tail))
    ensures Word(name + tail) == name && BehindWord(name + tail) == tail && Solid(name + tail)
  {
    if name == [] {
      assert name + tail == tail;
      NoWord(tail);
    } else {
      WordBack(name, tail);
    }
  }

  // ParseSelection, once the names are read.
  lemma SelectionUnfolds(r: Text, name: Text, alias: Text, t: Text)
    requires Solid(r) && Word(r) != [] && ParseNames(Word(r), SkipIgnored(BehindWord(r))) == (name, alias, t)
    ensures t == [] || t[0] != '(' ==> ParseSelection(r) == ParseNested(name, alias, None, t)
    ensures t != [] && t[0] == '(' ==>
              var p := ParseArguments(SkipIgnored(t[1..]), map[]);
              p.Ok? ==> ParseSelection(r) == ParseNested(name, alias, Some(p.value.0), SkipIgnored(p.value.1))
  {
    hide ParseNested, ParseArguments, Word, BehindWord, ParseNames;
    SolidKept(r);
  }

  // What is left when a field has been read: of a field that ends in a brace, the gap behind it too.
  function LeftBehind(f: Field, t: Text): Text {
    if f.nested.None? then t else GapThen(f.behind, t)
  }

  // The text behind a name and its gap, or behind the arguments.
  lemma NestedStart(f: Field, t: Text)
    requires FieldEnd(t) && ValidGap(f.behind)
    ensures var u := SkipIgnored(BehindArgs(f, t));
            && u == (if f.nested.None? then t else BehindArgs(f, t))
            && u != [] && u[0] != ':' && u[0] != '(' && (u[0] == '{' <==> f.nested.Some?)
  {
    EndSolid(t);
    if f.nested.None? {
      GapSkipped(f.behind, t);
      SolidKept(t);
    } else {
      var braces := f.nested.value;
      var fields := GapThen(braces.inside, FieldsThen(braces.fields, "}" + GapThen(f.behind, t)));
      assert BehindArgs(f, t) == BracesThen(braces, GapThen(f.behind, t)) == "{" + fields;
      BraceSolid(fields);
      SolidKept(BehindArgs(f, t));
    }
  }

  lemma {:induction false} NestedBack(f: Field, name: Text, alias: Text, args: Option<map<Text, Value>>, t: Text)
    requires ValidNested(f.nested, GapThen(f.behind, t)) && ValidGap(f.behind) && FieldEnd(t)
    ensures ParseNested(name, alias, args, SkipIgnored(BehindArgs(f, t))) ==
              Ok((Selection(name, alias, args, NestedMeaning(f.nested)), LeftBehind(f, t)))
    decreases f, 0
  {
    hide ParseSelectionSet, SkipIgnored, ValidBraces, BracesThen, GapThen;
    NestedStart(f, t);
    if f.nested.Some? {
      SetBack(f.nested.value, GapThen(f.behind, t));
    }
  }

  lemma ArgumentsBack(args: Args, t: Text)
    requires ValidParens(Some(args), t)
    ensures var r := ParensThen(Some(args), t);
            && r != [] && r[0] == '(' && Solid(r) && Stops(r)
            && ParseArguments(SkipIgnored(r[1..]), map[]) == Ok((Arguments(args.list, map[]), GapThen(args.behind, t)))
  {
    hide ParseArguments, SkipIgnored, ValidArgs, ArgsThen, Arguments, GapThen, Solid;
    var u := GapThen(args.behind, t);
    var list := ArgsThen(args.list, ")" + u);
    ParenSolid(GapThen(args.inside, list));
    GapSkipped(args.inside, list);
    ArgsSolid(args.list, u);
    SolidKept(list);
    ArgsBack(args.list, map[], u);
  }

  lemma {:induction false} FieldBack(f: Field, t: Text)
    requires ValidField(f, t) && FieldEnd(t)
    ensures ParseSelection(FieldThen(f, t)) == Ok((Meaning(f), LeftBehind(f, t)))
    decreases f, 1
  {
    hide ParseSelection, ParseNested, ParseArguments, ParseNames, SkipIgnored, Word, BehindWord, Solid, ValidNested, ValidNames,
      ValidArgs, Arguments, NestedMeaning, GapThen, AliasThen, NestedThen, LeftBehind, FieldEnd;
    var r := FieldThen(f, t);
    var rest := BehindArgs(f, t);
    NestedStart(f, t);
    GapSkipped(f.behindName, ParensThen(f.args, rest));
    if f.args.None? {
      NamesBack(f.alias, f.name, BehindName(f, t));
      SelectionUnfolds(r, f.name, AliasMeaning(f.alias), SkipIgnored(rest));
      NestedBack(f, f.name, AliasMeaning(f.alias), None, t);
    } else {
      var args := f.args.value;
      var parens := ParensThen(f.args, rest);
      ArgumentsBack(args, rest);
      SolidKept(parens);
      NamesBack(f.alias, f.name, BehindName(f, t));
      SelectionUnfolds(r, f.name, AliasMeaning(f.alias), parens);
      GapSkipped(args.behind, rest);
      NestedBack(f, f.name, AliasMeaning(f.alias), Some(Arguments(args.list, map[])), t);
    }
  }

  lemma FieldsStart(fields: seq<Field>, t: Text)
    requires ValidFields(fields, "}" + t)
    ensures var r := FieldsThen(fields, "}" + t);
            FieldEnd(r) && Solid(r) && (fields != [] <==> r[0] != '}')
  {
    BraceSolid(t);
    if fields != [] {
      hide BehindName;
      var f := fields[0];
      FieldStart(f, FieldsThen(fields[1..], "}" + t));
      CharClasses(FieldsThen(fields, "}" + t)[0]);
    }
  }

  lemma FieldStart(f: Field, t: Text)
    requires ValidField(f, t)
    ensures FieldThen(f, t) != [] && InName(FieldThen(f, t)[0])
  {
    hide BehindName, GapThen;
    if f.alias.None? {
      assert FieldThen(f, t)[0] == f.name[0] && f.name[0] in f.name;
    } else {
      var w := f.alias.value.word;
      assert FieldThen(f, t)[0] == w[0] && w[0] in w;
    }
  }

  lemma {:induction false} FieldsBack(fields: seq<Field>, t: Text)
    requires ValidFields(fields, "}" + t)
    ensures ParseSelections(FieldsThen(fields, "}" + t)) == Ok((FieldsMeaning(fields), t))
    decreases fields, 0
  {
    hide ParseSelection, SkipIgnored, Solid, FieldThen, Meaning, ValidField, FieldEnd, GapThen;
    var r := FieldsThen(fields, "}" + t);
    FieldsStart(fields, t);
    if fields == [] {
      BraceSolid(t);
    } else {
      var f := fields[0];
      var more := FieldsThen(fields[1..], "}" + t);
      FieldsStart(fields[1..], t);
      FieldBack(f, more);
      GapOfField(f, more);
      GapSkipped(f.behind, more);
      SolidKept(more);
      FieldsBack(fields[1..], t);
    }
  }

  lemma GapOfField(f: Field, t: Text)
    requires ValidField(f, t)
    ensures ValidGap(f.behind)
  {
  }

  // A selection set in any layout parses to its meaning, whatever follows it.
  lemma {:induction false} SetBack(braces: Braces, t: Text)
    requires ValidBraces(braces, t)
    ensures ParseSelectionSet(BracesThen(braces, t)) == Ok((FieldsMeaning(braces.fields), t))
    decreases braces, 1
  {
    hide ParseSelections, SkipIgnored, FieldsThen, FieldsMeaning, Solid, ValidFields, GapThen;
    var fields := FieldsThen(braces.fields, "}" + t);
    BraceSolid(GapThen(braces.inside, fields));
    FieldsStart(braces.fields, t);
    GapSkipped(braces.inside, fields);
    SolidKept(fields);
    FieldsBack(braces.fields, t);
  }

  // ---- documents ----

  lemma {:induction false} InsidePassed(parts: seq<Inside>, t: Text, depth: nat)
    requires ValidInside(parts) && depth >= 1
    ensures Balanced(InsideThen(parts, t), depth) == Balanced(t, depth)
    decreases parts
  {
    if parts != [] {
      var more := InsideThen(parts[1..], t);
      InsidePassed(parts[1..], t, depth);
      match parts[0]
      case Mark(c) => assert ([c] + more)[1..] == more;
      case Group(inner) => {
        var end := ")" + more;
        ParenSolid(more);
        ParenSolid(InsideThen(inner, end));
        InsidePassed(inner, end, depth + 1);
      }
    }
  }

  // Behind the operation's name: variables or none, and the selections.
  lemma VariablesBack(variables: Option<Variables>, t: Text)
    requires ValidVariables(variables) && t != [] && t[0] == '{'
    ensures var r := VariablesThen(variables, t);
            && r != [] && Solid(r) && Stops(r) && (r[0] == '(' <==> variables.Some?) && (r[0] == '{' <==> variables.None?)
            && (variables.None? ==> r == t)
            && (variables.Some? ==> Balanced(r[1..], 1) == Some(GapThen(variables.value.behind, t)))
            && (variables.Some? ==> SkipIgnored(GapThen(variables.value.behind, t)) == t)
  {
    hide Balanced, GapThen, SkipIgnored, InsideThen, ValidInside;
    assert t == "{" + t[1..];
    BraceSolid(t[1..]);
    if variables.Some? {
      var v := variables.value;
      var u := GapThen(v.behind, t);
      ParenSolid(InsideThen(v.parts, ")" + u));
      InsidePassed(v.parts, ")" + u, 1);
      ClosingParen(u);
      GapSkipped(v.behind, t);
      SolidKept(t);
    }
  }

  lemma ClosingParen(u: Text)
    ensures Balanced(")" + u, 1) == Some(u)
  {
    ParenSolid(u);
  }

  // The header: the word, the name if there is one, the variables if there are any.
  lemma HeaderBack(h: Header, t: Text)
    requires ValidHeader(h, t) && t != [] && t[0] == '{'
    ensures ParseQuery(h.word + BehindHead(h, t)) == ParseBody(h.word, h.name, t)
  {
    hide ParseBody, WordLength, SkipIgnored, Balanced, GapThen, VariablesThen, Solid, ValidVariables;
    var variables := VariablesThen(h.variables, t);
    var tail := GapThen(h.behindName, variables);
    var named := h.name + tail;
    var r := h.word + BehindHead(h, t);
    assert h.word[0] == 'q' || h.word[0] == 'm' || h.word[0] == 's';
    OperationWord(h.word);
    WordBack(h.word, BehindHead(h, t));
    SolidKept(r);
    VariablesBack(h.variables, t);
    SolidKept(variables);
    GapSkipped(h.behindWord, named);
    GapSkipped(h.behindName, variables);
    GapKeeps(h.behindName, variables);
    assert t == "{" + t[1..];
    BraceSolid(t[1..]);
    if h.name == [] {
      assert named == tail;
    } else {
      WordBack(h.name, tail);
      SolidKept(named);
      assert named[0] == h.name[0] && h.name[0] in h.name;
      EndOfNoName(named[0]);
    }
  }

  lemma OperationWord(word: Text)
    requires word in ["query", "mutation", "subscription"]
    ensures IsOperation(word) && IsName(word)
  {
  }

  lemma EndOfNoName(c: Octet)
    requires InName(c)
    ensures c != '{' && c != '('
  {
    CharClasses(c);
  }

  // Every document parses to what it means, in any layout and whatever follows it.
  lemma QueryBack(d: Document, t: Text)
    requires ValidDocument(d, t)
    ensures ParseQuery(DocumentThen(d, t)) == Ok(DocumentMeaning(d))
  {
    hide ParseSelectionSet, WordLength, SkipIgnored, Balanced, GapThen, FieldsThen, FieldsMeaning, ValidBraces, ValidHeader, BehindHead;
    var braces := BracesThen(d.braces, t);
    SetBack(d.braces, t);
    BraceSolid(GapThen(d.braces.inside, FieldsThen(d.braces.fields, "}" + t)));
    GapSkipped(d.front, HeaderThen(d.header, braces));
    if d.header.None? {
      SolidKept(braces);
      NoWord(braces);
    } else {
      HeaderBack(d.header.value, braces);
      FrontSkipped(d.front, HeaderThen(d.header, braces));
    }
  }

  lemma FrontSkipped(g: Gap, t: Text)
    requires ValidGap(g)
    ensures ParseQuery(GapThen(g, t)) == ParseQuery(t)
  {
    hide ParseSelectionSet, WordLength, SkipIgnored, Balanced, GapThen;
    GapSkipped(g, t);
  }

  // A selection set alone is a query without a name.
  lemma ShorthandBack(braces: Braces, t: Text)
    requires ValidBraces(braces, t)
    ensures ParseQuery(BracesThen(braces, t)) == Ok(Query("query", [], FieldsMeaning(braces.fields)))
  {
    hide ParseQuery, BracesThen, FieldsMeaning, ValidBraces;
    QueryBack(Document([], None, braces), t);
  }
}
