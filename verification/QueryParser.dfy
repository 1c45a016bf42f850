/** The GraphQL parser object: one cursor that every method moves forward, proved to compute what
  * module GraphQl specifies. */
module QueryParser {
  import opened Bytes
  import opened GraphQl

  lemma Next(input: Text, pos: nat)
    requires pos < |input|
    ensures input[pos..][0] == input[pos] && input[pos..][1..] == input[pos + 1..]
  {
  }

  // What is read of a list in front of what the rest gives.
  function Prefixed<T>(b: seq<T>, p: Parsed<seq<T>>): Parsed<seq<T>> {
    match p
    case Err(e) => Err(e)
    case Ok((s, t)) => Ok((b + s, t))
  }

  lemma PrefixedMore<T>(b: seq<T>, c: T, p: Parsed<seq<T>>)
    ensures Prefixed(b, Prefixed([c], p)) == Prefixed(b + [c], p)
  {
    if p.Ok? {
      assert b + ([c] + p.value.0) == b + [c] + p.value.0;
    }
  }

  lemma PrefixedNone<T>(p: Parsed<seq<T>>)
    ensures Prefixed([], p) == p
  {
    if p.Ok? {
      assert [] + p.value.0 == p.value.0;
    }
  }

  // One character of a string, escaped or not.
  lemma StringStep(input: Text, pos: nat)
    requires pos < |input| && input[pos] != '"'
    ensures var escaped := input[pos] == '\\' && pos + 1 < |input|;
            ParseString(input[pos..]) ==
              Prefixed([if escaped then Unescaped(input[pos + 1]) else input[pos]],
                       ParseString(input[if escaped then pos + 2 else pos + 1..]))
  {
    var r := input[pos..];
    assert r[0] == input[pos] && r[1..] == input[pos + 1..];
    if |r| > 1 {
      assert r[1] == input[pos + 1] && r[2..] == input[pos + 2..];
    }
  }

  lemma StringEnd(input: Text, pos: nat)
    requires pos <= |input|
    ensures pos == |input| ==> ParseString(input[pos..]) == Err(UnterminatedString)
    ensures pos < |input| && input[pos] == '"' ==> ParseString(input[pos..]) == Ok(([], input[pos + 1..]))
  {
  }

  // The digits of a number end at `end`; a fraction may follow.
  lemma UnsignedIs(input: Text, digits: nat, end: nat, negative: bool)
    requires digits <= end <= |input| && end == digits + DigitsLength(input[digits..])
    ensures forall c | c in input[digits..end] :: IsDigit(c)
    ensures var p := ParseUnsigned(input[digits..], negative);
            if end < |input| && input[end] == '.' then
              var last := end + 1 + DigitsLength(input[end + 1..]);
              p == match FloatOf(input[digits..end], input[end + 1..last])
                   case Err(e) => Err(e)
                   case Ok(v) => Ok((v, input[last..]))
            else
              p == match IntegerOf(negative, input[digits..end])
                   case Err(e) => Err(e)
                   case Ok(v) => Ok((v, input[end..]))
  {
    hide DigitsLength, IntegerOf, FloatOf;
    var r := input[digits..];
    Between(input, digits, end - digits);
    Behind(input, digits, end - digits);
    assert Digits(r) == input[digits..end];
    if end < |input| && input[end] == '.' {
      FractionIs(input, digits, end, negative);
    }
  }

  lemma SignIs(input: Text, start: nat)
    requires start <= |input|
    ensures ParseNumber(input[start..]) ==
              if start < |input| && input[start] == '-' then
                match ParseUnsigned(input[start + 1..], true)
                case Err(e) => Err(e)
                case Ok((v, t)) => Ok((if v.Float? then Float([input[start]] + v.text) else v, t))
              else ParseUnsigned(input[start..], false)
  {
    hide ParseUnsigned;
    if start < |input| {
      Behind(input, start, 1);
      assert input[start..][0] == input[start];
    }
  }

  // A number whose sign, if it has one, ends at `digits`, and whose whole part ends at `end`.
  lemma NumberIs(input: Text, start: nat, digits: nat, end: nat)
    requires start <= digits <= end <= |input| && end == digits + DigitsLength(input[digits..])
    requires digits == if start < |input| && input[start] == '-' then start + 1 else start
    ensures forall c | c in input[digits..end] :: IsDigit(c)
    ensures ParseNumber(input[start..]) ==
              if end < |input| && input[end] == '.' then
                var last := end + 1 + DigitsLength(input[end + 1..]);
                if last - digits == 1 || DigitsValue(input[digits..end]) >= FLOAT_LIMIT then Err(BadNumber)
                else Ok((Float(input[start..last]), input[last..]))
              else
                match IntegerOf(digits > start, input[digits..end])
                case Err(e) => Err(e)
                case Ok(v) => Ok((v, input[end..]))
  {
    hide ParseUnsigned, DigitsLength, DigitsValue, ParseNumber, IntegerOf, FloatOf, Power2;
    SignIs(input, start);
    UnsignedIs(input, digits, end, digits > start);
    if end < |input| && input[end] == '.' {
      var last := end + 1 + DigitsLength(input[end + 1..]);
      FloatIs(input, digits, end, last);
      if digits > start {
        Signed(input, start, last);
      }
    } else {
      IntegerInt(digits > start, input[digits..end]);
    }
  }

  lemma FloatIs(input: Text, digits: nat, end: nat, last: nat)
    requires digits <= end < last <= |input| && input[end] == '.' && forall c | c in input[digits..end] :: IsDigit(c)
    ensures FloatOf(input[digits..end], input[end + 1..last]) ==
              if last - digits == 1 || DigitsValue(input[digits..end]) >= FLOAT_LIMIT then Err(BadNumber)
              else Ok(Float(input[digits..last]))
  {
    hide DigitsValue, Power2;
    assert input[digits..last] == input[digits..end] + "." + input[end + 1..last];
  }

  lemma Signed(input: Text, start: nat, last: nat)
    requires start < last <= |input|
    ensures input[start..last] == [input[start]] + input[start + 1..last]
  {
  }

  lemma IntegerInt(negative: bool, digits: Text)
    requires forall c | c in digits :: IsDigit(c)
    ensures IntegerOf(negative, digits).Ok? ==> IntegerOf(negative, digits).value.Int?
  {
  }

  lemma FractionIs(input: Text, digits: nat, end: nat, negative: bool)
    requires digits <= end < |input| && Digits(input[digits..]) == input[digits..end] && input[end] == '.'
    ensures var last := end + 1 + DigitsLength(input[end + 1..]);
            ParseUnsigned(input[digits..], negative) ==
              match FloatOf(input[digits..end], input[end + 1..last])
              case Err(e) => Err(e)
              case Ok(v) => Ok((v, input[last..]))
  {
    hide DigitsLength, IntegerOf, FloatOf, Digits;
    var last := end + 1 + DigitsLength(input[end + 1..]);
    Behind(input, digits, end - digits);
    Behind(input, end, 1);
    Behind(input, end, last - end);
    FractionDigits(input, end);
  }

  lemma FractionDigits(input: Text, end: nat)
    requires end < |input|
    ensures var last := end + 1 + DigitsLength(input[end + 1..]); Digits(input[end + 1..]) == input[end + 1..last]
  {
    hide DigitsLength;
    Between(input, end + 1, DigitsLength(input[end + 1..]));
  }

  lemma Behind(s: Text, a: nat, n: nat)
    requires a + n <= |s|
    ensures s[a..][n..] == s[a + n..]
  {
  }

  lemma Between(s: Text, a: nat, n: nat)
    requires a + n <= |s|
    ensures s[a..][..n] == s[a..a + n]
  {
  }

  class QueryParser {
    const input: Text
    var pos: nat

    constructor (input: Text)
      ensures this.input == input && pos == 0
    {
      this.input := input;
      pos := 0;
    }

    predicate Valid()
      reads this`pos
    {
      pos <= |input|
    }

    // The text still to be read.
    function Rest(): Text
      reads this`pos
      requires Valid()
    {
      input[pos..]
    }

    method Advance()
      requires pos < |input|
      modifies this`pos
      ensures Valid() && pos == old(pos) + 1 && Rest() == old(Rest())[1..] && old(Rest())[0] == input[old(pos)]
    {
      Next(input, pos);
      pos := pos + 1;
    }

    method SkipWhitespace()
      requires Valid()
      modifies this`pos
      ensures Valid() && pos >= old(pos) && Rest() == SkipIgnored(old(Rest()))
    {
      while pos < |input|
        invariant Valid() && pos >= old(pos) && SkipIgnored(Rest()) == SkipIgnored(old(Rest()))
        decreases |input| - pos
      {
        Next(input, pos);
        var ch := input[pos];
        if IsIgnored(ch) {
          pos := pos + 1;
        } else if ch == '#' {
          SkipComment();
        } else {
          break;
        }
      }
    }

    method SkipComment()
      requires pos < |input| && input[pos] == '#'
      modifies this`pos
      ensures Valid() && pos > old(pos) && Rest() == BehindComment(old(Rest()))
    {
      while pos < |input| && input[pos] != '\n'
        invariant Valid() && pos >= old(pos) && BehindComment(Rest()) == BehindComment(old(Rest()))
      {
        Next(input, pos);
        pos := pos + 1;
      }
    }

    method ReadWord() returns (word: Text)
      requires Valid()
      modifies this`pos
      ensures Valid() && word == Word(old(Rest())) && Rest() == BehindWord(old(Rest())) && pos == old(pos) + |word|
    {
      var start := pos;
      while pos < |input| && IsWordChar(input[pos])
        invariant Valid() && start <= pos
        invariant start + WordLength(input[start..]) == pos + WordLength(input[pos..])
      {
        Next(input, pos);
        pos := pos + 1;
      }
      assert input[start..][..pos - start] == input[start..pos] && input[start..][pos - start..] == input[pos..];
      word := input[start..pos];
    }

    method PeekWord() returns (word: Text)
      requires Valid()
      modifies this`pos
      ensures pos == old(pos) && word == Word(Rest())
    {
      var saved := pos;
      word := ReadWord();
      pos := saved;
    }

    method ReadString() returns (r: Result<Text, ParseError>)
      requires pos < |input| && input[pos] == '"'
      modifies this`pos
      ensures Valid() && pos > old(pos)
      ensures match ParseString(old(Rest())[1..])
              case Err(e) => r == Err(e)
              case Ok((s, t)) => r == Ok(s) && Rest() == t
    {
      hide ParseString, Unescaped;
      Advance();
      ghost var whole := ParseString(Rest());
      var b: Text := [];
      PrefixedNone(whole);
      while pos < |input| && input[pos] != '"'
        invariant Valid() && pos > old(pos) && whole == Prefixed(b, ParseString(Rest()))
        decreases |input| - pos
      {
        StringStep(input, pos);
        var c := input[pos];
        if c == '\\' && pos + 1 < |input| {
          pos := pos + 1;
          c := Unescaped(input[pos]);
        }
        PrefixedMore(b, c, ParseString(input[pos + 1..]));
        b := b + [c];
        pos := pos + 1;
      }
      StringEnd(input, pos);
      if pos >= |input| {
        return Err(UnterminatedString);
      }
      assert b + [] == b;
      pos := pos + 1;
      return Ok(b);
    }

    method SkipDigits()
      requires Valid()
      modifies this`pos
      ensures Valid() && pos == old(pos) + DigitsLength(old(Rest()))
    {
      var start := pos;
      while pos < |input| && IsDigit(input[pos])
        invariant Valid() && start <= pos && start + DigitsLength(input[start..]) == pos + DigitsLength(input[pos..])
      {
        Next(input, pos);
        pos := pos + 1;
      }
    }

    method ReadNumber() returns (r: Result<Value, ParseError>)
      requires Valid()
      modifies this`pos
      ensures Valid() && pos >= old(pos)
      ensures match ParseNumber(old(Rest()))
              case Err(e) => r == Err(e)
              case Ok((v, t)) => r == Ok(v) && Rest() == t && pos > old(pos)
    {
      hide DigitsLength, DigitsValue, ParseNumber, IntegerOf, Power2;
      var start := pos;
      if pos < |input| && input[pos] == '-' {
        pos := pos + 1;
      }
      var digits := pos;
      SkipDigits();
      var end := pos;
      NumberIs(input, start, digits, end);
      if pos < |input| && input[pos] == '.' {
        pos := pos + 1;
        SkipDigits();
        if pos - digits == 1 || DigitsValue(input[digits..end]) >= FLOAT_LIMIT {
          return Err(BadNumber);
        }
        return Ok(Float(input[start..pos]));
      }
      r := IntegerOf(digits > start, input[digits..end]);
    }

    method ParseValue() returns (r: Result<Value, ParseError>)
      requires Valid()
      modifies this`pos
      ensures Valid() && pos >= old(pos)
      ensures match GraphQl.ParseValue(old(Rest()))
              case Err(e) => r == Err(e)
              case Ok((v, t)) => r == Ok(v) && Rest() == t && pos > old(pos)
    {
      hide ParseString, ParseNumber, SkipIgnored, WordLength;
      SkipWhitespace();
      if pos >= |input| {
        return Err(UnexpectedEnd);
      }
      Next(input, pos);
      var ch := input[pos];
      if ch == '"' {
        var s := ReadString();
        if s.Err? {
          return Err(s.error);
        }
        return Ok(Str(s.value));
      }
      var word := PeekWord();
      if word == "true" || word == "false" {
        var _ := ReadWord();
        return Ok(Bool(word == "true"));
      }
      if word == "null" {
        var _ := ReadWord();
        return Ok(Null);
      }
      if ch == '-' || IsDigit(ch) {
        r := ReadNumber();
      } else if IsLetter(ch) || ch == '_' {
        WordStarts(Rest());
        word := ReadWord();
        r := Ok(Str(word));
      } else {
        r := Err(UnexpectedCharacter);
      }
    }

    method ParseArguments() returns (r: Result<map<Text, Value>, ParseError>)
      requires pos < |input| && input[pos] == '('
      modifies this`pos
      ensures Valid() && pos > old(pos)
      ensures match GraphQl.ParseArguments(SkipIgnored(old(Rest())[1..]), map[])
              case Err(e) => r == Err(e)
              case Ok((args, t)) => r == Ok(args) && Rest() == t
    {
      hide GraphQl.ParseValue, SkipIgnored, WordLength;
      Advance();
      SkipWhitespace();
      ghost var whole := GraphQl.ParseArguments(Rest(), map[]);
      var args: map<Text, Value> := map[];
      while pos < |input| && input[pos] != ')'
        invariant Valid() && pos > old(pos) && whole == GraphQl.ParseArguments(Rest(), args)
        decreases |input| - pos
      {
        Next(input, pos);
        var name := ReadWord();
        if name == [] {
          return Err(ExpectedArgumentName);
        }
        SkipWhitespace();
        if pos >= |input| || input[pos] != ':' {
          return Err(ExpectedColon);
        }
        Advance();
        SkipWhitespace();
        var v := ParseValue();
        if v.Err? {
          return Err(v.error);
        }
        args := args[name := v.value];
        // This skips the comma behind an argument, too.
        SkipWhitespace();
      }
      if pos >= |input| {
        return Err(UnexpectedEnd);
      }
      Advance();
      return Ok(args);
    }

    method ParseSelectionSet() returns (r: Result<seq<Selection>, ParseError>)
      requires Valid()
      modifies this`pos
      ensures Valid() && pos >= old(pos)
      ensures match GraphQl.ParseSelectionSet(old(Rest()))
              case Err(e) => r == Err(e)
              case Ok((selections, t)) => r == Ok(selections) && Rest() == t && pos > old(pos)
      decreases |input| - pos, 0
    {
      hide GraphQl.ParseSelection, SkipIgnored;
      if pos >= |input| || input[pos] != '{' {
        return Err(ExpectedBrace);
      }
      Advance();
      SkipWhitespace();
      ghost var whole := ParseSelections(Rest());
      var selections: seq<Selection> := [];
      PrefixedNone(whole);
      while pos < |input| && input[pos] != '}'
        invariant Valid() && pos > old(pos) && whole == Prefixed(selections, ParseSelections(Rest()))
        decreases |input| - pos
      {
        SelectionsStep(Rest());
        var s := ParseSelection();
        if s.Err? {
          return Err(s.error);
        }
        SkipWhitespace();
        PrefixedMore(selections, s.value, ParseSelections(Rest()));
        selections := selections + [s.value];
      }
      if pos >= |input| {
        return Err(UnexpectedEnd);
      }
      assert selections + [] == selections;
      Advance();
      return Ok(selections);
    }

    method ParseSelection() returns (r: Result<Selection, ParseError>)
      requires Valid()
      modifies this`pos
      ensures Valid() && pos >= old(pos)
      ensures match GraphQl.ParseSelection(old(Rest()))
              case Err(e) => r == Err(e)
              case Ok((s, t)) => r == Ok(s) && Rest() == t && pos > old(pos)
      decreases |input| - pos, 2
    {
      hide GraphQl.ParseNested, GraphQl.ParseArguments, ParseNames, SkipIgnored, WordLength;
      SkipWhitespace();
      var first := ReadWord();
      if first == [] {
        return Err(ExpectedFieldName);
      }
      SkipWhitespace();
      var name, alias := ReadNames(first);
      var args: Option<map<Text, Value>> := None;
      if pos < |input| && input[pos] == '(' {
        var a := ParseArguments();
        if a.Err? {
          return Err(a.error);
        }
        args := Some(a.value);
        SkipWhitespace();
      }
      r := ParseNested(name, alias, args);
    }

    // The field's name, where the first word may turn out to be an alias.
    method ReadNames(first: Text) returns (name: Text, alias: Text)
      requires Valid()
      modifies this`pos
      ensures Valid() && pos >= old(pos) && (name, alias, Rest()) == ParseNames(first, old(Rest()))
    {
      hide SkipIgnored, WordLength;
      name, alias := first, [];
      if pos < |input| && input[pos] == ':' {
        Advance();
        SkipWhitespace();
        alias := first;
        name := ReadWord();
        SkipWhitespace();
      }
    }

    method ParseNested(name: Text, alias: Text, args: Option<map<Text, Value>>) returns (r: Result<Selection, ParseError>)
      requires Valid()
      modifies this`pos
      ensures Valid() && pos >= old(pos)
      ensures match GraphQl.ParseNested(name, alias, args, old(Rest()))
              case Err(e) => r == Err(e)
              case Ok((s, t)) => r == Ok(s) && Rest() == t
      decreases |input| - pos, 1
    {
      hide GraphQl.ParseSelectionSet;
      var nested: seq<Selection> := [];
      if pos < |input| && input[pos] == '{' {
        var n := ParseSelectionSet();
        if n.Err? {
          return Err(n.error);
        }
        nested := n.value;
      }
      return Ok(Selection(name, alias, args, nested));
    }

    method SkipBalanced() returns (ok: bool)
      requires pos < |input| && input[pos] == '('
      modifies this`pos
      ensures Valid() && pos > old(pos)
      ensures match Balanced(old(Rest())[1..], 1)
              case None => !ok
              case Some(t) => ok && Rest() == t
    {
      var depth: nat := 1;
      Advance();
      while pos < |input| && depth > 0
        invariant Valid() && pos > old(pos) && Balanced(Rest(), depth) == Balanced(old(Rest())[1..], 1)
        decreases |input| - pos
      {
        Next(input, pos);
        if input[pos] == '(' {
          depth := depth + 1;
        } else if input[pos] == ')' {
          depth := depth - 1;
        }
        pos := pos + 1;
      }
      ok := depth == 0;
    }

    method Parse() returns (r: Result<Query, ParseError>)
      requires pos == 0
      modifies this`pos
      ensures Valid() && r == ParseQuery(input)
    {
      hide GraphQl.ParseSelectionSet, SkipIgnored, Word, BehindWord, Balanced;
      assert Rest() == input;
      SkipWhitespace();
      var operationType: Text := "query";
      var name: Text := [];
      var word := PeekWord();
      if word == "query" || word == "mutation" || word == "subscription" {
        operationType := ReadWord();
        SkipWhitespace();
        if pos < |input| && input[pos] != '{' && input[pos] != '(' {
          name := ReadWord();
          SkipWhitespace();
        }
        if pos < |input| && input[pos] == '(' {
          var ok := SkipBalanced();
          if !ok {
            return Err(Unbalanced);
          }
          SkipWhitespace();
        }
      }
      var selections := ParseSelectionSet();
      if selections.Err? {
        return Err(selections.error);
      }
      return Ok(Query(operationType, name, selections.value));
    }
  }

  lemma WordStarts(r: Text)
    requires r != [] && (IsLetter(r[0]) || r[0] == '_')
    ensures Word(r) != []
  {
  }

  lemma SelectionsStep(r: Text)
    requires r != [] && r[0] != '}'
    ensures match GraphQl.ParseSelection(r)
            case Err(e) => ParseSelections(r) == Err(e)
            case Ok((s, t)) => ParseSelections(r) == Prefixed([s], ParseSelections(SkipIgnored(t)))
  {
    hide GraphQl.ParseSelection;
  }

  // Any text at all: parsing it ends, and gives what the grammar functions say.
  method ParseText(input: Text) returns (r: Result<Query, ParseError>)
    ensures r == ParseQuery(input)
  {
    var p := new QueryParser(input);
    r := p.Parse();
  }
}
