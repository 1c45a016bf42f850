/** GraphQL queries: what the parser makes of any text. Texts are sequences of bytes, written as characters
  * below 256; a letter is what Go calls one in that range. */
module GraphQl {
  import opened Bytes

  type Octet = c: char | c < 256 as char

  type Text = seq<Octet>

  datatype Value = Str(s: Text) | Int(i: Int64) | Bool(b: bool) | Null | Float(text: Text)

  // `args` is absent where the query has no parentheses.
  datatype Selection = Selection(name: Text, alias: Text, args: Option<map<Text, Value>>, selections: seq<Selection>)

  datatype Query = Query(operationType: Text, name: Text, selections: seq<Selection>)

  datatype ParseError =
    | ExpectedBrace
    | UnexpectedEnd
    | ExpectedFieldName
    | ExpectedArgumentName
    | ExpectedColon
    | UnexpectedCharacter
    | UnterminatedString
    | BadNumber
    | Unbalanced

  // A value and the text behind it.
  type Parsed<T> = Result<(T, Text), ParseError>

  // ---- characters and words ----

  predicate IsDigit(c: Octet) {
    '0' <= c <= '9'
  }

  predicate IsLetter(c: Octet) {
    || 'a' <= c <= 'z' || 'A' <= c <= 'Z'
    || c as int == 0xAA || c as int == 0xB5 || c as int == 0xBA
    || (0xC0 <= c as int && c as int != 0xD7 && c as int != 0xF7)
  }

  predicate IsWordChar(c: Octet) {
    IsLetter(c) || IsDigit(c) || c == '_'
  }

  predicate IsIgnored(c: Octet) {
    c == ' ' || c == '\t' || c == '\n' || c == '\r' || c == ','
  }

  function WordLength(r: Text): (n: nat)
    ensures n <= |r|
  {
    if r == [] || !IsWordChar(r[0]) then 0 else 1 + WordLength(r[1..])
  }

  function Word(r: Text): Text {
    r[..WordLength(r)]
  }

  function BehindWord(r: Text): (t: Text)
    ensures |t| <= |r|
    ensures Word(r) != [] ==> |t| < |r|
  {
    r[WordLength(r)..]
  }

  // Behind blanks, commas and comments.
  function SkipIgnored(r: Text): (t: Text)
    ensures |t| <= |r|
    decreases |r|
  {
    if r == [] then r
    else if IsIgnored(r[0]) then SkipIgnored(r[1..])
    else if r[0] == '#' then SkipIgnored(BehindComment(r))
    else r
  }

  function BehindComment(r: Text): (t: Text)
    ensures |t| <= |r|
    ensures r != [] && r[0] == '#' ==> |t| < |r|
  {
    if r == [] || r[0] == '\n' then r else BehindComment(r[1..])
  }

  // ---- values ----

  function Unescaped(c: Octet): Octet {
    if c == 'n' then '\n' else if c == 't' then '\t' else c
  }

  // Behind the opening quote.
  function ParseString(r: Text): (p: Parsed<Text>)
    ensures p.Ok? ==> |p.value.1| < |r|
    decreases |r|
  {
    if r == [] then Err(UnterminatedString)
    else if r[0] == '"' then Ok(([], r[1..]))
    else
      var escaped := r[0] == '\\' && |r| > 1;
      match ParseString(if escaped then r[2..] else r[1..])
      case Err(e) => Err(e)
      case Ok((s, t)) => Ok(([if escaped then Unescaped(r[1]) else r[0]] + s, t))
  }

  function DigitsLength(r: Text): (n: nat)
    ensures n <= |r|
    ensures forall c | c in r[..n] :: IsDigit(c)
  {
    if r == [] || !IsDigit(r[0]) then 0
    else
      var n := 1 + DigitsLength(r[1..]);
      assert r[..n] == [r[0]] + r[1..][..n - 1];
      n
  }

  function DigitsValue(s: Text): nat
    requires forall c | c in s :: IsDigit(c)
  {
    if s == [] then 0
    else
      assert IsDigit(s[|s| - 1]);
      10 * DigitsValue(s[..|s| - 1]) + (s[|s| - 1] as int - '0' as int)
  }

  function IntegerOf(negative: bool, digits: Text): Result<Value, ParseError>
    requires forall c | c in digits :: IsDigit(c)
  {
    var magnitude: int := DigitsValue(digits);
    var v := if negative then -magnitude else magnitude;
    if digits == [] || v < -0x8000_0000_0000_0000 || v >= 0x8000_0000_0000_0000 then Err(BadNumber) else Ok(Int(v))
  }

  function Power2(n: nat): (p: nat)
    ensures p >= 1
  {
    if n == 0 then 1 else 2 * Power2(n - 1)
  }

  // 2^1024 - 2^970: what is as large as this rounds to no float of 64 bits.
  const FLOAT_LIMIT: nat := Power2(970) * (Power2(54) - 1)

  // Whether a float is too large its whole part tells.
  function FloatOf(digits: Text, fraction: Text): Result<Value, ParseError>
    requires forall c | c in digits :: IsDigit(c)
  {
    if digits + fraction == [] || DigitsValue(digits) >= FLOAT_LIMIT then Err(BadNumber)
    else Ok(Float(digits + "." + fraction))
  }

  function Digits(r: Text): (d: Text)
    ensures |d| <= |r| && forall c | c in d :: IsDigit(c)
  {
    r[..DigitsLength(r)]
  }

  // Integers must fit 64 bits, floats their range; floats are kept as they are written.
  function ParseNumber(r: Text): (p: Parsed<Value>)
    ensures p.Ok? ==> |p.value.1| < |r|
  {
    if r != [] && r[0] == '-' then
      match ParseUnsigned(r[1..], true)
      case Err(e) => Err(e)
      case Ok((v, t)) => Ok((if v.Float? then Float([r[0]] + v.text) else v, t))
    else ParseUnsigned(r, false)
  }

  // From the first digit on.
  function ParseUnsigned(r: Text, negative: bool): (p: Parsed<Value>)
    ensures p.Ok? ==> |p.value.1| < |r|
  {
    var digits := Digits(r);
    var t := r[|digits|..];
    if t != [] && t[0] == '.' then
      var fraction := Digits(t[1..]);
      match FloatOf(digits, fraction)
      case Err(e) => Err(e)
      case Ok(v) => Ok((v, t[1 + |fraction|..]))
    else
      match IntegerOf(negative, digits)
      case Err(e) => Err(e)
      case Ok(v) => Ok((v, t))
  }

  // An unquoted word is an enum value, and means the same as the string.
  function ParseValue(r0: Text): (p: Parsed<Value>)
    ensures p.Ok? ==> |p.value.1| < |r0|
  {
    var r := SkipIgnored(r0);
    if r == [] then Err(UnexpectedEnd)
    else if r[0] == '"' then
      match ParseString(r[1..])
      case Err(e) => Err(e)
      case Ok((s, t)) => Ok((Str(s), t))
    else if Word(r) == "true" then Ok((Bool(true), BehindWord(r)))
    else if Word(r) == "false" then Ok((Bool(false), BehindWord(r)))
    else if Word(r) == "null" then Ok((Null, BehindWord(r)))
    else if r[0] == '-' || IsDigit(r[0]) then ParseNumber(r)
    else if IsLetter(r[0]) || r[0] == '_' then Ok((Str(Word(r)), BehindWord(r)))
    else Err(UnexpectedCharacter)
  }

  // The arguments up to the closing parenthesis; a later one of the same name wins.
  function ParseArguments(r: Text, args: map<Text, Value>): (p: Parsed<map<Text, Value>>)
    ensures p.Ok? ==> |p.value.1| < |r|
    decreases |r|
  {
    if r == [] then Err(UnexpectedEnd)
    else if r[0] == ')' then Ok((args, r[1..]))
    else if Word(r) == [] then Err(ExpectedArgumentName)
    else
      var t := SkipIgnored(BehindWord(r));
      if t == [] || t[0] != ':' then Err(ExpectedColon)
      else
        match ParseValue(SkipIgnored(t[1..]))
        case Err(e) => Err(e)
        case Ok((v, u)) => ParseArguments(SkipIgnored(u), args[Word(r) := v])
  }

  // ---- selections ----

  function ParseSelectionSet(r: Text): (p: Parsed<seq<Selection>>)
    ensures p.Ok? ==> |p.value.1| < |r|
    decreases |r|, 2
  {
    if r == [] || r[0] != '{' then Err(ExpectedBrace) else ParseSelections(SkipIgnored(r[1..]))
  }

  // Up to the closing brace.
  function ParseSelections(r: Text): (p: Parsed<seq<Selection>>)
    ensures p.Ok? ==> |p.value.1| < |r|
    decreases |r|, 1
  {
    if r == [] then Err(UnexpectedEnd)
    else if r[0] == '}' then Ok(([], r[1..]))
    else
      match ParseSelection(r)
      case Err(e) => Err(e)
      case Ok((s, t)) =>
        match ParseSelections(SkipIgnored(t))
        case Err(e) => Err(e)
        case Ok((rest, u)) => Ok(([s] + rest, u))
  }

  function ParseSelection(r0: Text): (p: Parsed<Selection>)
    ensures p.Ok? ==> |p.value.1| < |r0|
    decreases |r0|, 0
  {
    var r := SkipIgnored(r0);
    if Word(r) == [] then Err(ExpectedFieldName)
    else
      var (name, alias, t) := ParseNames(Word(r), SkipIgnored(BehindWord(r)));
      if t != [] && t[0] == '(' then
        match ParseArguments(SkipIgnored(t[1..]), map[])
        case Err(e) => Err(e)
        case Ok((args, u)) => ParseNested(name, alias, Some(args), SkipIgnored(u))
      else ParseNested(name, alias, None, t)
  }

  // The first word is an alias if a colon follows. The field's name may then be missing.
  function ParseNames(first: Text, r: Text): (n: (Text, Text, Text))
    ensures |n.2| <= |r|
  {
    if r != [] && r[0] == ':' then
      var t := SkipIgnored(r[1..]);
      (Word(t), first, SkipIgnored(BehindWord(t)))
    else (first, [], r)
  }

  function ParseNested(name: Text, alias: Text, args: Option<map<Text, Value>>, r: Text): (p: Parsed<Selection>)
    ensures p.Ok? ==> |p.value.1| <= |r|
    decreases |r|, 3
  {
    if r != [] && r[0] == '{' then
      match ParseSelectionSet(r)
      case Err(e) => Err(e)
      case Ok((nested, t)) => Ok((Selection(name, alias, args, nested), t))
    else Ok((Selection(name, alias, args, []), r))
  }

  // ---- documents ----

  // Behind the parenthesis that closes the first one; strings and comments are not looked at.
  function Balanced(r: Text, depth: nat): (p: Option<Text>)
    ensures p.Some? ==> |p.value| <= |r|
    decreases |r|
  {
    if depth == 0 then Some(r)
    else if r == [] then None
    else Balanced(r[1..], if r[0] == '(' then depth + 1 else if r[0] == ')' then depth - 1 else depth)
  }

  predicate IsOperation(word: Text) {
    word == "query" || word == "mutation" || word == "subscription"
  }

  // Anything behind the selection set is ignored.
  function ParseQuery(input: Text): Result<Query, ParseError> {
    var r := SkipIgnored(input);
    if !IsOperation(Word(r)) then ParseBody("query", [], r)
    else
      var t := SkipIgnored(BehindWord(r));
      var named := t != [] && t[0] != '{' && t[0] != '(';
      var name := if named then Word(t) else [];
      var u := if named then SkipIgnored(BehindWord(t)) else t;
      if u != [] && u[0] == '(' then
        match Balanced(u[1..], 1)
        case None => Err(Unbalanced)
        case Some(v) => ParseBody(Word(r), name, SkipIgnored(v))
      else ParseBody(Word(r), name, u)
  }

  function ParseBody(operationType: Text, name: Text, r: Text): Result<Query, ParseError> {
    match ParseSelectionSet(r)
    case Err(e) => Err(e)
    case Ok((selections, _)) => Ok(Query(operationType, name, selections))
  }
}
