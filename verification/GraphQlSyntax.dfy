/** GraphQL queries as they are written: a syntax tree with every blank and comment in its place, the
  * text it stands for and the query it means. The parser takes exactly these texts, for what they mean.
  *
  * The text of a part is given together with the text behind it.
  */
module GraphQlSyntax {
  import opened Bytes
  import opened GraphQl

  // A comment runs to the end of its line, which goes with it.
  datatype Blank = Space(c: Octet) | Comment(text: Text)

  type Gap = seq<Blank>

  datatype Piece = Bare(c: Octet) | Escape(c: Octet)

  datatype Literal =
    | Quoted(pieces: seq<Piece>)
    | Whole(i: Int64, negative: bool, zeros: nat)
    | Decimal(negative: bool, whole: Text, fraction: Text)
    | Unquoted(word: Text)

  datatype Arg = Arg(name: Text, beforeColon: Gap, behindColon: Gap, value: Literal, behind: Gap)

  datatype Args = Args(inside: Gap, list: seq<Arg>, behind: Gap)

  datatype Alias = Alias(word: Text, beforeColon: Gap, behindColon: Gap)

  datatype Field = Field(
    alias: Option<Alias>, name: Text, behindName: Gap, args: Option<Args>, nested: Option<Braces>, behind: Gap)

  datatype Braces = Braces(inside: Gap, fields: seq<Field>)

  // The definition of variables: parentheses in pairs, and anything else.
  datatype Inside = Mark(c: Octet) | Group(parts: seq<Inside>)

  datatype Variables = Variables(parts: seq<Inside>, behind: Gap)

  datatype Header = Header(word: Text, behindWord: Gap, name: Text, behindName: Gap, variables: Option<Variables>)

  datatype Document = Document(front: Gap, header: Option<Header>, braces: Braces)

  // ---- texts ----

  function GapThen(g: Gap, t: Text): Text {
    if g == [] then t
    else
      match g[0]
      case Space(c) => [c] + GapThen(g[1..], t)
      case Comment(text) => "#" + text + ("\n" + GapThen(g[1..], t))
  }

  function PiecesThen(pieces: seq<Piece>, t: Text): Text {
    if pieces == [] then t
    else
      match pieces[0]
      case Bare(c) => [c] + PiecesThen(pieces[1..], t)
      case Escape(c) => "\\" + ([c] + PiecesThen(pieces[1..], t))
  }

  function Sign(negative: bool): Text {
    if negative then "-" else []
  }

  function PrintNat(n: nat): Text {
    if n < 10 then [('0' as int + n) as char] else PrintNat(n / 10) + [('0' as int + n % 10) as char]
  }

  function Zeros(n: nat): Text {
    if n == 0 then [] else "0" + Zeros(n - 1)
  }

  function Magnitude(i: Int64): nat {
    if i < 0 then -(i as int) else i
  }

  // Zeros may stand in front of a number.
  function DigitsOf(i: Int64, zeros: nat): Text {
    Zeros(zeros) + PrintNat(Magnitude(i))
  }

  function LiteralThen(v: Literal, t: Text): Text {
    match v
    case Quoted(pieces) => "\"" + PiecesThen(pieces, "\"" + t)
    case Whole(i, negative, zeros) => Sign(negative) + (DigitsOf(i, zeros) + t)
    case Decimal(negative, whole, fraction) => Sign(negative) + (whole + ("." + (fraction + t)))
    case Unquoted(word) => word + t
  }

  function ArgThen(a: Arg, t: Text): Text {
    a.name + GapThen(a.beforeColon, ":" + GapThen(a.behindColon, LiteralThen(a.value, GapThen(a.behind, t))))
  }

  function ArgsThen(args: seq<Arg>, t: Text): Text {
    if args == [] then t else ArgThen(args[0], ArgsThen(args[1..], t))
  }

  function ParensThen(args: Option<Args>, t: Text): Text {
    match args
    case None => t
    case Some(Args(inside, list, behind)) => "(" + GapThen(inside, ArgsThen(list, ")" + GapThen(behind, t)))
  }

  function AliasThen(alias: Option<Alias>, t: Text): Text {
    match alias
    case None => t
    case Some(Alias(word, before, behind)) => word + GapThen(before, ":" + GapThen(behind, t))
  }

  function NestedThen(nested: Option<Braces>, t: Text): Text
    decreases nested, 0
  {
    match nested
    case None => t
    case Some(braces) => BracesThen(braces, t)
  }

  function BracesThen(braces: Braces, t: Text): Text
    decreases braces, 0
  {
    "{" + GapThen(braces.inside, FieldsThen(braces.fields, "}" + t))
  }

  function FieldsThen(fields: seq<Field>, t: Text): Text
    decreases fields, 0
  {
    if fields == [] then t else FieldThen(fields[0], FieldsThen(fields[1..], t))
  }

  // What stands behind the name of a field, its arguments, and all of it.
  function BehindArgs(f: Field, t: Text): Text
    decreases f, 0
  {
    NestedThen(f.nested, GapThen(f.behind, t))
  }

  function BehindName(f: Field, t: Text): Text
    decreases f, 1
  {
    GapThen(f.behindName, ParensThen(f.args, BehindArgs(f, t)))
  }

  function FieldThen(f: Field, t: Text): Text
    decreases f, 2
  {
    AliasThen(f.alias, f.name + BehindName(f, t))
  }

  function InsideThen(parts: seq<Inside>, t: Text): Text
    decreases parts
  {
    if parts == [] then t
    else
      match parts[0]
      case Mark(c) => [c] + InsideThen(parts[1..], t)
      case Group(inner) => "(" + InsideThen(inner, ")" + InsideThen(parts[1..], t))
  }

  function VariablesThen(variables: Option<Variables>, t: Text): Text {
    match variables
    case None => t
    case Some(Variables(parts, behind)) => "(" + InsideThen(parts, ")" + GapThen(behind, t))
  }

  function BehindHead(h: Header, t: Text): Text {
    GapThen(h.behindWord, h.name + GapThen(h.behindName, VariablesThen(h.variables, t)))
  }

  function HeaderThen(header: Option<Header>, t: Text): Text {
    match header
    case None => t
    case Some(h) => h.word + BehindHead(h, t)
  }

  // Anything may stand behind the selections.
  function DocumentThen(d: Document, t: Text): Text {
    GapThen(d.front, HeaderThen(d.header, BracesThen(d.braces, t)))
  }

  // ---- what may be written ----

  predicate Letter(c: Octet) {
    || 'a' <= c <= 'z' || 'A' <= c <= 'Z'
    || c as int in {0xAA, 0xB5, 0xBA} || 0xC0 <= c as int <= 0xD6 || 0xD8 <= c as int <= 0xF6 || 0xF8 <= c as int
  }

  predicate InName(c: Octet) {
    Letter(c) || c in "0123456789_"
  }

  predicate IsName(w: Text) {
    w != [] && forall c | c in w :: InName(c)
  }

  // Neither a blank nor a comment is in front.
  predicate Solid(t: Text) {
    t == [] || (t[0] !in " \t\n\r," && t[0] != '#')
  }

  // A name ends in front of this.
  predicate Stops(t: Text) {
    t == [] || !InName(t[0])
  }

  predicate ValidGap(g: Gap) {
    forall b | b in g :: match b case Space(c) => c in " \t\n\r," case Comment(text) => '\n' !in text
  }

  predicate ValidPieces(pieces: seq<Piece>) {
    forall p | p in pieces :: p.Bare? ==> p.c != '"' && p.c != '\\'
  }

  predicate AllDigits(s: Text) {
    forall c | c in s :: '0' <= c <= '9'
  }

  // In front of t, the literal ends where it should. A point or a digit would go on with a number.
  predicate ValidLiteral(v: Literal, t: Text) {
    match v
    case Quoted(pieces) => ValidPieces(pieces)
    case Whole(i, negative, _) =>
      (if negative then i <= 0 else i >= 0) && (t == [] || (!('0' <= t[0] <= '9') && t[0] != '.'))
    case Decimal(negative, whole, fraction) =>
      && AllDigits(whole) && AllDigits(fraction) && (negative || whole != []) && whole + fraction != []
      && DigitsValue(whole) < FLOAT_LIMIT && (t == [] || !('0' <= t[0] <= '9'))
    case Unquoted(word) => IsName(word) && (Letter(word[0]) || word[0] == '_') && Stops(t)
  }

  predicate ValidArg(a: Arg, t: Text) {
    && IsName(a.name) && ValidGap(a.beforeColon) && ValidGap(a.behindColon) && ValidGap(a.behind)
    && ValidLiteral(a.value, GapThen(a.behind, t))
  }

  predicate ValidArgs(args: seq<Arg>, t: Text) {
    args == [] || (ValidArg(args[0], ArgsThen(args[1..], t)) && ValidArgs(args[1..], t))
  }

  predicate ValidParens(args: Option<Args>, t: Text) {
    match args
    case None => true
    case Some(Args(inside, list, behind)) =>
      ValidGap(inside) && ValidArgs(list, ")" + GapThen(behind, t)) && ValidGap(behind)
  }

  // Behind an alias the name may be missing; then nothing stands between.
  predicate ValidNames(alias: Option<Alias>, name: Text, tail: Text) {
    && Stops(tail) && (name == [] || IsName(name)) && (name == [] ==> alias.Some? && Solid(tail))
    && (alias.Some? ==>
          && IsName(alias.value.word) && ValidGap(alias.value.beforeColon) && ValidGap(alias.value.behindColon))
  }

  predicate ValidNested(nested: Option<Braces>, t: Text)
    decreases nested, 0
  {
    match nested
    case None => true
    case Some(braces) => ValidBraces(braces, t)
  }

  predicate ValidBraces(braces: Braces, t: Text)
    decreases braces, 0
  {
    ValidGap(braces.inside) && ValidFields(braces.fields, "}" + t)
  }

  predicate ValidFields(fields: seq<Field>, t: Text)
    decreases fields, 0
  {
    fields == [] || (ValidField(fields[0], FieldsThen(fields[1..], t)) && ValidFields(fields[1..], t))
  }

  predicate ValidField(f: Field, t: Text)
    decreases f, 1
  {
    && ValidNames(f.alias, f.name, BehindName(f, t)) && ValidGap(f.behindName) && ValidGap(f.behind)
    && ValidParens(f.args, BehindArgs(f, t)) && ValidNested(f.nested, GapThen(f.behind, t))
  }

  predicate ValidInside(parts: seq<Inside>)
    decreases parts
  {
    parts == [] || ((match parts[0] case Mark(c) => c != '(' && c != ')' case Group(inner) => ValidInside(inner))
                    && ValidInside(parts[1..]))
  }

  predicate ValidVariables(variables: Option<Variables>) {
    match variables
    case None => true
    case Some(Variables(parts, behind)) => ValidInside(parts) && ValidGap(behind)
  }

  predicate ValidHeader(h: Header, t: Text) {
    && h.word in ["query", "mutation", "subscription"] && Stops(BehindHead(h, t))
    && (h.name == [] || IsName(h.name)) && ValidGap(h.behindWord) && ValidGap(h.behindName)
    && ValidVariables(h.variables)
  }

  predicate ValidDocument(d: Document, t: Text) {
    && ValidGap(d.front) && ValidBraces(d.braces, t)
    && (d.header.Some? ==> ValidHeader(d.header.value, BracesThen(d.braces, t)))
  }

  // ---- what it means ----

  function Char(p: Piece): Octet {
    match p
    case Bare(c) => c
    case Escape(c) => if c == 'n' then '\n' else if c == 't' then '\t' else c
  }

  function Chars(pieces: seq<Piece>): Text {
    if pieces == [] then [] else [Char(pieces[0])] + Chars(pieces[1..])
  }

  function LiteralValue(v: Literal): Value {
    match v
    case Quoted(pieces) => Str(Chars(pieces))
    case Whole(i, _, _) => Int(i)
    case Decimal(negative, whole, fraction) => Float(Sign(negative) + (whole + ("." + fraction)))
    case Unquoted(word) =>
      if word == "true" then Bool(true) else if word == "false" then Bool(false) else if word == "null" then Null
      else Str(word)
  }

  // A later argument of the same name wins.
  function Arguments(args: seq<Arg>, before: map<Text, Value>): map<Text, Value> {
    if args == [] then before else Arguments(args[1..], before[args[0].name := LiteralValue(args[0].value)])
  }

  function ArgsMeaning(args: Option<Args>): Option<map<Text, Value>> {
    match args
    case None => None
    case Some(Args(_, list, _)) => Some(Arguments(list, map[]))
  }

  function NestedMeaning(nested: Option<Braces>): seq<Selection>
    decreases nested, 0
  {
    match nested
    case None => []
    case Some(braces) => FieldsMeaning(braces.fields)
  }

  function FieldsMeaning(fields: seq<Field>): seq<Selection>
    decreases fields, 0
  {
    if fields == [] then [] else [Meaning(fields[0])] + FieldsMeaning(fields[1..])
  }

  function AliasMeaning(alias: Option<Alias>): Text {
    if alias.Some? then alias.value.word else []
  }

  function Meaning(f: Field): Selection
    decreases f, 1
  {
    Selection(f.name, AliasMeaning(f.alias), ArgsMeaning(f.args), NestedMeaning(f.nested))
  }

  // Selections alone are a query without a name.
  function DocumentMeaning(d: Document): Query {
    var selections := FieldsMeaning(d.braces.fields);
    match d.header
    case None => Query("query", [], selections)
    case Some(h) => Query(h.word, h.name, selections)
  }
}
