/** What expanding and compacting make of a source file, item by item, with every keyword and symbol
  * written out; and what is left in compacted text. */
module Respelling {
  import opened Bytes
  import opened Transformer
  import opened SourceItems

  // ---- the words and their symbols ----

  predicate Means(word: Source, sign: Ascii) {
    || (word == "route" && sign == '@')
    || (word == "type" && sign == ':')
    || (word == "let" && sign == '$')
    || (word == "return" && sign == '>')
    || (word == "middleware" && sign == '+')
    || (word == "use" && sign == '%')
    || (word == "expects" && sign == '<')
    || (word == "validate" && sign == '?')
    || (word == "handle" && sign == '~')
    || (word == "cron" && sign == '*')
    || (word == "command" && sign == '!')
    || (word == "queue" && sign == '&')
    || (word == "func" && sign == '=')
  }

  // The two tables of the transformations are this relation, read either way.
  lemma TablesAgree(word: Source, sign: Ascii)
    ensures Means(word, sign) <==> SymbolOf(word) == Some(sign)
    ensures Means(word, sign) <==> KeywordOf(sign) == Some(word)
  {
  }

  predicate IsKeyword(word: Source) {
    word in ["route", "type", "let", "return", "middleware", "use", "expects", "validate", "handle", "cron", "command",
             "queue", "func"]
  }

  lemma KeywordsHaveSigns(word: Source)
    ensures IsKeyword(word) <==> SymbolOf(word).Some?
  {
  }

  ghost function Sign(word: Source): (sign: Ascii)
    requires IsKeyword(word)
    ensures Means(word, sign) && SymbolOf(word) == Some(sign)
  {
    KeywordsHaveSigns(word);
    TablesAgree(word, SymbolOf(word).value);
    var sign :| Means(word, sign);
    TablesAgree(word, sign);
    sign
  }

  // ---- where they count ----

  predicate IsBlank(c: Ascii) {
    c as int in {9, 10, 11, 12, 13, 32}
  }

  // Nothing but blanks since the last line's end.
  predicate AtLineStart(before: Source) {
    before == [] || before[|before| - 1] == '\n'
    || (IsBlank(before[|before| - 1]) && AtLineStart(before[..|before| - 1]))
  }

  lemma {:induction false} LineStartSeen(before: Source)
    ensures After(AT_START, before).blank <==> AtLineStart(before)
    decreases |before|
  {
    if before != [] {
      var front, c := before[..|before| - 1], before[|before| - 1];
      assert before == front + [c];
      AfterAppend(AT_START, front, [c]);
      AfterOne(After(AT_START, front), [c]);
      LineStartSeen(front);
    }
  }

  // How many blocks are open, braces in strings not counted.
  function Opened(before: Source): int {
    After(AT_START, before).depth
  }

  // Text for counting braces: strings are strings, also in comments, and all else is itself.
  datatype Part = Plain(c: Ascii) | Str(double: bool, pieces: seq<Piece>)

  function PartText(p: Part): Source {
    match p
    case Plain(c) => [c]
    case Str(double, pieces) => [QuoteMark(double)] + QuoteTail(double, pieces, Closed)
  }

  function PartsText(parts: seq<Part>): Source {
    if parts == [] then [] else PartText(parts[0]) + PartsText(parts[1..])
  }

  predicate ValidParts(parts: seq<Part>) {
    forall p | p in parts ::
      match p case Plain(c) => c != '"' && c != '\'' case Str(double, pieces) => ValidPieces(double, pieces)
  }

  function Braces(parts: seq<Part>): int {
    if parts == [] then 0
    else (if parts[0] == Plain('{') then 1 else if parts[0] == Plain('}') then -1 else 0) + Braces(parts[1..])
  }

  lemma {:induction false} InString(x: Context, double: bool, pieces: seq<Piece>, end: End)
    requires x.quoting == Quoted(double) && ValidPieces(double, pieces)
    ensures After(x, QuoteTail(double, pieces, end)).depth == x.depth
    ensures end.Closed? ==> After(x, QuoteTail(double, pieces, end)).quoting == Code
    decreases |pieces|
  {
    var tail := QuoteTail(double, pieces, end);
    if pieces == [] {
      if tail != [] {
        AfterOne(x, tail);
      }
    } else {
      var head := PieceText(pieces[0]);
      assert pieces[0] in pieces;
      assert forall p | p in pieces[1..] :: p in pieces;
      AfterAppend(x, head, QuoteTail(double, pieces[1..], end));
      PieceKeeps(x, double, pieces[0]);
      InString(After(x, head), double, pieces[1..], end);
    }
  }

  lemma PieceKeeps(x: Context, double: bool, p: Piece)
    requires x.quoting == Quoted(double) && (p.Bare? ==> p.c != QuoteMark(double) && p.c != '\\')
    ensures var y := After(x, PieceText(p)); y.depth == x.depth && y.quoting == Quoted(double)
  {
    AfterOne(x, [PieceText(p)[0]]);
    if p.Escape? {
      assert PieceText(p)[1..] == [p.c];
      AfterOne(Step(x, '\\'), [p.c]);
    }
  }

  // The count is that of the braces outside strings; a string not yet closed adds nothing.
  lemma {:induction false} OpenedCounts(x: Context, parts: seq<Part>)
    requires x.quoting == Code && ValidParts(parts)
    ensures var y := After(x, PartsText(parts)); y.depth == x.depth + Braces(parts) && y.quoting == Code
    decreases |parts|
  {
    if parts != [] {
      hide QuoteTail;
      var head := PartText(parts[0]);
      assert parts[0] in parts;
      assert forall p | p in parts[1..] :: p in parts;
      AfterAppend(x, head, PartsText(parts[1..]));
      PartCounts(x, parts[0]);
      OpenedCounts(After(x, head), parts[1..]);
    }
  }

  lemma PartCounts(x: Context, p: Part)
    requires x.quoting == Code && ValidParts([p])
    ensures var y := After(x, PartText(p));
            && y.depth == x.depth + (if p == Plain('{') then 1 else if p == Plain('}') then -1 else 0)
            && y.quoting == Code
  {
    assert p in [p];
    match p
    case Plain(c) => AfterOne(x, [c]);
    case Str(double, pieces) => {
      var tail := QuoteTail(double, pieces, Closed);
      AfterAppend(x, [QuoteMark(double)], tail);
      AfterOne(x, [QuoteMark(double)]);
      InString(Step(x, QuoteMark(double)), double, pieces, Closed);
    }
  }

  lemma OpenedInText(parts: seq<Part>, double: bool, pieces: seq<Piece>)
    requires ValidParts(parts) && ValidPieces(double, pieces)
    ensures Opened(PartsText(parts)) == Braces(parts)
    ensures Opened(PartsText(parts) + ([QuoteMark(double)] + QuoteTail(double, pieces, Cut))) == Braces(parts)
  {
    var text, tail := PartsText(parts), QuoteTail(double, pieces, Cut);
    var x := After(AT_START, text);
    OpenedCounts(AT_START, parts);
    AfterAppend(AT_START, text, [QuoteMark(double)] + tail);
    AfterAppend(x, [QuoteMark(double)], tail);
    AfterOne(x, [QuoteMark(double)]);
    InString(Step(x, QuoteMark(double)), double, pieces, Cut);
  }

  // At a line's start any keyword counts; behind other text, in an open block, six of them.
  predicate Compacts(before: Source, word: Source) {
    || (IsKeyword(word) && AtLineStart(before))
    || (word in ["let", "return", "middleware", "use", "expects", "validate"] && Opened(before) > 0)
  }

  lemma CompactsIs(before: Source, word: Source)
    ensures Compacts(before, word) <==> Converts(After(AT_START, before), word)
    ensures Compacts(before, word) ==> IsKeyword(word)
  {
    hide After;
    LineStartSeen(before);
    KeywordsHaveSigns(word);
  }

  // ---- compacting ----

  function LeadingSpaces(items: seq<Item>): (n: nat)
    ensures n <= |items|
  {
    if items == [] || items[0] != Mark(' ') then 0 else 1 + LeadingSpaces(items[1..])
  }

  ghost function Shortened(word: Source, spaces: nat): seq<Item>
    requires IsKeyword(word)
  {
    [Mark(Sign(word))] + if spaces > 0 then [Mark(' ')] else []
  }

  // Each keyword that counts becomes its symbol, and the spaces behind it one.
  ghost function CompactedItems(before: Source, items: seq<Item>): seq<Item>
    decreases |items|
  {
    if items == [] then []
    else if items[0].Name? && Compacts(before, items[0].word) then
      CompactsIs(before, items[0].word);
      var k := LeadingSpaces(items[1..]);
      Shortened(items[0].word, k)
      + CompactedItems(before + ItemsText(items[..1 + k]), items[1 + k..])
    else [items[0]] + CompactedItems(before + ItemText(items[0]), items[1..])
  }

  lemma {:induction false} TextAppend(a: seq<Item>, b: seq<Item>)
    ensures ItemsText(a + b) == ItemsText(a) + ItemsText(b)
    decreases |a|
  {
    if a == [] {
      assert a + b == b;
    } else {
      assert (a + b)[1..] == a[1..] + b;
      TextAppend(a[1..], b);
      assert ItemText(a[0]) + (ItemsText(a[1..]) + ItemsText(b)) == ItemText(a[0]) + ItemsText(a[1..]) + ItemsText(b);
    }
  }

  lemma {:induction false} LeadingAre(items: seq<Item>)
    ensures var k := LeadingSpaces(items);
            && (forall i | i in items[..k] :: i == Mark(' '))
            && (items[k..] == [] || items[k..][0] != Mark(' '))
    decreases |items|
  {
    if items != [] && items[0] == Mark(' ') {
      var k := LeadingSpaces(items);
      LeadingAre(items[1..]);
      assert items[..k] == [items[0]] + items[1..][..k - 1] && items[k..] == items[1..][k - 1..];
    }
  }

  lemma {:induction false} SpacesText(items: seq<Item>, t: Source)
    requires (forall i | i in items :: i == Mark(' ')) && (t == [] || t[0] != ' ')
    ensures |ItemsText(items)| == |items| && SpacesLength(ItemsText(items) + t) == |items|
    ensures forall c | c in ItemsText(items) :: c == ' '
    decreases |items|
  {
    if items == [] {
      assert [] + t == t;
    } else {
      var more := ItemsText(items[1..]);
      assert items[0] in items && forall i | i in items[1..] :: i in items;
      SpacesText(items[1..], t);
      assert ItemsText(items) == [' '] + more;
      assert ([' '] + more + t)[1..] == more + t;
    }
  }

  lemma {:induction false} ValidTail(items: seq<Item>, k: nat)
    requires ValidItems(items) && k <= |items|
    ensures ValidItems(items[k..])
    decreases k
  {
    hide ValidItem, ItemsText;
    if k == 0 {
      assert items[0..] == items;
    } else {
      ValidTail(items[1..], k - 1);
      assert items[k..] == items[1..][k - 1..];
    }
  }

  // The spaces in front of items are those in front of their text.
  lemma SpacesSeen(items: seq<Item>)
    requires ValidItems(items)
    ensures var k := LeadingSpaces(items);
            && SpacesLength(ItemsText(items)) == k && ValidItems(items[k..])
            && ItemsText(items) == ItemsText(items[..k]) + ItemsText(items[k..]) && |ItemsText(items[..k])| == k
            && forall c | c in ItemsText(items[..k]) :: c == ' '
  {
    hide ItemText, ValidItem, ItemsText, ValidItems, LeadingSpaces, SpacesLength;
    var k := LeadingSpaces(items);
    LeadingAre(items);
    ValidTail(items, k);
    FirstNoSpace(items[k..]);
    SpacesText(items[..k], ItemsText(items[k..]));
    TextAppend(items[..k], items[k..]);
    assert items[..k] + items[k..] == items;
  }

  lemma FirstNoSpace(items: seq<Item>)
    requires ValidItems(items) && (items == [] || items[0] != Mark(' '))
    ensures ItemsText(items) == [] || ItemsText(items)[0] != ' '
  {
    if items != [] {
      NoSpace(items[0], ItemsText(items[1..]));
    }
  }

  lemma NoSpace(i: Item, behind: Source)
    requires ValidItem(i, behind) && i != Mark(' ')
    ensures ItemText(i) != [] && ItemText(i)[0] != ' '
  {
  }

  // One item that stays: what compacting copies.
  lemma CopiedItem(x: Context, i: Item, behind: Source)
    requires ValidItem(i, behind) && (i.Name? ==> !Converts(x, i.word))
    ensures CompactRest(x, ItemText(i) + behind) == ItemText(i) + CompactRest(After(x, ItemText(i)), behind)
  {
    hide After, Step, SkippedLength, FirstItem, QuoteTail, ValidItem, Converts;
    var text := ItemText(i);
    var r := text + behind;
    FirstBack(i, behind);
    assert r[..|text|] == text && r[|text|..] == behind;
    if !i.Name? {
      KindSeen(i, behind);
    } else {
      KindSeen(i, behind);
      CompactUnfolds(x, r);
    }
    if i.Mark? {
      AfterOne(x, text);
    }
  }

  // The lexer tells the kinds of items apart.
  lemma KindSeen(i: Item, behind: Source)
    requires ValidItem(i, behind)
    ensures var r := ItemText(i) + behind;
            && r != [] && (SkippedLength(r) > 0 <==> i.Remark? || i.Quote?)
            && (i.Remark? || i.Quote? ==> SkippedLength(r) == |ItemText(i)|)
            && (i.Name? ==> IsLetter(r[0]) && WordLength(r) == |i.word|)
            && (i.Mark? ==> !IsLetter(r[0]))
  {
    hide QuoteTail, Inner;
    FirstBack(i, behind);
  }

  // One keyword that becomes its symbol.
  lemma ConvertedItem(x: Context, word: Source, spaces: Source, behind: Source)
    requires ValidItem(Name(word), spaces + behind) && Converts(x, word)
    requires SpacesLength(spaces + behind) == |spaces|
    ensures CompactRest(x, word + (spaces + behind)) ==
              [SymbolOf(word).value] + (if |spaces| > 0 then " " else "") + CompactRest(After(x, word + spaces), behind)
  {
    hide CompactRest, After, SymbolOf, Converts, SpacesLength;
    var t := spaces + behind;
    assert t[..|spaces|] == spaces && t[|spaces|..] == behind;
    forall c | c in word ensures IsWordChar(c) {
    }
    CompactKeyword(x, word, t);
  }

  lemma {:induction false} CompactedRest(before: Source, items: seq<Item>)
    requires ValidItems(items)
    ensures CompactRest(After(AT_START, before), ItemsText(items)) == ItemsText(CompactedItems(before, items))
    decreases |items|
  {
    hide CompactRest, After, ItemText, ValidItem, Compacts, Converts, ValidItems;
    if items == [] {
      NothingCompacted(After(AT_START, before));
    } else {
      ItemsUnfold(items);
      if items[0].Name? && Compacts(before, items[0].word) {
        CompactedKeyword(before, items);
        CompactedRest(before + ItemsText(items[..1 + LeadingSpaces(items[1..])]), items[1 + LeadingSpaces(items[1..])..]);
      } else {
        if items[0].Name? {
          CompactsIs(before, items[0].word);
        }
        CopiedItem(After(AT_START, before), items[0], ItemsText(items[1..]));
        AfterAppend(AT_START, before, ItemText(items[0]));
        CompactedRest(before + ItemText(items[0]), items[1..]);
        Joined(items[0], CompactedItems(before + ItemText(items[0]), items[1..]));
      }
    }
  }

  lemma NothingCompacted(x: Context)
    ensures CompactRest(x, []) == [] && ItemsText([]) == []
  {
  }

  lemma ItemsUnfold(items: seq<Item>)
    requires ValidItems(items) && items != []
    ensures ValidItem(items[0], ItemsText(items[1..])) && ValidItems(items[1..])
    ensures ItemsText(items) == ItemText(items[0]) + ItemsText(items[1..])
  {
  }

  lemma ShortText(word: Source, spaces: nat)
    requires IsKeyword(word)
    ensures ItemsText(Shortened(word, spaces)) == [Sign(word)] + if spaces > 0 then " " else ""
  {
    var tail: seq<Item> := if spaces > 0 then [Mark(' ')] else [];
    Joined(Mark(Sign(word)), tail);
    if spaces > 0 {
      Joined(Mark(' '), []);
      assert [Mark(' ')] + [] == tail;
      assert [' '] + [] == " ";
    }
  }

  lemma NameText(i: Item)
    ensures i.Name? ==> ItemText(i) == i.word && i == Name(i.word)
  {
  }

  // A keyword and the spaces behind it, apart from the rest.
  lemma KeywordAndSpaces(items: seq<Item>)
    requires ValidItems(items) && items != [] && items[0].Name?
    ensures var word, k := items[0].word, LeadingSpaces(items[1..]);
            var spaces, behind := ItemsText(items[1..1 + k]), ItemsText(items[1 + k..]);
            && ItemsText(items) == word + (spaces + behind) && ItemsText(items[..1 + k]) == word + spaces
            && ValidItem(Name(word), spaces + behind) && SpacesLength(spaces + behind) == |spaces| == k
            && ValidItems(items[1 + k..])
  {
    hide ItemsText, ItemText, ValidItem, LeadingSpaces, SpacesLength, ValidItems;
    var rest := items[1..];
    var k := LeadingSpaces(rest);
    ItemsUnfold(items);
    NameText(items[0]);
    SpacesSeen(rest);
    assert rest[..k] == items[1..1 + k] && rest[k..] == items[1 + k..];
    assert items[..1 + k] == [items[0]] + rest[..k];
    Joined(items[0], rest[..k]);
  }

  // The same at a keyword, up to the text behind its spaces.
  lemma CompactedKeyword(before: Source, items: seq<Item>)
    requires ValidItems(items) && items != [] && items[0].Name? && Compacts(before, items[0].word)
    ensures IsKeyword(items[0].word)
    ensures var k := LeadingSpaces(items[1..]);
            var before' := before + ItemsText(items[..1 + k]);
            && ValidItems(items[1 + k..])
            && CompactRest(After(AT_START, before), ItemsText(items)) ==
                 ItemsText(Shortened(items[0].word, k)) + CompactRest(After(AT_START, before'), ItemsText(items[1 + k..]))
            && ItemsText(CompactedItems(before, items)) ==
                 ItemsText(Shortened(items[0].word, k)) + ItemsText(CompactedItems(before', items[1 + k..]))
  {
    hide CompactRest, After, ItemText, ValidItem, Compacts, Converts, ValidItems, ItemsText, Shortened, IsKeyword, SpacesLength;
    CompactsIs(before, items[0].word);
    var word, k := items[0].word, LeadingSpaces(items[1..]);
    var spaces, behind := ItemsText(items[1..1 + k]), ItemsText(items[1 + k..]);
    KeywordAndSpaces(items);
    ConvertedItem(After(AT_START, before), word, spaces, behind);
    AfterAppend(AT_START, before, word + spaces);
    ShortText(word, k);
    TextAppend(Shortened(word, k), CompactedItems(before + ItemsText(items[..1 + k]), items[1 + k..]));
  }

  // Compacting turns a file into the text of its compacted items.
  lemma Compacted(s: Source)
    ensures CompactSource(s) == ItemsText(CompactedItems([], ItemsOf(s)))
  {
    hide CompactRest, ItemsText, CompactedItems;
    ItemsRead(s);
    CompactedRest([], ItemsOf(s));
  }

  // ---- what compacted text looks like ----

  // No item is a word that counts as a keyword where it stands.
  ghost predicate Settled(before: Source, items: seq<Item>)
    decreases |items|
  {
    items == [] || (&& (items[0].Name? ==> !Compacts(before, items[0].word))
                    && Settled(before + ItemText(items[0]), items[1..]))
  }

  // A symbol or a space starts nothing else, and goes on with no word.
  lemma SignPlain(word: Source, behind: Source)
    requires IsKeyword(word)
    ensures ValidItem(Mark(Sign(word)), behind) && Sign(word) != '\n' && !InWord(Sign(word)) && Sign(word) != '/'
    ensures !IsBlank(Sign(word))
  {
  }

  // The first character of compacted text is the one that was there, or a symbol in place of a word.
  lemma FirstCompacted(before: Source, items: seq<Item>)
    requires ValidItems(items)
    ensures var s, t := ItemsText(items), ItemsText(CompactedItems(before, items));
            && (s == [] <==> t == [])
            && (s != [] ==> (InWord(t[0]) ==> InWord(s[0])) && (s[0] == '\n' <==> t[0] == '\n') && (t[0] == '/' ==> s[0] == '/'))
  {
    hide Compacts;
    if items != [] {
      FirstOf(items[0], ItemsText(items[1..]));
      if items[0].Name? && Compacts(before, items[0].word) {
        CompactsIs(before, items[0].word);
        SignPlain(items[0].word, []);
        assert CompactedItems(before, items)[0] == Mark(Sign(items[0].word));
        LetterFirst(items[0].word[0]);
      } else {
        assert CompactedItems(before, items)[0] == items[0];
      }
    }
  }

  lemma FirstOf(i: Item, behind: Source)
    requires ValidItem(i, behind)
    ensures ItemText(i) != [] && (i.Name? ==> Letter(ItemText(i)[0]))
  {
  }

  lemma LetterFirst(c: Ascii)
    requires Letter(c)
    ensures InWord(c) && c != '\n' && c != '/'
  {
  }

  // An item stays valid in front of text that starts in the same way.
  lemma ValidAgain(i: Item, s: Source, t: Source)
    requires ValidItem(i, s) && (s == [] <==> t == [])
    requires s != [] ==> (InWord(t[0]) ==> InWord(s[0])) && (s[0] == '\n' <==> t[0] == '\n') && (t[0] == '/' ==> s[0] == '/')
    ensures ValidItem(i, t)
  {
  }

  lemma {:induction false} SpacesKeep(x: Context, spaces: Source)
    requires !x.blank && !x.quoting.Escaped? && forall c | c in spaces :: c == ' '
    ensures After(x, spaces) == x
    decreases |spaces|
  {
    if spaces != [] {
      assert spaces[0] in spaces;
      assert forall c | c in spaces[1..] :: c in spaces;
      assert Step(x, ' ') == x;
      SpacesKeep(x, spaces[1..]);
    }
  }

  // A keyword with its spaces and its symbol with one do the same to the context.
  lemma SameContext(x: Context, word: Source, spaces: Source, sign: Source)
    requires IsKeyword(word) && IsWord(word) && (forall c | c in spaces :: c == ' ')
    requires sign == [Sign(word)] + if |spaces| > 0 then " " else ""
    ensures After(x, word + spaces) == After(x, sign)
  {
    hide Step, After;
    WordWritten(x, word);
    AfterAppend(x, word, spaces);
    SpacesKeep(Written(x), spaces);
    var tail: Source := if |spaces| > 0 then " " else "";
    assert [Sign(word)] + tail == sign;
    AfterAppend(x, [Sign(word)], tail);
    AfterOne(x, [Sign(word)]);
    TablesAgree(word, Sign(word));
    SymbolWritten(x, Sign(word));
    SpacesKeep(Written(x), tail);
  }

  lemma ShortSettled(out: Source, word: Source, spaces: nat, rest: seq<Item>)
    requires IsKeyword(word) && ValidItems(rest) && Settled(out + ItemsText(Shortened(word, spaces)), rest)
    ensures ValidItems(Shortened(word, spaces) + rest) && Settled(out, Shortened(word, spaces) + rest)
  {
    hide ValidItem, Compacts, IsKeyword, ValidItems, Settled;
    var sign := Mark(Sign(word));
    ShortText(word, spaces);
    if spaces > 0 {
      var tail := [Mark(' ')] + rest;
      SpaceValid(ItemsText(rest));
      Joined(Mark(' '), rest);
      SignPlain(word, ItemsText(tail));
      Joined(sign, tail);
      assert Shortened(word, spaces) + rest == [sign] + tail;
      assert out + [Sign(word)] + [' '] == out + ItemsText(Shortened(word, spaces));
      MarkSettled(out + [Sign(word)], ' ', rest);
      MarkSettled(out, Sign(word), tail);
    } else {
      SignPlain(word, ItemsText(rest));
      Joined(sign, rest);
      assert Shortened(word, spaces) + rest == [sign] + rest;
      assert ItemsText(Shortened(word, spaces)) == [Sign(word)];
      MarkSettled(out, Sign(word), rest);
    }
  }

  lemma SpaceValid(behind: Source)
    ensures ValidItem(Mark(' '), behind)
  {
  }

  lemma MarkSettled(out: Source, c: Ascii, rest: seq<Item>)
    requires Settled(out + [c], rest)
    ensures Settled(out, [Mark(c)] + rest)
  {
    assert ([Mark(c)] + rest)[1..] == rest;
  }

  lemma ItemSettled(out: Source, i: Item, rest: seq<Item>)
    requires Settled(out + ItemText(i), rest) && (i.Name? ==> !Compacts(out, i.word))
    ensures Settled(out, [i] + rest)
  {
    assert ([i] + rest)[1..] == rest;
  }

  lemma {:induction false} CompactedSettles(before: Source, out: Source, items: seq<Item>)
    requires ValidItems(items) && After(AT_START, before) == After(AT_START, out)
    ensures ValidItems(CompactedItems(before, items)) && Settled(out, CompactedItems(before, items))
    decreases |items|
  {
    hide After, ItemText, ValidItem, Compacts, Converts, ValidItems, Settled, ItemsText, Shortened, IsKeyword, IsWord;
    if items == [] {
      NothingSettled(out);
    } else {
      ItemsUnfold(items);
      var i, rest := items[0], items[1..];
      if i.Name? && Compacts(before, i.word) {
        var k := LeadingSpaces(rest);
        var before' := before + ItemsText(items[..1 + k]);
        CompactsIs(before, i.word);
        var sign := ItemsText(Shortened(i.word, k));
        KeywordAndSpaces(items);
        KeywordIsName(i.word);
        SpacesSeen(rest);
        var spaces := ItemsText(items[1..1 + k]);
        assert rest[..k] == items[1..1 + k];
        ShortText(i.word, k);
        SameContext(After(AT_START, before), i.word, spaces, sign);
        AfterAppend(AT_START, before, i.word + spaces);
        AfterAppend(AT_START, out, sign);
        CompactedSettles(before', out + sign, items[1 + k..]);
        ShortSettled(out, i.word, k, CompactedItems(before', items[1 + k..]));
      } else {
        if i.Name? {
          CompactsIs(before, i.word);
          CompactsIs(out, i.word);
        }
        AfterAppend(AT_START, before, ItemText(i));
        AfterAppend(AT_START, out, ItemText(i));
        var more := CompactedItems(before + ItemText(i), rest);
        CompactedSettles(before + ItemText(i), out + ItemText(i), rest);
        FirstCompacted(before + ItemText(i), rest);
        ValidAgain(i, ItemsText(rest), ItemsText(more));
        Joined(i, more);
        ItemSettled(out, i, more);
      }
    }
  }

  lemma NothingSettled(out: Source)
    ensures ValidItems([]) && Settled(out, [])
  {
  }

  lemma KeywordIsName(word: Source)
    requires IsKeyword(word)
    ensures IsWord(word)
  {
    KeywordsHaveSigns(word);
    TablesAgree(word, SymbolOf(word).value);
    KeywordIsWord(SymbolOf(word).value);
  }

  lemma {:induction false} SettledAt(before: Source, items: seq<Item>, i: nat)
    requires Settled(before, items) && i < |items| && items[i].Name?
    ensures !Compacts(before + ItemsText(items[..i]), items[i].word)
    decreases i
  {
    hide Compacts, ItemText;
    if i == 0 {
      assert before + ItemsText(items[..0]) == before;
    } else {
      SettledAt(before + ItemText(items[0]), items[1..], i - 1);
      assert items[..i][1..] == items[1..][..i - 1];
      assert before + ItemText(items[0]) + ItemsText(items[1..][..i - 1]) == before + ItemsText(items[..i]);
    }
  }

  // However compacted text is read as items: no keyword is left at the start of a line, and none of
  // six inside a block, outside strings and comments.
  lemma NoKeywordLeft(s: Source, items: seq<Item>, i: nat)
    requires ValidItems(items) && ItemsText(items) == CompactSource(s) && i < |items| && items[i].Name?
    ensures var before, word := ItemsText(items[..i]), items[i].word;
            && (AtLineStart(before) ==>
                  word !in ["route", "type", "let", "return", "middleware", "use", "expects", "validate", "handle", "cron",
                            "command", "queue", "func"])
            && (Opened(before) > 0 ==>
                  word !in ["let", "return", "middleware", "use", "expects", "validate"])
  {
    hide CompactSource, CompactedItems, After, AtLineStart;
    ReadAsCompacted(s, items);
    SettledAt([], items, i);
    assert [] + ItemsText(items[..i]) == ItemsText(items[..i]);
  }

  lemma ReadAsCompacted(s: Source, items: seq<Item>)
    requires ValidItems(items) && ItemsText(items) == CompactSource(s)
    ensures items == CompactedItems([], ItemsOf(s)) && Settled([], items)
  {
    hide *;
    Compacted(s);
    ItemsRead(s);
    CompactedSettles([], [], ItemsOf(s));
    ItemsBack(items);
    ItemsBack(CompactedItems([], ItemsOf(s)));
  }

  lemma {:induction false} SettledStays(before: Source, items: seq<Item>)
    requires Settled(before, items)
    ensures CompactedItems(before, items) == items
    decreases |items|
  {
    hide Compacts;
    if items != [] {
      SettledStays(before + ItemText(items[0]), items[1..]);
    }
  }

  // So compacting twice is compacting once.
  lemma CompactedOnce(s: Source)
    ensures CompactSource(CompactSource(s)) == CompactSource(s)
  {
    hide *;
    var t := CompactSource(s);
    ItemsRead(t);
    ReadAsCompacted(s, ItemsOf(t));
    SettledStays([], ItemsOf(t));
    Compacted(t);
  }

  // ---- expanding ----

  predicate IsSign(c: Ascii) {
    c in "@:$>+%<?~*!&="
  }

  lemma SignsHaveKeywords(c: Ascii)
    ensures IsSign(c) <==> KeywordOf(c).Some?
  {
  }

  ghost function Keyword(sign: Ascii): (word: Source)
    requires IsSign(sign)
    ensures Means(word, sign) && KeywordOf(sign) == Some(word)
  {
    SignsHaveKeywords(sign);
    TablesAgree(KeywordOf(sign).value, sign);
    var word :| Means(word, sign);
    TablesAgree(word, sign);
    word
  }

  // Each symbol at the start of a line becomes its keyword; a space keeps it from what follows, unless
  // that is a blank or a brace.
  ghost function ExpandedItems(before: Source, items: seq<Item>): seq<Item>
    decreases |items|
  {
    if items == [] then []
    else if items[0].Mark? && IsSign(items[0].c) && AtLineStart(before) then
      var behind := ItemsText(items[1..]);
      [Name(Keyword(items[0].c))]
      + (if behind != [] && !IsBlank(behind[0]) && behind[0] != '{' then [Mark(' ')] else [])
      + ExpandedItems(before + [items[0].c], items[1..])
    else [items[0]] + ExpandedItems(before + ItemText(items[0]), items[1..])
  }

  // One item that stays.
  lemma KeptItem(x: Context, i: Item, behind: Source)
    requires ValidItem(i, behind) && (i.Mark? ==> !Expands(x, i.c))
    ensures ExpandRest(x, ItemText(i) + behind) == ItemText(i) + ExpandRest(After(x, ItemText(i)), behind)
  {
    hide After, Step, SkippedLength, QuoteTail, ValidItem, Expands, WordLength;
    var text := ItemText(i);
    var r := text + behind;
    KindSeen(i, behind);
    assert r[..|text|] == text && r[|text|..] == behind;
    if i.Name? {
      WordCopied(x, r);
    } else if i.Mark? {
      AfterOne(x, text);
    }
  }

  lemma ExpandedMark(x: Context, c: Ascii, behind: Source)
    requires ValidItem(Mark(c), behind) && Expands(x, c)
    ensures ExpandRest(x, [c] + behind) ==
              KeywordOf(c).value + ((if NeedsSpace(behind) then " " else "") + ExpandRest(After(x, [c]), behind))
  {
    hide After, Step, SkippedLength, Expands, KeywordOf, ExpandRest;
    var r := [c] + behind;
    KindSeen(Mark(c), behind);
    assert r[1..] == behind;
    AfterOne(x, [c]);
    ExpandSymbol(x, r);
  }

  lemma ExpandsIs(before: Source, c: Ascii)
    ensures Expands(After(AT_START, before), c) <==> IsSign(c) && AtLineStart(before)
  {
    hide After;
    LineStartSeen(before);
    SignsHaveKeywords(c);
  }

  lemma {:induction false} ExpandedRest(before: Source, items: seq<Item>)
    requires ValidItems(items)
    ensures ExpandRest(After(AT_START, before), ItemsText(items)) == ItemsText(ExpandedItems(before, items))
    decreases |items|
  {
    hide ExpandRest, After, ItemText, ValidItem, Expands, ValidItems, ItemsText, AtLineStart, IsSign, IsBlank, KeywordOf;
    var x := After(AT_START, before);
    if items == [] {
      NothingExpanded(x);
    } else {
      ItemsUnfold(items);
      var i, behind := items[0], ItemsText(items[1..]);
      if i.Mark? {
        ExpandsIs(before, i.c);
      }
      AfterAppend(AT_START, before, ItemText(i));
      ExpandedRest(before + ItemText(i), items[1..]);
      if i.Mark? && IsSign(i.c) && AtLineStart(before) {
        MarkText(i.c);
        ExpandedMark(x, i.c, behind);
        BlankSeen(behind);
        KeywordText(Keyword(i.c), NeedsSpace(behind), ExpandedItems(before + [i.c], items[1..]));
      } else {
        KeptItem(x, i, behind);
        Joined(i, ExpandedItems(before + ItemText(i), items[1..]));
      }
    }
  }

  lemma NothingExpanded(x: Context)
    ensures ExpandRest(x, []) == [] && ItemsText([]) == []
  {
  }

  lemma MarkText(c: Ascii)
    ensures ItemText(Mark(c)) == [c]
  {
  }

  lemma BlankSeen(behind: Source)
    ensures NeedsSpace(behind) <==> behind != [] && !IsBlank(behind[0]) && behind[0] != '{'
  {
  }

  lemma KeywordText(word: Source, space: bool, rest: seq<Item>)
    ensures ItemsText([Name(word)] + (if space then [Mark(' ')] else []) + rest) ==
              word + ((if space then " " else "") + ItemsText(rest))
  {
    hide ItemsText;
    var tail := (if space then [Mark(' ')] else []) + rest;
    assert [Name(word)] + (if space then [Mark(' ')] else []) + rest == [Name(word)] + tail;
    Joined(Name(word), tail);
    if space {
      Joined(Mark(' '), rest);
    } else {
      assert tail == rest;
      assert "" + ItemsText(rest) == ItemsText(rest);
    }
  }

  // Expanding turns a file into the text of its expanded items.
  lemma Expanded(s: Source)
    ensures ExpandSource(s) == ItemsText(ExpandedItems([], ItemsOf(s)))
  {
    hide ExpandRest, ItemsText, ExpandedItems;
    ItemsRead(s);
    ExpandedRest([], ItemsOf(s));
  }
}
