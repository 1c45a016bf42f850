/** A source file as comments, strings, words and single characters: every text is such a list in
  * exactly one way, and the lexer of the two transformations finds it. */
module SourceItems {
  import opened Bytes
  import opened Transformer

  datatype Piece = Bare(c: Ascii) | Escape(c: Ascii)

  // A string may run to the end of the file, a lone backslash behind it.
  datatype End = Closed | Cut | CutAtBackslash

  datatype Item =
    | Remark(slashes: bool, text: Source)
    | Quote(double: bool, pieces: seq<Piece>, end: End)
    | Name(word: Source)
    | Mark(c: Ascii)

  // ---- texts ----

  function QuoteMark(double: bool): Ascii {
    if double then '"' else '\''
  }

  function PieceText(p: Piece): Source {
    match p
    case Bare(c) => [c]
    case Escape(c) => ['\\', c]
  }

  function QuoteTail(double: bool, pieces: seq<Piece>, end: End): Source {
    if pieces == [] then
      match end
      case Closed => [QuoteMark(double)]
      case Cut => []
      case CutAtBackslash => ['\\']
    else PieceText(pieces[0]) + QuoteTail(double, pieces[1..], end)
  }

  function ItemText(i: Item): Source {
    match i
    case Remark(slashes, text) => (if slashes then "//" else "#") + text
    case Quote(double, pieces, end) => [QuoteMark(double)] + QuoteTail(double, pieces, end)
    case Name(word) => word
    case Mark(c) => [c]
  }

  function ItemsText(items: seq<Item>): Source {
    if items == [] then [] else ItemText(items[0]) + ItemsText(items[1..])
  }

  // ---- what is written ----

  predicate Letter(c: Ascii) {
    'a' <= c <= 'z' || 'A' <= c <= 'Z'
  }

  predicate InWord(c: Ascii) {
    Letter(c) || '0' <= c <= '9' || c == '_'
  }

  predicate ValidPieces(double: bool, pieces: seq<Piece>) {
    forall p | p in pieces :: p.Bare? ==> p.c != QuoteMark(double) && p.c != '\\'
  }

  // In front of this text the item ends where it does.
  predicate ValidItem(i: Item, behind: Source) {
    match i
    case Remark(_, text) => '\n' !in text && (behind == [] || behind[0] == '\n')
    case Quote(double, pieces, end) => ValidPieces(double, pieces) && (end.Closed? || behind == [])
    case Name(word) =>
      word != [] && Letter(word[0]) && (forall c | c in word :: InWord(c)) && (behind == [] || !InWord(behind[0]))
    case Mark(c) =>
      !Letter(c) && c != '"' && c != '\'' && c != '#' && (c == '/' ==> behind == [] || behind[0] != '/')
  }

  predicate ValidItems(items: seq<Item>) {
    items == [] || (ValidItem(items[0], ItemsText(items[1..])) && ValidItems(items[1..]))
  }

  // ---- the lexer of the transformations ----

  // How much of a text the transformations take at once.
  function ItemLength(r: Source): (n: nat)
    requires r != []
    ensures 0 < n <= |r|
  {
    if SkippedLength(r) > 0 then SkippedLength(r) else if IsLetter(r[0]) then WordLength(r) else 1
  }

  // The inside of a string, from behind its first quote.
  function Inner(r: Source, double: bool): (seq<Piece>, End)
    decreases |r|
  {
    if r == [] then ([], Cut)
    else if r[0] == QuoteMark(double) then ([], Closed)
    else if r[0] == '\\' && |r| == 1 then ([], CutAtBackslash)
    else
      var n := if r[0] == '\\' then 2 else 1;
      var (pieces, end) := Inner(r[n..], double);
      ([if n == 2 then Escape(r[1]) else Bare(r[0])] + pieces, end)
  }

  function FirstItem(r: Source): Item
    requires r != []
  {
    var n := ItemLength(r);
    if IsComment(r) then
      assert r[0] == '/' ==> LineLength(r) == 1 + LineLength(r[1..]) >= 2;
      if r[0] == '#' then Remark(false, r[1..n]) else Remark(true, r[2..n])
    else if r[0] == '"' || r[0] == '\'' then
      var (pieces, end) := Inner(r[1..], r[0] == '"');
      Quote(r[0] == '"', pieces, end)
    else if IsLetter(r[0]) then Name(r[..n])
    else Mark(r[0])
  }

  function ItemsOf(r: Source): seq<Item>
    decreases |r|
  {
    if r == [] then [] else [FirstItem(r)] + ItemsOf(r[ItemLength(r)..])
  }

  // ---- every text is such a list, in one way ----

  lemma {:induction false} LineRead(r: Source)
    ensures var n := LineLength(r); '\n' !in r[..n] && (r[n..] == [] || r[n..][0] == '\n')
    decreases |r|
  {
    if r != [] && r[0] != '\n' {
      LineRead(r[1..]);
      var n := LineLength(r);
      assert r[n..] == r[1..][n - 1..];
      assert r[..n] == [r[0]] + r[1..][..n - 1];
    }
  }

  lemma {:induction false} WordRead(r: Source)
    ensures var n := WordLength(r);
            (forall c | c in r[..n] :: InWord(c)) && (r[n..] == [] || !InWord(r[n..][0]))
    decreases |r|
  {
    if r != [] && IsWordChar(r[0]) {
      WordRead(r[1..]);
      var n := WordLength(r);
      assert r[n..] == r[1..][n - 1..];
      assert r[..n] == [r[0]] + r[1..][..n - 1];
    }
  }

  lemma {:induction false} InnerRead(r: Source, double: bool)
    ensures var (pieces, end) := Inner(r, double);
            var n := QuotedLength(r, QuoteMark(double));
            && r == QuoteTail(double, pieces, end) + r[n..] && |QuoteTail(double, pieces, end)| == n
            && ValidPieces(double, pieces) && (end.Closed? || r[n..] == [])
    decreases |r|
  {
    if r != [] && r[0] != QuoteMark(double) && !(r[0] == '\\' && |r| == 1) {
      hide Inner, QuotedLength, QuoteTail, ValidPieces, PieceText;
      var k := InnerUnfolds(r, double);
      InnerRead(r[k..], double);
      var (pieces, end) := Inner(r[k..], double);
      TailUnfolds(double, if k == 2 then Escape(r[1]) else Bare(r[0]), pieces, end);
      PieceInFront(r, k, QuoteTail(double, pieces, end), QuotedLength(r, QuoteMark(double)));
    }
  }

  lemma InnerUnfolds(r: Source, double: bool) returns (k: nat)
    requires r != [] && r[0] != QuoteMark(double) && !(r[0] == '\\' && |r| == 1)
    ensures k == (if r[0] == '\\' then 2 else 1) && k <= |r|
    ensures QuotedLength(r, QuoteMark(double)) == k + QuotedLength(r[k..], QuoteMark(double))
    ensures var (pieces, end) := Inner(r[k..], double);
            var first := if k == 2 then Escape(r[1]) else Bare(r[0]);
            && Inner(r, double) == ([first] + pieces, end) && PieceText(first) == r[..k]
            && (ValidPieces(double, pieces) ==> ValidPieces(double, [first] + pieces))
  {
    k := if r[0] == '\\' then 2 else 1;
  }

  lemma PieceInFront(r: Source, k: nat, tail: Source, n: nat)
    requires k <= n <= |r| && r[k..] == tail + r[k..][n - k..]
    ensures r == r[..k] + tail + r[n..] && r[k..][n - k..] == r[n..]
  {
    assert r[k..][n - k..] == r[n..];
    assert r == r[..k] + (tail + r[n..]);
  }

  lemma TailUnfolds(double: bool, first: Piece, pieces: seq<Piece>, end: End)
    ensures QuoteTail(double, [first] + pieces, end) == PieceText(first) + QuoteTail(double, pieces, end)
  {
    assert ([first] + pieces)[1..] == pieces;
  }

  lemma FirstRead(r: Source)
    requires r != []
    ensures var n := ItemLength(r); ItemText(FirstItem(r)) == r[..n] && ValidItem(FirstItem(r), r[n..])
  {
    var n := ItemLength(r);
    if IsComment(r) {
      RemarkRead(r);
    } else if r[0] == '"' || r[0] == '\'' {
      QuoteRead(r);
    } else if IsLetter(r[0]) {
      WordRead(r);
      assert r[..n][0] == r[0];
    }
  }

  lemma RemarkRead(r: Source)
    requires IsComment(r)
    ensures var n := ItemLength(r); ItemText(FirstItem(r)) == r[..n] && ValidItem(FirstItem(r), r[n..])
  {
    var n := ItemLength(r);
    LineRead(r);
    assert n == LineLength(r);
    if r[0] == '#' {
      assert "#" + r[1..n] == r[..n];
      assert forall c | c in r[1..n] :: c in r[..n];
    } else {
      assert "//" + r[2..n] == r[..n];
      assert forall c | c in r[2..n] :: c in r[..n];
    }
  }

  lemma QuoteRead(r: Source)
    requires r != [] && !IsComment(r) && (r[0] == '"' || r[0] == '\'')
    ensures var n := ItemLength(r); ItemText(FirstItem(r)) == r[..n] && ValidItem(FirstItem(r), r[n..])
  {
    hide QuotedLength, Inner, QuoteTail;
    var n := ItemLength(r);
    var double := r[0] == '"';
    InnerRead(r[1..], double);
    var (pieces, end) := Inner(r[1..], double);
    var tail := QuoteTail(double, pieces, end);
    assert r[1..][n - 1..] == r[n..];
    assert r == [r[0]] + r[1..];
    assert r[..n] == [r[0]] + tail;
  }

  lemma Joined(i: Item, rest: seq<Item>)
    ensures ItemsText([i] + rest) == ItemText(i) + ItemsText(rest)
    ensures ValidItems([i] + rest) <==> ValidItem(i, ItemsText(rest)) && ValidItems(rest)
  {
    assert ([i] + rest)[1..] == rest;
  }

  // Every text is the text of its items.
  lemma {:induction false} ItemsRead(r: Source)
    ensures ItemsText(ItemsOf(r)) == r && ValidItems(ItemsOf(r))
    decreases |r|
  {
    hide ItemLength, FirstItem, ItemText, ValidItem, ItemsText, ValidItems;
    if r == [] {
      NoItems();
    } else {
      var n := ItemLength(r);
      FirstRead(r);
      ItemsRead(r[n..]);
      Joined(FirstItem(r), ItemsOf(r[n..]));
      assert r == r[..n] + r[n..];
    }
  }

  lemma NoItems()
    ensures ItemsText([]) == [] && ValidItems([])
  {
  }

  lemma {:induction false} LineBack(text: Source, behind: Source)
    requires '\n' !in text && (behind == [] || behind[0] == '\n')
    ensures LineLength(text + behind) == |text|
    decreases |text|
  {
    if text == [] {
      assert text + behind == behind;
    } else {
      assert text[0] in text && (text + behind)[1..] == text[1..] + behind;
      LineBack(text[1..], behind);
    }
  }

  lemma {:induction false} WordBack(word: Source, behind: Source)
    requires (forall c | c in word :: InWord(c)) && (behind == [] || !InWord(behind[0]))
    ensures WordLength(word + behind) == |word|
    decreases |word|
  {
    if word == [] {
      assert word + behind == behind;
    } else {
      assert word[0] in word && (word + behind)[1..] == word[1..] + behind;
      WordBack(word[1..], behind);
    }
  }

  lemma {:induction false} InnerBack(double: bool, pieces: seq<Piece>, end: End, behind: Source)
    requires ValidPieces(double, pieces)
    requires end.Closed? || behind == []
    ensures var r := QuoteTail(double, pieces, end) + behind;
            Inner(r, double) == (pieces, end) && QuotedLength(r, QuoteMark(double)) == |QuoteTail(double, pieces, end)|
    decreases |pieces|
  {
    var r := QuoteTail(double, pieces, end) + behind;
    if pieces == [] {
      if end.CutAtBackslash? {
        assert r[1..] == [];
      }
    } else {
      var rest := QuoteTail(double, pieces[1..], end) + behind;
      assert pieces[0] in pieces;
      InnerBack(double, pieces[1..], end, behind);
      assert [pieces[0]] + pieces[1..] == pieces;
      assert r == PieceText(pieces[0]) + rest;
      if pieces[0].Escape? {
        assert r[0] == '\\' && r[1] == pieces[0].c && r[2..] == rest;
      } else {
        assert r[0] == pieces[0].c && r[1..] == rest;
      }
    }
  }

  lemma RemarkBack(slashes: bool, text: Source, behind: Source)
    requires ValidItem(Remark(slashes, text), behind)
    ensures var i := Remark(slashes, text);
            var r := ItemText(i) + behind;
            ItemLength(r) == |ItemText(i)| && FirstItem(r) == i
  {
    var i := Remark(slashes, text);
    var r := ItemText(i) + behind;
    LineBack(text, behind);
    if slashes {
      assert r[0] == '/' && r[1] == '/' && r[1..][1..] == text + behind;
      assert LineLength(r) == 1 + LineLength(r[1..]) == 2 + LineLength(text + behind);
      assert r[2..2 + |text|] == text;
    } else {
      assert r[0] == '#' && r[1..] == text + behind;
      assert r[1..1 + |text|] == text;
    }
  }

  lemma QuoteBack(double: bool, pieces: seq<Piece>, end: End, behind: Source)
    requires ValidItem(Quote(double, pieces, end), behind)
    ensures var i := Quote(double, pieces, end);
            var r := ItemText(i) + behind;
            ItemLength(r) == |ItemText(i)| && FirstItem(r) == i
  {
    hide QuotedLength, Inner, QuoteTail, LineLength, WordLength, ValidPieces;
    var tail := QuoteTail(double, pieces, end);
    var r := ItemText(Quote(double, pieces, end)) + behind;
    assert r[0] == QuoteMark(double) && r[1..] == tail + behind;
    InnerBack(double, pieces, end, behind);
  }

  lemma NameBack(word: Source, behind: Source)
    requires ValidItem(Name(word), behind)
    ensures var r := word + behind;
            r != [] && ItemLength(r) == |word| && FirstItem(r) == Name(word)
  {
    hide QuotedLength, Inner, LineLength, WordLength;
    var r := word + behind;
    WordBack(word, behind);
    assert r[0] == word[0] && r[..|word|] == word;
  }

  lemma MarkBack(c: Ascii, behind: Source)
    requires ValidItem(Mark(c), behind)
    ensures var r := [c] + behind;
            ItemLength(r) == 1 && FirstItem(r) == Mark(c)
  {
    hide QuotedLength, Inner, LineLength, WordLength;
    var r := [c] + behind;
    assert r[1..] == behind && (|r| > 1 ==> r[1] == behind[0]);
  }

  lemma FirstBack(i: Item, behind: Source)
    requires ValidItem(i, behind)
    ensures var r := ItemText(i) + behind;
            r != [] && ItemLength(r) == |ItemText(i)| && FirstItem(r) == i
  {
    hide ItemLength, FirstItem;
    match i
    case Remark(slashes, text) => RemarkBack(slashes, text, behind);
    case Quote(double, pieces, end) => QuoteBack(double, pieces, end, behind);
    case Name(word) => NameBack(word, behind);
    case Mark(c) => MarkBack(c, behind);
  }

  // And valid items are those of their text: no text has two such lists.
  lemma {:induction false} ItemsBack(items: seq<Item>)
    requires ValidItems(items)
    ensures ItemsOf(ItemsText(items)) == items
    decreases |items|
  {
    if items != [] {
      hide ItemLength, FirstItem, ItemText, ValidItem;
      var behind := ItemsText(items[1..]);
      FirstBack(items[0], behind);
      ItemsBack(items[1..]);
      var r := ItemText(items[0]) + behind;
      assert r[|ItemText(items[0])|..] == behind;
    }
  }
}
