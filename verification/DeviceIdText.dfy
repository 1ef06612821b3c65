/** Reading a device id as people paste it: hexadecimal in many dresses, or a phrase of
    words with numbering and stray separators. */
module DeviceIdText {
  import opened Foundations
  import Material
  import opened Text

  // ---- characters ----

  predicate Separator(c: char)
  {
    White(c) || c in [',', ';', '|', '/', '\\', '+', '=']
  }

  predicate Digit(c: char)
  {
    '0' <= c <= '9'
  }

  predicate Letter(c: char)
  {
    'a' <= c <= 'z' || 'A' <= c <= 'Z'
  }

  predicate IsHex(c: char)
  {
    Text.HexValue(c).Some?
  }

  function HexOnly(s: string): (h: string)
    ensures forall c :: c in h ==> IsHex(c)
  {
    if s == [] then [] else (if IsHex(s[0]) then [s[0]] else []) + HexOnly(s[1..])
  }

  // ---- tokens ----

  /** Separators all made alike, so that one split finds every piece. */
  function Blank(s: string): (r: string)
    ensures |r| == |s|
  {
    seq(|s|, i requires 0 <= i < |s| => if Separator(s[i]) then ' ' else s[i])
  }

  function Pieces(s: string): seq<string>
  {
    Text.Split(Blank(s), ' ')
  }

  function TrimDigits(s: string): string
  {
    if s != [] && Digit(s[0]) then TrimDigits(s[1..]) else s
  }

  function TrimMarks(s: string): string
  {
    if s != [] && s[0] in [')', '.', ':', '-'] then TrimMarks(s[1..]) else s
  }

  predicate Index(s: string)
  {
    forall c :: c in s ==> Digit(c) || c == '.' || c == ')'
  }

  predicate Letters(s: string)
  {
    forall c :: c in s ==> Letter(c)
  }

  /** The word of one piece, if it holds one: list markers at the front are dropped, and
      what is left must be letters only. */
  function WordOf(piece: string): Option<string>
  {
    var t := Trim(piece);
    if t == [] || Index(t) then None
    else
      var w := Trim(TrimMarks(TrimDigits(t)));
      if w == [] || !Letters(w) then None else Some(Lower(w))
  }

  function WordsOf(pieces: seq<string>): seq<string>
  {
    if pieces == [] then []
    else
      WordsOf(pieces[..|pieces| - 1]) +
      match WordOf(pieces[|pieces| - 1]) case Some(w) => [w] case None => []
  }

  // ---- normalising ----

  const URI_PREFIX := "mymesh:v1:join:"

  predicate InQuotes(s: string)
  {
    s != [] && s[0] == s[|s| - 1] && s[0] in ['"', '\'']
  }

  /** Without outer space, quotes and URI prefix. There is no result for a single quote
      character: the slice between the quotes is out of range and the program panics. */
  function Unquoted(input: string): Option<string>
  {
    var s := Trim(input);
    if !InQuotes(s) then Some(s)
    else if |s| == 1 then None
    else Some(Trim(s[1..|s| - 1]))
  }

  function WithoutPrefix(s: string): string
  {
    if URI_PREFIX <= s then s[|URI_PREFIX|..] else s
  }

  predicate HexForm(s: string)
  {
    "0x" <= s || "0X" <= s
  }

  function NormalForm(s: string): string
  {
    if |HexOnly(s)| == 64 then HexOnly(s)
    else if HexForm(s) && |HexOnly(s[2..])| == 64 then HexOnly(s[2..])
    else Text.JoinWith(WordsOf(Pieces(s)), " ")
  }

  function Normalized(input: string): Option<string>
  {
    match Unquoted(input) case None => None case Some(s) => Some(NormalForm(WithoutPrefix(s)))
  }

  method NormalizeDeviceIdInput(input: string) returns (r: Option<string>)
    ensures r == Normalized(input)
  {
    hide TrimStart, TrimEnd, TrimMarks, TrimDigits, HexOnly, Pieces, Letters, Index, Lower;
    var s := Trim(input);
    if InQuotes(s) {
      if |s| < 2 {
        return None;
      }
      s := Trim(s[1..|s| - 1]);
    }
    if URI_PREFIX <= s {
      s := s[|URI_PREFIX|..];
    }
    var hex := HexOnly(s);
    if |hex| == 64 {
      return Some(hex);
    }
    if HexForm(s) {
      var h := HexOnly(s[2..]);
      if |h| == 64 {
        return Some(h);
      }
    }
    var words: seq<string> := [];
    var pieces := Pieces(s);
    for i := 0 to |pieces|
      invariant words == WordsOf(pieces[..i])
    {
      assert pieces[..i + 1][..i] == pieces[..i];
      var t := Trim(pieces[i]);
      if t == [] {
        continue;
      }
      if Index(t) {
        continue;
      }
      t := Trim(TrimMarks(TrimDigits(t)));
      if t == [] {
        continue;
      }
      if Letters(t) {
        words := words + [Lower(t)];
      }
    }
    assert pieces[..|pieces|] == pieces;
    return Some(Text.JoinWith(words, " "));
  }

  // ---- parsing ----

  datatype Failure = Panicked | Empty | InvalidPhrase | WrongLength | PartialHex | Unrecognised

  /** The phrase book (BIP39): the bytes a phrase of at least 12 words stands for. */
  type PhraseBook = string -> Option<Bytes>

  function DecodeHex(h: string): Bytes
    requires |h| % 2 == 0 && forall c :: c in h ==> IsHex(c)
  {
    if h == [] then []
    else
      assert IsHex(h[0]) && IsHex(h[1]);
      [16 * Text.HexValue(h[0]).value + Text.HexValue(h[1]).value] + DecodeHex(h[2..])
  }

  lemma {:induction false} DecodedLength(h: string)
    requires |h| % 2 == 0 && forall c :: c in h ==> IsHex(c)
    ensures |DecodeHex(h)| == |h| / 2
  {
    if h != [] { DecodedLength(h[2..]); }
  }

  function NonEmpty(pieces: seq<string>): seq<string>
  {
    if pieces == [] then [] else (if pieces[0] == [] then [] else [pieces[0]]) + NonEmpty(pieces[1..])
  }

  function Tokens(s: string): seq<string>
  {
    NonEmpty(Pieces(s))
  }

  predicate AllHex(s: string)
  {
    forall c :: c in s ==> IsHex(c)
  }

  function Parse(input: string, book: PhraseBook): Result<DeviceId, Failure>
  {
    var n := Normalized(input);
    if n.None? then Err(Panicked)
    else
      var s := n.value;
      if s == [] then Err(Empty)
      else if |s| == 64 && AllHex(s) then
        DecodedLength(s);
        Ok(DeviceId(DecodeHex(s)))
      else if |Tokens(s)| >= 12 then
        match book(s)
        case None => Err(InvalidPhrase)
        case Some(bytes) => if |bytes| != 32 then Err(WrongLength) else Ok(DeviceId(bytes))
      else if |s| >= 8 && AllHex(s) then Err(PartialHex)
      else Err(Unrecognised)
  }

  /** The one input, up to outer space, that panics is a lone quote character. */
  lemma PanicsIffLoneQuote(input: string, book: PhraseBook)
    ensures Parse(input, book) == Err(Panicked) <==> Trim(input) == "\"" || Trim(input) == "'"
  {
    hide Trim, NormalForm, Tokens, DecodeHex, AllHex, WithoutPrefix;
    var s := Trim(input);
    if |s| == 1 { assert s == [s[0]]; }
  }

  // ---- hexadecimal forms ----

  lemma {:induction false} HexAppend(a: string, b: string)
    ensures HexOnly(a + b) == HexOnly(a) + HexOnly(b)
  {
    if a == [] {
      assert a + b == b;
    } else {
      assert (a + b)[1..] == a[1..] + b;
      HexAppend(a[1..], b);
    }
  }

  lemma {:induction false} HexOfPlain(h: string)
    requires AllHex(h)
    ensures HexOnly(h) == h
  {
    if h != [] {
      assert h[0] in h;
      HexOfPlain(h[1..]);
    }
  }

  lemma {:induction false} HexOfTrimStart(s: string)
    ensures HexOnly(TrimStart(s)) == HexOnly(s)
  {
    if s != [] && White(s[0]) { HexOfTrimStart(s[1..]); }
  }

  lemma HexOfOther(c: char)
    requires White(c) || c in ['"', '\'']
    ensures HexOnly([c]) == []
  {
    assert [c][1..] == [];
  }

  lemma {:induction false} HexOfTrimEnd(s: string)
    ensures HexOnly(TrimEnd(s)) == HexOnly(s)
  {
    if s != [] && White(s[|s| - 1]) {
      hide HexOnly, White;
      var init, c := s[..|s| - 1], s[|s| - 1];
      HexOfTrimEnd(init);
      HexAppend(init, [c]);
      HexOfOther(c);
      assert s == init + [c];
      assert HexOnly(init) + [] == HexOnly(init);
    }
  }

  lemma HexOfTrim(s: string)
    ensures HexOnly(Trim(s)) == HexOnly(s)
  {
    HexOfTrimStart(s);
    HexOfTrimEnd(TrimStart(s));
  }

  /** Outer space and quotes hold no digits. */
  lemma HexOfUnquoted(input: string)
    requires Unquoted(input).Some?
    ensures HexOnly(Unquoted(input).value) == HexOnly(input)
  {
    hide HexOnly, Trim;
    var s := Trim(input);
    HexOfTrim(input);
    if InQuotes(s) {
      HexOfTrim(s[1..|s| - 1]);
      HexInQuotes(s);
    }
  }

  lemma HexInQuotes(s: string)
    requires InQuotes(s) && |s| >= 2
    ensures HexOnly(s[1..|s| - 1]) == HexOnly(s)
  {
    hide HexOnly;
    assert s == [s[0]] + s[1..|s| - 1] + [s[0]];
    HexBetween(s[0], s[1..|s| - 1]);
  }

  lemma HexBetween(q: char, inner: string)
    requires q in ['"', '\'']
    ensures HexOnly([q] + inner + [q]) == HexOnly(inner)
  {
    hide HexOnly;
    HexAppend([q] + inner, [q]);
    HexAppend([q], inner);
    HexOfOther(q);
  }

  predicate Spells(h: string, id: DeviceId)
  {
    |h| == 64 && AllHex(h) && DecodeHex(h) == id.bytes
  }

  lemma NormalHexParses(input: string, book: PhraseBook, h: string, id: DeviceId)
    requires Normalized(input) == Some(h) && Spells(h, id)
    ensures Parse(input, book) == Ok(id)
  {
  }

  /** Digits of an id in either case, with anything but digits between and around them, read
      as that id, unless the text starts like a join URI: the prefix has digits of its own. */
  lemma SeparatedHexReads(input: string, book: PhraseBook, id: DeviceId)
    requires Spells(HexOnly(input), id)
    requires Unquoted(input).Some? && !(URI_PREFIX <= Unquoted(input).value)
    ensures Parse(input, book) == Ok(id)
  {
    HexOfUnquoted(input);
    NormalHexParses(input, book, HexOnly(input), id);
  }

  /** The same after `0x` or a join URI prefix, inside quotes or not. */
  lemma DressedHexReads(input: string, book: PhraseBook, id: DeviceId, text: string)
    requires Spells(HexOnly(text), id)
    requires Unquoted(input) == Some("mymesh:v1:join:" + text) || Unquoted(input) == Some("0x" + text) || Unquoted(input) == Some("0X" + text)
    ensures Parse(input, book) == Ok(id)
  {
    var s := Unquoted(input).value;
    if s == URI_PREFIX + text {
      assert s[|URI_PREFIX|..] == text;
    } else {
      assert s[2..] == text;
      assert s[0] == '0' && !(URI_PREFIX <= s);
      var head := s[..2];
      HexAppend(head, text);
      assert head + text == s;
      assert HexOnly(head) == "0" by {
        assert head[1..][1..] == [] && HexOnly(head[1..]) == [];
      }
    }
    NormalHexParses(input, book, HexOnly(text), id);
  }

  // ---- an id printed and read back ----

  function Chars(b: Bytes): string
  {
    seq(|b|, i requires 0 <= i < |b| => b[i] as char)
  }

  function IdString(id: DeviceId): string
  {
    Chars(Material.IdText(id))
  }

  function DeviceJoinUri(id: DeviceId): string
  {
    URI_PREFIX + IdString(id)
  }

  lemma DigitReadsBack(n: int)
    requires 0 <= n < 16
    ensures Text.HexValue(Material.HexDigit(n) as char) == Some(n)
  {
  }

  lemma {:induction false} HexReadsBack(b: Bytes)
    ensures var h := Chars(Material.Hex(b));
      |h| == 2 * |b| && AllHex(h) && DecodeHex(h) == b
  {
    var h := Chars(Material.Hex(b));
    if b != [] {
      var high, low := Material.HexDigit(b[0] / 16) as char, Material.HexDigit(b[0] % 16) as char;
      DigitReadsBack(b[0] / 16);
      DigitReadsBack(b[0] % 16);
      HexReadsBack(b[1..]);
      assert h == [high, low] + Chars(Material.Hex(b[1..]));
      assert h[2..] == Chars(Material.Hex(b[1..]));
    }
  }

  lemma IdSpells(id: DeviceId)
    ensures Spells(IdString(id), id) && HexOnly(IdString(id)) == IdString(id)
  {
    HexReadsBack(id.bytes);
    HexOfPlain(IdString(id));
  }

  lemma HexIsPlain(h: string)
    requires h != [] && IsHex(h[0]) && IsHex(h[|h| - 1])
    ensures Unquoted(h) == Some(h) && Trim(h) == h
  {
    assert Text.HexValue(h[0]).Some? && Text.HexValue(h[|h| - 1]).Some?;
  }

  lemma QuotesComeOff(q: char, s: string)
    requires q in ['"', '\''] && Trim(s) == s
    ensures Unquoted([q] + s + [q]) == Some(s)
  {
    var t := [q] + s + [q];
    assert t[0] == q && t[|t| - 1] == q && !White(q);
    assert t[1..|t| - 1] == s;
  }

  /** Every printed form of an id reads back: bare, `0x`, join URI, and each in quotes. */
  lemma PrintedFormsReadBack(id: DeviceId, book: PhraseBook, q: char)
    requires q in ['"', '\'']
    ensures var h := IdString(id); forall s :: s in {h, "0x" + h, "0X" + h, DeviceJoinUri(id)} ==>
      Parse(s, book) == Ok(id) && Parse([q] + s + [q], book) == Ok(id)
  {
    var h := IdString(id);
    IdSpells(id);
    assert IsHex(h[0]) && IsHex(h[|h| - 1]) by { assert h[0] in h && h[|h| - 1] in h; }
    forall s | s in {h, "0x" + h, "0X" + h, DeviceJoinUri(id)}
      ensures Parse(s, book) == Ok(id) && Parse([q] + s + [q], book) == Ok(id)
    {
      EndsPlain(s, h);
      QuotesComeOff(q, s);
      forall t | t in {s, [q] + s + [q]} ensures Parse(t, book) == Ok(id) {
        if s == h {
          NoUri(h);
          HexOfUnquoted(t);
          SeparatedHexReads(t, book, id);
        } else {
          DressedHexReads(t, book, id, h);
        }
      }
    }
  }

  lemma NoUri(h: string)
    requires AllHex(h)
    ensures !(URI_PREFIX <= h)
  {
    assert h != [] ==> h[0] in h;
    assert !IsHex('m') && URI_PREFIX[0] == 'm';
  }

  lemma EndsPlain(s: string, h: string)
    requires h != [] && IsHex(h[0]) && IsHex(h[|h| - 1])
    requires s in {h, "0x" + h, "0X" + h, URI_PREFIX + h}
    ensures Unquoted(s) == Some(s) && Trim(s) == s
  {
    assert s[|s| - 1] == h[|h| - 1];
    assert Text.HexValue(h[0]).Some? && Text.HexValue(h[|h| - 1]).Some?;
    assert s[0] == h[0] || s[0] == '0' || s[0] == 'm';
  }

  // ---- pasted phrases ----

  lemma {:induction false} NonEmptyAppend(a: seq<string>, b: seq<string>)
    ensures NonEmpty(a + b) == NonEmpty(a) + NonEmpty(b)
  {
    if a == [] {
      assert a + b == b;
    } else {
      assert (a + b)[1..] == a[1..] + b;
      NonEmptyAppend(a[1..], b);
    }
  }

  /** A separator parts the tokens. */
  lemma TokensApart(a: string, c: char, b: string)
    requires Separator(c)
    ensures Tokens(a + [c] + b) == Tokens(a) + Tokens(b)
  {
    hide Separator;
    assert Blank(a + [c] + b) == Blank(a) + [' '] + Blank(b);
    Text.SplitAppend(Blank(a), ' ', Blank(b));
    NonEmptyAppend(Pieces(a), Pieces(b));
  }

  lemma NoTokens()
    ensures Tokens([]) == []
  {
    assert Blank([]) == [];
    var none: seq<string> := [[]];
    assert none[1..] == [];
  }

  lemma {:induction false} TokensOfTrimStart(s: string)
    ensures Tokens(TrimStart(s)) == Tokens(s)
  {
    if s != [] && White(s[0]) {
      TokensOfTrimStart(s[1..]);
      TokensApart([], s[0], s[1..]);
      NoTokens();
      assert [] + [s[0]] + s[1..] == s;
    }
  }

  lemma {:induction false} TokensOfTrimEnd(s: string)
    ensures Tokens(TrimEnd(s)) == Tokens(s)
  {
    if s != [] && White(s[|s| - 1]) {
      TokensOfTrimEnd(s[..|s| - 1]);
      TokensApart(s[..|s| - 1], s[|s| - 1], []);
      NoTokens();
      assert s[..|s| - 1] + [s[|s| - 1]] + [] == s;
    }
  }

  lemma {:induction false} WordsAppend(a: seq<string>, b: seq<string>)
    ensures WordsOf(a + b) == WordsOf(a) + WordsOf(b)
  {
    if b == [] {
      assert a + b == a;
    } else {
      assert (a + b)[..|a + b| - 1] == a + b[..|b| - 1];
      WordsAppend(a, b[..|b| - 1]);
    }
  }

  lemma WordsOfOne(piece: string)
    ensures WordsOf([piece]) == match WordOf(piece) case Some(w) => [w] case None => []
  {
    assert [piece][..0] == [];
  }

  lemma {:induction false} WordsSkipEmpty(pieces: seq<string>)
    ensures WordsOf(NonEmpty(pieces)) == WordsOf(pieces)
  {
    if pieces != [] {
      var first, rest := pieces[0], pieces[1..];
      WordsSkipEmpty(rest);
      WordsAppend([first], rest);
      WordsAppend([first], NonEmpty(rest));
      WordsOfOne(first);
      assert pieces == [first] + rest;
      assert [] + NonEmpty(rest) == NonEmpty(rest);
    }
  }

  /** One thing between separators: a bare list marker, or a word with markers stuck to it. */
  datatype Item = Marker(text: string) | Word(digits: string, marks: string, word: string)

  ghost predicate GoodItem(it: Item)
  {
    match it
    case Marker(text) => text != [] && Index(text)
    case Word(digits, marks, word) =>
      && (forall c :: c in digits ==> Digit(c))
      && (forall c :: c in marks ==> c in [')', '.', ':', '-'])
      && word != [] && Letters(word)
  }

  function ItemText(it: Item): string
  {
    match it case Marker(text) => text case Word(digits, marks, word) => digits + marks + word
  }

  function ItemWords(it: Item): seq<string>
  {
    match it case Marker(_) => [] case Word(_, _, word) => [Lower(word)]
  }

  function PasteWords(items: seq<Item>): seq<string>
  {
    if items == [] then [] else ItemWords(items[0]) + PasteWords(items[1..])
  }

  /** Items with separators between and after them. */
  function PasteText(items: seq<Item>, gaps: seq<string>): string
    requires |gaps| == |items|
  {
    if items == [] then [] else ItemText(items[0]) + gaps[0] + PasteText(items[1..], gaps[1..])
  }

  ghost predicate GoodPaste(items: seq<Item>, gaps: seq<string>)
  {
    && |gaps| == |items|
    && (forall it :: it in items ==> GoodItem(it))
    && (forall i :: 0 <= i < |gaps| ==> forall c :: c in gaps[i] ==> Separator(c))
    && (forall i :: 0 <= i < |gaps| - 1 ==> gaps[i] != [])
  }

  lemma {:induction false} TrimDigitsStops(digits: string, rest: string)
    requires (forall c :: c in digits ==> Digit(c)) && (rest != [] ==> !Digit(rest[0]))
    ensures TrimDigits(digits + rest) == rest
  {
    if digits == [] {
      assert digits + rest == rest;
    } else {
      assert (digits + rest)[1..] == digits[1..] + rest;
      assert digits[0] in digits;
      TrimDigitsStops(digits[1..], rest);
    }
  }

  lemma {:induction false} TrimMarksStops(marks: string, rest: string)
    requires (forall c :: c in marks ==> c in [')', '.', ':', '-']) && (rest != [] ==> rest[0] !in [')', '.', ':', '-'])
    ensures TrimMarks(marks + rest) == rest
  {
    if marks == [] {
      assert marks + rest == rest;
    } else {
      assert (marks + rest)[1..] == marks[1..] + rest;
      assert marks[0] in marks;
      TrimMarksStops(marks[1..], rest);
    }
  }

  lemma TightIsTrimmed(s: string)
    requires forall c :: c in s ==> !White(c)
    ensures Trim(s) == s
  {
    if s != [] { assert s[0] in s && s[|s| - 1] in s; }
  }

  /** What can stand in an item: nothing that separates, and no quotes. */
  predicate InItem(c: char)
  {
    Digit(c) || Letter(c) || c in [')', '.', ':', '-']
  }

  lemma ItemChars(c: char)
    requires InItem(c)
    ensures !Separator(c) && !White(c) && c !in ['"', '\'']
  {
  }

  lemma ItemIsTight(it: Item)
    requires GoodItem(it)
    ensures ItemText(it) != [] && forall c :: c in ItemText(it) ==> InItem(c)
  {
  }

  lemma MarkersComeOff(it: Item)
    requires GoodItem(it) && it.Word?
    ensures TrimMarks(TrimDigits(ItemText(it))) == it.word && !Index(ItemText(it))
  {
    var rest := it.marks + it.word;
    assert ItemText(it) == it.digits + rest;
    assert it.word[0] in it.word && it.word[0] in ItemText(it);
    assert it.marks != [] ==> it.marks[0] in it.marks;
    TrimDigitsStops(it.digits, rest);
    TrimMarksStops(it.marks, it.word);
  }

  /** An item gives its word or nothing. */
  lemma ItemGivesWord(it: Item)
    requires GoodItem(it)
    ensures WordsOf([ItemText(it)]) == ItemWords(it)
  {
    var t := ItemText(it);
    ItemIsTight(it);
    hide InItem, TrimMarks, TrimDigits, White, Trim;
    forall c | c in t ensures !White(c) { ItemChars(c); }
    TightIsTrimmed(t);
    WordsOfOne(t);
    if it.Word? {
      MarkersComeOff(it);
      assert forall c :: c in it.word ==> c in t;
      TightIsTrimmed(it.word);
    }
  }

  lemma OneToken(t: string)
    requires t != [] && forall c :: c in t ==> !Separator(c)
    ensures Tokens(t) == [t]
  {
    assert Blank(t) == t;
    assert ' ' !in t by { assert Separator(' '); }
    Text.SplitFree(t, ' ');
    NonEmptyAppend([], [t]);
    assert Pieces(t) == [t] && Pieces(t)[1..] == [];
  }

  lemma {:induction false} LeadingSeparators(gap: string, rest: string)
    requires forall c :: c in gap ==> Separator(c)
    ensures Tokens(gap + rest) == Tokens(rest)
  {
    hide Tokens, Separator;
    if gap == [] {
      assert gap + rest == rest;
    } else {
      assert gap[0] in gap;
      LeadingSeparators(gap[1..], rest);
      TokensApart([], gap[0], gap[1..] + rest);
      NoTokens();
      assert [] + [gap[0]] + (gap[1..] + rest) == gap + rest;
    }
  }

  lemma {:induction false} PasteGivesWords(items: seq<Item>, gaps: seq<string>)
    requires GoodPaste(items, gaps)
    ensures WordsOf(Tokens(PasteText(items, gaps))) == PasteWords(items)
  {
    hide Tokens, Separator, GoodItem, ItemText, ItemWords, WordsOf, InItem;
    if items == [] {
      NoTokens();
      NoWords();
    } else {
      var t, gap, rest := ItemText(items[0]), gaps[0], PasteText(items[1..], gaps[1..]);
      assert items[0] in items;
      PasteGivesWords(items[1..], gaps[1..]);
      ItemIsTight(items[0]);
      forall c | c in t ensures !Separator(c) { ItemChars(c); }
      OneToken(t);
      ItemGivesWord(items[0]);
      if gap == [] {
        assert rest == [] && t + gap + rest == t;
        NoTokens();
        NoWords();
        assert [t] + [] == [t];
        assert items[1..] == [];
        assert PasteWords(items) == ItemWords(items[0]) + [];
      } else {
        assert gap[0] in gap;
        assert t + gap + rest == t + [gap[0]] + (gap[1..] + rest);
        TokensApart(t, gap[0], gap[1..] + rest);
        LeadingSeparators(gap[1..], rest);
        WordsAppend([t], Tokens(rest));
      }
    }
  }

  lemma NoWords()
    ensures WordsOf([]) == []
  {
  }

  /** Pasted text: separators, then the items. */
  function Pasted(lead: string, items: seq<Item>, gaps: seq<string>): string
    requires |gaps| == |items|
  {
    lead + PasteText(items, gaps)
  }

  predicate InPaste(c: char)
  {
    InItem(c) || Separator(c)
  }

  /** Characters of a paste; and no letter is followed by a colon. */
  ghost predicate PasteLike(s: string)
  {
    && (forall i :: 0 <= i < |s| ==> InPaste(s[i]))
    && (forall i, j :: 0 <= i < j < |s| && j == i + 1 && Letter(s[i]) ==> s[j] != ':')
  }

  lemma PasteLikeAppend(a: string, b: string)
    requires PasteLike(a) && PasteLike(b) && (a != [] && Letter(a[|a| - 1]) && b != [] ==> b[0] != ':')
    ensures PasteLike(a + b)
  {
    hide InPaste, Letter;
  }

  lemma SeparatorsArePasteLike(gap: string)
    requires forall c :: c in gap ==> Separator(c)
    ensures PasteLike(gap)
  {
    forall i | 0 <= i < |gap| ensures Separator(gap[i]) { assert gap[i] in gap; }
  }

  lemma ItemIsPasteLike(it: Item)
    requires GoodItem(it)
    ensures PasteLike(ItemText(it))
  {
    ItemIsTight(it);
    var t := ItemText(it);
    forall i | 0 <= i < |t| ensures InPaste(t[i]) { assert t[i] in t; }
    match it
    case Marker(text) =>
      forall i | 0 <= i < |t| ensures t[i] != ':' { assert t[i] in text; }
    case Word(digits, marks, word) =>
      forall i | |digits| + |marks| <= i < |t| ensures t[i] != ':' {
        assert t[i] == word[i - |digits| - |marks|];
        assert Letter(t[i]);
      }
      forall i | 0 <= i < |digits| + |marks| ensures !Letter(t[i]) {
        assert if i < |digits| then t[i] in digits else t[i] in marks;
      }
  }

  lemma {:induction false} PasteIsPasteLike(items: seq<Item>, gaps: seq<string>)
    requires GoodPaste(items, gaps)
    ensures PasteLike(PasteText(items, gaps))
  {
    hide PasteLike, GoodItem, ItemText;
    if items == [] {
      SeparatorsArePasteLike([]);
    } else {
      var t, gap, rest := ItemText(items[0]), gaps[0], PasteText(items[1..], gaps[1..]);
      assert items[0] in items;
      ItemIsPasteLike(items[0]);
      SeparatorsArePasteLike(gap);
      PasteIsPasteLike(items[1..], gaps[1..]);
      assert gap != [] ==> gap[0] in gap && gap[|gap| - 1] in gap;
      PasteLikeAppend(t, gap);
      assert items[1..] == [] ==> rest == [];
      PasteLikeAppend(t + gap, rest);
    }
  }

  lemma {:induction false} TrimStartKeepsPasteLike(s: string)
    requires PasteLike(s)
    ensures PasteLike(TrimStart(s))
  {
    if s != [] && White(s[0]) {
      forall i, j | 0 <= i < j < |s[1..]| && j == i + 1 && Letter(s[1..][i]) ensures s[1..][j] != ':' {
        assert s[1..][i] == s[i + 1] && s[1..][j] == s[j + 1];
      }
      TrimStartKeepsPasteLike(s[1..]);
    }
  }

  lemma {:induction false} TrimEndKeepsPasteLike(s: string)
    requires PasteLike(s)
    ensures PasteLike(TrimEnd(s))
  {
    if s != [] && White(s[|s| - 1]) {
      TrimEndKeepsPasteLike(s[..|s| - 1]);
    }
  }

  lemma PasteIsBare(s: string)
    requires PasteLike(s)
    ensures !InQuotes(s) && !(URI_PREFIX <= s)
  {
    if s != [] { assert InPaste(s[0]); }
    if |s| > 6 {
      assert URI_PREFIX[5] == 'h' && URI_PREFIX[6] == ':';
      assert Letter(s[5]) ==> s[6] != ':';
    }
  }

  /** A paste is neither quoted nor a join URI. */
  lemma PasteUnquoted(lead: string, items: seq<Item>, gaps: seq<string>)
    requires GoodPaste(items, gaps) && forall c :: c in lead ==> Separator(c)
    ensures var s := Trim(Pasted(lead, items, gaps));
      Unquoted(Pasted(lead, items, gaps)) == Some(s) && WithoutPrefix(s) == s
  {
    hide PasteLike;
    var input := Pasted(lead, items, gaps);
    SeparatorsArePasteLike(lead);
    PasteIsPasteLike(items, gaps);
    if lead != [] {
      assert lead[|lead| - 1] in lead;
    }
    PasteLikeAppend(lead, PasteText(items, gaps));
    TrimStartKeepsPasteLike(input);
    TrimEndKeepsPasteLike(TrimStart(input));
    PasteIsBare(Trim(input));
  }

  lemma PasteWordsFound(lead: string, items: seq<Item>, gaps: seq<string>)
    requires GoodPaste(items, gaps) && forall c :: c in lead ==> Separator(c)
    ensures WordsOf(Pieces(Trim(Pasted(lead, items, gaps)))) == PasteWords(items)
  {
    hide Pieces, Separator;
    var input := Pasted(lead, items, gaps);
    WordsSkipEmpty(Pieces(Trim(input)));
    TokensOfTrimStart(input);
    TokensOfTrimEnd(TrimStart(input));
    LeadingSeparators(lead, PasteText(items, gaps));
    PasteGivesWords(items, gaps);
  }

  lemma HexOfMark(c: char)
    requires c == 'x' || c == 'X'
    ensures HexOnly(['0', c]) == "0"
  {
    assert [c][1..] == [] && HexOnly([c]) == [];
    assert ['0', c][1..] == [c] && ['0'] + [] == "0";
  }

  lemma HexOfForm(s: string)
    requires HexForm(s)
    ensures HexOnly(s) == "0" + HexOnly(s[2..])
  {
    HexOfMark(s[1]);
    hide HexOnly;
    HexAppend(['0', s[1]], s[2..]);
    assert s == ['0', s[1]] + s[2..];
  }

  /** What a numbered, comma or newline paste of words comes to: the words, in lower case
      and one space apart, unless its letters and numbering happen to hold 64 hexadecimal
      digits (or 65, in a text that starts with `0x`), which win. */
  lemma PasteNormalizes(lead: string, items: seq<Item>, gaps: seq<string>)
    requires GoodPaste(items, gaps) && forall c :: c in lead ==> Separator(c)
    ensures var input := Pasted(lead, items, gaps); var h := HexOnly(input);
      Normalized(input) == Some(
        if |h| == 64 then h
        else if |h| == 65 && HexForm(Trim(input)) then h[1..]
        else Text.JoinWith(PasteWords(items), " "))
  {
    hide Pieces, Separator, HexForm, Trim, WithoutPrefix, Pasted;
    var input := Pasted(lead, items, gaps);
    PasteUnquoted(lead, items, gaps);
    PasteWordsFound(lead, items, gaps);
    HexOfTrim(input);
    if HexForm(Trim(input)) { HexOfForm(Trim(input)); }
  }

  predicate HexWins(input: string)
  {
    |HexOnly(input)| == 64 || (|HexOnly(input)| == 65 && HexForm(Trim(input)))
  }

  ghost predicate IsPhrase(words: seq<string>, book: PhraseBook, id: DeviceId)
  {
    && |words| >= 12
    && (forall w :: w in words ==> w != [] && Letters(w))
    && book(Text.JoinWith(words, " ")) == Some(id.bytes)
  }

  lemma {:induction false} PhraseTokens(words: seq<string>)
    requires forall w :: w in words ==> w != [] && Letters(w)
    ensures Tokens(Text.JoinWith(words, " ")) == words
  {
    hide Tokens, Separator;
    if words == [] {
      NoTokens();
    } else {
      var w := words[0];
      assert w in words;
      forall c | c in w ensures !Separator(c) { ItemChars(c); }
      OneToken(w);
      assert words == [w] + words[1..];
      if |words| > 1 {
        SpaceSeparates();
        assert forall x :: x in words[1..] ==> x in words;
        TokensApart(w, ' ', Text.JoinWith(words[1..], " "));
        PhraseTokens(words[1..]);
      }
    }
  }

  lemma SpaceSeparates()
    ensures Separator(' ')
  {
  }

  /** A paste whose words are the phrase of an id reads as that id exactly when its digits
      do not win, or spell the same id. */
  lemma PhraseReadsIff(lead: string, items: seq<Item>, gaps: seq<string>, book: PhraseBook, id: DeviceId)
    requires GoodPaste(items, gaps) && forall c :: c in lead ==> Separator(c)
    requires IsPhrase(PasteWords(items), book, id)
    ensures var input := Pasted(lead, items, gaps); var h := HexOnly(input);
      Parse(input, book) == Ok(id) <==> !HexWins(input) || Spells(if |h| == 64 then h else h[1..], id)
  {
    hide Pasted, Separator, HexForm, Trim, Normalized, Tokens;
    var input := Pasted(lead, items, gaps);
    var words := PasteWords(items);
    PasteNormalizes(lead, items, gaps);
    if HexWins(input) {
      var h := if |HexOnly(input)| == 64 then HexOnly(input) else HexOnly(input)[1..];
      assert AllHex(h);
    } else {
      PhraseTokens(words);
      PhraseIsNoHex(words);
    }
  }

  lemma {:induction false} PhraseIsNoHex(words: seq<string>)
    requires |words| >= 2
    ensures Text.JoinWith(words, " ") != [] && !AllHex(Text.JoinWith(words, " "))
  {
    var s := Text.JoinWith(words, " ");
    assert s[|words[0]|] == ' ' && s[|words[0]|] in s;
  }

  /** What reads as an id, whatever the input: a normal form of 64 hexadecimal digits, by their
      values; or one of at least 12 words that the phrase book has as 32 bytes. */
  lemma ParsesIff(input: string, book: PhraseBook, id: DeviceId)
    ensures Parse(input, book) == Ok(id) <==>
      && Normalized(input).Some?
      && var s := Normalized(input).value;
         if |s| == 64 && AllHex(s) then DecodeHex(s) == id.bytes
         else s != [] && |Tokens(s)| >= 12 && book(s) == Some(id.bytes)
  {
    hide Normalized, DecodeHex, Tokens;
  }

  /** Space, line ends, commas and the like part words; nothing in a word or its markers does. */
  lemma SeparatorsAre(c: char)
    ensures c in [' ', '\t', '\n', '\r', ',', ';', '|', '/', '\\', '+', '='] ==> Separator(c)
    ensures Letter(c) || Digit(c) || c in [')', '.', ':', '-', '"', '\''] ==> !Separator(c)
  {
  }
}
