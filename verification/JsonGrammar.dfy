/**
 The texts of RFC 8259 as syntax trees, and what they stand for: the parser reads every such
 text as its value.

 Only numbers without fraction and exponent are covered.  As in the source, a Unicode escape
 stands for its own six characters, and the key of a member is kept in escaped form.
 */
module JsonGrammar {
  import opened Common
  import opened Json

  // ----- syntax trees -----

  /** The escapes of section 7: each letter after a backslash, and the character it stands for. */
  const LETTERS := "\"\\/bfnrt"
  const NAMED := "\"\\/\U{0008}\U{000C}\n\r\t"

  type Escaped = i: nat | i < 8
  type Digit = d: nat | d < 10

  /** A character as it is, a letter after a backslash, or four hexadecimal digits. */
  datatype Glyph = Plain(c: char) | Named(i: Escaped) | Unicode(digits: string)

  datatype Tree =
    | Literal(b: Option<bool>)
    | Number(negative: bool, digits: seq<Digit>)
    | Quoted(glyphs: seq<Glyph>)
    | Array(blank: string, items: seq<Item>)
    | Object(blank: string, pairs: seq<Pair>)

  /** A value with the white space around it. */
  datatype Item = Item(lead: string, tree: Tree, trail: string)

  /** A quoted key with the white space around it, and the value after the colon. */
  datatype Pair = Pair(lead: string, key: seq<Glyph>, mid: string, item: Item)

  predicate Blank(s: string)
  {
    forall i :: 0 <= i < |s| ==> s[i] in " \t\n\r"
  }

  predicate WellFormedGlyph(g: Glyph)
  {
    match g
    case Plain(c) => c != '\"' && c != '\\'
    case Named(_) => true
    case Unicode(digits) => |digits| == 4 && forall i :: 0 <= i < 4 ==> IsHex(digits[i])
  }

  predicate WellFormedGlyphs(gs: seq<Glyph>)
  {
    forall g :: g in gs ==> WellFormedGlyph(g)
  }

  predicate WellFormed(t: Tree)
    decreases t
  {
    match t
    case Literal(_) => true
    case Number(negative, digits) => digits != [] && LONG_MIN <= Signed(negative, digits) <= LONG_MAX
    case Quoted(gs) => WellFormedGlyphs(gs)
    case Array(blank, items) => Blank(blank) && forall item :: item in items ==> WellFormedItem(item)
    case Object(blank, pairs) => Blank(blank) && forall pair :: pair in pairs ==> WellFormedPair(pair)
  }

  predicate WellFormedItem(item: Item)
    decreases item
  {
    Blank(item.lead) && WellFormed(item.tree) && Blank(item.trail)
  }

  predicate WellFormedPair(pair: Pair)
    decreases pair
  {
    Blank(pair.lead) && WellFormedGlyphs(pair.key) && Blank(pair.mid) && WellFormedItem(pair.item)
  }

  // ----- their texts -----

  function GlyphText(g: Glyph): string
  {
    match g
    case Plain(c) => [c]
    case Named(i) => ['\\', LETTERS[i]]
    case Unicode(digits) => "\\u" + digits
  }

  function GlyphsText(gs: seq<Glyph>): string
  {
    if gs == [] then "" else GlyphText(gs[0]) + GlyphsText(gs[1..])
  }

  function DigitsText(ds: seq<Digit>): (s: string)
    ensures |s| == |ds| && forall i :: 0 <= i < |ds| ==> s[i] == "0123456789"[ds[i]]
  {
    seq(|ds|, i requires 0 <= i < |ds| => "0123456789"[ds[i]])
  }

  function Text(t: Tree): string
    decreases t
  {
    match t
    case Literal(None) => "null"
    case Literal(Some(b)) => if b then "true" else "false"
    case Number(negative, digits) => (if negative then "-" else "") + DigitsText(digits)
    case Quoted(gs) => "\"" + (GlyphsText(gs) + "\"")
    case Array(blank, items) => "[" + ((if items == [] then blank else ItemsText(items)) + "]")
    case Object(blank, pairs) => "{" + ((if pairs == [] then blank else PairsText(pairs)) + "}")
  }

  function ItemText(item: Item): string
    decreases item
  {
    item.lead + (Text(item.tree) + item.trail)
  }

  function ItemsText(items: seq<Item>): string
    decreases items
  {
    if items == [] then ""
    else if |items| == 1 then ItemText(items[0])
    else ItemText(items[0]) + ("," + ItemsText(items[1..]))
  }

  function PairText(pair: Pair): string
    decreases pair
  {
    pair.lead + ("\"" + (GlyphsText(pair.key) + ("\"" + (pair.mid + (":" + ItemText(pair.item))))))
  }

  function PairsText(pairs: seq<Pair>): string
    decreases pairs
  {
    if pairs == [] then ""
    else if |pairs| == 1 then PairText(pairs[0])
    else PairText(pairs[0]) + ("," + PairsText(pairs[1..]))
  }

  // ----- their values -----

  function GlyphValue(g: Glyph): string
  {
    match g
    case Plain(c) => [c]
    case Named(i) => [NAMED[i]]
    case Unicode(digits) => "\\u" + digits
  }

  function GlyphsValue(gs: seq<Glyph>): string
  {
    if gs == [] then "" else GlyphValue(gs[0]) + GlyphsValue(gs[1..])
  }

  /** Decimal digits, the highest first. */
  function Horner(ds: seq<Digit>): nat
  {
    if ds == [] then 0 else 10 * Horner(ds[..|ds| - 1]) + ds[|ds| - 1]
  }

  function Signed(negative: bool, ds: seq<Digit>): int
  {
    if negative then -(Horner(ds) as int) else Horner(ds)
  }

  function Value(t: Tree): Json
    decreases t
  {
    match t
    case Literal(None) => Null
    case Literal(Some(b)) => Bool(b)
    case Number(negative, digits) => Int(Signed(negative, digits))
    case Quoted(gs) => Str(GlyphsValue(gs))
    case Array(_, items) => Arr(Values(items))
    case Object(_, pairs) => Obj(Fields(pairs, []))
  }

  function Values(items: seq<Item>): (vs: seq<Json>)
    decreases items
  {
    if items == [] then [] else [Value(items[0].tree)] + Values(items[1..])
  }

  /** A key is kept in escaped form. */
  function KeyOf(pair: Pair): string
  {
    Escape(GlyphsValue(pair.key))
  }

  /** The members, assigned one after the other: the last with a key counts. */
  function Fields(pairs: seq<Pair>, ms: seq<Member>): seq<Member>
    decreases pairs
  {
    if pairs == [] then ms
    else Fields(pairs[1..], Put(ms, KeyOf(pairs[0]), Value(pairs[0].item.tree)))
  }

  // ----- escapes -----

  /** After a backslash, each letter of section 7 is read as the character it stands for, `u` with
      four hexadecimal digits as these six characters, and every other character as a backslash. */
  lemma EscapeIsRead(c: char, more: string, acc: string)
    ensures forall i :: 0 <= i < |LETTERS| ==>
      ParseChars(['\\', LETTERS[i]] + more, acc) == ParseChars(more, acc + [NAMED[i]])
    ensures c !in LETTERS && c != 'u' ==> ParseChars(['\\', c] + more, acc) == ParseChars(more, acc + "\\")
    ensures c != '\"' && c != '\\' ==> ParseChars([c] + more, acc) == ParseChars(more, acc + [c])
  {
    forall i | 0 <= i < |LETTERS|
      ensures ParseChars(['\\', LETTERS[i]] + more, acc) == ParseChars(more, acc + [NAMED[i]])
    {
      LetterIsRead(i, more, acc);
    }
    if c !in LETTERS && c != 'u' {
      OtherIsRead(c, more, acc);
    }
    PlainIsRead(c, more, acc);
  }

  lemma LetterIsRead(i: Escaped, more: string, acc: string)
    ensures ParseChars(['\\', LETTERS[i]] + more, acc) == ParseChars(more, acc + [NAMED[i]])
  {
    LetterMeans(i);
    ReadEscape(LETTERS[i], more, acc);
  }

  lemma LetterMeans(i: Escaped)
    ensures LETTERS[i] != 'u' && Unescape(LETTERS[i]) == NAMED[i]
  {
  }

  lemma OtherIsRead(c: char, more: string, acc: string)
    requires c !in LETTERS && c != 'u'
    ensures ParseChars(['\\', c] + more, acc) == ParseChars(more, acc + "\\")
  {
    assert c != LETTERS[0] && c != LETTERS[2] && c != LETTERS[3] && c != LETTERS[4];
    assert c != LETTERS[5] && c != LETTERS[6] && c != LETTERS[7];
    ReadEscape(c, more, acc);
  }

  lemma PlainIsRead(c: char, more: string, acc: string)
    ensures c != '\"' && c != '\\' ==> ParseChars([c] + more, acc) == ParseChars(more, acc + [c])
  {
    assert ([c] + more)[1..] == more;
  }

  lemma ReadEscape(c: char, more: string, acc: string)
    requires c != 'u'
    ensures ParseChars(['\\', c] + more, acc) == ParseChars(more, acc + [Unescape(c)])
  {
    assert (['\\', c] + more)[2..] == more;
  }

  // ----- strings -----

  lemma UnicodeIsRead(digits: string, more: string, acc: string)
    requires |digits| == 4 && forall i :: 0 <= i < 4 ==> IsHex(digits[i])
    ensures ParseChars("\\u" + digits + more, acc) == ParseChars(more, acc + ("\\u" + digits))
  {
    var s := "\\u" + digits + more;
    assert s[..6] == "\\u" + digits && s[6..] == more;
    forall i | 2 <= i < 6 ensures IsHex(s[i]) {
      assert s[i] == digits[i - 2];
    }
  }

  lemma GlyphIsRead(g: Glyph, more: string, acc: string)
    requires WellFormedGlyph(g)
    ensures ParseChars(GlyphText(g) + more, acc) == ParseChars(more, acc + GlyphValue(g))
  {
    match g
    case Plain(c) => PlainIsRead(c, more, acc);
    case Named(i) => LetterIsRead(i, more, acc);
    case Unicode(digits) => UnicodeIsRead(digits, more, acc);
  }

  lemma {:induction false} GlyphsAreRead(gs: seq<Glyph>, more: string, acc: string)
    requires WellFormedGlyphs(gs)
    ensures ParseChars(GlyphsText(gs) + ("\"" + more), acc) == Ok(Str(acc + GlyphsValue(gs)), more)
    decreases gs
  {
    var tail := "\"" + more;
    if gs == [] {
      assert GlyphsText(gs) + tail == tail && tail[1..] == more && acc + "" == acc;
    } else {
      Regroup(GlyphText(gs[0]), GlyphsText(gs[1..]), tail);
      GlyphIsRead(gs[0], GlyphsText(gs[1..]) + tail, acc);
      GlyphsAreRead(gs[1..], more, acc + GlyphValue(gs[0]));
      Regroup(acc, GlyphValue(gs[0]), GlyphsValue(gs[1..]));
    }
  }

  lemma QuotedIsRead(gs: seq<Glyph>, more: string)
    requires WellFormedGlyphs(gs)
    ensures ParseNext("\"" + (GlyphsText(gs) + ("\"" + more))) == Ok(Str(GlyphsValue(gs)), more)
  {
    var text := "\"" + (GlyphsText(gs) + ("\"" + more));
    assert text[1..] == GlyphsText(gs) + ("\"" + more);
    GlyphsAreRead(gs, more, "");
    assert "" + GlyphsValue(gs) == GlyphsValue(gs);
  }

  // ----- literals -----

  lemma NullIsRead(more: string)
    ensures ParseNext("null" + more) == Ok(Null, more)
  {
    assert ("null" + more)[4..] == more && "null" <= "null" + more;
  }

  lemma TrueIsRead(more: string)
    ensures ParseNext("true" + more) == Ok(Bool(true), more)
  {
    assert ("true" + more)[4..] == more && "true" <= "true" + more;
  }

  lemma FalseIsRead(more: string)
    ensures ParseNext("false" + more) == Ok(Bool(false), more)
  {
    var text := "false" + more;
    assert text[5..] == more && "false" <= text;
    assert text[0] != "true"[0];
  }

  // ----- numbers -----

  lemma {:induction false} NumberSpanOf(t: string, more: string)
    requires forall i :: 0 <= i < |t| ==> IsNumberChar(t[i])
    requires !IsNumberChar(Head(more))
    ensures NumberSpan(t + more) == |t|
  {
    if t == [] {
      assert t + more == more;
    } else {
      assert (t + more)[1..] == t[1..] + more;
      NumberSpanOf(t[1..], more);
    }
  }

  lemma {:induction false} DigitSpanAll(t: string)
    requires forall i :: 0 <= i < |t| ==> IsDigit(t[i])
    ensures DigitSpan(t) == |t|
  {
    if t != [] {
      DigitSpanAll(t[1..]);
    }
  }

  lemma DigitIs(d: Digit)
    ensures var c := "0123456789"[d]; IsDigit(c) && c as int - '0' as int == d
  {
  }

  lemma {:induction false} DecimalIsHorner(ds: seq<Digit>)
    ensures forall i :: 0 <= i < |ds| ==> IsDigit(DigitsText(ds)[i])
    ensures Decimal(DigitsText(ds)) == Horner(ds)
  {
    if ds != [] {
      DecimalIsHorner(ds[..|ds| - 1]);
      DigitIs(ds[|ds| - 1]);
      assert DigitsText(ds)[..|ds| - 1] == DigitsText(ds[..|ds| - 1]);
      forall i | 0 <= i < |ds| ensures IsDigit(DigitsText(ds)[i]) {
        DigitIs(ds[i]);
      }
    }
  }

  predicate AllDigits(d: string)
  {
    d != [] && forall i :: 0 <= i < |d| ==> IsDigit(d[i])
  }

  lemma StolPlain(d: string, m: nat)
    requires AllDigits(d) && Decimal(d) == m <= LONG_MAX
    ensures Stol(d) == Some(m)
  {
    DigitSpanAll(d);
    assert d[..|d|] == d && IsDigit(d[0]);
  }

  lemma StolMinus(d: string, m: int)
    requires AllDigits(d) && Decimal(d) == m && LONG_MIN <= -m
    ensures Stol("-" + d) == Some(-m)
  {
    DigitSpanAll(d);
    assert d[..|d|] == d && ("-" + d)[1..] == d;
  }

  lemma StolSigned(negative: bool, d: string, m: int)
    requires AllDigits(d) && Decimal(d) == m && LONG_MIN <= (if negative then -m else m) <= LONG_MAX
    ensures Stol((if negative then "-" else "") + d) == Some(if negative then -m else m)
  {
    if negative {
      StolMinus(d, m);
    } else {
      StolPlain(d, m);
      assert "" + d == d;
    }
  }

  lemma StolOfDigits(negative: bool, ds: seq<Digit>)
    requires ds != [] && LONG_MIN <= Signed(negative, ds) <= LONG_MAX
    ensures Stol((if negative then "-" else "") + DigitsText(ds)) == Some(Signed(negative, ds))
  {
    DecimalIsHorner(ds);
    StolSigned(negative, DigitsText(ds), Horner(ds));
  }

  /** The text of a number is number characters, from a digit or a sign on. */
  lemma NumberChars(negative: bool, ds: seq<Digit>)
    requires ds != []
    ensures var text := Text(Number(negative, ds));
      && text != [] && (IsDigit(text[0]) || text[0] == '-')
      && forall i :: 0 <= i < |text| ==> text[i] != '.' && IsNumberChar(text[i])
  {
    var text, d := Text(Number(negative, ds)), DigitsText(ds);
    DecimalIsHorner(ds);
    forall i | 0 <= i < |text| ensures text[i] != '.' && IsNumberChar(text[i]) {
      assert text[i] == if !negative then d[i] else if i == 0 then '-' else d[i - 1];
    }
  }

  lemma NumberIsRead(negative: bool, ds: seq<Digit>, more: string)
    requires WellFormed(Number(negative, ds)) && EndsNumber(Head(more))
    ensures ParseNext(Text(Number(negative, ds)) + more) == Ok(Int(Signed(negative, ds)), more)
  {
    var text := Text(Number(negative, ds));
    NumberChars(negative, ds);
    StolOfDigits(negative, ds);
    NumberTextIsRead(text, more, Signed(negative, ds));
    NumberStart(text + more);
  }

  lemma NumberTextIsRead(text: string, more: string, n: int)
    requires EndsNumber(Head(more)) && Stol(text) == Some(n)
    requires forall i :: 0 <= i < |text| ==> text[i] != '.' && IsNumberChar(text[i])
    ensures ParseNumber(text + more) == Ok(Int(n), more)
  {
    NumberSpanOf(text, more);
    assert (text + more)[..|text|] == text && (text + more)[|text|..] == more;
  }

  /** A text that starts with a digit or a sign is read as a number. */
  lemma NumberStart(s: string)
    requires s != [] && (IsDigit(s[0]) || s[0] == '-')
    ensures ParseNext(s) == ParseNumber(s)
  {
    assert Skip(s) == s && Head(s) == s[0];
  }

  // ----- white space -----

  lemma {:induction false} SkipBlank(blank: string, more: string)
    requires Blank(blank)
    ensures Skip(blank + more) == Skip(more)
  {
    if blank == [] {
      assert blank + more == more;
    } else {
      assert (blank + more)[1..] == blank[1..] + more;
      SkipBlank(blank[1..], more);
    }
  }

  lemma {:induction false} SkipTwice(s: string)
    ensures Skip(Skip(s)) == Skip(s)
  {
    if IsSpace(Head(s)) {
      SkipTwice(s[1..]);
    }
  }

  /** Leading white space does not matter. */
  lemma ParseSkipped(s: string, t: string)
    requires Skip(s) == Skip(t)
    ensures ParseNext(s) == ParseNext(t)
  {
  }

  lemma ParseElemsSkipped(s: string, t: string, acc: seq<Json>)
    requires Skip(s) == Skip(t)
    ensures ParseElems(s, acc) == ParseElems(t, acc)
  {
    ParseSkipped(s, t);
  }

  lemma ParseMembersSkipped(s: string, t: string, acc: seq<Member>)
    requires Skip(s) == Skip(t)
    ensures ParseMembers(s, acc) == ParseMembers(t, acc)
  {
    ParseSkipped(s, t);
  }

  // ----- values -----

  /** What may follow an item: the text goes on with a comma or a closing bracket. */
  predicate Ends(tail: string)
  {
    tail != [] && tail[0] in ",]}"
  }

  /** The text after an item starts with another character, which ends the item if it is a number. */
  predicate Stops(item: Item, tail: string)
  {
    !IsSpace(Head(tail)) && (item.tree.Number? ==> EndsNumber(Head(item.trail + tail)))
  }

  lemma TrailEnds(item: Item, tail: string)
    requires Blank(item.trail) && Ends(tail)
    ensures Stops(item, tail)
  {
    if item.trail == [] {
      assert item.trail + tail == tail;
    }
  }

  lemma SkipTrail(item: Item, tail: string)
    requires Blank(item.trail) && Stops(item, tail)
    ensures Skip(item.trail + tail) == tail
  {
    SkipBlank(item.trail, tail);
  }

  /** The parser reads the text of every syntax tree as its value, and stops after it. */
  lemma {:induction false} TextIsRead(t: Tree, more: string)
    requires WellFormed(t) && (t.Number? ==> EndsNumber(Head(more)))
    ensures ParseNext(Text(t) + more) == Ok(Value(t), more)
    decreases t
  {
    match t
    case Literal(None) => NullIsRead(more);
    case Literal(Some(b)) => if b { TrueIsRead(more); } else { FalseIsRead(more); }
    case Number(negative, digits) => NumberIsRead(negative, digits, more);
    case Quoted(gs) =>
      assert Text(t) + more == "\"" + (GlyphsText(gs) + ("\"" + more));
      QuotedIsRead(gs, more);
    case Array(blank, items) => ArrayIsRead(blank, items, more);
    case Object(blank, pairs) => ObjectIsRead(blank, pairs, more);
  }

  lemma ItemAt(item: Item, tail: string)
    ensures ItemText(item) + tail == item.lead + (Text(item.tree) + (item.trail + tail))
  {
    Regroup(item.lead, Text(item.tree) + item.trail, tail);
    Regroup(Text(item.tree), item.trail, tail);
  }

  lemma {:induction false} ItemIsRead(item: Item, tail: string)
    requires WellFormedItem(item) && Stops(item, tail)
    ensures ParseNext(ItemText(item) + tail) == Ok(Value(item.tree), item.trail + tail)
    decreases item
  {
    var rest := item.trail + tail;
    TextIsRead(item.tree, rest);
    ItemAt(item, tail);
    SkipBlank(item.lead, Text(item.tree) + rest);
    ParseSkipped(ItemText(item) + tail, Text(item.tree) + rest);
  }

  // ----- arrays -----

  lemma ElemsClose(s: string, acc: seq<Json>, val: Json, rest: string, more: string)
    requires ParseNext(s) == Ok(val, rest) && Skip(rest) == "]" + more
    ensures ParseElems(s, acc) == Ok(Arr(acc + [val]), more)
  {
    assert ("]" + more)[1..] == more;
  }

  lemma ElemsComma(s: string, acc: seq<Json>, val: Json, rest: string, more: string)
    requires ParseNext(s) == Ok(val, rest) && Skip(rest) == "," + more
    ensures ParseElems(s, acc) == ParseElems(more, acc + [val])
  {
    assert ("," + more)[1..] == more;
  }

  lemma ItemsAt(items: seq<Item>, tail: string)
    requires |items| >= 2
    ensures ItemsText(items) + tail == ItemText(items[0]) + ("," + (ItemsText(items[1..]) + tail))
  {
    JoinAt(ItemText(items[0]), ItemsText(items[1..]), tail);
  }

  lemma JoinAt(first: string, rest: string, tail: string)
    ensures (first + ("," + rest)) + tail == first + ("," + (rest + tail))
  {
  }

  /** One round of the loop, up to the comma. */
  lemma {:induction false} ItemStep(items: seq<Item>, tail: string, acc: seq<Json>)
    requires |items| >= 2 && WellFormedItem(items[0])
    ensures ParseElems(ItemsText(items) + tail, acc)
         == ParseElems(ItemsText(items[1..]) + tail, acc + [Value(items[0].tree)])
    decreases items, 0
  {
    var item, rest := items[0], ItemsText(items[1..]) + tail;
    ItemsAt(items, tail);
    TrailEnds(item, "," + rest);
    ItemIsRead(item, "," + rest);
    SkipTrail(item, "," + rest);
    ElemsComma(ItemText(item) + ("," + rest), acc, Value(item.tree), item.trail + ("," + rest), rest);
  }

  lemma {:induction false} ItemsAreRead(items: seq<Item>, more: string, acc: seq<Json>)
    requires items != [] && forall item :: item in items ==> WellFormedItem(item)
    ensures ParseElems(ItemsText(items) + ("]" + more), acc) == Ok(Arr(acc + Values(items)), more)
    decreases items, 1
  {
    var item, val, tail := items[0], Value(items[0].tree), "]" + more;
    assert Values(items) == [val] + Values(items[1..]);
    if |items| == 1 {
      TrailEnds(item, tail);
      ItemIsRead(item, tail);
      SkipTrail(item, tail);
      ElemsClose(ItemText(item) + tail, acc, val, item.trail + tail, more);
      assert Values(items[1..]) == [] && [val] + [] == [val];
    } else {
      ItemStep(items, tail, acc);
      ItemsAreRead(items[1..], more, acc + [val]);
      Regroup(acc, [val], Values(items[1..]));
    }
  }

  /** A value starts with a character that is neither space nor a closing bracket. */
  lemma TextStarts(t: Tree)
    requires WellFormed(t)
    ensures Text(t) != [] && !IsSpace(Text(t)[0]) && Text(t)[0] != ']'
  {
    if t.Number? {
      NumberChars(t.negative, t.digits);
    }
  }

  lemma ItemsStart(items: seq<Item>, tail: string)
    requires items != [] && WellFormedItem(items[0])
    ensures Head(Skip(ItemsText(items) + tail)) != ']'
  {
    var tail' := if |items| == 1 then tail else "," + (ItemsText(items[1..]) + tail);
    if |items| >= 2 {
      ItemsAt(items, tail);
    }
    ItemAt(items[0], tail');
    var text := Text(items[0].tree) + (items[0].trail + tail');
    SkipBlank(items[0].lead, text);
    TextStarts(items[0].tree);
    assert Skip(text) == text;
  }

  lemma ArrayOpens(body: string)
    ensures var u := Skip(body);
      ParseNext("[" + body) == if Head(u) == ']' then Ok(Arr([]), u[1..]) else ParseElems(body, [])
  {
    assert ("[" + body)[1..] == body;
    SkipTwice(body);
    ParseElemsSkipped(Skip(body), body, []);
  }

  lemma {:induction false} ArrayIsRead(blank: string, items: seq<Item>, more: string)
    requires WellFormed(Array(blank, items))
    ensures ParseNext(Text(Array(blank, items)) + more) == Ok(Arr(Values(items)), more)
    decreases items, 2
  {
    var inner := if items == [] then blank else ItemsText(items);
    var body := inner + ("]" + more);
    assert Text(Array(blank, items)) + more == "[" + body;
    ArrayOpens(body);
    if items == [] {
      SkipBlank(blank, "]" + more);
      assert ("]" + more)[1..] == more;
    } else {
      ItemsStart(items, "]" + more);
      ItemsAreRead(items, more, []);
      assert [] + Values(items) == Values(items);
    }
  }

  // ----- objects -----

  /** The text `s` starts with a quoted key, a colon and a value. */
  ghost predicate StartsMember(s: string, key: string, val: Json, rest: string)
  {
    var k := ParseNext(s);
    && k.Ok? && ToString(k.val) == key
    && Head(Skip(k.rest)) == ':'
    && ParseNext(Skip(Skip(k.rest)[1..])) == Ok(val, rest)
  }

  lemma MembersClose(s: string, acc: seq<Member>, key: string, val: Json, rest: string, more: string)
    requires StartsMember(s, key, val, rest) && Skip(rest) == "}" + more
    ensures ParseMembers(s, acc) == Ok(Obj(Put(acc, key, val)), more)
  {
    assert ("}" + more)[1..] == more;
  }

  lemma MembersComma(s: string, acc: seq<Member>, key: string, val: Json, rest: string, more: string)
    requires StartsMember(s, key, val, rest) && Skip(rest) == "," + more
    ensures ParseMembers(s, acc) == ParseMembers(more, Put(acc, key, val))
  {
    assert ("," + more)[1..] == more;
  }

  lemma PairAt(pair: Pair, tail: string)
    ensures PairText(pair) + tail
         == pair.lead + ("\"" + (GlyphsText(pair.key) + ("\"" + (pair.mid + (":" + (ItemText(pair.item) + tail))))))
  {
    var key, text := GlyphsText(pair.key), ItemText(pair.item);
    assert (pair.lead + ("\"" + (key + ("\"" + (pair.mid + (":" + text)))))) + tail
        == pair.lead + ("\"" + (key + ("\"" + (pair.mid + (":" + (text + tail))))));
  }

  lemma KeyIsRead(pair: Pair, more: string)
    requires WellFormedPair(pair)
    ensures ParseNext(pair.lead + ("\"" + (GlyphsText(pair.key) + ("\"" + more))))
         == Ok(Str(GlyphsValue(pair.key)), more)
  {
    var text := "\"" + (GlyphsText(pair.key) + ("\"" + more));
    SkipBlank(pair.lead, text);
    ParseSkipped(pair.lead + text, text);
    QuotedIsRead(pair.key, more);
  }

  lemma ColonIsRead(mid: string, value: string, val: Json, rest: string)
    requires Blank(mid) && ParseNext(value) == Ok(val, rest)
    ensures var t := Skip(mid + (":" + value)); Head(t) == ':' && ParseNext(Skip(t[1..])) == Ok(val, rest)
  {
    SkipBlank(mid, ":" + value);
    assert (":" + value)[1..] == value;
    SkipTwice(value);
    ParseSkipped(Skip(value), value);
  }

  lemma {:induction false} PairIsRead(pair: Pair, tail: string)
    requires WellFormedPair(pair) && Stops(pair.item, tail)
    ensures StartsMember(PairText(pair) + tail, KeyOf(pair), Value(pair.item.tree), pair.item.trail + tail)
    decreases pair, 0
  {
    var value, rest := ItemText(pair.item) + tail, pair.item.trail + tail;
    PairAt(pair, tail);
    ItemIsRead(pair.item, tail);
    KeyIsRead(pair, pair.mid + (":" + value));
    ColonIsRead(pair.mid, value, Value(pair.item.tree), rest);
  }

  lemma PairsAt(pairs: seq<Pair>, tail: string)
    requires |pairs| >= 2
    ensures PairsText(pairs) + tail == PairText(pairs[0]) + ("," + (PairsText(pairs[1..]) + tail))
  {
    JoinAt(PairText(pairs[0]), PairsText(pairs[1..]), tail);
  }

  lemma {:induction false} PairStep(pairs: seq<Pair>, tail: string, acc: seq<Member>)
    requires |pairs| >= 2 && WellFormedPair(pairs[0])
    ensures ParseMembers(PairsText(pairs) + tail, acc)
         == ParseMembers(PairsText(pairs[1..]) + tail, Put(acc, KeyOf(pairs[0]), Value(pairs[0].item.tree)))
    decreases pairs, 0
  {
    var pair, rest := pairs[0], PairsText(pairs[1..]) + tail;
    assert WellFormedItem(pair.item);
    PairsAt(pairs, tail);
    PairMember(pair, rest, acc);
  }

  /** A member and a comma. */
  lemma {:induction false} PairMember(pair: Pair, rest: string, acc: seq<Member>)
    requires WellFormedPair(pair)
    ensures ParseMembers(PairText(pair) + ("," + rest), acc)
         == ParseMembers(rest, Put(acc, KeyOf(pair), Value(pair.item.tree)))
    decreases pair, 1
  {
    var tail := "," + rest;
    assert WellFormedItem(pair.item);
    TrailEnds(pair.item, tail);
    PairIsRead(pair, tail);
    SkipTrail(pair.item, tail);
    MembersComma(PairText(pair) + tail, acc, KeyOf(pair), Value(pair.item.tree), pair.item.trail + tail, rest);
  }

  lemma {:induction false} PairsAreRead(pairs: seq<Pair>, more: string, acc: seq<Member>)
    requires pairs != [] && forall pair :: pair in pairs ==> WellFormedPair(pair)
    ensures ParseMembers(PairsText(pairs) + ("}" + more), acc) == Ok(Obj(Fields(pairs, acc)), more)
    decreases pairs, 1
  {
    var pair, tail := pairs[0], "}" + more;
    var key, val, trail := KeyOf(pair), Value(pair.item.tree), pair.item.trail;
    assert WellFormedPair(pair) && WellFormedItem(pair.item);
    if |pairs| == 1 {
      TrailEnds(pair.item, tail);
      PairIsRead(pair, tail);
      SkipTrail(pair.item, tail);
      MembersClose(PairText(pair) + tail, acc, key, val, trail + tail, more);
      assert Fields(pairs[1..], Put(acc, key, val)) == Put(acc, key, val);
    } else {
      PairStep(pairs, tail, acc);
      PairsAreRead(pairs[1..], more, Put(acc, key, val));
    }
  }

  lemma PairsStart(pairs: seq<Pair>, tail: string)
    requires pairs != [] && WellFormedPair(pairs[0])
    ensures Head(Skip(PairsText(pairs) + tail)) == '\"'
  {
    var pair := pairs[0];
    var tail' := if |pairs| == 1 then tail else "," + (PairsText(pairs[1..]) + tail);
    if |pairs| >= 2 {
      PairsAt(pairs, tail);
    }
    PairAt(pair, tail');
    SkipBlank(pair.lead, "\"" + (GlyphsText(pair.key) + ("\"" + (pair.mid + (":" + (ItemText(pair.item) + tail'))))));
  }

  lemma ObjectOpens(body: string)
    ensures var u := Skip(body);
      ParseNext("{" + body) == if Head(u) == '}' then Ok(Obj([]), u[1..]) else ParseMembers(body, [])
  {
    assert ("{" + body)[1..] == body;
    SkipTwice(body);
    ParseMembersSkipped(Skip(body), body, []);
  }

  lemma {:induction false} ObjectIsRead(blank: string, pairs: seq<Pair>, more: string)
    requires WellFormed(Object(blank, pairs))
    ensures ParseNext(Text(Object(blank, pairs)) + more) == Ok(Obj(Fields(pairs, [])), more)
    decreases pairs, 2
  {
    var inner := if pairs == [] then blank else PairsText(pairs);
    var body := inner + ("}" + more);
    assert Text(Object(blank, pairs)) + more == "{" + body;
    ObjectOpens(body);
    if pairs == [] {
      SkipBlank(blank, "}" + more);
      assert ("}" + more)[1..] == more;
    } else {
      PairsStart(pairs, "}" + more);
      PairsAreRead(pairs, more, []);
    }
  }

  /** JSON::Load of every such text, with white space before it and anything after it, gives the
      value; only a number needs a character after it that ends it. */
  lemma LoadsText(blank: string, t: Tree, more: string)
    requires Blank(blank) && WellFormed(t) && (t.Number? ==> EndsNumber(Head(more)))
    ensures Load(blank + (Text(t) + more)) == Some(Value(t))
  {
    SkipBlank(blank, Text(t) + more);
    ParseSkipped(blank + (Text(t) + more), Text(t) + more);
    TextIsRead(t, more);
  }
  // ----- texts that are not in the grammar -----

  /** What starts no value is read as null, and is left in the text. */
  lemma UnknownIsNull(t: string)
    requires !IsSpace(Head(t)) && Head(t) != '[' && Head(t) != '{' && Head(t) != '\"'
    requires Head(t) != '-' && !IsDigit(Head(t)) && !("null" <= t) && !("true" <= t) && !("false" <= t)
    ensures ParseNext(t) == Ok(Null, t)
  {
    assert Skip(t) == t;
  }

  /** A number that another character ends is null, and the character is lost. */
  lemma BrokenNumber(negative: bool, ds: seq<Digit>, c: char, more: string)
    requires ds != [] && !IsNumberChar(c) && !EndsNumber(c) && c != 'e' && c != 'E'
    ensures ParseNext(Text(Number(negative, ds)) + ([c] + more)) == Ok(Null, more)
  {
    NumberChars(negative, ds);
    BrokenNumberText(Text(Number(negative, ds)), c, more);
    NumberStart(Text(Number(negative, ds)) + ([c] + more));
  }

  lemma BrokenNumberText(text: string, c: char, more: string)
    requires !IsNumberChar(c) && !EndsNumber(c) && c != 'e' && c != 'E'
    requires forall i :: 0 <= i < |text| ==> IsNumberChar(text[i])
    ensures ParseNumber(text + ([c] + more)) == Ok(Null, more)
  {
    var rest := [c] + more;
    NumberSpanOf(text, rest);
    assert (text + rest)[|text|..] == rest && (text + rest)[|text| + 1..] == more;
  }

  /** A string without its closing quote has no result. */
  lemma {:induction false} UnclosedString(gs: seq<Glyph>, acc: string)
    requires WellFormedGlyphs(gs)
    ensures ParseChars(GlyphsText(gs), acc) == Fault
    decreases gs
  {
    if gs != [] {
      GlyphIsRead(gs[0], GlyphsText(gs[1..]), acc);
      UnclosedString(gs[1..], acc + GlyphValue(gs[0]));
    }
  }

  /** A Unicode escape without four digits ends the string, which is then empty; the text goes on
      after the backslash. */
  lemma {:induction false} BrokenUnicode(gs: seq<Glyph>, more: string, acc: string)
    requires WellFormedGlyphs(gs) && (|more| < 4 || exists i :: 0 <= i < 4 && !IsHex(more[i]))
    ensures ParseChars(GlyphsText(gs) + ("\\u" + more), acc) == Ok(Str(""), "u" + more)
    decreases gs
  {
    var tail := "\\u" + more;
    if gs == [] {
      assert GlyphsText(gs) + tail == tail && tail[1..] == "u" + more;
      if |more| >= 4 {
        var i :| 0 <= i < 4 && !IsHex(more[i]);
        assert tail[i + 2] == more[i];
      }
    } else {
      Regroup(GlyphText(gs[0]), GlyphsText(gs[1..]), tail);
      GlyphIsRead(gs[0], GlyphsText(gs[1..]) + tail, acc);
      BrokenUnicode(gs[1..], more, acc + GlyphValue(gs[0]));
    }
  }

  lemma ElemsBreak(s: string, acc: seq<Json>, val: Json, rest: string, tail: string)
    requires ParseNext(s) == Ok(val, rest) && Skip(rest) == tail && Head(tail) != ',' && Head(tail) != ']'
    ensures ParseElems(s, acc) == Ok(Arr([]), tail)
  {
  }

  lemma {:induction false} BrokenItems(items: seq<Item>, last: Item, tail: string, acc: seq<Json>)
    requires items != [] && (forall item :: item in items ==> WellFormedItem(item)) && last == items[|items| - 1]
    requires Stops(last, tail) && Head(tail) != ',' && Head(tail) != ']'
    ensures ParseElems(ItemsText(items) + tail, acc) == Ok(Arr([]), tail)
    decreases items
  {
    if |items| == 1 {
      BrokenItem(last, tail, acc);
      assert ItemsText(items) == ItemText(last);
    } else {
      var rest := items[1..];
      assert rest[|rest| - 1] == last;
      ItemStep(items, tail, acc);
      BrokenItems(rest, last, tail, acc + [Value(items[0].tree)]);
    }
  }

  lemma BrokenItem(item: Item, tail: string, acc: seq<Json>)
    requires WellFormedItem(item) && Stops(item, tail) && Head(tail) != ',' && Head(tail) != ']'
    ensures ParseElems(ItemText(item) + tail, acc) == Ok(Arr([]), tail)
  {
    ItemIsRead(item, tail);
    SkipTrail(item, tail);
    ElemsBreak(ItemText(item) + tail, acc, Value(item.tree), item.trail + tail, tail);
  }

  /** An array that goes on with neither a comma nor a bracket, or just ends, is read as empty. */
  lemma BrokenArray(items: seq<Item>, tail: string)
    requires items != [] && (forall item :: item in items ==> WellFormedItem(item))
    requires Stops(items[|items| - 1], tail) && Head(tail) != ',' && Head(tail) != ']'
    ensures ParseNext("[" + (ItemsText(items) + tail)) == Ok(Arr([]), tail)
  {
    ArrayOpens(ItemsText(items) + tail);
    ItemsStart(items, tail);
    BrokenItems(items, items[|items| - 1], tail, []);
  }

  lemma MembersBreak(s: string, acc: seq<Member>, key: string, val: Json, rest: string, tail: string)
    requires StartsMember(s, key, val, rest) && Skip(rest) == tail && Head(tail) != ',' && Head(tail) != '}'
    ensures ParseMembers(s, acc) == Ok(Obj(Put(acc, key, val)), tail)
  {
  }

  lemma {:induction false} BrokenPairs(pairs: seq<Pair>, last: Pair, tail: string, acc: seq<Member>)
    requires pairs != [] && (forall pair :: pair in pairs ==> WellFormedPair(pair)) && last == pairs[|pairs| - 1]
    requires Stops(last.item, tail) && Head(tail) != ',' && Head(tail) != '}'
    ensures ParseMembers(PairsText(pairs) + tail, acc) == Ok(Obj(Fields(pairs, acc)), tail)
    decreases pairs
  {
    FieldsCons(pairs, acc);
    if |pairs| == 1 {
      BrokenPair(last, tail, acc);
      assert PairsText(pairs) == PairText(last);
    } else {
      var rest := pairs[1..];
      assert rest[|rest| - 1] == last;
      PairStep(pairs, tail, acc);
      BrokenPairs(rest, last, tail, Put(acc, KeyOf(pairs[0]), Value(pairs[0].item.tree)));
    }
  }

  lemma FieldsCons(pairs: seq<Pair>, acc: seq<Member>)
    requires pairs != []
    ensures var acc' := Put(acc, KeyOf(pairs[0]), Value(pairs[0].item.tree));
      Fields(pairs, acc) == (if |pairs| == 1 then acc' else Fields(pairs[1..], acc'))
  {
  }

  lemma BrokenPair(pair: Pair, tail: string, acc: seq<Member>)
    requires WellFormedPair(pair) && Stops(pair.item, tail) && Head(tail) != ',' && Head(tail) != '}'
    ensures ParseMembers(PairText(pair) + tail, acc) == Ok(Obj(Put(acc, KeyOf(pair), Value(pair.item.tree))), tail)
  {
    assert WellFormedItem(pair.item);
    PairIsRead(pair, tail);
    SkipTrail(pair.item, tail);
    MembersBreak(PairText(pair) + tail, acc, KeyOf(pair), Value(pair.item.tree), pair.item.trail + tail, tail);
  }

  /** An object that goes on with neither a comma nor a brace, or just ends, keeps its members. */
  lemma BrokenObject(pairs: seq<Pair>, tail: string)
    requires pairs != [] && (forall pair :: pair in pairs ==> WellFormedPair(pair))
    requires Stops(pairs[|pairs| - 1].item, tail) && Head(tail) != ',' && Head(tail) != '}'
    ensures ParseNext("{" + (PairsText(pairs) + tail)) == Ok(Obj(Fields(pairs, [])), tail)
  {
    ObjectOpens(PairsText(pairs) + tail);
    PairsStart(pairs, tail);
    BrokenPairs(pairs, pairs[|pairs| - 1], tail, []);
  }

  /** Members with a comma after each. */
  function Listed(pairs: seq<Pair>): string
  {
    if pairs == [] then "" else PairText(pairs[0]) + ("," + Listed(pairs[1..]))
  }

  lemma {:induction false} ListedAreRead(pairs: seq<Pair>, rest: string, acc: seq<Member>)
    requires forall pair :: pair in pairs ==> WellFormedPair(pair)
    ensures ParseMembers(Listed(pairs) + rest, acc) == ParseMembers(rest, Fields(pairs, acc))
    decreases pairs
  {
    if pairs == [] {
      assert Listed(pairs) + rest == rest;
    } else {
      JoinAt(PairText(pairs[0]), Listed(pairs[1..]), rest);
      PairMember(pairs[0], Listed(pairs[1..]) + rest, acc);
      ListedAreRead(pairs[1..], rest, Put(acc, KeyOf(pairs[0]), Value(pairs[0].item.tree)));
    }
  }

  /** After a key without a colon the members before it are kept. */
  lemma MissingColon(pairs: seq<Pair>, pair: Pair, tail: string, acc: seq<Member>)
    requires (forall p :: p in pairs ==> WellFormedPair(p)) && WellFormedPair(pair)
    requires !IsSpace(Head(tail)) && Head(tail) != ':'
    ensures var key := pair.lead + ("\"" + (GlyphsText(pair.key) + ("\"" + (pair.mid + tail))));
      ParseMembers(Listed(pairs) + key, acc) == Ok(Obj(Fields(pairs, acc)), tail)
  {
    ListedAreRead(pairs, pair.lead + ("\"" + (GlyphsText(pair.key) + ("\"" + (pair.mid + tail)))), acc);
    KeyIsRead(pair, pair.mid + tail);
    SkipBlank(pair.mid, tail);
  }
}
