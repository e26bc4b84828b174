/**
 Printing and parsing: a printed value is a text of the grammar that stands for the value, so
 parsing gives it back, exactly when all object keys are in escape form and the value is not a
 bare number.
 */
module JsonRoundTrip {
  import opened Common
  import opened Json
  import opened JsonGrammar

  // ----- strings -----

  lemma EscapeLast(s: string, front: string, last: char)
    requires s == front + [last]
    ensures Escape(s) == Escape(front) + EscapeChar(last)
  {
    assert s[..|s| - 1] == front;
  }

  lemma {:induction false} EscapeAppend(a: string, b: string)
    ensures Escape(a + b) == Escape(a) + Escape(b)
    decreases |b|
  {
    if b == [] {
      EscapeAppendNothing(a);
    } else {
      var front, last := b[..|b| - 1], b[|b| - 1];
      assert b == front + [last];
      EscapeAppend(a, front);
      EscapeSnoc(a, front, last);
    }
  }

  lemma EscapeAppendNothing(a: string)
    ensures Escape(a + []) == Escape(a) + Escape([])
  {
    assert a + [] == a && Escape(a) + [] == Escape(a);
  }

  lemma EscapeSnoc(a: string, front: string, last: char)
    requires Escape(a + front) == Escape(a) + Escape(front)
    ensures Escape(a + (front + [last])) == Escape(a) + Escape(front + [last])
  {
    assert a + (front + [last]) == (a + front) + [last];
    EscapeLast((a + front) + [last], a + front, last);
    EscapeLast(front + [last], front, last);
    Regroup(Escape(a), Escape(front), EscapeChar(last));
  }

  lemma EscapeFirst(s: string)
    requires s != []
    ensures Escape(s) == EscapeChar(s[0]) + Escape(s[1..])
  {
    assert s == [s[0]] + s[1..];
    EscapeAppend([s[0]], s[1..]);
    assert Escape([s[0]]) == EscapeChar(s[0]);
  }

  /** Quote, backslash and the five control characters of section 7 of RFC 8259 print as a backslash
      and their letter, all other characters, the slash included, as themselves. */
  lemma EscapeTable(c: char)
    ensures forall i :: 0 <= i < |NAMED| && NAMED[i] != '/' ==> Escape([NAMED[i]]) == ['\\', LETTERS[i]]
    ensures c == '/' || c !in NAMED ==> Escape([c]) == [c]
  {
    forall i | 0 <= i < |NAMED| && NAMED[i] != '/' ensures Escape([NAMED[i]]) == ['\\', LETTERS[i]] {
      assert Escape([NAMED[i]]) == [] + EscapeChar(NAMED[i]);
    }
    assert Escape([c]) == [] + EscapeChar(c);
    assert NAMED[0] == '\"' && NAMED[1] == '\\' && NAMED[3] == '\U{0008}' && NAMED[4] == '\U{000C}';
    assert NAMED[5] == '\n' && NAMED[6] == '\r' && NAMED[7] == '\t';
  }

  lemma CharIsText(c: char) returns (g: Glyph)
    ensures WellFormedGlyph(g) && GlyphText(g) == EscapeChar(c) && GlyphValue(g) == [c]
  {
    EscapeTable(c);
    assert Escape([c]) == [] + EscapeChar(c);
    if c == '/' || c !in NAMED {
      g := Plain(c);
      assert NAMED[0] == '\"' && NAMED[1] == '\\';
    } else {
      var i :| 0 <= i < |NAMED| && NAMED[i] == c;
      g := Named(i);
    }
  }

  lemma {:induction false} StringIsText(s: string) returns (gs: seq<Glyph>)
    ensures WellFormedGlyphs(gs) && GlyphsText(gs) == Escape(s) && GlyphsValue(gs) == s
  {
    if s == [] {
      gs := [];
    } else {
      var first, rest := s[0], s[1..];
      assert s == [first] + rest;
      var g := CharIsText(first);
      var gs' := StringIsText(rest);
      gs := [g] + gs';
      GlyphsCons(g, gs');
      EscapeFirst(s);
    }
  }

  lemma GlyphsCons(g: Glyph, gs: seq<Glyph>)
    ensures GlyphsText([g] + gs) == GlyphText(g) + GlyphsText(gs)
    ensures GlyphsValue([g] + gs) == GlyphValue(g) + GlyphsValue(gs)
    ensures WellFormedGlyph(g) && WellFormedGlyphs(gs) ==> WellFormedGlyphs([g] + gs)
  {
    assert ([g] + gs)[1..] == gs;
  }

  // ----- numbers -----

  /** Decimal digits without leading zeros. */
  lemma {:induction false} NatIsText(n: nat) returns (ds: seq<Digit>)
    ensures ds != [] && DigitsText(ds) == NatText(n) && Horner(ds) == n
    ensures n > 0 ==> ds[0] != 0
    ensures n == 0 ==> ds == [0]
  {
    if n < 10 {
      ds := [n];
      DigitIs(n);
    } else {
      var front := NatIsText(n / 10);
      ds := front + [n % 10];
      DigitsSnoc(front, n % 10);
      DigitIs(n % 10);
    }
  }

  lemma DigitsSnoc(ds: seq<Digit>, d: Digit)
    ensures DigitsText(ds + [d]) == DigitsText(ds) + ["0123456789"[d]] && Horner(ds + [d]) == 10 * Horner(ds) + d
  {
    assert (ds + [d])[..|ds|] == ds;
  }

  lemma IntIsText(n: int) returns (negative: bool, ds: seq<Digit>)
    ensures ds != [] && Text(Number(negative, ds)) == IntText(n) && Signed(negative, ds) == n
  {
    negative := n < 0;
    var m: nat := if n < 0 then -n else n;
    ds := NatIsText(m);
    NumberText(negative, ds);
  }

  lemma NumberText(negative: bool, ds: seq<Digit>)
    ensures Text(Number(negative, ds)) == if negative then "-" + DigitsText(ds) else DigitsText(ds)
  {
    assert "" + DigitsText(ds) == DigitsText(ds);
  }

  // ----- objects are sorted maps -----

  lemma {:induction false} LessIrreflexive(a: string)
    ensures !Less(a, a)
  {
    if a != [] {
      LessIrreflexive(a[1..]);
    }
  }

  lemma {:induction false} LessTransitive(a: string, b: string, c: string)
    requires Less(a, b) && Less(b, c)
    ensures Less(a, c)
  {
    if a != [] && a[0] == b[0] == c[0] {
      LessTransitive(a[1..], b[1..], c[1..]);
    }
  }

  lemma {:induction false} LessTotal(a: string, b: string)
    ensures a == b || Less(a, b) || Less(b, a)
  {
    if a != [] && b != [] && a[0] == b[0] {
      LessTotal(a[1..], b[1..]);
      assert a == [a[0]] + a[1..] && b == [b[0]] + b[1..];
    }
  }

  /** A key above all others is added at the end. */
  lemma {:induction false} PutLast(ms: seq<Member>, key: string, val: Json)
    requires forall i :: 0 <= i < |ms| ==> Less(ms[i].key, key)
    ensures Put(ms, key, val) == ms + [Member(key, val)]
  {
    if ms != [] {
      if Less(key, ms[0].key) {
        LessTransitive(ms[0].key, key, ms[0].key);
      }
      LessIrreflexive(ms[0].key);
      PutLast(ms[1..], key, val);
    }
  }

  lemma PutNext(acc: seq<Member>, ms: seq<Member>)
    requires ms != [] && Sorted(acc + ms)
    ensures Put(acc, ms[0].key, ms[0].val) == acc + [ms[0]]
  {
    forall i | 0 <= i < |acc| ensures Less(acc[i].key, ms[0].key) {
      assert (acc + ms)[i] == acc[i] && (acc + ms)[|acc|] == ms[0];
    }
    PutLast(acc, ms[0].key, ms[0].val);
  }

  /** What is assigned is read back, and other keys keep their values. */
  lemma {:induction false} PutGet(ms: seq<Member>, key: string, val: Json, other: string)
    ensures Get(Obj(Put(ms, key, val)), key) == val
    ensures other != key ==> Get(Obj(Put(ms, key, val)), other) == Get(Obj(ms), other)
  {
    GetCons(Member(key, val), ms, key);
    GetCons(Member(key, val), ms, other);
    if ms != [] {
      assert ms == [ms[0]] + ms[1..];
      GetCons(Member(key, val), ms[1..], key);
      GetCons(Member(key, val), ms[1..], other);
      GetCons(ms[0], ms[1..], key);
      GetCons(ms[0], ms[1..], other);
      PutGet(ms[1..], key, val, other);
      GetCons(ms[0], Put(ms[1..], key, val), key);
      GetCons(ms[0], Put(ms[1..], key, val), other);
    }
  }

  lemma GetCons(m: Member, ms: seq<Member>, key: string)
    ensures Get(Obj([m] + ms), key) == if m.key == key then m.val else Get(Obj(ms), key)
  {
    var all := [m] + ms;
    assert all[0] == m && all[1..] == ms;
    if i :| 0 <= i < |ms| && ms[i].key == key {
      assert all[i + 1].key == key;
    }
  }

  // ----- a printed value is a text that stands for it -----

  ghost predicate Printable(v: Json)
  {
    Valid(v) && EscapedKeys(v)
  }

  /** Printing gives a text of the grammar that stands for the value. */
  lemma {:induction false} DumpIsText(v: Json, depth: nat) returns (t: Tree)
    requires Printable(v) && depth >= 1
    ensures WellFormed(t) && Text(t) == Dump(v, depth) && Value(t) == v && (t.Number? <==> v.Int?)
    decreases v
  {
    match v
    case Null => t := Literal(None);
    case Bool(b) => t := Literal(Some(b));
    case Int(n) =>
      var negative, ds := IntIsText(n);
      t := Number(negative, ds);
    case Str(s) =>
      var gs := StringIsText(s);
      t := Quoted(gs);
    case Arr(elems) => t := ArrIsText(elems, depth);
    case Obj(ms) => t := ObjIsText(ms, depth);
  }

  lemma {:induction false} ArrIsText(elems: seq<Json>, depth: nat) returns (t: Tree)
    requires Printable(Arr(elems)) && depth >= 1
    ensures t.Array? && WellFormed(t) && Text(t) == Dump(Arr(elems), depth) && Value(t) == Arr(elems)
    decreases elems, 1
  {
    if elems == [] {
      t := Array("", []);
    } else {
      var items := ElemsAreText(elems, depth, "");
      t := Array("", items);
    }
  }

  lemma {:induction false} ElemsAreText(elems: seq<Json>, depth: nat, lead: string) returns (items: seq<Item>)
    requires elems != [] && (forall e :: e in elems ==> Printable(e)) && Blank(lead)
    ensures |items| == |elems| && forall item :: item in items ==> WellFormedItem(item)
    ensures ItemsText(items) == lead + DumpElems(elems, depth) && Values(items) == elems
    decreases elems, 0
  {
    var t := DumpIsText(elems[0], depth + 1);
    var item := Item(lead, t, "");
    assert ItemText(item) == lead + Dump(elems[0], depth + 1);
    if |elems| == 1 {
      items := [item];
    } else {
      var items' := ElemsAreText(elems[1..], depth, " ");
      items := [item] + items';
      assert items[1..] == items';
      ElemsJoin(lead, Dump(elems[0], depth + 1), DumpElems(elems[1..], depth));
    }
    assert elems == [elems[0]] + elems[1..];
  }

  lemma ElemsJoin(lead: string, first: string, rest: string)
    ensures (lead + first) + ("," + (" " + rest)) == lead + (first + (", " + rest))
  {
    assert "," + (" " + rest) == ", " + rest;
  }

  lemma {:induction false} PadIsBlank(depth: nat)
    ensures Blank(Pad(depth)) && Blank("\n" + Pad(depth))
  {
    if depth > 0 {
      PadIsBlank(depth - 1);
    }
  }

  lemma {:induction false} ObjIsText(ms: seq<Member>, depth: nat) returns (t: Tree)
    requires Printable(Obj(ms)) && depth >= 1
    ensures t.Object? && WellFormed(t) && Text(t) == Dump(Obj(ms), depth) && Value(t) == Obj(ms)
    decreases ms, 2
  {
    PadIsBlank(depth - 1);
    if ms == [] {
      t := EmptyIsText(depth);
    } else {
      var pairs := MembersAreText(ms, depth, "\n" + Pad(depth - 1), []);
      t := Object("", pairs);
      assert [] + ms == ms;
      ObjText(DumpMembers(ms, depth), Pad(depth - 1));
    }
  }

  lemma EmptyIsText(depth: nat) returns (t: Tree)
    requires depth >= 1
    ensures t.Object? && WellFormed(t) && Text(t) == Dump(Obj([]), depth) && Value(t) == Obj([])
  {
    PadIsBlank(depth - 1);
    var pad := Pad(depth - 1);
    var blank := "\n" + ("" + ("\n" + pad));
    t := Object(blank, []);
    ObjText("", pad);
  }

  lemma ObjText(body: string, pad: string)
    ensures "{\n" + body + "\n" + pad + "}" == "{" + (("\n" + (body + ("\n" + pad))) + "}")
  {
  }

  lemma {:induction false} MemberIsText(m: Member, depth: nat, trail: string) returns (pair: Pair)
    requires EscapeForm(m.key) && Printable(m.val) && Blank(trail)
    ensures WellFormedPair(pair) && KeyOf(pair) == m.key && Value(pair.item.tree) == m.val
    ensures PairText(pair) == "\n" + (DumpMember(m, depth) + trail)
    decreases m
  {
    var raw :| Escape(raw) == m.key;
    var gs := StringIsText(raw);
    var t := DumpIsText(m.val, depth + 1);
    PadIsBlank(depth);
    pair := Pair("\n" + Pad(depth), gs, " ", Item(" ", t, trail));
    MemberText(Pad(depth), m.key, Dump(m.val, depth + 1), trail);
  }

  lemma MemberText(pad: string, key: string, val: string, trail: string)
    ensures ("\n" + pad) + ("\"" + (key + ("\"" + (" " + (":" + (" " + (val + trail)))))))
         == "\n" + ((pad + ("\"" + (key + ("\" : " + val)))) + trail)
  {
    assert "\"" + (" " + (":" + (" " + (val + trail)))) == "\" : " + (val + trail);
  }

  lemma {:induction false} MembersAreText(ms: seq<Member>, depth: nat, trail: string, acc: seq<Member>)
    returns (pairs: seq<Pair>)
    requires ms != [] && Sorted(acc + ms) && Blank(trail)
    requires forall m :: m in ms ==> EscapeForm(m.key) && Printable(m.val)
    ensures |pairs| == |ms| && forall pair :: pair in pairs ==> WellFormedPair(pair)
    ensures PairsText(pairs) == "\n" + (DumpMembers(ms, depth) + trail) && Fields(pairs, acc) == acc + ms
    decreases ms, 1
  {
    PutNext(acc, ms);
    if |ms| == 1 {
      var pair := MemberIsText(ms[0], depth, trail);
      pairs := [pair];
      assert ms == [ms[0]];
    } else {
      var pair := MemberIsText(ms[0], depth, "");
      FirstMoved(acc, ms);
      var pairs' := MembersAreText(ms[1..], depth, trail, acc + [ms[0]]);
      pairs := [pair] + pairs';
      assert pairs[1..] == pairs';
      MembersJoin(DumpMember(ms[0], depth), DumpMembers(ms[1..], depth), trail);
    }
  }

  lemma MembersJoin(first: string, rest: string, trail: string)
    ensures ("\n" + (first + "")) + ("," + ("\n" + (rest + trail))) == "\n" + ((first + (",\n" + rest)) + trail)
  {
    assert "," + ("\n" + (rest + trail)) == ",\n" + (rest + trail);
  }

  lemma FirstMoved<T>(acc: seq<T>, ms: seq<T>)
    requires ms != []
    ensures acc + ms == (acc + [ms[0]]) + ms[1..]
  {
  }

  /** A printed value is parsed back, together with the rest of the text. */
  lemma RoundTrip(v: Json, depth: nat, more: string)
    requires Printable(v) && depth >= 1 && (v.Int? ==> EndsNumber(Head(more)))
    ensures ParseNext(Dump(v, depth) + more) == Ok(v, more)
  {
    var t := DumpIsText(v, depth);
    TextIsRead(t, more);
  }

  // ----- whatever is parsed can be printed -----

  lemma {:induction false} PutMembers(ms: seq<Member>, key: string, val: Json)
    ensures forall m :: m in Put(ms, key, val) ==> m in ms || m == Member(key, val)
  {
    if ms != [] {
      PutMembers(ms[1..], key, val);
      assert ms == [ms[0]] + ms[1..];
    }
  }

  lemma SortedCons(m: Member, ms: seq<Member>)
    requires Sorted(ms) && forall n :: n in ms ==> Less(m.key, n.key)
    ensures Sorted([m] + ms)
  {
    var all := [m] + ms;
    forall i, j | 0 <= i < j < |all| ensures Less(all[i].key, all[j].key) {
      assert all[j] == ms[j - 1];
      if i > 0 {
        assert all[i] == ms[i - 1];
      }
    }
  }

  lemma SortedHead(ms: seq<Member>)
    requires Sorted(ms) && ms != []
    ensures Sorted(ms[1..]) && forall n :: n in ms[1..] ==> Less(ms[0].key, n.key)
  {
    forall n | n in ms[1..] ensures Less(ms[0].key, n.key) {
      var j :| 0 <= j < |ms[1..]| && ms[1..][j] == n;
      assert n == ms[j + 1];
    }
  }

  /** Assignment keeps the object a sorted map. */
  lemma {:induction false} PutSorted(ms: seq<Member>, key: string, val: Json)
    requires Sorted(ms)
    ensures Sorted(Put(ms, key, val))
  {
    if ms != [] {
      SortedHead(ms);
      if ms[0].key == key {
        SortedCons(Member(key, val), ms[1..]);
      } else if Less(key, ms[0].key) {
        forall n | n in ms ensures Less(key, n.key) {
          if n != ms[0] {
            assert ms == [ms[0]] + ms[1..];
            LessTransitive(key, ms[0].key, n.key);
          }
        }
        SortedCons(Member(key, val), ms);
      } else {
        LessTotal(key, ms[0].key);
        PutSorted(ms[1..], key, val);
        PutMembers(ms[1..], key, val);
        SortedCons(ms[0], Put(ms[1..], key, val));
      }
    }
  }

  ghost predicate PrintableMembers(ms: seq<Member>)
  {
    Sorted(ms) && forall m :: m in ms ==> EscapeForm(m.key) && Printable(m.val)
  }

  lemma PutPrintable(ms: seq<Member>, k: Json, val: Json)
    requires PrintableMembers(ms) && Printable(val)
    ensures PrintableMembers(Put(ms, ToString(k), val))
  {
    PutSorted(ms, ToString(k), val);
    PutMembers(ms, ToString(k), val);
    assert EscapeForm(ToString(k)) by {
      assert Escape(if k.Str? then k.s else "") == ToString(k);
    }
  }

  lemma {:induction false} ParsedNext(s: string)
    ensures ParseNext(s).Ok? ==> Printable(ParseNext(s).val)
    decreases |s|, 0
  {
    var t := Skip(s);
    if Head(t) == '[' {
      ParsedElems(Skip(t[1..]), []);
    } else if Head(t) == '{' {
      ParsedMembers(Skip(t[1..]), []);
    }
  }

  lemma {:induction false} ParsedElems(s: string, acc: seq<Json>)
    requires forall e :: e in acc ==> Printable(e)
    ensures ParseElems(s, acc).Ok? ==> Printable(ParseElems(s, acc).val)
    decreases |s|, 1
  {
    ParsedNext(s);
    var e := ParseNext(s);
    if e.Ok? {
      var acc' := acc + [e.val];
      assert forall x :: x in acc' ==> Printable(x);
      var t := Skip(e.rest);
      if Head(t) == ',' {
        ParsedElems(t[1..], acc');
      }
    }
  }

  lemma {:induction false} ParsedMembers(s: string, acc: seq<Member>)
    requires PrintableMembers(acc)
    ensures ParseMembers(s, acc).Ok? ==> Printable(ParseMembers(s, acc).val)
    decreases |s|, 1
  {
    var k := ParseNext(s);
    if k.Ok? && Head(Skip(k.rest)) == ':' {
      var value := Skip(Skip(k.rest)[1..]);
      ParsedNext(value);
      var v := ParseNext(value);
      if v.Ok? {
        PutPrintable(acc, k.val, v.val);
        var u := Skip(v.rest);
        if Head(u) == ',' {
          ParsedMembers(u[1..], Put(acc, ToString(k.val), v.val));
        }
      }
    }
  }

  lemma BareNumberIsLost(n: int)
    ensures Load(Dump(Int(n), 1)) == Some(Null)
  {
    var text := IntText(n);
    var negative, ds := IntIsText(n);
    NumberChars(negative, ds);
    NumberSpanOf(text, "");
    assert text + "" == text;
    NumberStart(text);
  }

  /** Parse undoes print exactly on the values that are not a bare number and whose
      object keys are all in escape form. */
  lemma LoadUndoesDump(v: Json)
    ensures Load(Dump(v, 1)) == Some(v) <==> Valid(v) && EscapedKeys(v) && !v.Int?
  {
    if v.Int? {
      BareNumberIsLost(v.n);
    } else if Valid(v) && EscapedKeys(v) {
      RoundTrip(v, 1, "");
      assert Dump(v, 1) + "" == Dump(v, 1);
    } else {
      ParsedNext(Dump(v, 1));
    }
  }
}
