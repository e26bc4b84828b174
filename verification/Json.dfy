/**
 The JSON value, its printer and its parser.

 Strings are sequences of characters.  A text that a C++ string holds ends in a NUL that
 may be read but not passed.  Floating-point numbers are not modelled: a text that needs
 them, like a text whose parse throws or reads past the end, has no parse here.
 */
module Json {
  import opened Common

  datatype Json =
    | Null
    | Bool(b: bool)
    | Int(n: int)
    | Str(s: string)
    | Arr(elems: seq<Json>)
    | Obj(members: seq<Member>)               // sorted by key, as in a std::map

  datatype Member = Member(key: string, val: Json)

  function Strs(ss: seq<string>): (elems: seq<Json>)
    ensures |elems| == |ss| && forall i :: 0 <= i < |ss| ==> elems[i] == Str(ss[i])
  {
    seq(|ss|, i requires 0 <= i < |ss| => Str(ss[i]))
  }

  // ----- ordered objects -----

  /** The order of std::map<string, ...>. */
  predicate Less(a: string, b: string)
  {
    b != [] && (a == [] || a[0] < b[0] || (a[0] == b[0] && Less(a[1..], b[1..])))
  }

  predicate Sorted(ms: seq<Member>)
  {
    forall i, j :: 0 <= i < j < |ms| ==> Less(ms[i].key, ms[j].key)
  }

  /** Assignment through operator[]. */
  function Put(ms: seq<Member>, key: string, val: Json): seq<Member>
  {
    if ms == [] then [Member(key, val)]
    else if ms[0].key == key then [Member(key, val)] + ms[1..]
    else if Less(key, ms[0].key) then [Member(key, val)] + ms
    else [ms[0]] + Put(ms[1..], key, val)
  }

  /** Reading through operator[]: a missing key reads as null. */
  function Get(v: Json, key: string): Json
  {
    if v.Obj? && exists i :: 0 <= i < |v.members| && v.members[i].key == key
    then Find(v.members, key)
    else Null
  }

  function Find(ms: seq<Member>, key: string): Json
    requires exists i :: 0 <= i < |ms| && ms[i].key == key
  {
    if ms[0].key == key then ms[0].val else Find(ms[1..], key)
  }

  // ----- values that C++ can hold -----

  const LONG_MIN: int := -0x8000_0000_0000_0000
  const LONG_MAX: int := 0x7fff_ffff_ffff_ffff

  /** Integers fit a long, objects are sorted maps. */
  predicate Valid(v: Json)
  {
    match v
    case Int(n) => LONG_MIN <= n <= LONG_MAX
    case Arr(elems) => forall e :: e in elems ==> Valid(e)
    case Obj(ms) => Sorted(ms) && forall m :: m in ms ==> Valid(m.val)
    case _ => true
  }

  ghost predicate EscapeForm(key: string)
  {
    exists raw :: Escape(raw) == key
  }

  /** Every object key, at every depth, is the escape of some string. */
  ghost predicate EscapedKeys(v: Json)
  {
    match v
    case Arr(elems) => forall e :: e in elems ==> EscapedKeys(e)
    case Obj(ms) => forall m :: m in ms ==> EscapeForm(m.key) && EscapedKeys(m.val)
    case _ => true
  }

  // ----- printing -----

  function EscapeChar(c: char): string
  {
    if c == '\"' then "\\\""
    else if c == '\\' then "\\\\"
    else if c == '\U{0008}' then "\\b"
    else if c == '\U{000C}' then "\\f"
    else if c == '\n' then "\\n"
    else if c == '\r' then "\\r"
    else if c == '\t' then "\\t"
    else [c]
  }

  function Escape(s: string): string
  {
    if s == [] then [] else Escape(s[..|s| - 1]) + EscapeChar(s[|s| - 1])
  }

  method JsonEscape(s: string) returns (output: string)
    ensures output == Escape(s)
  {
    output := [];
    for i := 0 to |s|
      invariant output == Escape(s[..i])
    {
      assert s[..i + 1][..i] == s[..i];
      output := output + EscapeChar(s[i]);
    }
    assert s[..|s|] == s;
  }

  function ToString(v: Json): string
  {
    if v.Str? then Escape(v.s) else ""
  }

  function Pad(depth: nat): string
  {
    if depth == 0 then "" else "  " + Pad(depth - 1)
  }

  function Digit(d: nat): char
    requires d < 10
  {
    '0' + d as char
  }

  function NatText(n: nat): string
  {
    if n < 10 then [Digit(n)] else NatText(n / 10) + [Digit(n % 10)]
  }

  function IntText(n: int): string
  {
    if n < 0 then "-" + NatText(-n) else NatText(n)
  }

  function Dump(v: Json, depth: nat): string
    requires depth >= 1
    decreases v
  {
    match v
    case Null => "null"
    case Bool(b) => if b then "true" else "false"
    case Int(n) => IntText(n)
    case Str(s) => "\"" + Escape(s) + "\""
    case Arr(elems) => "[" + DumpElems(elems, depth) + "]"
    case Obj(ms) => "{\n" + DumpMembers(ms, depth) + "\n" + Pad(depth - 1) + "}"
  }

  function DumpElems(elems: seq<Json>, depth: nat): string
    decreases elems
  {
    if elems == [] then ""
    else if |elems| == 1 then Dump(elems[0], depth + 1)
    else Dump(elems[0], depth + 1) + (", " + DumpElems(elems[1..], depth))
  }

  function DumpMember(m: Member, depth: nat): string
    decreases m
  {
    Pad(depth) + ("\"" + (m.key + ("\" : " + Dump(m.val, depth + 1))))
  }

  function DumpMembers(ms: seq<Member>, depth: nat): string
    decreases ms
  {
    if ms == [] then ""
    else if |ms| == 1 then DumpMember(ms[0], depth)
    else DumpMember(ms[0], depth) + (",\n" + DumpMembers(ms[1..], depth))
  }

  // ----- parsing, on the text that is left -----

  /** A value and the text after it; or null with the offset one past the final NUL; or no result. */
  datatype Parsed = Ok(val: Json, rest: string) | PastEnd | Fault

  predicate IsSpace(c: char)
  {
    c == ' ' || '\t' <= c <= '\r'
  }

  predicate IsDigit(c: char)
  {
    '0' <= c <= '9'
  }

  predicate IsHex(c: char)
  {
    IsDigit(c) || 'a' <= c <= 'f' || 'A' <= c <= 'F'
  }

  /** The next character, NUL at the end. */
  function Head(s: string): char
  {
    if s == [] then '\0' else s[0]
  }

  function Skip(s: string): (t: string)
    ensures |t| <= |s| && !IsSpace(Head(t))
  {
    if IsSpace(Head(s)) then Skip(s[1..]) else s
  }

  function ParseNext(s: string): (r: Parsed)
    ensures r.Ok? ==> |r.rest| <= |s|
    decreases |s|, 0
  {
    var t := Skip(s);
    if Head(t) == '[' then
      var u := Skip(t[1..]);
      if Head(u) == ']' then Ok(Arr([]), u[1..]) else ParseElems(u, [])
    else if Head(t) == '{' then
      var u := Skip(t[1..]);
      if Head(u) == '}' then Ok(Obj([]), u[1..]) else ParseMembers(u, [])
    else if Head(t) == '\"' then ParseChars(t[1..], "")
    else if Head(t) == 't' || Head(t) == 'f' then
      if "true" <= t then Ok(Bool(true), t[4..])
      else if "false" <= t then Ok(Bool(false), t[5..])
      else Ok(Null, t)
    else if Head(t) == 'n' then Ok(Null, if "null" <= t then t[4..] else t)
    else if IsDigit(Head(t)) || Head(t) == '-' then ParseNumber(t)
    else Ok(Null, t)
  }

  function ParseElems(s: string, acc: seq<Json>): (r: Parsed)
    ensures r.Ok? ==> |r.rest| <= |s|
    decreases |s|, 1
  {
    var e := ParseNext(s);
    if !e.Ok? then Fault
    else
      var t := Skip(e.rest);
      if Head(t) == ',' then ParseElems(t[1..], acc + [e.val])
      else if Head(t) == ']' then Ok(Arr(acc + [e.val]), t[1..])
      else Ok(Arr([]), t)
  }

  function ParseMembers(s: string, acc: seq<Member>): (r: Parsed)
    ensures r.Ok? ==> |r.rest| <= |s|
    decreases |s|, 1
  {
    var k := ParseNext(s);
    if !k.Ok? then Fault
    else
      var t := Skip(k.rest);
      if Head(t) != ':' then Ok(Obj(acc), t) else ParseValue(t[1..], ToString(k.val), acc)
  }

  /** After the colon of a member. */
  function ParseValue(s: string, key: string, acc: seq<Member>): (r: Parsed)
    ensures r.Ok? ==> |r.rest| <= |s|
    decreases |s|, 1
  {
    var v := ParseNext(Skip(s));
    if !v.Ok? then Fault
    else
      var acc' := Put(acc, key, v.val);
      var u := Skip(v.rest);
      if Head(u) == ',' then ParseMembers(u[1..], acc')
      else if Head(u) == '}' then Ok(Obj(acc'), u[1..])
      else Ok(Obj(acc'), u)
  }

  function Unescape(c: char): char
  {
    if c == '\"' || c == '/' then c
    else if c == 'b' then '\U{0008}'
    else if c == 'f' then '\U{000C}'
    else if c == 'n' then '\n'
    else if c == 'r' then '\r'
    else if c == 't' then '\t'
    else '\\'
  }

  /** The characters of a string after its opening quote. */
  function ParseChars(s: string, acc: string): (r: Parsed)
    ensures r.Ok? ==> |r.rest| <= |s| && r.val.Str?
    ensures !r.PastEnd?
    decreases |s|
  {
    if s == [] then Fault
    else if s[0] == '\"' then Ok(Str(acc), s[1..])
    else if s[0] != '\\' then ParseChars(s[1..], acc + [s[0]])
    else if |s| == 1 then Fault
    else if s[1] != 'u' then ParseChars(s[2..], acc + [Unescape(s[1])])
    else if |s| >= 6 && forall i :: 2 <= i < 6 ==> IsHex(s[i]) then ParseChars(s[6..], acc + s[..6])
    else Ok(Str(""), s[1..])
  }

  predicate IsNumberChar(c: char)
  {
    c == '-' || IsDigit(c) || c == '.'
  }

  function NumberSpan(s: string): (n: nat)
    ensures n <= |s| && forall i :: 0 <= i < n ==> IsNumberChar(s[i])
    ensures !IsNumberChar(Head(s[n..]))
  {
    if s == [] || !IsNumberChar(s[0]) then 0 else 1 + NumberSpan(s[1..])
  }

  predicate EndsNumber(c: char)
  {
    IsSpace(c) || c == ',' || c == ']' || c == '}'
  }

  function ParseNumber(s: string): (r: Parsed)
    ensures r.Ok? ==> |r.rest| <= |s|
  {
    var n := NumberSpan(s);
    var c := Head(s[n..]);
    if c == 'E' || c == 'e' then Fault
    else if !EndsNumber(c) then (if n == |s| then PastEnd else Ok(Null, s[n + 1..]))
    else if '.' in s[..n] then Fault
    else match Stol(s[..n])
      case Some(k) => Ok(Int(k), s[n..])
      case None => Fault
  }

  function DigitSpan(s: string): (n: nat)
    ensures n <= |s| && forall i :: 0 <= i < n ==> IsDigit(s[i])
  {
    if s == [] || !IsDigit(s[0]) then 0 else 1 + DigitSpan(s[1..])
  }

  function Decimal(s: string): nat
    requires forall i :: 0 <= i < |s| ==> IsDigit(s[i])
  {
    if s == [] then 0 else
      assert IsDigit(s[|s| - 1]);
      Decimal(s[..|s| - 1]) * 10 + (s[|s| - 1] as int - '0' as int)
  }

  /** std::stol: none when it throws. */
  function Stol(s: string): Option<int>
  {
    var neg := s != [] && s[0] == '-';
    var t := if neg then s[1..] else s;
    var n := DigitSpan(t);
    if n == 0 then None
    else
      var k: int := if neg then -(Decimal(t[..n]) as int) else Decimal(t[..n]);
      if LONG_MIN <= k <= LONG_MAX then Some(k) else None
  }

  /** JSON::Load */
  function Load(text: string): Option<Json>
  {
    match ParseNext(text)
    case Ok(v, _) => Some(v)
    case PastEnd => Some(Null)
    case Fault => None
  }
}
