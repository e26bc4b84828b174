/**
 The parser as it runs: methods that advance an offset into the text.  Each is proved
 against the function of module Json that consumes the text that is left.
 */
module JsonParser {
  import opened Common
  import opened Json

  /** A value and the new offset, which a failed number may leave past the final NUL;
      or a run that throws, reads past the end or needs floating point. */
  datatype Read = Read(val: Json, offset: nat) | Undefined

  /** The read ends where the specification leaves the rest of the text. */
  predicate Agrees(text: string, r: Read, p: Parsed)
  {
    match p
    case Ok(v, rest) => r.Read? && r.val == v && r.offset <= |text| && text[r.offset..] == rest
    case PastEnd => r == Read(Null, |text| + 1)
    case Fault => r == Undefined
  }

  function At(text: string, offset: nat): char
    requires offset <= |text|
  {
    if offset < |text| then text[offset] else '\0'
  }

  method ConsumeWs(text: string, offset: nat) returns (o: nat)
    requires offset <= |text|
    ensures offset <= o <= |text| && text[o..] == Skip(text[offset..])
  {
    o := offset;
    while IsSpace(At(text, o))
      invariant offset <= o <= |text|
      invariant Skip(text[o..]) == Skip(text[offset..])
      decreases |text| - o
    {
      assert text[o..][1..] == text[o + 1..];
      o := o + 1;
    }
  }

  method ParseNextAt(text: string, offset: nat) returns (r: Read)
    requires offset <= |text|
    ensures Agrees(text, r, ParseNext(text[offset..]))
    ensures r.Read? ==> offset <= r.offset
    decreases |text| - offset, 1
  {
    var o := ConsumeWs(text, offset);
    ghost var t := Skip(text[offset..]);
    var c := At(text, o);
    assert Head(t) == c;
    if c == '[' {
      r := ParseArrayAt(text, o);
    } else if c == '{' {
      r := ParseObjectAt(text, o);
    } else if c == '\"' {
      assert t[1..] == text[o + 1..];
      r := ParseStringAt(text, o);
    } else if c == 't' || c == 'f' {
      r := ParseBoolAt(text, o);
    } else if c == 'n' {
      r := ParseNullAt(text, o);
    } else if IsDigit(c) || c == '-' {
      r := ParseNumberAt(text, o);
    } else {
      r := Read(Null, o);
    }
  }

  method ParseBoolAt(text: string, offset: nat) returns (r: Read)
    requires offset <= |text|
    ensures var t := text[offset..];
      Agrees(text, r, if "true" <= t then Ok(Bool(true), t[4..])
                      else if "false" <= t then Ok(Bool(false), t[5..]) else Ok(Null, t))
    ensures r.Read? && offset <= r.offset
  {
    if offset + 4 <= |text| && text[offset..offset + 4] == "true" {
      assert text[offset..][4..] == text[offset + 4..];
      r := Read(Bool(true), offset + 4);
    } else if offset + 5 <= |text| && text[offset..offset + 5] == "false" {
      assert text[offset..][5..] == text[offset + 5..];
      r := Read(Bool(false), offset + 5);
    } else {
      r := Read(Null, offset);
    }
  }

  method ParseNullAt(text: string, offset: nat) returns (r: Read)
    requires offset <= |text|
    ensures var t := text[offset..]; Agrees(text, r, Ok(Null, if "null" <= t then t[4..] else t))
    ensures r.Read? && offset <= r.offset
  {
    if offset + 4 <= |text| && text[offset..offset + 4] == "null" {
      assert text[offset..][4..] == text[offset + 4..];
      r := Read(Null, offset + 4);
    } else {
      r := Read(Null, offset);
    }
  }

  method ParseArrayAt(text: string, offset: nat) returns (r: Read)
    requires offset < |text|
    ensures var u := Skip(text[offset + 1..]);
      Agrees(text, r, if Head(u) == ']' then Ok(Arr([]), u[1..]) else ParseElems(u, []))
    ensures r.Read? ==> offset <= r.offset
    decreases |text| - offset, 0
  {
    var o := ConsumeWs(text, offset + 1);
    if At(text, o) == ']' {
      assert text[o..][1..] == text[o + 1..];
      return Read(Arr([]), o + 1);
    }
    r := ParseElemsAt(text, o);
  }

  lemma ElemsStep(text: string, o: nat, list: seq<Json>, v: Json, rest: string, p: nat)
    requires o <= |text| && p <= |text| && ParseNext(text[o..]) == Ok(v, rest) && text[p..] == Skip(rest)
    ensures At(text, p) == ',' ==> ParseElems(text[o..], list) == ParseElems(text[p + 1..], list + [v])
    ensures At(text, p) == ']' ==> ParseElems(text[o..], list) == Ok(Arr(list + [v]), text[p + 1..])
    ensures At(text, p) != ',' && At(text, p) != ']' ==> ParseElems(text[o..], list) == Ok(Arr([]), text[p..])
  {
    assert p < |text| ==> text[p..][1..] == text[p + 1..];
  }

  /** An element and the white space after it. */
  method ReadElem(text: string, o: nat) returns (v: Option<Json>, ghost after: string, p: nat)
    requires o <= |text|
    ensures v.None? ==> !ParseNext(text[o..]).Ok?
    ensures v.Some? ==> ParseNext(text[o..]) == Ok(v.value, after) && o <= p <= |text| && text[p..] == Skip(after)
    decreases |text| - o, 2
  {
    v, after, p := None, "", o;
    var e := ParseNextAt(text, o);
    if e.Read? && e.offset <= |text| {
      p := ConsumeWs(text, e.offset);
      v, after := Some(e.val), text[e.offset..];
    }
  }

  /** What follows an element: the end of the array, or the next element. */
  method AfterElem(text: string, ghost o: nat, list: seq<Json>, v: Json, ghost after: string, p: nat)
    returns (done: bool, r: Read, list': seq<Json>, next: nat)
    requires o <= p <= |text| && ParseNext(text[o..]) == Ok(v, after) && text[p..] == Skip(after)
    ensures done ==> Agrees(text, r, ParseElems(text[o..], list)) && r.Read? && o <= r.offset
    ensures !done ==> o < next <= |text| && ParseElems(text[o..], list) == ParseElems(text[next..], list')
  {
    ElemsStep(text, o, list, v, after, p);
    list' := list + [v];
    if At(text, p) == ',' {
      done, r, next := false, Undefined, p + 1;
    } else if At(text, p) == ']' {
      done, r, next := true, Read(Arr(list'), p + 1), p;
    } else {
      done, r, next := true, Read(Arr([]), p), p;
    }
  }

  lemma ElemFault(text: string, o: nat, list: seq<Json>)
    requires o <= |text| && !ParseNext(text[o..]).Ok?
    ensures ParseElems(text[o..], list) == Fault
  {
  }

  /** One element: it ends the array, or moves on to the next element. */
  method ParseElemAt(text: string, o: nat, list: seq<Json>) returns (done: bool, r: Read, list': seq<Json>, next: nat)
    requires o <= |text|
    ensures done ==> Agrees(text, r, ParseElems(text[o..], list)) && (r.Read? ==> o <= r.offset)
    ensures !done ==> o < next <= |text| && ParseElems(text[o..], list) == ParseElems(text[next..], list')
    decreases |text| - o, 3
  {
    var v, after, p := ReadElem(text, o);
    if v.None? {
      ElemFault(text, o, list);
      return true, Undefined, list, o;
    }
    done, r, list', next := AfterElem(text, o, list, v.value, after, p);
  }

  method ParseElemsAt(text: string, offset: nat) returns (r: Read)
    requires offset <= |text|
    ensures Agrees(text, r, ParseElems(text[offset..], []))
    ensures r.Read? ==> offset <= r.offset
    decreases |text| - offset, 4
  {
    var list := [];
    var o := offset;
    while true
      invariant offset <= o <= |text|
      invariant ParseElems(text[o..], list) == ParseElems(text[offset..], [])
      decreases |text| - o
    {
      var done, end, more, next := ParseElemAt(text, o, list);
      if done {
        return end;
      }
      list, o := more, next;
    }
  }

  method ParseObjectAt(text: string, offset: nat) returns (r: Read)
    requires offset < |text|
    ensures var u := Skip(text[offset + 1..]);
      Agrees(text, r, if Head(u) == '}' then Ok(Obj([]), u[1..]) else ParseMembers(u, []))
    ensures r.Read? ==> offset <= r.offset
    decreases |text| - offset, 0
  {
    var o := ConsumeWs(text, offset + 1);
    if At(text, o) == '}' {
      assert text[o..][1..] == text[o + 1..];
      return Read(Obj([]), o + 1);
    }
    r := ParseMembersAt(text, o);
  }

  lemma ValueStep(text: string, p: nat, key: string, ms: seq<Member>, v: Json, after: string, u: nat)
    requires p <= |text| && ParseNext(Skip(text[p..])) == Ok(v, after)
    requires u <= |text| && text[u..] == Skip(after)
    ensures var ms' := Put(ms, key, v);
      && (At(text, u) == ',' ==> ParseValue(text[p..], key, ms) == ParseMembers(text[u + 1..], ms'))
      && (At(text, u) == '}' ==> ParseValue(text[p..], key, ms) == Ok(Obj(ms'), text[u + 1..]))
      && (At(text, u) != ',' && At(text, u) != '}' ==> ParseValue(text[p..], key, ms) == Ok(Obj(ms'), text[u..]))
  {
    assert u < |text| ==> text[u..][1..] == text[u + 1..];
  }

  lemma MemberStep(text: string, o: nat, ms: seq<Member>, k: Json, rest: string, p: nat)
    requires o <= |text| && ParseNext(text[o..]) == Ok(k, rest)
    requires p <= |text| && text[p..] == Skip(rest)
    ensures ParseMembers(text[o..], ms) ==
      if At(text, p) != ':' then Ok(Obj(ms), text[p..]) else ParseValue(text[p + 1..], ToString(k), ms)
  {
    assert p < |text| ==> text[p..][1..] == text[p + 1..];
  }

  /** A value and the white space after it. */
  method ReadValue(text: string, p: nat) returns (v: Option<Json>, ghost after: string, u: nat)
    requires p <= |text|
    ensures v.None? ==> !ParseNext(Skip(text[p..])).Ok?
    ensures v.Some? ==> ParseNext(Skip(text[p..])) == Ok(v.value, after) && p <= u <= |text| && text[u..] == Skip(after)
    decreases |text| - p, 2
  {
    v, after, u := None, "", p;
    var q := ConsumeWs(text, p);
    var val := ParseNextAt(text, q);
    if val.Read? && val.offset <= |text| {
      u := ConsumeWs(text, val.offset);
      v, after := Some(val.val), text[val.offset..];
    }
  }

  lemma ValueFault(text: string, p: nat, key: string, ms: seq<Member>)
    requires p <= |text| && !ParseNext(Skip(text[p..])).Ok?
    ensures ParseValue(text[p..], key, ms) == Fault
  {
  }

  /** What follows a value: the end of the object, or the next member. */
  method AfterValue(text: string, ghost p: nat, key: string, ms: seq<Member>, v: Json, ghost after: string, u: nat)
    returns (done: bool, r: Read, ms': seq<Member>, next: nat)
    requires p <= u <= |text| && ParseNext(Skip(text[p..])) == Ok(v, after) && text[u..] == Skip(after)
    ensures done ==> Agrees(text, r, ParseValue(text[p..], key, ms)) && r.Read? && p <= r.offset
    ensures !done ==> p < next <= |text| && ParseValue(text[p..], key, ms) == ParseMembers(text[next..], ms')
  {
    ValueStep(text, p, key, ms, v, after, u);
    ms' := Put(ms, key, v);
    if At(text, u) == ',' {
      done, r, next := false, Undefined, u + 1;
    } else {
      done, r, next := true, Read(Obj(ms'), if At(text, u) == '}' then u + 1 else u), u;
    }
  }

  /** The value after a colon and what follows it: the end of the object, or the next member. */
  method ParseValueAt(text: string, p: nat, key: string, ms: seq<Member>)
    returns (done: bool, r: Read, ms': seq<Member>, next: nat)
    requires p <= |text|
    ensures done ==> Agrees(text, r, ParseValue(text[p..], key, ms)) && (r.Read? ==> p <= r.offset)
    ensures !done ==> p < next <= |text| && ParseValue(text[p..], key, ms) == ParseMembers(text[next..], ms')
    decreases |text| - p, 3
  {
    var v, after, u := ReadValue(text, p);
    if v.None? {
      ValueFault(text, p, key, ms);
      return true, Undefined, ms, p;
    }
    done, r, ms', next := AfterValue(text, p, key, ms, v.value, after, u);
  }

  lemma MemberFault(text: string, o: nat, ms: seq<Member>)
    requires o <= |text| && !ParseNext(text[o..]).Ok?
    ensures ParseMembers(text[o..], ms) == Fault
  {
  }

  /** One member: it ends the object, or moves on to the next member. */
  method ParseMemberAt(text: string, o: nat, ms: seq<Member>) returns (done: bool, r: Read, ms': seq<Member>, next: nat)
    requires o <= |text|
    ensures done ==> Agrees(text, r, ParseMembers(text[o..], ms)) && (r.Read? ==> o <= r.offset)
    ensures !done ==> o < next <= |text| && ParseMembers(text[o..], ms) == ParseMembers(text[next..], ms')
    decreases |text| - o, 4
  {
    var key, after, p := ReadElem(text, o);
    if key.None? {
      MemberFault(text, o, ms);
      return true, Undefined, ms, o;
    }
    MemberStep(text, o, ms, key.value, after, p);
    if At(text, p) != ':' {
      return true, Read(Obj(ms), p), ms, o;
    }
    done, r, ms', next := ParseValueAt(text, p + 1, ToString(key.value), ms);
  }

  method ParseMembersAt(text: string, offset: nat) returns (r: Read)
    requires offset <= |text|
    ensures Agrees(text, r, ParseMembers(text[offset..], []))
    ensures r.Read? ==> offset <= r.offset
    decreases |text| - offset, 5
  {
    var members := [];
    var o := offset;
    while true
      invariant offset <= o <= |text|
      invariant ParseMembers(text[o..], members) == ParseMembers(text[offset..], [])
      decreases |text| - o
    {
      var done, end, ms, next := ParseMemberAt(text, o, members);
      if done {
        return end;
      }
      members, o := ms, next;
    }
  }

  /** Four hexadecimal digits after a backslash and a u. */
  predicate Unicode(text: string, o: nat)
  {
    o + 6 <= |text| && forall i :: o + 2 <= i < o + 6 ==> IsHex(text[i])
  }

  lemma CharStep(text: string, o: nat, val: string)
    requires o < |text| && text[o] != '\"' && text[o] != '\\'
    ensures ParseChars(text[o..], val) == ParseChars(text[o + 1..], val + [text[o]])
  {
    assert text[o..][1..] == text[o + 1..];
  }

  lemma EscapeStep(text: string, o: nat, val: string)
    requires o + 1 < |text| && text[o] == '\\' && text[o + 1] != 'u'
    ensures ParseChars(text[o..], val) == ParseChars(text[o + 2..], val + [Unescape(text[o + 1])])
  {
    assert text[o..][2..] == text[o + 2..];
  }

  lemma UnicodeStep(text: string, o: nat, val: string)
    requires o + 1 < |text| && text[o] == '\\' && text[o + 1] == 'u'
    ensures ParseChars(text[o..], val) ==
      if Unicode(text, o) then ParseChars(text[o + 6..], val + text[o..o + 6]) else Ok(Str(""), text[o + 1..])
  {
    var s := text[o..];
    assert s[1..] == text[o + 1..];
    if o + 6 <= |text| {
      assert s[6..] == text[o + 6..] && s[..6] == text[o..o + 6];
      assert forall i :: 2 <= i < 6 ==> s[i] == text[o + i];
      assert forall i :: o + 2 <= i < o + 6 ==> text[i] == s[i - o];
    }
  }

  lemma CharsEnd(text: string, o: nat, val: string)
    requires o <= |text|
    ensures o == |text| ==> ParseChars(text[o..], val) == Fault
    ensures o < |text| && text[o] == '\"' ==> ParseChars(text[o..], val) == Ok(Str(val), text[o + 1..])
    ensures o + 1 == |text| && text[o] == '\\' ==> ParseChars(text[o..], val) == Fault
  {
    assert o < |text| ==> text[o..][1..] == text[o + 1..];
  }

  /** One character or escape of a string; none when the string breaks off. */
  method ReadChar(text: string, o: nat, val: string) returns (val': Option<string>, r: Read, o': nat)
    requires o < |text| && text[o] != '\"'
    ensures val'.Some? ==> o < o' <= |text| && ParseChars(text[o..], val) == ParseChars(text[o'..], val'.value)
    ensures val'.None? ==> Agrees(text, r, ParseChars(text[o..], val)) && (r.Read? ==> o <= r.offset)
  {
    val', r, o' := None, Undefined, o;
    if text[o] != '\\' {
      CharStep(text, o, val);
      val', o' := Some(val + [text[o]]), o + 1;
    } else if o + 1 == |text| {
      CharsEnd(text, o, val);
    } else if text[o + 1] != 'u' {
      EscapeStep(text, o, val);
      val', o' := Some(val + [Unescape(text[o + 1])]), o + 2;
    } else {
      UnicodeStep(text, o, val);
      if Unicode(text, o) {
        val', o' := Some(val + text[o..o + 6]), o + 6;
      } else {
        r := Read(Str(""), o + 1);
      }
    }
  }

  method ParseStringAt(text: string, offset: nat) returns (r: Read)
    requires offset < |text|
    ensures Agrees(text, r, ParseChars(text[offset + 1..], ""))
    ensures r.Read? ==> offset <= r.offset
  {
    var val := "";
    var o := offset + 1;
    while o < |text| && text[o] != '\"'
      invariant offset < o <= |text|
      invariant ParseChars(text[o..], val) == ParseChars(text[offset + 1..], "")
      decreases |text| - o
    {
      var val', stop, o' := ReadChar(text, o, val);
      if val'.None? {
        return stop;
      }
      val, o := val'.value, o';
    }
    CharsEnd(text, o, val);
    r := if o == |text| then Undefined else Read(Str(val), o + 1);
  }

  lemma SpanStep(text: string, o: nat)
    requires o <= |text|
    ensures NumberSpan(text[o..]) == if o < |text| && IsNumberChar(text[o]) then 1 + NumberSpan(text[o + 1..]) else 0
  {
    assert o < |text| ==> text[o..][1..] == text[o + 1..];
  }

  method ParseNumberAt(text: string, offset: nat) returns (r: Read)
    requires offset <= |text|
    ensures Agrees(text, r, ParseNumber(text[offset..]))
    ensures r.Read? ==> offset <= r.offset
  {
    var val, isDouble, o := ReadNumber(text, offset);
    r := FinishNumber(text, offset, o, val, isDouble);
  }

  lemma OneMore(text: string, offset: nat, o: nat)
    requires offset <= o < |text|
    ensures text[offset..o] + [text[o]] == text[offset..o + 1]
    ensures '.' in text[offset..o + 1] <==> '.' in text[offset..o] || text[o] == '.'
  {
    assert text[offset..o] + [text[o]] == text[offset..o + 1];
  }

  method ReadNumber(text: string, offset: nat) returns (val: string, isDouble: bool, o: nat)
    requires offset <= |text|
    ensures offset <= o <= |text| && val == text[offset..o] && NumberSpan(text[offset..]) == o - offset
    ensures isDouble <==> '.' in val
  {
    val, isDouble, o := "", false, offset;
    ghost var span := NumberSpan(text[offset..]);
    while o < |text| && IsNumberChar(text[o])
      invariant offset <= o <= |text| && val == text[offset..o]
      invariant span == o - offset + NumberSpan(text[o..])
      invariant isDouble <==> '.' in val
      decreases |text| - o
    {
      SpanStep(text, o);
      OneMore(text, offset, o);
      val := val + [text[o]];
      isDouble := isDouble || text[o] == '.';
      o := o + 1;
    }
    SpanStep(text, o);
  }

  method FinishNumber(text: string, ghost offset: nat, o: nat, val: string, isDouble: bool) returns (r: Read)
    requires offset <= o <= |text| && val == text[offset..o] && NumberSpan(text[offset..]) == o - offset
    requires isDouble <==> '.' in val
    ensures Agrees(text, r, ParseNumber(text[offset..]))
    ensures r.Read? ==> offset <= r.offset
  {
    var c := At(text, o);
    NumberCases(text, offset, o, val);
    if c == 'E' || c == 'e' {
      r := Undefined;
    } else if !EndsNumber(c) {
      r := Read(Null, o + 1);
    } else if isDouble {
      r := Undefined;
    } else {
      var k := Stol(val);
      r := if k.Some? then Read(Int(k.value), o) else Undefined;
    }
  }

  lemma NumberCases(text: string, offset: nat, o: nat, val: string)
    requires offset <= o <= |text| && val == text[offset..o] && NumberSpan(text[offset..]) == o - offset
    ensures var c, p := At(text, o), ParseNumber(text[offset..]);
      if c == 'E' || c == 'e' then p == Fault
      else if !EndsNumber(c) then p == (if o == |text| then PastEnd else Ok(Null, text[o + 1..]))
      else if '.' in val then p == Fault
      else if Stol(val).Some? then p == Ok(Int(Stol(val).value), text[o..])
      else p == Fault
  {
    var s := text[offset..];
    assert s[o - offset..] == text[o..] && s[..o - offset] == val;
    assert o < |text| ==> s[o - offset + 1..] == text[o + 1..];
  }

  /** JSON::Load as it runs. */
  method LoadText(text: string) returns (v: Option<Json>)
    ensures v == Load(text)
  {
    assert text[0..] == text;
    var r := ParseNextAt(text, 0);
    v := match r case Read(val, _) => Some(val) case Undefined => None;
  }
}
