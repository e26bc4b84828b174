/**
 Witnesses as text: the context that collects the hashes of a task, the signed JSON text
 it ends in, and the check that parses such a text, prints it again without its signature
 and verifies the signature over that print.

 SHA-256 and Ed25519 are parameters.
 */
module WitnessText {
  import opened Common
  import opened Json
  import opened JsonRoundTrip

  newtype Byte = x: int | 0 <= x < 256

  datatype Crypto = Crypto(
    sha: string -> string,
    sign: string -> seq<Byte>,
    verify: (string, seq<Byte>) -> bool
  )

  /** Signatures are 64 bytes long and verify over the text they sign. */
  ghost predicate SignsWell(c: Crypto)
  {
    (forall m :: |c.sign(m)| == 64) && forall m :: c.verify(m, c.sign(m))
  }

  // ----- hexadecimal signatures -----

  function HexDigit(d: int): char
    requires 0 <= d < 16
  {
    if d < 10 then '0' + d as char else 'a' + (d - 10) as char
  }

  /** "%02x" */
  function HexByte(b: Byte): string
  {
    [HexDigit(b as int / 16), HexDigit(b as int % 16)]
  }

  function Hex(sig: seq<Byte>): (s: string)
    ensures |s| == 2 * |sig|
  {
    if sig == [] then "" else Hex(sig[..|sig| - 1]) + HexByte(sig[|sig| - 1])
  }

  const HEX := "0123456789abcdef"
  const UPPER := "0123456789ABCDEF"
  /** What may come before a number. */
  const BEFORE := " \t\n\U{000B}\U{000C}\r+"

  /** Byte `i` is printed as its high digit and its low digit. */
  lemma {:induction false} HexAt(sig: seq<Byte>, i: nat)
    requires i < |sig|
    ensures Hex(sig)[2 * i] == HEX[sig[i] as int / 16] && Hex(sig)[2 * i + 1] == HEX[sig[i] as int % 16]
  {
    if i < |sig| - 1 {
      HexAt(sig[..|sig| - 1], i);
    } else {
      HexDigitIs(sig[i] as int / 16);
      HexDigitIs(sig[i] as int % 16);
    }
  }

  lemma HexDigitIs(d: nat)
    requires d < 16
    ensures HexDigit(d) == HEX[d] && IsHex(HEX[d]) && IsHex(UPPER[d])
    ensures HexValue(HEX[d]) == d && HexValue(UPPER[d]) == d
  {
  }

  method SigToString(sig: seq<Byte>) returns (s: string)
    ensures s == Hex(sig)
    ensures forall i :: 0 <= i < |sig| ==>
      s[2 * i] == HEX[sig[i] as int / 16] && s[2 * i + 1] == HEX[sig[i] as int % 16]
  {
    forall i | 0 <= i < |sig|
      ensures Hex(sig)[2 * i] == HEX[sig[i] as int / 16] && Hex(sig)[2 * i + 1] == HEX[sig[i] as int % 16]
    {
      HexAt(sig, i);
    }
    s := "";
    for i := 0 to |sig|
      invariant s == Hex(sig[..i])
    {
      assert sig[..i + 1][..i] == sig[..i];
      s := s + HexByte(sig[i]);
    }
    assert sig[..|sig|] == sig;
  }

  function HexValue(c: char): int
    requires IsHex(c)
    ensures 0 <= HexValue(c) < 16
  {
    if IsDigit(c) then c as int - '0' as int
    else if 'a' <= c <= 'f' then c as int - 'a' as int + 10
    else c as int - 'A' as int + 10
  }

  /** strtol(temp, 0, 16) of a two-character buffer, cut to a byte. */
  function StrtolByte(a: char, b: char): Byte
  {
    if IsHex(a) then (if IsHex(b) then 16 * HexValue(a) + HexValue(b) else HexValue(a)) as Byte
    else if !IsHex(b) then 0
    else if IsSpace(a) || a == '+' then HexValue(b) as Byte
    else if a == '-' then ((256 - HexValue(b)) % 256) as Byte
    else 0
  }

  method StringToSig(s: string) returns (sig: seq<Byte>)
    requires |s| >= 128
    ensures sig == Unhex(s, 64)
  {
    sig := [];
    for i := 0 to 64
      invariant sig == Unhex(s, i)
    {
      sig := sig + [StrtolByte(s[2 * i], s[2 * i + 1])];
    }
  }

  function Unhex(s: string, n: nat): (sig: seq<Byte>)
    requires |s| >= 2 * n
    ensures |sig| == n
  {
    if n == 0 then [] else Unhex(s, n - 1) + [StrtolByte(s[2 * n - 2], s[2 * n - 1])]
  }

  /** `c` is a hexadecimal digit of value `d`, in either case. */
  predicate HexIs(c: char, d: nat)
  {
    d < 16 && (c == HEX[d] || c == UPPER[d])
  }

  lemma {:induction false} UnhexLast(s: string, n: nat, i: nat)
    requires |s| >= 2 * n && i < n
    ensures Unhex(s, n)[i] == StrtolByte(s[2 * i], s[2 * i + 1])
  {
    if i < n - 1 {
      UnhexLast(s, n - 1, i);
    }
  }

  lemma HexIsHex(c: char, d: nat)
    requires HexIs(c, d)
    ensures IsHex(c) && HexValue(c) == d
  {
    HexDigitIs(d);
  }

  lemma DigitFirst(a: char, b: char, high: nat, low: nat)
    requires HexIs(a, high)
    ensures HexIs(b, low) ==> StrtolByte(a, b) as int == 16 * high + low
    ensures !IsHex(b) ==> StrtolByte(a, b) as int == high
  {
    HexIsHex(a, high);
    if HexIs(b, low) {
      HexIsHex(b, low);
    }
  }

  lemma DigitSecond(a: char, b: char, low: nat)
    requires !IsHex(a) && HexIs(b, low)
    ensures IsSpace(a) || a == '+' ==> StrtolByte(a, b) as int == low
    ensures a == '-' ==> (StrtolByte(a, b) as int + low) % 256 == 0
  {
    HexIsHex(b, low);
  }

  lemma SignIsNoDigit(a: char)
    requires a in BEFORE
    ensures !IsHex(a) && (IsSpace(a) || a == '+')
  {
  }

  /** Byte `i` is read from two characters as strtol reads them: two digits, one digit before or
      after another character that may come there, or none. */
  lemma UnhexAt(s: string, n: nat, i: nat, high: nat, low: nat)
    requires |s| >= 2 * n && i < n
    ensures HexIs(s[2 * i], high) && HexIs(s[2 * i + 1], low) ==> Unhex(s, n)[i] as int == 16 * high + low
    ensures HexIs(s[2 * i], high) && !IsHex(s[2 * i + 1]) ==> Unhex(s, n)[i] as int == high
    ensures s[2 * i] in BEFORE && HexIs(s[2 * i + 1], low) ==> Unhex(s, n)[i] as int == low
    ensures s[2 * i] == '-' && HexIs(s[2 * i + 1], low) ==> (Unhex(s, n)[i] as int + low) % 256 == 0
    ensures !IsHex(s[2 * i]) && !IsHex(s[2 * i + 1]) ==> Unhex(s, n)[i] == 0
  {
    UnhexLast(s, n, i);
    var a, b := s[2 * i], s[2 * i + 1];
    if HexIs(a, high) {
      DigitFirst(a, b, high, low);
    }
    if a in BEFORE {
      SignIsNoDigit(a);
    }
    if !IsHex(a) && HexIs(b, low) {
      DigitSecond(a, b, low);
    }
  }

  lemma UnhexByte(b: Byte)
    ensures StrtolByte(HexByte(b)[0], HexByte(b)[1]) == b
    ensures PlainChar(HexByte(b)[0]) && PlainChar(HexByte(b)[1])
  {
    assert b as int == 16 * (b as int / 16) + b as int % 16;
  }

  lemma {:induction false} UnhexPrefix(s: string, more: string, n: nat)
    requires |s| >= 2 * n
    ensures Unhex(s + more, n) == Unhex(s, n)
  {
    if n > 0 {
      UnhexPrefix(s, more, n - 1);
    }
  }

  lemma UnhexSnoc(s: string, b: Byte, n: nat)
    requires |s| == 2 * n && Plain(s)
    ensures Unhex(s + HexByte(b), n + 1) == Unhex(s, n) + [b] && Plain(s + HexByte(b))
  {
    var t := s + HexByte(b);
    UnhexPrefix(s, HexByte(b), n);
    UnhexByte(b);
    assert t[2 * n] == HexByte(b)[0] && t[2 * n + 1] == HexByte(b)[1];
  }

  /** The hexadecimal signature decodes to itself. */
  lemma {:induction false} UnhexHex(sig: seq<Byte>)
    ensures Unhex(Hex(sig), |sig|) == sig && Plain(Hex(sig))
  {
    if sig != [] {
      var front, last := sig[..|sig| - 1], sig[|sig| - 1];
      UnhexHex(front);
      UnhexSnoc(Hex(front), last, |front|);
      assert sig == front + [last];
    }
  }

  // ----- plain strings escape to themselves -----

  predicate PlainChar(c: char)
  {
    EscapeChar(c) == [c]
  }

  predicate Plain(s: string)
  {
    forall i :: 0 <= i < |s| ==> PlainChar(s[i])
  }

  lemma {:induction false} EscapePlain(s: string)
    requires Plain(s)
    ensures Escape(s) == s
  {
    if s != [] {
      EscapePlain(s[..|s| - 1]);
      assert s == s[..|s| - 1] + [s[|s| - 1]];
    }
  }

  // ----- the witness as a JSON value -----

  function Unsigned(tag: Json, ins: Json, out: Json, func: Json): Json
  {
    Obj([Member("FUNC", func), Member("IN", ins), Member("OUT", out), Member("TAG", tag)])
  }

  function Signed(tag: Json, ins: Json, out: Json, func: Json, sig: Json): Json
  {
    Obj([Member("FUNC", func), Member("IN", ins), Member("OUT", out), Member("SIG", sig), Member("TAG", tag)])
  }

  /** The text a finished witness is stored as. */
  function SignedText(c: Crypto, tag: string, ins: seq<string>, out: string, func: string): string
  {
    var unsigned := Dump(Unsigned(Str(tag), Arr(Strs(ins)), Str(out), Str(func)), 1);
    Dump(Signed(Str(tag), Arr(Strs(ins)), Str(out), Str(func), Str(Hex(c.sign(unsigned)))), 1)
  }

  /** The four assignments of both the maker and the checker of a witness. */
  function PutFour(tag: Json, ins: Json, out: Json, func: Json): seq<Member>
  {
    Put(Put(Put(Put([], "TAG", tag), "IN", ins), "OUT", out), "FUNC", func)
  }

  lemma PutFourSorted(tag: Json, ins: Json, out: Json, func: Json)
    ensures Obj(PutFour(tag, ins, out, func)) == Unsigned(tag, ins, out, func)
  {
    assert Put([], "TAG", tag) == [Member("TAG", tag)];
    assert Put([Member("TAG", tag)], "IN", ins) == [Member("IN", ins), Member("TAG", tag)];
    var three := [Member("IN", ins), Member("OUT", out), Member("TAG", tag)];
    assert Put([Member("IN", ins), Member("TAG", tag)], "OUT", out) == three by {
      assert [Member("IN", ins), Member("TAG", tag)][1..] == [Member("TAG", tag)];
    }
    assert Put(three, "FUNC", func) == [Member("FUNC", func)] + three;
  }

  lemma PutSig(tag: Json, ins: Json, out: Json, func: Json, sig: Json)
    ensures Obj(Put(Unsigned(tag, ins, out, func).members, "SIG", sig)) == Signed(tag, ins, out, func, sig)
  {
    var ms := Unsigned(tag, ins, out, func).members;
    assert ms[1..][1..][1..] == [Member("TAG", tag)];
    assert Put(ms[1..][1..][1..], "SIG", sig) == [Member("SIG", sig), Member("TAG", tag)];
    assert Put(ms[1..][1..], "SIG", sig) == [ms[2], Member("SIG", sig), Member("TAG", tag)];
    assert Put(ms[1..], "SIG", sig) == [ms[1], ms[2], Member("SIG", sig), Member("TAG", tag)];
  }

  // ----- making a witness -----

  class WitnessContext {
    var tag: string
    var ins: seq<string>
    var out: string
    var bin: string
    var stage: int

    constructor ()
      ensures tag == "" && ins == [] && out == "" && bin == "" && stage == 0
    {
      tag, ins, out, bin, stage := "", [], "", "", 0;
    }

    method Init(t: string)
      modifies this
      ensures tag == t && stage == 1 && ins == old(ins) && out == old(out) && bin == old(bin)
    {
      tag, stage := t, 1;
    }

    method Input(c: Crypto, data: string)
      modifies this
      ensures ins == old(ins) + [c.sha(data)] && stage == 2
      ensures tag == old(tag) && out == old(out) && bin == old(bin)
    {
      ins, stage := ins + [c.sha(data)], 2;
    }

    /** A second output is dropped only while nothing else was added after the first. */
    method Output(c: Crypto, data: string)
      modifies this
      ensures out == (if old(stage) == 3 then old(out) else c.sha(data)) && stage == 3
      ensures tag == old(tag) && ins == old(ins) && bin == old(bin)
    {
      if stage != 3 {
        out, stage := c.sha(data), 3;
      }
    }

    method Func(c: Crypto, data: string)
      modifies this
      ensures bin == (if old(stage) == 4 then old(bin) else c.sha(data)) && stage == 4
      ensures tag == old(tag) && ins == old(ins) && out == old(out)
    {
      if stage != 4 {
        bin, stage := c.sha(data), 4;
      }
    }

    /** The signed text; none when the context was finalized before. */
    method Finalize(c: Crypto) returns (text: Option<string>)
      modifies this
      ensures text == if old(stage) == 5 then None else Some(SignedText(c, old(tag), old(ins), old(out), old(bin)))
      ensures stage == 5 && tag == old(tag) && ins == old(ins) && out == old(out) && bin == old(bin)
    {
      if stage == 5 {
        return None;
      }
      var list := [];
      for i := 0 to |ins|
        invariant list == Strs(ins[..i])
        invariant stage == old(stage) && tag == old(tag) && ins == old(ins) && out == old(out) && bin == old(bin)
      {
        list := list + [Str(ins[i])];
      }
      assert ins[..|ins|] == ins;
      var members := Put(Put(Put(Put([], "TAG", Str(tag)), "IN", Arr(list)), "OUT", Str(out)), "FUNC", Str(bin));
      PutFourSorted(Str(tag), Arr(list), Str(out), Str(bin));
      var sig := SigToString(c.sign(Dump(Obj(members), 1)));
      PutSig(Str(tag), Arr(list), Str(out), Str(bin), Str(sig));
      text := Some(Dump(Obj(Put(members, "SIG", Str(sig))), 1));
      stage := 5;
    }
  }

  // ----- checking a witness -----

  /** None when the text does not parse or its signature is too short to read. */
  function CheckWitness(c: Crypto, text: string): Option<bool>
  {
    match Load(text)
    case None => None
    case Some(w) =>
      var again := PutFour(Get(w, "TAG"), Get(w, "IN"), Get(w, "OUT"), Get(w, "FUNC"));
      var sig := ToString(Get(w, "SIG"));
      if |sig| < 128 then None
      else Some(c.verify(Dump(Obj(again), 1), Unhex(sig, 64)))
  }

  /** The hashes that a stored witness lists as its inputs. */
  function ReadIns(text: string): seq<string>
  {
    match Load(text)
    case None => []
    case Some(w) =>
      var a := Get(w, "IN");
      if a.Arr? then seq(|a.elems|, i requires 0 <= i < |a.elems| => ToString(a.elems[i])) else []
  }

  /** The key under which a witness is stored: its output without the quotes. */
  function WitnessKey(text: string): string
  {
    match Load(text)
    case None => ""
    case Some(w) =>
      var d := Dump(Get(w, "OUT"), 1);
      if |d| >= 2 then d[1..|d| - 1] else ""
  }

  lemma PlainEscapes(s: string)
    requires Plain(s)
    ensures EscapeForm(s)
  {
    EscapePlain(s);
  }

  lemma InsPrintable(ins: seq<string>)
    ensures Printable(Arr(Strs(ins)))
  {
    assert forall e :: e in Strs(ins) ==> Printable(e);
  }

  /** Members with plain keys whose first letters ascend. */
  lemma PlainPrintable(ms: seq<Member>)
    requires forall i :: 0 <= i < |ms| ==> ms[i].key != [] && Plain(ms[i].key) && Printable(ms[i].val)
    requires forall i, j :: 0 <= i < j < |ms| ==> ms[i].key[0] < ms[j].key[0]
    ensures Printable(Obj(ms))
  {
    assert Sorted(ms);
    forall m | m in ms ensures EscapeForm(m.key) && Printable(m.val) {
      PlainEscapes(m.key);
    }
  }

  lemma StrPrintable(s: string)
    ensures Printable(Str(s))
  {
  }

  lemma SignedPrintable(tag: string, ins: seq<string>, out: string, func: string, sig: string)
    ensures Printable(Signed(Str(tag), Arr(Strs(ins)), Str(out), Str(func), Str(sig)))
  {
    InsPrintable(ins);
    StrPrintable(tag);
    StrPrintable(out);
    StrPrintable(func);
    StrPrintable(sig);
    SignedOfPrintable(Str(tag), Arr(Strs(ins)), Str(out), Str(func), Str(sig));
  }

  lemma SignedOfPrintable(tag: Json, ins: Json, out: Json, func: Json, sig: Json)
    requires Printable(tag) && Printable(ins) && Printable(out) && Printable(func) && Printable(sig)
    ensures Printable(Signed(tag, ins, out, func, sig))
  {
    var ms := Signed(tag, ins, out, func, sig).members;
    assert ms[0].key == "FUNC" && ms[1].key == "IN" && ms[2].key == "OUT" && ms[3].key == "SIG" && ms[4].key == "TAG";
    PlainPrintable(ms);
  }

  lemma SignedLoads(tag: string, ins: seq<string>, out: string, func: string, sig: string)
    ensures var v := Signed(Str(tag), Arr(Strs(ins)), Str(out), Str(func), Str(sig)); Load(Dump(v, 1)) == Some(v)
  {
    SignedPrintable(tag, ins, out, func, sig);
    LoadUndoesDump(Signed(Str(tag), Arr(Strs(ins)), Str(out), Str(func), Str(sig)));
  }

  lemma {:induction false} FindAt(ms: seq<Member>, i: nat)
    requires i < |ms| && forall j :: 0 <= j < i ==> ms[j].key != ms[i].key
    ensures Find(ms, ms[i].key) == ms[i].val
  {
    if i > 0 {
      assert ms[1..][i - 1] == ms[i];
      forall j | 0 <= j < i - 1 ensures ms[1..][j].key != ms[i].key {
        assert ms[1..][j] == ms[j + 1];
      }
      FindAt(ms[1..], i - 1);
    }
  }

  lemma SignedFields(tag: Json, ins: Json, out: Json, func: Json, sig: Json)
    ensures var w := Signed(tag, ins, out, func, sig);
      && Get(w, "TAG") == tag && Get(w, "IN") == ins && Get(w, "OUT") == out
      && Get(w, "FUNC") == func && Get(w, "SIG") == sig
  {
    var ms := Signed(tag, ins, out, func, sig).members;
    FindAt(ms, 0);
    FindAt(ms, 1);
    FindAt(ms, 2);
    FindAt(ms, 3);
    FindAt(ms, 4);
    assert ms[0].key == "FUNC" && ms[1].key == "IN" && ms[2].key == "OUT" && ms[3].key == "SIG" && ms[4].key == "TAG";
  }

  /** For any text, the answer is that of the signature check over the print of the four loaded
      fields; there is none exactly if the text does not parse or SIG is too short. */
  lemma CheckMeans(c: Crypto, text: string)
    ensures CheckWitness(c, text).None? <==> Load(text).None? || |ToString(Get(Load(text).value, "SIG"))| < 128
    ensures CheckWitness(c, text).Some? ==>
      var w := Load(text).value;
      CheckWitness(c, text).value
        == c.verify(Dump(Unsigned(Get(w, "TAG"), Get(w, "IN"), Get(w, "OUT"), Get(w, "FUNC")), 1),
                    Unhex(ToString(Get(w, "SIG")), 64))
  {
    if Load(text).Some? {
      var w := Load(text).value;
      PutFourSorted(Get(w, "TAG"), Get(w, "IN"), Get(w, "OUT"), Get(w, "FUNC"));
    }
  }

  /** Of a stored witness with any four fields and any signature, that signature is checked over
      the print of these fields. */
  lemma StoredIsChecked(c: Crypto, tag: Json, ins: Json, out: Json, func: Json, sig: seq<Byte>)
    requires Printable(tag) && Printable(ins) && Printable(out) && Printable(func) && |sig| == 64
    ensures CheckWitness(c, Dump(Signed(tag, ins, out, func, Str(Hex(sig))), 1))
         == Some(c.verify(Dump(Unsigned(tag, ins, out, func), 1), sig))
  {
    var w := Signed(tag, ins, out, func, Str(Hex(sig)));
    SignedOfPrintable(tag, ins, out, func, Str(Hex(sig)));
    LoadUndoesDump(w);
    SignedFields(tag, ins, out, func, Str(Hex(sig)));
    UnhexHex(sig);
    EscapePlain(Hex(sig));
    CheckMeans(c, Dump(w, 1));
  }

  lemma StringsPrintable(tag: string, ins: seq<string>, out: string, func: string)
    ensures Printable(Str(tag)) && Printable(Arr(Strs(ins))) && Printable(Str(out)) && Printable(Str(func))
  {
    InsPrintable(ins);
  }

  /** Every witness that a context produces is accepted once stored as text, for any tag,
      any inputs, output and function: the print the checker rebuilds is the print that
      was signed. */
  lemma ProducedIsAccepted(c: Crypto, tag: string, ins: seq<string>, out: string, func: string)
    requires SignsWell(c)
    ensures CheckWitness(c, SignedText(c, tag, ins, out, func)) == Some(true)
  {
    var t, i, o, f := Str(tag), Arr(Strs(ins)), Str(out), Str(func);
    StringsPrintable(tag, ins, out, func);
    StoredIsChecked(c, t, i, o, f, c.sign(Dump(Unsigned(t, i, o, f), 1)));
  }

  /** No signature verifies over another text than the one it was made for. */
  ghost predicate SignsOnce(c: Crypto)
  {
    forall m, m' :: c.verify(m', c.sign(m)) ==> m' == m
  }

  lemma UnsignedPrintable(tag: Json, ins: Json, out: Json, func: Json)
    requires Printable(tag) && Printable(ins) && Printable(out) && Printable(func)
    ensures Printable(Unsigned(tag, ins, out, func))
  {
    PlainPrintable(Unsigned(tag, ins, out, func).members);
  }

  /** A witness that was altered after signing is accepted exactly if it says the same: the
      signature of one text, stored with any tag, inputs, output and function. */
  lemma AlteredIsRejected(c: Crypto, tag: string, ins: seq<string>, out: string, func: string,
                          tag': string, ins': seq<string>, out': string, func': string)
    requires SignsWell(c) && SignsOnce(c)
    ensures var sig := c.sign(Dump(Unsigned(Str(tag), Arr(Strs(ins)), Str(out), Str(func)), 1));
      CheckWitness(c, Dump(Signed(Str(tag'), Arr(Strs(ins')), Str(out'), Str(func'), Str(Hex(sig))), 1))
        == Some(tag' == tag && ins' == ins && out' == out && func' == func)
  {
    var v := Unsigned(Str(tag), Arr(Strs(ins)), Str(out), Str(func));
    var v' := Unsigned(Str(tag'), Arr(Strs(ins')), Str(out'), Str(func'));
    StringsPrintable(tag, ins, out, func);
    StringsPrintable(tag', ins', out', func');
    StoredIsChecked(c, Str(tag'), Arr(Strs(ins')), Str(out'), Str(func'), c.sign(Dump(v, 1)));
    UnsignedPrintable(Str(tag), Arr(Strs(ins)), Str(out), Str(func));
    UnsignedPrintable(Str(tag'), Arr(Strs(ins')), Str(out'), Str(func'));
    LoadUndoesDump(v);
    LoadUndoesDump(v');
    assert Dump(v', 1) == Dump(v, 1) ==> v' == v;
    SameFields(tag, ins, out, func, tag', ins', out', func');
  }

  lemma SameFields(tag: string, ins: seq<string>, out: string, func: string,
                   tag': string, ins': seq<string>, out': string, func': string)
    ensures Unsigned(Str(tag'), Arr(Strs(ins')), Str(out'), Str(func'))
            == Unsigned(Str(tag), Arr(Strs(ins)), Str(out), Str(func))
       <==> tag' == tag && ins' == ins && out' == out && func' == func
  {
    var ms := Unsigned(Str(tag), Arr(Strs(ins)), Str(out), Str(func)).members;
    var ms' := Unsigned(Str(tag'), Arr(Strs(ins')), Str(out'), Str(func')).members;
    if ms' == ms {
      assert ms'[0] == ms[0] && ms'[1] == ms[1] && ms'[2] == ms[2] && ms'[3] == ms[3];
      StrsInjective(ins, ins');
    }
  }

  lemma StrsInjective(ins: seq<string>, ins': seq<string>)
    requires Strs(ins') == Strs(ins)
    ensures ins' == ins
  {
    assert |Strs(ins')| == |Strs(ins)|;
    forall j | 0 <= j < |ins| ensures ins'[j] == ins[j] {
      assert Strs(ins')[j] == Strs(ins)[j];
    }
  }

  /** The stored text gives back the tag, the function hash, the input hashes and the output. */
  lemma ProducedFields(c: Crypto, tag: string, ins: seq<string>, out: string, func: string)
    ensures var w := Load(SignedText(c, tag, ins, out, func));
      && w.Some? && Get(w.value, "TAG") == Str(tag) && Get(w.value, "IN") == Arr(Strs(ins))
      && Get(w.value, "OUT") == Str(out) && Get(w.value, "FUNC") == Str(func)
  {
    var t, i, o, f := Str(tag), Arr(Strs(ins)), Str(out), Str(func);
    var sig := Hex(c.sign(Dump(Unsigned(t, i, o, f), 1)));
    SignedLoads(tag, ins, out, func, sig);
    SignedFields(t, i, o, f, Str(sig));
  }

  /** Read as the auditor and the store read it: the input hashes and the key it is filed under. */
  lemma ProducedIsReadable(c: Crypto, tag: string, ins: seq<string>, out: string, func: string)
    requires Plain(out) && forall i :: 0 <= i < |ins| ==> Plain(ins[i])
    ensures var text := SignedText(c, tag, ins, out, func); ReadIns(text) == ins && WitnessKey(text) == out
  {
    ProducedFields(c, tag, ins, out, func);
    InsAreRead(SignedText(c, tag, ins, out, func), ins);
    EscapePlain(out);
    assert Dump(Str(out), 1)[1..|Dump(Str(out), 1)| - 1] == out;
  }

  lemma InsAreRead(text: string, ins: seq<string>)
    requires Load(text).Some? && Get(Load(text).value, "IN") == Arr(Strs(ins))
    requires forall i :: 0 <= i < |ins| ==> Plain(ins[i])
    ensures ReadIns(text) == ins
  {
    forall j | 0 <= j < |ins| ensures ToString(Str(ins[j])) == ins[j] {
      EscapePlain(ins[j]);
    }
  }
}
