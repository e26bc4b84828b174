/**
 Variable-length bytes: numbers in groups of seven bits, lowest first, the top bit set on all
 but the last; and the delta coder for lists of 32-bit values that is built on them.
 */
module Vlb {
  import opened Common

  const WORD := 0x1_0000_0000
  const WORD64 := 0x1_0000_0000_0000_0000

  type Word = x: int | 0 <= x < WORD witness 0
  type Byte = x: int | 0 <= x < 256 witness 0

  // ----- one number -----

  /** The bytes of a number. */
  ghost function Groups(v: nat): (s: seq<Byte>)
    ensures |s| > 0
  {
    if v < 128 then [v] else [v % 128 + 128] + Groups(v / 128)
  }

  /** Some byte from `p` on ends a number. */
  ghost predicate Ends(bytes: seq<Byte>, p: nat)
  {
    exists q :: p <= q < |bytes| && bytes[q] < 128
  }

  /** How many bytes the number at `p` takes. */
  ghost function Extent(bytes: seq<Byte>, p: nat): (n: nat)
    requires Ends(bytes, p)
    ensures 0 < n <= |bytes| - p
    decreases |bytes| - p
  {
    if bytes[p] < 128 then 1 else 1 + Extent(bytes, p + 1)
  }

  /** The number at `p`. */
  ghost function Value(bytes: seq<Byte>, p: nat): nat
    requires Ends(bytes, p)
    decreases |bytes| - p
  {
    if bytes[p] < 128 then bytes[p] else bytes[p] % 128 + 128 * Value(bytes, p + 1)
  }

  /** Reading undoes writing, wherever the bytes stand. */
  lemma {:induction false} GroupsRead(bytes: seq<Byte>, p: nat, v: nat)
    requires p + |Groups(v)| <= |bytes| && bytes[p..p + |Groups(v)|] == Groups(v)
    ensures Ends(bytes, p) && Value(bytes, p) == v && Extent(bytes, p) == |Groups(v)|
    decreases v
  {
    var g := Groups(v);
    assert bytes[p] == g[0];
    if v >= 128 {
      assert g[1..] == Groups(v / 128);
      assert bytes[p + 1..p + 1 + |g[1..]|] == bytes[p..p + |g|][1..];
      GroupsRead(bytes, p + 1, v / 128);
    }
  }

  ghost function Power128(k: nat): (n: nat)
    ensures n > 0
  {
    if k == 0 then 1 else 128 * Power128(k - 1)
  }

  /** Groups of seven bits, the lowest first; the top bit is set on all but the last, and there
      are no more groups than the number needs. */
  lemma {:induction false} GroupsMean(v: nat, k: nat)
    requires k < |Groups(v)|
    ensures Groups(v)[k] % 128 == v / Power128(k) % 128
    ensures Groups(v)[k] >= 128 <==> k < |Groups(v)| - 1
    ensures k > 0 ==> v >= Power128(k)
    decreases v
  {
    if k > 0 {
      GroupsMean(v / 128, k - 1);
      Digit(v, k);
    } else {
      assert v / Power128(0) == v;
    }
  }

  /** Dividing by 128 moves every digit down. */
  lemma Digit(v: nat, k: nat)
    requires k > 0
    ensures v / Power128(k) == v / 128 / Power128(k - 1)
    ensures v / 128 >= Power128(k - 1) ==> v >= Power128(k)
  {
    Divided(v, Power128(k - 1));
  }

  lemma Divided(v: nat, p: nat)
    requires p > 0
    ensures v / (128 * p) == v / 128 / p
  {
    var a, r := v / 128, v % 128;
    var q, b := a / p, a % p;
    assert v == 128 * a + r && a == p * q + b;
    assert v == (128 * p) * q + (128 * b + r);
    Quotient(v, 128 * p, q, 128 * b + r);
  }

  lemma Quotient(v: nat, d: nat, q: nat, r: nat)
    requires v == d * q + r && r < d
    ensures v / d == q
  {
    var q', r' := v / d, v % d;
    assert v == d * q' + r';
    if q < q' {
      assert d * (q' - q) == r - r';
      Times(d, q' - q);
    } else if q' < q {
      assert d * (q - q') == r' - r;
      Times(d, q - q');
    }
  }

  lemma Times(d: nat, n: nat)
    requires n >= 1
    ensures d * n >= d
  {
  }

  /** The number at `p` ends with the first byte below 128, and its digits to the base 128 are the
      low seven bits of its bytes. */
  lemma {:induction false} ValueMeans(bytes: seq<Byte>, p: nat, k: nat)
    requires Ends(bytes, p) && k < Extent(bytes, p)
    ensures bytes[p + k] < 128 <==> k == Extent(bytes, p) - 1
    ensures Value(bytes, p) / Power128(k) % 128 == bytes[p + k] % 128
    ensures Value(bytes, p) < Power128(Extent(bytes, p))
    decreases |bytes| - p
  {
    var v := Value(bytes, p);
    if bytes[p] < 128 {
      assert Power128(1) == 128 * Power128(0) && v / Power128(0) == v;
    } else {
      var rest := Value(bytes, p + 1);
      assert v / 128 == rest && v % 128 == bytes[p] % 128;
      ValueMeans(bytes, p + 1, if k > 0 then k - 1 else 0);
      if k > 0 {
        Digit(v, k);
      } else {
        assert v / Power128(0) == v;
      }
    }
  }

  /** What one round of the loops below writes. */
  lemma GroupsStep(v: nat)
    ensures v / 128 == 0 ==> Groups(v) == [v % 128]
    ensures v / 128 != 0 ==> Groups(v) == [v % 128 + 128] + Groups(v / 128)
  {
  }

  method ZipDword(out: seq<Byte>, value: nat) returns (out': seq<Byte>)
    ensures out' == out + Groups(value)
  {
    out' := out;
    var v := value;
    var more := true;
    while more
      invariant more ==> out' + Groups(v) == out + Groups(value)
      invariant !more ==> out' == out + Groups(value)
      decreases more, v
    {
      var b := v % 128;
      var next := v / 128;
      if next != 0 {
        b := b + 128;
      }
      GroupsStep(v);
      Regroup(out', [b], if next != 0 then Groups(next) else []);
      out' := out' + [b];
      v := next;
      more := v != 0;
    }
  }

  /** One more group: the part not yet read counts for 128 times as much. */
  lemma Shifted(weight: nat, low: nat, high: nat)
    ensures weight * (low + 128 * high) == weight * low + (weight * 128) * high
  {
  }

  /** Arithmetic in a word of 32 or 64 bits. */
  function Wrap(x: nat, wide: bool): nat
  {
    if wide then x % WORD64 else x % WORD
  }

  lemma WrappedSum(a: nat, b: nat, wide: bool)
    ensures Wrap(Wrap(a, wide) + b, wide) == Wrap(a + b, wide)
  {
  }

  /** What a byte counts for. */
  function Part(weight: nat, b: Byte): nat
  {
    weight * (b % 128)
  }

  /** What is left to read, and with which weight. */
  ghost predicate Reading(bytes: seq<Byte>, p: nat, start: nat, sum: nat, weight: nat, q: nat)
  {
    && p <= q && Ends(bytes, p) && Ends(bytes, q)
    && start + Value(bytes, p) == sum + weight * Value(bytes, q)
    && p + Extent(bytes, p) == q + Extent(bytes, q)
  }

  lemma ReadOn(bytes: seq<Byte>, p: nat, start: nat, sum: nat, weight: nat, q: nat)
    requires Reading(bytes, p, start, sum, weight, q)
    ensures q < |bytes|
    ensures bytes[q] >= 128 ==> Reading(bytes, p, start, sum + Part(weight, bytes[q]), weight * 128, q + 1)
    ensures bytes[q] < 128 ==> start + Value(bytes, p) == sum + Part(weight, bytes[q]) && p + Extent(bytes, p) == q + 1
  {
    if bytes[q] >= 128 {
      Shifted(weight, bytes[q] % 128, Value(bytes, q + 1));
    }
  }

  /** Read the number at `p` onto `start`, in a word of 32 or 64 bits; none if the bytes end
      before the number does. */
  method UnzipWord(bytes: seq<Byte>, p: nat, start: nat, wide: bool) returns (value: Option<nat>, p': nat)
    requires start == Wrap(start, wide)
    ensures Ends(bytes, p) ==> value == Some(Wrap(start + Value(bytes, p), wide)) && p' == p + Extent(bytes, p)
    ensures !Ends(bytes, p) ==> value == None
  {
    var v, weight: nat := start, 1;
    p' := p;
    ghost var sum: nat := start;
    var more := true;
    while more && p' < |bytes|
      invariant v == Wrap(sum, wide)
      invariant more ==>
        (Ends(bytes, p) <==> Ends(bytes, p')) && (Ends(bytes, p) ==> Reading(bytes, p, start, sum, weight, p'))
      invariant !more ==> Ends(bytes, p) && sum == start + Value(bytes, p) && p' == p + Extent(bytes, p)
      decreases more, |bytes| - p'
    {
      if Ends(bytes, p) {
        ReadOn(bytes, p, start, sum, weight, p');
      }
      var b := bytes[p'];
      var part := Part(weight, b);
      WrappedSum(sum, part, wide);
      sum := sum + part;
      v := Wrap(v + part, wide);
      weight := weight * 128;
      p' := p' + 1;
      more := b >= 128;
    }
    value := if more then None else Some(v);
  }

  // ----- lists of values -----

  /** The value before position `i`; before the first it is `prev`. */
  ghost function Prev(prev: Word, s: seq<Word>, i: int): Word
    requires 0 <= i <= |s|
  {
    if i == 0 then prev else s[i - 1]
  }

  /** The difference modulo 2^32. */
  function Delta(prev: Word, v: Word): Word
  {
    (v - prev) % WORD
  }

  /** The sum modulo 2^32. */
  function Plus(a: Word, b: Word): Word
  {
    (a + b) % WORD
  }

  lemma DeltaCancels(prev: Word, v: Word)
    ensures Plus(prev, Delta(prev, v)) == v && (Delta(prev, v) == 0 <==> v == prev)
  {
  }

  /** The values that differ from the value before them. */
  ghost function Changes(prev: Word, s: seq<Word>): seq<Word>
  {
    if s == [] then [] else
      var n := |s| - 1;
      Changes(prev, s[..n]) + if s[n] == Prev(prev, s, n) then [] else [s[n]]
  }

  /** The values before the first 0. */
  ghost function BeforeZero(s: seq<Word>): seq<Word>
  {
    if s == [] || s[0] == 0 then [] else [s[0]] + BeforeZero(s[1..])
  }

  /** The bytes of a list: those of the differences. */
  ghost function Encoded(s: seq<Word>): seq<Byte>
  {
    if s == [] then [] else
      var n := |s| - 1;
      Encoded(s[..n]) + Groups(Delta(Prev(0, s, n), s[n]))
  }

  lemma {:induction false} EncodedPrefix(s: seq<Word>, i: nat)
    requires i <= |s|
    ensures Encoded(s[..i]) <= Encoded(s)
  {
    if i < |s| {
      var t := s[..|s| - 1];
      assert t[..i] == s[..i];
      EncodedPrefix(t, i);
    } else {
      assert s[..i] == s;
    }
  }

  /** The bytes of value `i` follow those of the values before it. */
  lemma EncodedAt(s: seq<Word>, i: nat)
    requires i < |s|
    ensures var p, g := |Encoded(s[..i])|, Groups(Delta(Prev(0, s, i), s[i]));
            p + |g| == |Encoded(s[..i + 1])| <= |Encoded(s)| && Encoded(s)[p..p + |g|] == g
  {
    var t := s[..i + 1];
    assert t[..i] == s[..i];
    EncodedPrefix(s, i + 1);
    var p, g := |Encoded(s[..i])|, Groups(Delta(Prev(0, s, i), s[i]));
    assert Encoded(t) == Encoded(s[..i]) + g;
    assert Encoded(s)[p..p + |g|] == Encoded(t)[p..p + |g|];
  }

  lemma DeltaIsRead(hits: seq<Byte>, cur: nat, values: seq<Word>, done: nat)
    requires done < |values| && hits == Encoded(values) && cur == |Encoded(values[..done])|
    ensures Ends(hits, cur) && Value(hits, cur) == Delta(Prev(0, values, done), values[done])
    ensures cur + Extent(hits, cur) == |Encoded(values[..done + 1])|
  {
    EncodedAt(values, done);
    GroupsRead(hits, cur, Delta(Prev(0, values, done), values[done]));
  }

  method ReadDelta(hits: seq<Byte>, cur: nat, ghost values: seq<Word>, ghost done: nat) returns (d: Word, next: nat)
    requires done < |values| && hits == Encoded(values) && cur == |Encoded(values[..done])|
    ensures d == Delta(Prev(0, values, done), values[done]) && next == |Encoded(values[..done + 1])|
  {
    DeltaIsRead(hits, cur, values, done);
    var x, q := UnzipWord(hits, cur, 0, false);
    d, next := x.value, q;
  }

  /** The values, each moved by `base`. */
  ghost function MovedBy(base: Word, s: seq<Word>): (r: seq<Word>)
    ensures |r| == |s| && (base == 0 ==> r == s)
  {
    seq(|s|, i requires 0 <= i < |s| => Plus(base, s[i]))
  }

  lemma MovedStep(base: Word, values: seq<Word>, i: nat, n: nat)
    requires 0 < n && i + n <= |values|
    ensures var r := MovedBy(base, values[i..i + n]);
      r[0] == Plus(base, values[i]) && r[1..] == MovedBy(base, values[i + 1..i + n])
  {
  }

  class Coder {
    var hits: seq<Byte>
    var lastHit: Word
    var left: nat
    var last: Word
    var cur: nat
    /** The values coded, how many of them have been read, and what is added to those read. */
    ghost var values: seq<Word>
    ghost var done: nat
    ghost var base: Word

    ghost predicate Valid()
      reads this
    {
      && hits == Encoded(values) && lastHit == Prev(0, values, |values|)
      && done + left <= |values|
      && last == Plus(base, Prev(0, values, done)) && cur == |Encoded(values[..done])|
    }

    /** The values still to be read. */
    ghost function Rest(): seq<Word>
      requires Valid()
      reads this
    {
      MovedBy(base, values[done..done + left])
    }

    /** Everything coded is read or still to be read, as it was coded. */
    ghost predicate Whole()
      reads this
    {
      base == 0 && done + left == |values|
    }

    constructor ()
      ensures Valid() && Whole() && values == [] && done == 0
    {
      hits, lastHit, left, last, cur := [], 0, 0, 0, 0;
      values, done, base := [], 0, 0;
    }

    /** A copy starts at the first byte again, but has as many values left as the original, and
        adds them to the value that the original read last. */
    constructor Copy(src: Coder)
      requires src.Valid()
      ensures Valid() && values == src.values && Rest() == MovedBy(src.last, src.values[..src.left])
      ensures src.Whole() ==> (Whole() <==> src.last == 0 && src.done == 0)
    {
      left, last, lastHit := src.left, src.last, src.lastHit;
      hits, cur := src.hits, 0;
      values, done, base := src.values, 0, src.last;
    }

    /** Add a value, unless it is the last one again. */
    method Zip(v: Word)
      requires Valid()
      modifies this
      ensures Valid() && done == old(done) && base == old(base) && lastHit == v && (old(Whole()) ==> Whole())
      ensures values == old(values) + if v == old(lastHit) then [] else [v]
    {
      var d := Delta(lastHit, v);
      DeltaCancels(lastHit, v);
      if d == 0 {
        return;
      }
      hits := ZipDword(hits, d);
      lastHit := v;
      left := left + 1;
      ghost var values' := values + [v];
      assert values'[..|values|] == values && values'[..done] == values[..done];
      values := values';
    }

    method ReadNext() returns (v: Word)
      requires Valid() && left > 0
      modifies this`last, this`left, this`cur, this`done
      ensures Valid() && done == old(done) + 1 && left == old(left) - 1 && v == Plus(base, values[old(done)])
    {
      var d, next := ReadDelta(hits, cur, values, done);
      v := Plus(last, d);
      ReadAdds(base, Prev(0, values, done), values[done], last, d);
      cur, last, left, done := next, v, left - 1, done + 1;
    }

    /** The next value, or 0 when none is left. */
    method Unzip() returns (v: Word)
      requires Valid()
      modifies this`last, this`left, this`cur, this`done
      ensures Valid() && (old(Whole()) ==> Whole())
      ensures if old(Rest()) == [] then v == 0 && Rest() == [] else v == old(Rest())[0] && Rest() == old(Rest())[1..]
    {
      if left == 0 {
        return 0;
      }
      MovedStep(base, values, done, left);
      v := ReadNext();
    }
  }

  lemma ReadAdds(base: Word, prev: Word, v: Word, last: Word, d: Word)
    requires last == Plus(base, prev) && d == Delta(prev, v)
    ensures Plus(last, d) == Plus(base, v)
  {
    PlusIs(base, prev);
    PlusIs(last, d);
    PlusIs(base, v);
    assert d == if prev <= v then v - prev else v - prev + WORD;
  }

  lemma PlusIs(a: Word, b: Word)
    ensures Plus(a, b) == if a + b < WORD then a + b else a + b - WORD
  {
  }

  /** Read a list back, up to the first 0.  Of a coder that was already read, the first values
      are read again, as many as it has left, each moved by the value it read last. */
  method Dump(src: Coder) returns (dest: seq<Word>)
    requires src.Valid()
    ensures dest == BeforeZero(MovedBy(src.last, src.values[..src.left]))
    ensures src.Whole() && src.done == 0 ==> dest == BeforeZero(src.values)
  {
    dest := [];
    ghost var all := MovedBy(src.last, src.values[..src.left]);
    assert src.Whole() && src.done == 0 ==> all == src.values;
    var tmp := new Coder.Copy(src);
    var v := tmp.Unzip();
    while v != 0
      invariant tmp.Valid() && fresh(tmp)
      invariant BeforeZero(all) == dest + if v == 0 then [] else [v] + BeforeZero(tmp.Rest())
      decreases if v == 0 then 0 else |tmp.Rest()| + 1
    {
      Regroup(dest, [v], BeforeZero(tmp.Rest()));
      dest := dest + [v];
      v := tmp.Unzip();
    }
  }

  /** Add a list. */
  method Load(src: seq<Word>, dest: Coder)
    requires dest.Valid()
    modifies dest
    ensures dest.Valid() && dest.done == old(dest.done) && (old(dest.Whole()) ==> dest.Whole())
    ensures dest.values == old(dest.values) + Changes(old(dest.lastHit), src)
  {
    ghost var values, first := dest.values, dest.lastHit;
    for i := 0 to |src|
      invariant dest.Valid() && dest.done == old(dest.done) && dest.lastHit == Prev(first, src, i)
      invariant (old(dest.Whole()) ==> dest.Whole()) && dest.values == values + Changes(first, src[..i])
    {
      assert src[..i + 1][..i] == src[..i];
      dest.Zip(src[i]);
    }
    assert src[..|src|] == src;
  }

  /** No 0 comes after another value. */
  ghost predicate ZerosFirst(s: seq<Word>)
  {
    forall i :: 0 < i < |s| && s[i] == 0 ==> s[i - 1] == 0
  }

  lemma {:induction false} ChangesZero(s: seq<Word>)
    ensures 0 in Changes(0, s) <==> !ZerosFirst(s)
  {
    if s != [] {
      var n := |s| - 1;
      var t := s[..n];
      ChangesZero(t);
      assert ZerosFirst(s) <==> ZerosFirst(t) && (s[n] == 0 ==> Prev(0, s, n) == 0) by {
        assert forall i :: 0 <= i < n ==> t[i] == s[i];
        assert ZerosFirst(s) && n > 0 && s[n] == 0 ==> s[n - 1] == 0;
      }
    }
  }

  lemma {:induction false} BeforeZeroAll(s: seq<Word>)
    ensures BeforeZero(s) == s <==> 0 !in s
  {
    if s != [] && s[0] != 0 {
      BeforeZeroAll(s[1..]);
      assert s == [s[0]] + s[1..];
    }
  }

  /** A list that was loaded is read back without its adjacent repeats exactly if no 0 in it
      follows another value; otherwise it is cut at that 0. */
  method LoadThenDump(s: seq<Word>) returns (d: seq<Word>)
    ensures d == BeforeZero(Changes(0, s))
    ensures d == Changes(0, s) <==> ZerosFirst(s)
  {
    var coder := new Coder();
    Load(s, coder);
    d := Dump(coder);
    assert coder.values == Changes(0, s);
    ChangesZero(s);
    BeforeZeroAll(Changes(0, s));
  }

  /** Strictly increasing lists of document numbers come back whole. */
  lemma {:induction false} ChangesOfIncreasing(s: seq<Word>)
    requires (forall i :: 0 <= i < |s| ==> s[i] > 0) && forall i, j :: 0 <= i < j < |s| ==> s[i] < s[j]
    ensures Changes(0, s) == s && ZerosFirst(s)
  {
    if s != [] {
      ChangesOfIncreasing(s[..|s| - 1]);
      assert Prev(0, s, |s| - 1) != s[|s| - 1];
    }
  }

  // ----- numbers in a buffer -----

  /** 32-bit numbers take at most 5 bytes, 64-bit numbers at most 10. */
  lemma GroupsFit(v: nat)
    ensures v < WORD ==> |Groups(v)| <= 5
    ensures v < WORD64 ==> |Groups(v)| <= 10
  {
    GroupsBelow(v, 5);
    GroupsBelow(v, 10);
  }

  lemma {:induction false} GroupsBelow(v: nat, k: nat)
    requires k > 0
    ensures v < Power128(k) ==> |Groups(v)| <= k
  {
    GroupsStep(v);
    if k == 1 {
      assert Power128(1) == 128 * Power128(0) == 128;
    } else {
      GroupsBelow(v / 128, k - 1);
    }
  }

  /** Write a number into a buffer; the number of bytes written. */
  method EncodeVlb8(buf: array<Byte>, p: nat, value: nat) returns (n: nat)
    requires p + |Groups(value)| <= buf.Length
    modifies buf
    ensures n == |Groups(value)| && buf[p..p + n] == Groups(value)
    ensures forall c :: 0 <= c < buf.Length && !(p <= c < p + n) ==> buf[c] == old(buf[c])
  {
    var v := value;
    ghost var written: seq<Byte> := [];
    n := 0;
    var more := true;
    while more
      invariant p + n <= buf.Length
      invariant buf[p..p + n] == written
      invariant more ==> written + Groups(v) == Groups(value)
      invariant !more ==> written == Groups(value)
      invariant forall c :: 0 <= c < buf.Length && !(p <= c < p + n) ==> buf[c] == old(buf[c])
      decreases more, v
    {
      var b := v % 128;
      var next := v / 128;
      if next != 0 {
        b := b + 128;
      }
      GroupsStep(v);
      Regroup(written, [b], if next != 0 then Groups(next) else []);
      assert |written + Groups(v)| == |Groups(value)|;
      buf[p + n] := b;
      n := n + 1;
      written := written + [b];
      v := next;
      more := v != 0;
    }
  }

  /** What was written is read back, onto what was in the variable before. */
  method EncodeThenDecode(buf: array<Byte>, p: nat, value: nat, start: nat) returns (read: nat)
    requires value < WORD64 && start < WORD64 && p + 10 <= buf.Length
    modifies buf
    ensures read == (start + value) % WORD64
    ensures start == 0 ==> read == value
  {
    GroupsFit(value);
    var n := EncodeVlb8(buf, p, value);
    GroupsRead(buf[..], p, value);
    var x, _ := UnzipWord(buf[..], p, start, true);
    read := x.value;
  }
}
