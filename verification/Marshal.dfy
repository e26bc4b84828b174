/**
 The binary form of a shard: a size prefix, the index as 32-bit words, and the digests
 as NUL-terminated strings.  A buffer is a string whose characters are bytes; integers
 are little-endian.

 The index is an unordered map, so encoders take the order in which it is walked.
 */
module Marshal {
  import opened Common
  import opened InvertedIndex

  const TEMP_DIGEST_LEN: nat := 64 * 1024
  const DWORD_LIMIT: nat := 0x1_0000_0000
  const INT_LIMIT: nat := 0x8000_0000

  // ----- words -----

  function WordBytes(n: nat): (s: string)
    requires n < DWORD_LIMIT
    ensures |s| == 4
  {
    [(n % 256) as char, (n / 256 % 256) as char, (n / 0x1_0000 % 256) as char, (n / 0x100_0000) as char]
  }

  function ReadWord(s: string): nat
    requires |s| == 4
  {
    s[0] as nat + 256 * s[1] as nat + 0x1_0000 * s[2] as nat + 0x100_0000 * s[3] as nat
  }

  /** The lowest byte comes first. */
  lemma LittleEndian(n: nat)
    requires n < DWORD_LIMIT
    ensures var s := WordBytes(n);
      && (forall i :: 0 <= i < 4 ==> s[i] as nat < 0x100)
      && n == s[0] as nat + 0x100 * s[1] as nat + 0x1_0000 * s[2] as nat + 0x100_0000 * s[3] as nat
  {
    var a, b, c := n / 256, n / 0x1_0000, n / 0x100_0000;
    assert b == a / 256 && c == b / 256;
  }

  lemma WordRoundTrip(n: nat)
    requires n < DWORD_LIMIT
    ensures ReadWord(WordBytes(n)) == n
  {
    LittleEndian(n);
  }

  ghost predicate AllWords(ws: seq<nat>)
  {
    forall i :: 0 <= i < |ws| ==> ws[i] < DWORD_LIMIT
  }

  function Bytes(ws: seq<nat>): (s: string)
    requires AllWords(ws)
    ensures |s| == 4 * |ws|
  {
    if ws == [] then "" else WordBytes(ws[0]) + Bytes(ws[1..])
  }

  lemma {:induction false} BytesAt(ws: seq<nat>, i: nat)
    requires AllWords(ws) && i < |ws|
    ensures Bytes(ws)[4 * i..4 * i + 4] == WordBytes(ws[i])
  {
    if i > 0 {
      BytesAt(ws[1..], i - 1);
      assert Bytes(ws)[4..] == Bytes(ws[1..]);
      assert Bytes(ws)[4 * i..4 * i + 4] == Bytes(ws)[4..][4 * (i - 1)..4 * (i - 1) + 4];
    }
  }

  function ReadWords(s: string): seq<nat>
  {
    if |s| < 4 then [] else [ReadWord(s[..4])] + ReadWords(s[4..])
  }

  lemma {:induction false} WordsRoundTrip(ws: seq<nat>)
    requires AllWords(ws)
    ensures ReadWords(Bytes(ws)) == ws
  {
    if ws != [] {
      WordRoundTrip(ws[0]);
      assert Bytes(ws)[..4] == WordBytes(ws[0]) && Bytes(ws)[4..] == Bytes(ws[1..]);
      WordsRoundTrip(ws[1..]);
    }
  }

  // ----- the index -----

  /** `order` walks every entry of the index once. */
  ghost predicate Walks(order: seq<Word>, index: Index)
  {
    && (forall w :: w in order <==> w in index)
    && (forall i, j :: 0 <= i < j < |order| ==> order[i] != order[j])
  }

  function Flatten(order: seq<Word>, index: Index): seq<nat>
    requires forall w :: w in order ==> w in index
  {
    if order == [] then []
    else [order[0]] + (index[order[0]] + ([0] + Flatten(order[1..], index)))
  }

  /** Where entry `i` starts. */
  ghost function Start(order: seq<Word>, index: Index, i: nat): nat
    requires i <= |order| && forall w :: w in order ==> w in index
  {
    if i == 0 then 0 else Start(order, index, i - 1) + |index[order[i - 1]]| + 2
  }

  /** From `p` on: the key, the list and a 0. */
  ghost predicate EntryIn(flat: seq<nat>, p: nat, w: Word, list: Postings)
  {
    && p + |list| + 2 <= |flat|
    && flat[p] == w && flat[p + 1..p + 1 + |list|] == list && flat[p + 1 + |list|] == 0
  }

  /** The entries one after the other, in the order of the walk, and nothing else. */
  ghost predicate LaidOut(flat: seq<nat>, order: seq<Word>, index: Index)
    requires forall w :: w in order ==> w in index
  {
    && |flat| == Start(order, index, |order|)
    && forall i :: 0 <= i < |order| ==> EntryIn(flat, Start(order, index, i), order[i], index[order[i]])
  }

  lemma {:induction false} StartShift(order: seq<Word>, index: Index, i: nat)
    requires 1 <= i <= |order| && forall w :: w in order ==> w in index
    ensures Start(order, index, i) == |index[order[0]]| + 2 + Start(order[1..], index, i - 1)
  {
    if i > 1 {
      StartShift(order, index, i - 1);
    }
  }

  lemma EntryMoved(flat: seq<nat>, head: seq<nat>, p: nat, w: Word, list: Postings)
    requires EntryIn(flat, p, w, list)
    ensures EntryIn(head + flat, |head| + p, w, list)
  {
    assert (head + flat)[|head| + p + 1..|head| + p + 1 + |list|] == flat[p + 1..p + 1 + |list|];
  }

  lemma HeadEntry(w: Word, list: Postings, flat: seq<nat>)
    ensures EntryIn([w] + (list + ([0] + flat)), 0, w, list)
    ensures [w] + (list + ([0] + flat)) == ([w] + (list + [0])) + flat
  {
  }

  lemma {:induction false} FlattenEntry(order: seq<Word>, index: Index, i: nat)
    requires i < |order| && forall w :: w in order ==> w in index
    ensures EntryIn(Flatten(order, index), Start(order, index, i), order[i], index[order[i]])
    decreases |order|
  {
    var w, list, flat := order[0], index[order[0]], Flatten(order[1..], index);
    HeadEntry(w, list, flat);
    if i > 0 {
      FlattenEntry(order[1..], index, i - 1);
      StartShift(order, index, i);
      EntryMoved(flat, [w] + (list + [0]), Start(order[1..], index, i - 1), order[i], index[order[i]]);
    }
  }

  lemma {:induction false} FlattenSize(order: seq<Word>, index: Index)
    requires forall w :: w in order ==> w in index
    ensures |Flatten(order, index)| == Start(order, index, |order|)
    decreases |order|
  {
    if order != [] {
      FlattenSize(order[1..], index);
      StartShift(order, index, |order|);
    }
  }

  lemma FlattenLayout(order: seq<Word>, index: Index)
    requires forall w :: w in order ==> w in index
    ensures LaidOut(Flatten(order, index), order, index)
  {
    FlattenSize(order, index);
    forall i | 0 <= i < |order|
      ensures EntryIn(Flatten(order, index), Start(order, index, i), order[i], index[order[i]])
    {
      FlattenEntry(order, index, i);
    }
  }

  /** One entry: the key, the list and a 0. */
  method AppendEntry(flat: seq<nat>, w: Word, list: Postings) returns (flat': seq<nat>)
    ensures flat' == flat + ([w] + (list + [0]))
  {
    flat' := flat + [w];
    for j := 0 to |list|
      invariant flat' == flat + ([w] + list[..j])
    {
      flat' := flat' + [list[j]];
    }
    assert list[..|list|] == list;
    flat' := flat' + [0];
  }

  lemma EntryFirst(flat: seq<nat>, w: nat, list: seq<nat>, rest: seq<nat>)
    ensures flat + ([w] + (list + ([0] + rest))) == (flat + ([w] + (list + [0]))) + rest
  {
  }

  method Index2Words(order: seq<Word>, index: Index) returns (flat: seq<nat>)
    requires Walks(order, index)
    ensures flat == Flatten(order, index) && LaidOut(flat, order, index)
  {
    FlattenLayout(order, index);
    flat := [];
    for i := 0 to |order|
      invariant flat + Flatten(order[i..], index) == Flatten(order, index)
    {
      var w := order[i];
      assert order[i..][1..] == order[i + 1..];
      EntryFirst(flat, w, index[w], Flatten(order[i + 1..], index));
      flat := AppendEntry(flat, w, index[w]);
    }
    assert order[|order|..] == [];
  }

  /** The decoder: the table so far, whether the next word starts an entry, and the current key. */
  datatype Scan = Scan(table: Index, isFirst: bool, key: Word)

  function ScanNext(s: Scan, w: nat): Scan
  {
    if s.isFirst then s.(key := w, isFirst := false)
    else if w == 0 then s.(isFirst := true)
    else s.(table := s.table[s.key := At(s.table, s.key) + [w]])
  }

  ghost function ScanAll(s: Scan, ws: seq<nat>): Scan
    decreases |ws|
  {
    if ws == [] then s else ScanAll(ScanNext(s, ws[0]), ws[1..])
  }

  ghost function DecodeIndex(ws: seq<nat>): Index
  {
    ScanAll(Scan(map[], true, 0), ws).table
  }

  method Words2Index(ws: seq<nat>) returns (index: Index)
    ensures index == DecodeIndex(ws)
  {
    var s := Scan(map[], true, 0);
    for i := 0 to |ws|
      invariant ScanAll(s, ws[i..]) == ScanAll(Scan(map[], true, 0), ws)
    {
      assert ws[i..][1..] == ws[i + 1..];
      s := ScanNext(s, ws[i]);
    }
    index := s.table;
  }

  /** Posting lists that the delimiter 0 can end: not empty, and without document 0. */
  ghost predicate Delimitable(index: Index)
  {
    forall w :: w in index ==> index[w] != [] && 0 !in index[w]
  }

  lemma {:induction false} ScanList(s: Scan, list: seq<nat>, more: seq<nat>)
    requires !s.isFirst && 0 !in list && list != []
    ensures ScanAll(s, list + more) == ScanAll(s.(table := s.table[s.key := At(s.table, s.key) + list]), more)
    decreases |list|
  {
    var s' := ScanNext(s, list[0]);
    assert list[0] in list;
    assert (list + more)[1..] == list[1..] + more;
    if |list| == 1 {
      assert list[1..] + more == more && list == [list[0]];
    } else {
      ScanList(s', list[1..], more);
      assert At(s.table, s.key) + list == At(s'.table, s.key) + list[1..];
      assert s.table[s.key := At(s.table, s.key) + list] == s'.table[s.key := At(s'.table, s.key) + list[1..]];
    }
  }

  lemma ScanEntry(s: Scan, w: Word, list: seq<nat>, more: seq<nat>)
    requires s.isFirst && w !in s.table && 0 !in list && list != []
    ensures ScanAll(s, [w] + (list + ([0] + more))) == ScanAll(Scan(s.table[w := list], true, w), more)
  {
    var all := [w] + (list + ([0] + more));
    assert all[1..] == list + ([0] + more);
    var s1 := ScanNext(s, w);
    ScanList(s1, list, [0] + more);
    assert [] + list == list && ([0] + more)[1..] == more;
  }

  /** The entries of `index` that `order` names. */
  ghost function Picked(order: seq<Word>, index: Index): Index
    requires forall w :: w in order ==> w in index
  {
    map w | w in order :: index[w]
  }

  lemma PickedCons(t: Index, order: seq<Word>, index: Index)
    requires order != [] && forall w :: w in order ==> w in index
    ensures t[order[0] := index[order[0]]] + Picked(order[1..], index) == t + Picked(order, index)
  {
    assert order == [order[0]] + order[1..];
  }

  lemma {:induction false} ScanFlatten(s: Scan, order: seq<Word>, index: Index)
    requires s.isFirst && forall w :: w in order ==> w in index && w !in s.table
    requires forall i, j :: 0 <= i < j < |order| ==> order[i] != order[j]
    requires Delimitable(index)
    ensures ScanAll(s, Flatten(order, index)).table == s.table + Picked(order, index)
    decreases |order|
  {
    if order == [] {
      assert s.table + Picked(order, index) == s.table;
    } else {
      var w, rest := order[0], order[1..];
      ScanEntry(s, w, index[w], Flatten(rest, index));
      var s' := Scan(s.table[w := index[w]], true, w);
      forall v | v in rest ensures v in index && v !in s'.table {
        var j :| 0 <= j < |rest| && rest[j] == v;
        assert order[j + 1] == v;
      }
      ScanFlatten(s', rest, index);
      PickedCons(s.table, order, index);
    }
  }

  lemma {:induction false} ScanDelimitable(s: Scan, ws: seq<nat>)
    requires Delimitable(s.table)
    ensures Delimitable(ScanAll(s, ws).table)
    decreases |ws|
  {
    if ws != [] {
      ScanDelimitable(ScanNext(s, ws[0]), ws[1..]);
    }
  }

  // ----- any list of entries -----

  ghost function EntriesWords(entries: seq<(Word, Postings)>): seq<nat>
  {
    if entries == [] then []
    else [entries[0].0] + (entries[0].1 + ([0] + EntriesWords(entries[1..])))
  }

  /** All that the entries list for `w`, in their order. */
  ghost function ListedFor(entries: seq<(Word, Postings)>, w: Word): Postings
  {
    if entries == [] then []
    else (if entries[0].0 == w then entries[0].1 else []) + ListedFor(entries[1..], w)
  }

  lemma ScanAnyEntry(s: Scan, w: Word, list: seq<nat>, more: seq<nat>) returns (s': Scan)
    requires s.isFirst && 0 !in list
    ensures s'.isFirst && ScanAll(s, [w] + (list + ([0] + more))) == ScanAll(s', more)
    ensures s'.table == if list == [] then s.table else s.table[w := At(s.table, w) + list]
  {
    var all := [w] + (list + ([0] + more));
    assert all[1..] == list + ([0] + more) && ([0] + more)[1..] == more;
    var s1 := ScanNext(s, w);
    if list == [] {
      assert list + ([0] + more) == [0] + more;
      s' := ScanNext(s1, 0);
    } else {
      ScanList(s1, list, [0] + more);
      s' := ScanNext(s1.(table := s1.table[w := At(s1.table, w) + list]), 0);
    }
  }

  lemma {:induction false} ScanEntries(s: Scan, entries: seq<(Word, Postings)>, w: Word)
    requires s.isFirst && (forall e :: e in entries ==> 0 !in e.1) && (w in s.table ==> s.table[w] != [])
    ensures var t := ScanAll(s, EntriesWords(entries)).table;
      At(t, w) == At(s.table, w) + ListedFor(entries, w) && (w in t ==> t[w] != [])
    decreases |entries|
  {
    if entries != [] {
      var s' := ScanAnyEntry(s, entries[0].0, entries[0].1, EntriesWords(entries[1..]));
      ScanEntries(s', entries[1..], w);
      var list := if entries[0].0 == w then entries[0].1 else [];
      assert At(s'.table, w) == At(s.table, w) + list;
      Regroup(At(s.table, w), list, ListedFor(entries[1..], w));
    }
  }

  /** The decoder joins the lists of entries with the same key, and drops keys without any. */
  lemma EntriesAreDecoded(entries: seq<(Word, Postings)>, w: Word)
    requires forall e :: e in entries ==> 0 !in e.1
    ensures var index := DecodeIndex(EntriesWords(entries));
      At(index, w) == ListedFor(entries, w) && (w in index <==> ListedFor(entries, w) != [])
  {
    ScanEntries(Scan(map[], true, 0), entries, w);
    assert [] + ListedFor(entries, w) == ListedFor(entries, w);
  }

  /** Whatever the walk, unmarshalling gives the index back exactly when every posting
      list is non-empty and without document 0. */
  lemma IndexRoundTrip(order: seq<Word>, index: Index)
    requires Walks(order, index)
    ensures DecodeIndex(Flatten(order, index)) == index <==> Delimitable(index)
  {
    var s := Scan(map[], true, 0);
    if Delimitable(index) {
      ScanFlatten(s, order, index);
      assert map[] + Picked(order, index) == index;
    }
    ScanDelimitable(s, Flatten(order, index));
  }

  // ----- the digests -----

  /** What strncpy copies: the characters before the first NUL. */
  function CPrefix(d: string): (p: string)
    ensures |p| <= |d|
  {
    if d == "" || d[0] == '\0' then "" else [d[0]] + CPrefix(d[1..])
  }

  function Zeros(n: nat): (z: string)
    ensures |z| == n && forall i :: 0 <= i < n ==> z[i] == '\0'
  {
    if n == 0 then "" else "\0" + Zeros(n - 1)
  }

  /** One digest: its characters, NULs up to its length, and the delimiter. */
  function DigestBytes(d: string): (s: string)
    ensures |s| == |d| + 1
  {
    CPrefix(d) + Zeros(|d| + 1 - |CPrefix(d)|)
  }

  function DigestsBytes(ds: seq<string>): string
  {
    if ds == [] then "" else DigestsBytes(ds[..|ds| - 1]) + DigestBytes(ds[|ds| - 1])
  }

  /** Where digest `i` starts. */
  ghost function Place(ds: seq<string>, i: nat): nat
    requires i <= |ds|
  {
    if i == 0 then 0 else Place(ds, i - 1) + |ds[i - 1]| + 1
  }

  /** From `p` on: the characters of `d` up to its first NUL, then NULs, one past its length. */
  ghost predicate DigestIn(bytes: string, p: nat, d: string)
  {
    && p + |d| < |bytes| && bytes[p + |d|] == '\0'
    && forall j :: 0 <= j < |d| ==> bytes[p + j] == if '\0' in d[..j] then '\0' else d[j]
  }

  ghost predicate DigestsLaidOut(bytes: string, ds: seq<string>)
  {
    && |bytes| == Place(ds, |ds|)
    && forall i :: 0 <= i < |ds| ==> DigestIn(bytes, Place(ds, i), ds[i])
  }

  lemma {:induction false} CPrefixMeans(d: string)
    ensures var p := CPrefix(d); p <= d && '\0' !in p && (|p| < |d| ==> d[|p|] == '\0')
  {
    if d != "" && d[0] != '\0' {
      CPrefixMeans(d[1..]);
      assert d == [d[0]] + d[1..];
    }
  }

  lemma DigestAlone(d: string)
    ensures DigestIn(DigestBytes(d), 0, d)
  {
    var p := CPrefix(d);
    CPrefixMeans(d);
    forall j | 0 <= j < |d| ensures DigestBytes(d)[j] == if '\0' in d[..j] then '\0' else d[j] {
      if j <= |p| {
        assert d[..j] == p[..j];
      } else {
        assert d[..j][|p|] == '\0';
      }
    }
  }

  lemma {:induction false} PlacePrefix(ds: seq<string>, i: nat)
    requires ds != [] && i < |ds|
    ensures Place(ds, i) == Place(ds[..|ds| - 1], i)
  {
    if i > 0 {
      PlacePrefix(ds, i - 1);
    }
  }

  lemma DigestStays(a: string, b: string, p: nat, d: string)
    requires DigestIn(a, p, d)
    ensures DigestIn(a + b, p, d)
  {
  }

  lemma DigestMoved(a: string, b: string, d: string)
    requires DigestIn(b, 0, d)
    ensures DigestIn(a + b, |a|, d)
  {
    forall j | 0 <= j < |d| ensures (a + b)[|a| + j] == if '\0' in d[..j] then '\0' else d[j] {
      assert (a + b)[|a| + j] == b[0 + j];
    }
  }

  lemma {:induction false} DigestsEnd(ds: seq<string>)
    ensures |DigestsBytes(ds)| == Place(ds, |ds|)
  {
    if ds != [] {
      DigestsEnd(ds[..|ds| - 1]);
      PlacePrefix(ds, |ds| - 1);
    }
  }

  lemma {:induction false} DigestPlaced(ds: seq<string>, i: nat)
    requires i < |ds|
    ensures DigestIn(DigestsBytes(ds), Place(ds, i), ds[i])
    decreases |ds|
  {
    var front, last := ds[..|ds| - 1], ds[|ds| - 1];
    PlacePrefix(ds, i);
    if i == |front| {
      DigestsEnd(front);
      DigestAlone(last);
      DigestMoved(DigestsBytes(front), DigestBytes(last), last);
    } else {
      DigestPlaced(front, i);
      DigestStays(DigestsBytes(front), DigestBytes(last), Place(front, i), front[i]);
    }
  }

  lemma DigestsLayout(ds: seq<string>)
    ensures DigestsLaidOut(DigestsBytes(ds), ds)
  {
    DigestsEnd(ds);
    forall i | 0 <= i < |ds| ensures DigestIn(DigestsBytes(ds), Place(ds, i), ds[i]) {
      DigestPlaced(ds, i);
    }
  }

  lemma CPrefixStep(d: string, j: nat)
    requires j < |d| && d[j] != '\0'
    ensures d[..j] + CPrefix(d[j..]) == d[..j + 1] + CPrefix(d[j + 1..])
  {
    assert d[j..][1..] == d[j + 1..] && d[..j + 1] == d[..j] + [d[j]];
  }

  /** Copy `d` into a zeroed part of the buffer. */
  method StrNCpy(bin: array<char>, at: nat, d: string)
    requires at + |d| + 1 <= bin.Length
    requires forall i :: at <= i < bin.Length ==> bin[i] == '\0'
    modifies bin
    ensures bin[..at] == old(bin[..at])
    ensures bin[at..at + |d| + 1] == DigestBytes(d)
    ensures forall i :: at + |d| < i < bin.Length ==> bin[i] == '\0'
  {
    var j := 0;
    while j < |d| && d[j] != '\0'
      invariant 0 <= j <= |d|
      invariant CPrefix(d) == d[..j] + CPrefix(d[j..])
      invariant forall i :: 0 <= i < at ==> bin[i] == old(bin[i])
      invariant forall i :: 0 <= i < j ==> bin[at + i] == d[i]
      invariant forall i :: at + j <= i < bin.Length ==> bin[i] == '\0'
    {
      CPrefixStep(d, j);
      bin[at + j] := d[j];
      j := j + 1;
    }
    assert CPrefix(d[j..]) == "" && CPrefix(d) == d[..j];
    CopiedDigest(bin[at..at + |d| + 1], d, j);
  }

  lemma CopiedDigest(s: string, d: string, j: nat)
    requires |s| == |d| + 1 && j <= |d| && CPrefix(d) == d[..j]
    requires forall i :: 0 <= i < j ==> s[i] == d[i]
    requires forall i :: j <= i < |s| ==> s[i] == '\0'
    ensures s == DigestBytes(d)
  {
    assert |CPrefix(d)| == j;
  }

  lemma DigestsBytesSnoc(ds: seq<string>, i: nat)
    requires i < |ds|
    ensures DigestsBytes(ds[..i + 1]) == DigestsBytes(ds[..i]) + DigestBytes(ds[i])
  {
    assert ds[..i + 1][..i] == ds[..i];
  }

  method DigestsSize(ds: seq<string>) returns (size: nat)
    ensures size == |DigestsBytes(ds)|
  {
    size := 0;
    for i := 0 to |ds|
      invariant size == |DigestsBytes(ds[..i])|
    {
      DigestsBytesSnoc(ds, i);
      size := size + |ds[i]| + 1;
    }
    assert ds[..|ds|] == ds;
  }

  lemma OneMorePart<T>(s: seq<T>, i: nat, j: nat, a: seq<T>, b: seq<T>)
    requires i <= j <= |s| && s[..i] == a && s[i..j] == b
    ensures s[..j] == a + b
  {
  }

  method Digest2Binary(ds: seq<string>) returns (ret: array<char>)
    ensures fresh(ret) && ret[..] == DigestsBytes(ds) && DigestsLaidOut(ret[..], ds)
  {
    var size := DigestsSize(ds);
    ret := new char[size](_ => '\0');
    var bin := 0;
    for i := 0 to |ds|
      invariant bin == |DigestsBytes(ds[..i])| <= ret.Length
      invariant ret[..bin] == DigestsBytes(ds[..i])
      invariant forall k :: bin <= k < ret.Length ==> ret[k] == '\0'
    {
      DigestsBytesSnoc(ds, i);
      DigestsBytesPrefix(ds, i + 1);
      StrNCpy(ret, bin, ds[i]);
      OneMorePart(ret[..], bin, bin + |ds[i]| + 1, DigestsBytes(ds[..i]), DigestBytes(ds[i]));
      bin := bin + |ds[i]| + 1;
    }
    assert ds[..|ds|] == ds;
    assert ret[..bin] == ret[..];
    DigestsLayout(ds);
  }

  lemma {:induction false} DigestsBytesPrefix(ds: seq<string>, n: nat)
    requires n <= |ds|
    ensures |DigestsBytes(ds[..n])| <= |DigestsBytes(ds)|
    decreases |ds|
  {
    if n == |ds| {
      assert ds[..n] == ds;
    } else {
      DigestsBytesPrefix(ds[..|ds| - 1], n);
      assert ds[..|ds| - 1][..n] == ds[..n];
    }
  }

  /** The decoder with its fixed buffer; none when the buffer overflows. */
  ghost function DecodeDigests(bytes: string, acc: string, done: seq<string>): Option<seq<string>>
    decreases |bytes|
  {
    if |acc| >= TEMP_DIGEST_LEN then None
    else if bytes == "" then Some(done)
    else if bytes[0] == '\0' then DecodeDigests(bytes[1..], "", done + [acc])
    else DecodeDigests(bytes[1..], acc + [bytes[0]], done)
  }

  method Binary2Digest(bytes: string) returns (ds: Option<seq<string>>)
    ensures ds == DecodeDigests(bytes, "", [])
  {
    var acc, done := "", [];
    for i := 0 to |bytes|
      invariant DecodeDigests(bytes[i..], acc, done) == DecodeDigests(bytes, "", [])
      invariant |acc| < TEMP_DIGEST_LEN
    {
      assert bytes[i..][1..] == bytes[i + 1..];
      if bytes[i] != '\0' {
        acc := acc + [bytes[i]];
        if |acc| >= TEMP_DIGEST_LEN {
          return None;
        }
      } else {
        acc, done := "", done + [acc];
      }
    }
    ds := Some(done);
  }

  /** A digest that survives: free of NUL and shorter than the decoder's buffer. */
  ghost predicate Stringy(d: string)
  {
    '\0' !in d && |d| < TEMP_DIGEST_LEN
  }

  lemma {:induction false} CPrefixWhole(d: string)
    requires '\0' !in d
    ensures CPrefix(d) == d && DigestBytes(d) == d + "\0"
  {
    if d != "" {
      assert d[0] in d;
      CPrefixWhole(d[1..]);
      assert d == [d[0]] + d[1..];
    }
    assert Zeros(1) == "\0";
  }

  lemma {:induction false} DecodeOne(d: string, more: string, acc: string, done: seq<string>)
    requires '\0' !in d && |acc + d| < TEMP_DIGEST_LEN
    ensures DecodeDigests(d + ("\0" + more), acc, done) == DecodeDigests(more, "", done + [acc + d])
    decreases |d|
  {
    var bytes := d + ("\0" + more);
    if d == "" {
      assert bytes == "\0" + more && bytes[1..] == more && acc + d == acc;
    } else {
      assert d[0] in d;
      assert bytes[1..] == d[1..] + ("\0" + more);
      assert acc + [d[0]] + d[1..] == acc + d;
      DecodeOne(d[1..], more, acc + [d[0]], done);
    }
  }

  lemma LastDigest(ds: seq<string>, more: string)
    requires ds != [] && '\0' !in ds[|ds| - 1]
    ensures DigestsBytes(ds) + more == DigestsBytes(ds[..|ds| - 1]) + (ds[|ds| - 1] + ("\0" + more))
  {
    var front, d := DigestsBytes(ds[..|ds| - 1]), ds[|ds| - 1];
    CPrefixWhole(d);
    assert DigestsBytes(ds) == front + (d + "\0");
    Regroup(front, d + "\0", more);
    Regroup(d, "\0", more);
  }

  lemma DecodeFirst(d: string, more: string, done: seq<string>)
    requires Stringy(d)
    ensures DecodeDigests(d + ("\0" + more), "", done) == DecodeDigests(more, "", done + [d])
  {
    DecodeOne(d, more, "", done);
    assert "" + d == d;
  }

  lemma LastMoved<T>(done: seq<T>, ds: seq<T>)
    requires ds != []
    ensures (done + ds[..|ds| - 1]) + [ds[|ds| - 1]] == done + ds
  {
  }

  lemma {:induction false} DecodeMany(ds: seq<string>, more: string, done: seq<string>)
    requires forall d :: d in ds ==> Stringy(d)
    ensures DecodeDigests(DigestsBytes(ds) + more, "", done) == DecodeDigests(more, "", done + ds)
    decreases |ds|
  {
    if ds == [] {
      assert DigestsBytes(ds) + more == more && done + ds == done;
    } else {
      var front, d := ds[..|ds| - 1], ds[|ds| - 1];
      assert Stringy(d);
      LastDigest(ds, more);
      LastMoved(done, ds);
      DecodeMany(front, d + ("\0" + more), done);
      DecodeFirst(d, more, done + front);
    }
  }

  lemma {:induction false} DecodedStringy(bytes: string, acc: string, done: seq<string>)
    requires '\0' !in acc && forall d :: d in done ==> Stringy(d)
    ensures var r := DecodeDigests(bytes, acc, done); r.Some? ==> forall d :: d in r.value ==> Stringy(d)
    decreases |bytes|
  {
    if |acc| < TEMP_DIGEST_LEN && bytes != "" {
      if bytes[0] == '\0' {
        DecodedStringy(bytes[1..], "", done + [acc]);
      } else {
        DecodedStringy(bytes[1..], acc + [bytes[0]], done);
      }
    }
  }

  /** Digests come back exactly when each is free of NUL and fits the decoder's buffer. */
  lemma DigestsRoundTrip(ds: seq<string>)
    ensures DecodeDigests(DigestsBytes(ds), "", []) == Some(ds) <==> forall d :: d in ds ==> Stringy(d)
  {
    if forall d :: d in ds ==> Stringy(d) {
      DecodeMany(ds, "", []);
      assert DigestsBytes(ds) + "" == DigestsBytes(ds) && [] + ds == ds;
    }
    DecodedStringy(DigestsBytes(ds), "", []);
  }

  // ----- the combined buffer -----

  ghost predicate FitsInts(order: seq<Word>, index: Index)
    requires forall w :: w in order ==> w in index
  {
    AllWords(Flatten(order, index)) && 4 * |Flatten(order, index)| < INT_LIMIT
  }

  ghost function Marshalled(order: seq<Word>, t: Table): string
    requires Walks(order, t.index) && FitsInts(order, t.index)
  {
    var b := Bytes(Flatten(order, t.index));
    WordBytes(|b|) + (b + DigestsBytes(t.digests))
  }

  /** The size of the words in bytes, the words, the digests. */
  lemma MarshalledLayout(order: seq<Word>, t: Table, i: nat)
    requires Walks(order, t.index) && FitsInts(order, t.index)
    ensures var s, flat := Marshalled(order, t), Flatten(order, t.index);
      && |s| >= 4 + 4 * |flat| && s[..4] == WordBytes(4 * |flat|)
      && (i < |flat| ==> s[4 + 4 * i..8 + 4 * i] == WordBytes(flat[i]))
      && s[4 + 4 * |flat|..] == DigestsBytes(t.digests)
  {
    var flat := Flatten(order, t.index);
    var head, b, s := WordBytes(4 * |flat|), Bytes(flat), Marshalled(order, t);
    assert s[4..4 + |b|] == b;
    if i < |flat| {
      BytesAt(flat, i);
      assert s[4 + 4 * i..8 + 4 * i] == s[4..4 + |b|][4 * i..4 * i + 4];
    }
  }

  ghost function DecodeParts(indexBytes: string, digestBytes: string): Option<Table>
  {
    match DecodeDigests(digestBytes, "", [])
    case None => None
    case Some(ds) => Some(Table(ds, DecodeIndex(ReadWords(indexBytes))))
  }

  /** Split at the size prefix and decode both parts; none when the prefix runs past the end. */
  ghost function Unmarshal(buffer: string): Option<Table>
  {
    if |buffer| < 4 then None
    else
      var n := ReadWord(buffer[..4]);
      if n >= INT_LIMIT || 4 + n > |buffer| then None
      else DecodeParts(buffer[4..4 + n], buffer[4 + n..])
  }

  /** The size prefix splits the buffer where the encoder joined it. */
  lemma UnmarshalSplits(prefix: string, b: string, c: string)
    requires |prefix| == 4 && ReadWord(prefix) == |b| < INT_LIMIT
    ensures Unmarshal(prefix + (b + c)) == DecodeParts(b, c)
  {
    var s := prefix + (b + c);
    assert s[..4] == prefix && s[4..4 + |b|] == b && s[4 + |b|..] == c;
  }

  ghost predicate Storable(t: Table)
  {
    Delimitable(t.index) && forall d :: d in t.digests ==> Stringy(d)
  }

  /** Marshalling a shard loses nothing exactly when its parts can be delimited. */
  lemma MarshalRoundTrip(order: seq<Word>, t: Table)
    requires Walks(order, t.index) && FitsInts(order, t.index)
    ensures Unmarshal(Marshalled(order, t)) == Some(t) <==> Storable(t)
  {
    var flat := Flatten(order, t.index);
    WordRoundTrip(|Bytes(flat)|);
    UnmarshalSplits(WordBytes(|Bytes(flat)|), Bytes(flat), DigestsBytes(t.digests));
    WordsRoundTrip(flat);
    IndexRoundTrip(order, t.index);
    DigestsRoundTrip(t.digests);
  }
}
