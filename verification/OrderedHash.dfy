/**
 `CSphOrderedHash`: hash buckets with singly linked chains, threaded by a doubly linked list
 in insertion order, with an iterator that survives deletion.  It is proved to be an
 insertion-ordered map.

 The ghost fields name the entries of each list in sequence.
 */
module OrderedHash {
  import opened Common

  class Entry<K, V> {
    const key: K
    var value: V
    var nextByHash: Entry?<K, V>
    var prevByOrder: Entry?<K, V>
    var nextByOrder: Entry?<K, V>

    constructor (key: K, value: V)
      ensures this.key == key && this.value == value && nextByHash == null && prevByOrder == null && nextByOrder == null
    {
      this.key, this.value := key, value;
      nextByHash, prevByOrder, nextByOrder := null, null, null;
    }
  }

  ghost function Nth<K, V>(s: seq<Entry<K, V>>, i: int): Entry?<K, V>
  {
    if 0 <= i < |s| then s[i] else null
  }

  // ----- which entries are where -----

  ghost predicate DistinctKeys<K, V>(s: seq<Entry<K, V>>)
  {
    forall i, j {:trigger Apart(s, i, j)} :: 0 <= i < j < |s| ==> Apart(s, i, j)
  }

  ghost predicate Apart<K, V>(s: seq<Entry<K, V>>, i: int, j: int)
    requires 0 <= i < |s| && 0 <= j < |s|
  {
    s[i].key != s[j].key
  }

  /** One entry has another key than all others. */
  lemma Differ<K, V>(s: seq<Entry<K, V>>, j: int)
    requires DistinctKeys(s) && 0 <= j < |s|
    ensures forall i :: 0 <= i < |s| && i != j ==> s[i].key != s[j].key
  {
    forall i | 0 <= i < |s| && i != j ensures s[i].key != s[j].key {
      assert i < j ==> Apart(s, i, j);
      assert j < i ==> Apart(s, j, i);
    }
  }

  ghost predicate NewKey<K, V>(s: seq<Entry<K, V>>, e: Entry<K, V>)
  {
    forall i :: 0 <= i < |s| ==> s[i].key != e.key
  }

  ghost predicate HasKey<K, V>(s: seq<Entry<K, V>>, k: K)
  {
    exists i :: 0 <= i < |s| && s[i].key == k
  }

  function Bucket<K>(hash: K -> nat, n: int, k: K): (b: int)
    requires n > 0
    ensures 0 <= b < n
  {
    hash(k) % n
  }

  /** No two entries have the same key, and every entry is in the chain of its bucket and in no other. */
  ghost predicate Shape<K, V>(hash: K -> nat, order: seq<Entry<K, V>>, chains: seq<seq<Entry<K, V>>>)
  {
    && |chains| > 0 && DistinctKeys(order)
    && (forall b :: 0 <= b < |chains| ==> DistinctKeys(chains[b]))
    && (forall b, i :: 0 <= b < |chains| && 0 <= i < |chains[b]| ==>
            chains[b][i] in order && Bucket(hash, |chains|, chains[b][i].key) == b)
    && (forall e {:trigger Bucket(hash, |chains|, e.key)} :: e in order ==> e in chains[Bucket(hash, |chains|, e.key)])
  }

  /** An entry is in the chain that its hash modulo the number of buckets selects. */
  lemma OwnChain<K, V>(hash: K -> nat, order: seq<Entry<K, V>>, chains: seq<seq<Entry<K, V>>>, e: Entry<K, V>)
    requires Shape(hash, order, chains) && e in order
    ensures |chains| > 0 && e in chains[hash(e.key) % |chains|]
  {
    var b := Bucket(hash, |chains|, e.key);
    assert e in chains[b];
  }

  ghost function Without<T>(s: seq<T>, i: int): seq<T>
    requires 0 <= i < |s|
  {
    s[..i] + s[i + 1..]
  }

  ghost predicate Within<K, V>(s: seq<Entry<K, V>>, t: seq<Entry<K, V>>)
  {
    forall i :: 0 <= i < |s| ==> s[i] in t
  }

  lemma WithoutMembers<K, V>(s: seq<Entry<K, V>>, i: int)
    requires 0 <= i < |s| && DistinctKeys(s)
    ensures DistinctKeys(Without(s, i)) && forall e :: e in Without(s, i) <==> e in s && e != s[i]
  {
    var t := Without(s, i);
    Differ(s, i);
    forall j, m | 0 <= j < m < |t| ensures Apart(t, j, m) {
      assert Apart(s, if j < i then j else j + 1, if m < i then m else m + 1);
    }
    assert forall j :: 0 <= j < |t| ==> t[j] == s[if j < i then j else j + 1];
    forall e | e in s && e != s[i] ensures e in t {
      var j :| 0 <= j < |s| && s[j] == e;
      assert t[if j < i then j else j - 1] == e;
    }
  }

  lemma ShapeAdd<K, V>(hash: K -> nat, order: seq<Entry<K, V>>, chains: seq<seq<Entry<K, V>>>, e: Entry<K, V>, b: int)
    requires Shape(hash, order, chains) && b == Bucket(hash, |chains|, e.key) && NewKey(chains[b], e)
    ensures e !in order && NewKey(order, e)
    ensures Shape(hash, order + [e], chains[b := chains[b] + [e]])
  {
    forall i | 0 <= i < |order| ensures order[i].key != e.key {
      assert Bucket(hash, |chains|, order[i].key) == b ==> order[i] in chains[b];
    }
    DistinctSnoc(order, e);
    DistinctSnoc(chains[b], e);
  }

  lemma DistinctSnoc<K, V>(s: seq<Entry<K, V>>, e: Entry<K, V>)
    requires DistinctKeys(s) && NewKey(s, e)
    ensures DistinctKeys(s + [e])
  {
    var t := s + [e];
    forall i, j | 0 <= i < j < |t| ensures Apart(t, i, j) {
      assert j < |s| ==> Apart(s, i, j);
    }
  }

  lemma ShapeRemove<K, V>(hash: K -> nat, order: seq<Entry<K, V>>, chains: seq<seq<Entry<K, V>>>, b: int, i: int,
                          j: int)
    requires Shape(hash, order, chains) && 0 <= b < |chains| && 0 <= i < |chains[b]| && 0 <= j < |order|
    requires order[j] == chains[b][i]
    ensures Shape(hash, Without(order, j), chains[b := Without(chains[b], i)])
  {
    WithoutMembers(order, j);
    WithoutMembers(chains[b], i);
  }

  // ----- the chain of one bucket -----

  ghost predicate ChainLinked<K, V>(head: Entry?<K, V>, chain: seq<Entry<K, V>>)
    reads chain`nextByHash
  {
    && head == Nth(chain, 0)
    && forall i {:trigger chain[i].nextByHash} :: 0 <= i < |chain| ==> chain[i].nextByHash == Nth(chain, i + 1)
  }

  /** Walk a chain for `k`: the entry and the one before it, or null and the last entry. */
  method Walk<K(==), V>(head: Entry?<K, V>, k: K, ghost chain: seq<Entry<K, V>>)
    returns (entry: Entry?<K, V>, prev: Entry?<K, V>, ghost i: int)
    requires ChainLinked(head, chain)
    ensures 0 <= i <= |chain| && entry == Nth(chain, i) && prev == Nth(chain, i - 1)
    ensures entry != null ==> entry.key == k
    ensures forall j :: 0 <= j < i ==> chain[j].key != k
  {
    entry, prev, i := head, null, 0;
    while entry != null && entry.key != k
      invariant 0 <= i <= |chain| && entry == Nth(chain, i) && prev == Nth(chain, i - 1)
      invariant forall j :: 0 <= j < i ==> chain[j].key != k
      decreases |chain| - i
    {
      prev, entry, i := entry, entry.nextByHash, i + 1;
    }
  }

  /** Store `e` where the walk ended. */
  method LinkEnd<K, V>(buckets: array<Entry?<K, V>>, b: int, prev: Entry?<K, V>, e: Entry<K, V>,
                       ghost chain: seq<Entry<K, V>>)
    requires 0 <= b < buckets.Length && ChainLinked(buckets[b], chain) && prev == Nth(chain, |chain| - 1)
    requires DistinctKeys(chain) && NewKey(chain, e) && e.nextByHash == null
    modifies buckets, chain`nextByHash
    ensures ChainLinked(buckets[b], chain + [e])
    ensures forall c :: 0 <= c < buckets.Length && c != b ==> buckets[c] == old(buckets[c])
  {
    if prev == null {
      buckets[b] := e;
    } else {
      prev.nextByHash := e;
    }
    ghost var chain' := chain + [e];
    assert forall i :: 0 <= i < |chain| ==> chain'[i] == chain[i];
    if chain != [] {
      Differ(chain, |chain| - 1);
    }
  }

  /** Take the entry at position `i` out of its chain. */
  method Unlink<K, V>(buckets: array<Entry?<K, V>>, b: int, prev: Entry?<K, V>, e: Entry<K, V>,
                      ghost chain: seq<Entry<K, V>>, ghost i: int)
    requires 0 <= b < buckets.Length && ChainLinked(buckets[b], chain) && DistinctKeys(chain)
    requires 0 <= i < |chain| && e == chain[i] && prev == Nth(chain, i - 1)
    modifies buckets, chain`nextByHash
    ensures ChainLinked(buckets[b], Without(chain, i))
    ensures forall c :: 0 <= c < buckets.Length && c != b ==> buckets[c] == old(buckets[c])
  {
    if prev == null {
      buckets[b] := e.nextByHash;
    } else {
      prev.nextByHash := e.nextByHash;
    }
    ghost var chain' := Without(chain, i);
    if i > 0 {
      Differ(chain, i - 1);
    }
    assert forall j :: 0 <= j < |chain'| ==> chain'[j] == chain[if j < i then j else j + 1];
  }

  // ----- all buckets -----

  ghost predicate AllLinked<K, V>(hash: K -> nat, buckets: array<Entry?<K, V>>, order: seq<Entry<K, V>>,
                                  chains: seq<seq<Entry<K, V>>>)
    requires Shape(hash, order, chains) && |chains| == buckets.Length
    reads buckets, order`nextByHash
  {
    forall b :: 0 <= b < buckets.Length ==> ChainLinked(buckets[b], chains[b])
  }

  method EnterBucket<K, V>(ghost hash: K -> nat, buckets: array<Entry?<K, V>>, b: int, prev: Entry?<K, V>,
                           e: Entry<K, V>, ghost order: seq<Entry<K, V>>, ghost chains: seq<seq<Entry<K, V>>>)
    requires Shape(hash, order, chains) && |chains| == buckets.Length && AllLinked(hash, buckets, order, chains)
    requires b == Bucket(hash, |chains|, e.key) && NewKey(chains[b], e) && prev == Nth(chains[b], |chains[b]| - 1)
    requires e.nextByHash == null
    modifies buckets, order`nextByHash
    ensures NewKey(order, e) && Shape(hash, order + [e], chains[b := chains[b] + [e]])
    ensures AllLinked(hash, buckets, order + [e], chains[b := chains[b] + [e]])
  {
    ShapeAdd(hash, order, chains, e, b);
    LinkEnd(buckets, b, prev, e, chains[b]);
  }

  method LeaveBucket<K, V>(ghost hash: K -> nat, buckets: array<Entry?<K, V>>, b: int, prev: Entry?<K, V>,
                           e: Entry<K, V>, ghost order: seq<Entry<K, V>>, ghost chains: seq<seq<Entry<K, V>>>,
                           ghost i: int, ghost j: int)
    requires Shape(hash, order, chains) && |chains| == buckets.Length && AllLinked(hash, buckets, order, chains)
    requires 0 <= b < |chains| && 0 <= i < |chains[b]| && e == chains[b][i] && prev == Nth(chains[b], i - 1)
    requires 0 <= j < |order| && order[j] == e
    modifies buckets, order`nextByHash
    ensures Shape(hash, Without(order, j), chains[b := Without(chains[b], i)])
    ensures AllLinked(hash, buckets, Without(order, j), chains[b := Without(chains[b], i)])
  {
    ShapeRemove(hash, order, chains, b, i, j);
    Unlink(buckets, b, prev, e, chains[b], i);
  }

  // ----- the list in insertion order -----

  ghost predicate OrderLinked<K, V>(first: Entry?<K, V>, last: Entry?<K, V>, order: seq<Entry<K, V>>)
    reads order`prevByOrder, order`nextByOrder
  {
    && first == Nth(order, 0) && last == Nth(order, |order| - 1)
    && (forall i {:trigger order[i].prevByOrder} :: 0 <= i < |order| ==> order[i].prevByOrder == Nth(order, i - 1))
    && (forall i {:trigger order[i].nextByOrder} :: 0 <= i < |order| ==> order[i].nextByOrder == Nth(order, i + 1))
  }

  /** Append `e` to the list. */
  method LinkLast<K, V>(first: Entry?<K, V>, last: Entry?<K, V>, e: Entry<K, V>, ghost order: seq<Entry<K, V>>)
    returns (first': Entry<K, V>, last': Entry<K, V>)
    requires OrderLinked(first, last, order) && DistinctKeys(order) && NewKey(order, e) && e.prevByOrder == null
    requires e.nextByOrder == null
    modifies order`nextByOrder, e`prevByOrder
    ensures OrderLinked(first', last', order + [e])
  {
    first' := if first == null then e else first;
    ghost var order' := order + [e];
    assert forall i :: 0 <= i < |order| ==> order'[i] == order[i];
    if last != null {
      Differ(order, |order| - 1);
      last.nextByOrder := e;
      e.prevByOrder := last;
    }
    last' := e;
  }

  /** Let the entry before position `j` skip it. */
  method SpliceNext<K, V>(first: Entry?<K, V>, ghost last: Entry?<K, V>, e: Entry<K, V>, ghost order: seq<Entry<K, V>>,
                          ghost j: int)
    returns (first': Entry?<K, V>)
    requires OrderLinked(first, last, order) && DistinctKeys(order) && 0 <= j < |order| && e == order[j]
    modifies order`nextByOrder
    ensures first' == if j == 0 then Nth(order, 1) else first
    ensures forall m {:trigger order[m].nextByOrder} :: 0 <= m < |order| ==>
      order[m].nextByOrder == Nth(order, if m == j - 1 then j + 1 else m + 1)
  {
    first' := first;
    if j > 0 {
      Differ(order, j - 1);
    }
    if e.prevByOrder != null {
      e.prevByOrder.nextByOrder := e.nextByOrder;
    } else {
      first' := e.nextByOrder;
    }
  }

  /** Let the entry after position `j` skip it. */
  method SplicePrev<K, V>(last: Entry?<K, V>, e: Entry<K, V>, ghost order: seq<Entry<K, V>>, ghost j: int)
    returns (last': Entry?<K, V>)
    requires DistinctKeys(order) && 0 <= j < |order| && e == order[j] && e.nextByOrder == Nth(order, j + 1)
    requires last == order[|order| - 1]
    requires forall m {:trigger order[m].prevByOrder} :: 0 <= m < |order| ==> order[m].prevByOrder == Nth(order, m - 1)
    modifies order`prevByOrder
    ensures last' == if j == |order| - 1 then Nth(order, j - 1) else last
    ensures forall m {:trigger order[m].prevByOrder} :: 0 <= m < |order| ==>
      order[m].prevByOrder == Nth(order, if m == j + 1 then j - 1 else m - 1)
  {
    last' := last;
    if j + 1 < |order| {
      Differ(order, j + 1);
    }
    if e.nextByOrder != null {
      e.nextByOrder.prevByOrder := e.prevByOrder;
    } else {
      last' := e.prevByOrder;
    }
  }

  lemma Spliced<K, V>(first: Entry?<K, V>, last: Entry?<K, V>, order: seq<Entry<K, V>>, j: int)
    requires 0 <= j < |order| && first == Nth(order, if j == 0 then 1 else 0)
    requires last == Nth(order, if j == |order| - 1 then j - 1 else |order| - 1)
    requires forall m {:trigger order[m].nextByOrder} :: 0 <= m < |order| ==>
      order[m].nextByOrder == Nth(order, if m == j - 1 then j + 1 else m + 1)
    requires forall m {:trigger order[m].prevByOrder} :: 0 <= m < |order| ==>
      order[m].prevByOrder == Nth(order, if m == j + 1 then j - 1 else m - 1)
    ensures OrderLinked(first, last, Without(order, j))
  {
  }

  /** Take the entry at position `j` out of the list. */
  method UnlinkOrder<K, V>(first: Entry?<K, V>, last: Entry?<K, V>, e: Entry<K, V>, ghost order: seq<Entry<K, V>>,
                           ghost j: int)
    returns (first': Entry?<K, V>, last': Entry?<K, V>)
    requires OrderLinked(first, last, order) && DistinctKeys(order) && 0 <= j < |order| && e == order[j]
    modifies order`nextByOrder, order`prevByOrder
    ensures OrderLinked(first', last', Without(order, j)) && e.prevByOrder == Nth(order, j - 1)
  {
    first' := SpliceNext(first, last, e, order, j);
    last' := SplicePrev(last, e, order, j);
    Spliced(first', last', order, j);
  }

  /** Where an entry other than the removed one is afterwards, and where the iteration steps back to. */
  lemma SteppedBack<K, V>(order: seq<Entry<K, V>>, j: int, at: int)
    requires DistinctKeys(order) && 0 <= j < |order| && -1 <= at < |order|
    ensures Nth(order, at) == order[j] <==> at == j
    ensures Nth(Without(order, j), if j <= at then at - 1 else at)
         == if at == j then Nth(order, j - 1) else Nth(order, at)
  {
    Differ(order, j);
  }

  // ----- both together -----

  ghost predicate Linked<K, V>(hash: K -> nat, buckets: array<Entry?<K, V>>, first: Entry?<K, V>, last: Entry?<K, V>,
                               order: seq<Entry<K, V>>, chains: seq<seq<Entry<K, V>>>)
    reads buckets, order`nextByHash, order`prevByOrder, order`nextByOrder
  {
    && Shape(hash, order, chains) && |chains| == buckets.Length
    && AllLinked(hash, buckets, order, chains) && OrderLinked(first, last, order)
  }

  method Append<K, V>(ghost hash: K -> nat, buckets: array<Entry?<K, V>>, b: int, prev: Entry?<K, V>, e: Entry<K, V>,
                      first: Entry?<K, V>, last: Entry?<K, V>,
                      ghost order: seq<Entry<K, V>>, ghost chains: seq<seq<Entry<K, V>>>)
    returns (first': Entry<K, V>, last': Entry<K, V>)
    requires Linked(hash, buckets, first, last, order, chains)
    requires b == Bucket(hash, |chains|, e.key) && NewKey(chains[b], e) && prev == Nth(chains[b], |chains[b]| - 1)
    requires e.nextByHash == null && e.prevByOrder == null && e.nextByOrder == null
    modifies buckets, order`nextByHash, order`nextByOrder, e`prevByOrder
    ensures NewKey(order, e) && Linked(hash, buckets, first', last', order + [e], chains[b := chains[b] + [e]])
  {
    EnterBucket(hash, buckets, b, prev, e, order, chains);
    first', last' := LinkLast(first, last, e, order);
  }

  method Remove<K, V>(ghost hash: K -> nat, buckets: array<Entry?<K, V>>, b: int, prev: Entry?<K, V>, e: Entry<K, V>,
                      first: Entry?<K, V>, last: Entry?<K, V>,
                      ghost order: seq<Entry<K, V>>, ghost chains: seq<seq<Entry<K, V>>>,
                      ghost i: int, ghost j: int)
    returns (first': Entry?<K, V>, last': Entry?<K, V>)
    requires Linked(hash, buckets, first, last, order, chains)
    requires 0 <= b < |chains| && 0 <= i < |chains[b]| && e == chains[b][i] && prev == Nth(chains[b], i - 1)
    requires 0 <= j < |order| && order[j] == e
    modifies buckets, order`nextByHash, order`nextByOrder, order`prevByOrder
    ensures Linked(hash, buckets, first', last', Without(order, j), chains[b := Without(chains[b], i)])
    ensures e.prevByOrder == Nth(order, j - 1)
  {
    LeaveBucket(hash, buckets, b, prev, e, order, chains, i, j);
    first', last' := UnlinkOrder(first, last, e, order, j);
  }

  // ----- the hash -----

  /** The pairs of a list of entries. */
  ghost function PairsOf<K, V>(order: seq<Entry<K, V>>): (s: seq<(K, V)>)
    reads order`value
    ensures |s| == |order|
  {
    if order == [] then [] else PairsOf(order[..|order| - 1]) + [(order[|order| - 1].key, order[|order| - 1].value)]
  }

  lemma {:induction false} PairAt<K, V>(order: seq<Entry<K, V>>, i: int)
    requires 0 <= i < |order|
    ensures PairsOf(order)[i] == (order[i].key, order[i].value)
  {
    if i < |order| - 1 {
      PairAt(order[..|order| - 1], i);
    }
  }

  lemma {:induction false} PairsSnoc<K, V>(order: seq<Entry<K, V>>, e: Entry<K, V>)
    ensures PairsOf(order + [e]) == PairsOf(order) + [(e.key, e.value)]
  {
    var t := order + [e];
    assert t[..|t| - 1] == order && t[|t| - 1] == e;
  }

  lemma SnocAfter<T>(s: seq<T>, x: T, at: int)
    requires -1 <= at < |s|
    ensures (s + [x])[at + 1..] == s[at + 1..] + [x]
  {
  }

  lemma {:induction false} PairsWithout<K, V>(order: seq<Entry<K, V>>, j: int)
    requires 0 <= j < |order|
    ensures PairsOf(Without(order, j)) == Without(PairsOf(order), j)
  {
    var init, last := order[..|order| - 1], order[|order| - 1];
    assert order == init + [last];
    if j == |order| - 1 {
      assert Without(order, j) == init;
    } else {
      PairsWithout(init, j);
      assert Without(order, j) == Without(init, j) + [last];
      PairsSnoc(Without(init, j), last);
    }
  }

  /** Whether a key is there, in entries and in pairs. */
  lemma HasPair<K, V>(order: seq<Entry<K, V>>, k: K)
    ensures Has(PairsOf(order), k) <==> HasKey(order, k)
  {
    forall i | 0 <= i < |order| ensures PairsOf(order)[i].0 == order[i].key {
      PairAt(order, i);
    }
  }

  lemma DistinctPairs<K, V>(order: seq<Entry<K, V>>, j: int)
    requires DistinctKeys(order) && 0 <= j < |order|
    ensures PairsOf(order)[j].0 == order[j].key
    ensures forall i :: 0 <= i < |order| && i != j ==> PairsOf(order)[i].0 != order[j].key
  {
    Differ(order, j);
    forall i | 0 <= i < |order| ensures PairsOf(order)[i].0 == order[i].key {
      PairAt(order, i);
    }
  }

  ghost predicate Has<K, V>(s: seq<(K, V)>, k: K)
  {
    exists i :: 0 <= i < |s| && s[i].0 == k
  }

  /** The pairs whose key is not dropped. */
  ghost function Keep<K, V>(s: seq<(K, V)>, drop: K -> bool): seq<(K, V)>
  {
    if s == [] then []
    else Keep(s[..|s| - 1], drop) + if drop(s[|s| - 1].0) then [] else [s[|s| - 1]]
  }

  ghost function Erase<K, V>(s: seq<(K, V)>, k: K): seq<(K, V)>
  {
    Keep(s, x => x == k)
  }

  lemma {:induction false} EraseAbsent<K, V>(s: seq<(K, V)>, k: K)
    requires forall i :: 0 <= i < |s| ==> s[i].0 != k
    ensures Erase(s, k) == s
  {
    if s != [] {
      EraseAbsent(s[..|s| - 1], k);
    }
  }

  lemma {:induction false} EraseAt<K, V>(s: seq<(K, V)>, i: int)
    requires 0 <= i < |s| && forall j :: 0 <= j < |s| && j != i ==> s[j].0 != s[i].0
    ensures Erase(s, s[i].0) == Without(s, i)
  {
    var t := s[..|s| - 1];
    if i == |s| - 1 {
      EraseAbsent(t, s[i].0);
    } else {
      EraseAt(t, i);
      assert Without(s, i) == Without(t, i) + [s[|s| - 1]];
    }
  }

  /** Erasing the pair at `j` from all pairs and from those after `at`; the position moves
      back when the erased pair is not after it. */
  lemma EraseAfter<K, V>(s: seq<(K, V)>, j: int, at: int)
    requires 0 <= j < |s| && -1 <= at < |s| && forall i :: 0 <= i < |s| && i != j ==> s[i].0 != s[j].0
    ensures Erase(s, s[j].0) == Without(s, j)
    ensures Erase(s[at + 1..], s[j].0) == Without(s, j)[(if j <= at then at - 1 else at) + 1..]
  {
    EraseAt(s, j);
    var rest := s[at + 1..];
    if j <= at {
      EraseAbsent(rest, s[j].0);
      assert rest == Without(s, j)[at..];
    } else {
      assert rest[j - at - 1] == s[j];
      EraseAt(rest, j - at - 1);
      assert Without(rest, j - at - 1) == Without(s, j)[at + 1..];
    }
  }

  /** What a deletion does to the pairs and to the position. */
  ghost predicate Deletion<K, V>(s: seq<(K, V)>, k: K, was: bool, j: int, at: int, s': seq<(K, V)>, at': int)
  {
    if was then
      && 0 <= j < |s| && s[j].0 == k && (forall i :: 0 <= i < |s| && i != j ==> s[i].0 != k)
      && s' == Without(s, j) && at' == if j <= at then at - 1 else at
    else
      s' == s && at' == at && forall i :: 0 <= i < |s| ==> s[i].0 != k
  }

  lemma Erased<K, V>(s: seq<(K, V)>, k: K, was: bool, j: int, at: int, s': seq<(K, V)>, at': int)
    requires -1 <= at < |s| && Deletion(s, k, was, j, at, s', at')
    ensures -1 <= at' < |s'| && s' == Erase(s, k) && s'[at' + 1..] == Erase(s[at + 1..], k)
  {
    if was {
      EraseAfter(s, j, at);
    } else {
      EraseAbsent(s, k);
      EraseAbsent(s[at + 1..], k);
    }
  }

  class OrderedHash<K(==), V> {
    const hash: K -> nat
    const buckets: array<Entry?<K, V>>
    var first: Entry?<K, V>
    var last: Entry?<K, V>
    var length: int
    var current: Entry?<K, V>
    ghost var order: seq<Entry<K, V>>
    ghost var chains: seq<seq<Entry<K, V>>>
    /** Entries up to this position have been visited. */
    ghost var at: int

    ghost predicate Valid()
      reads this, buckets, order
    {
      && Linked(hash, buckets, first, last, order, chains) && length == |order|
      && -1 <= at < |order| && current == Nth(order, at)
    }

    /** The pairs in insertion order. */
    ghost function Pairs(): seq<(K, V)>
      reads this, order`value
    {
      PairsOf(order)
    }

    /** The pairs that the iteration has yet to visit. */
    ghost function Unvisited(): seq<(K, V)>
      reads this, order`value
      requires -1 <= at < |order|
    {
      Pairs()[at + 1..]
    }

    constructor (hash: K -> nat, n: nat)
      requires n > 0
      ensures Valid() && Pairs() == [] && fresh(buckets) && at == -1 && this.hash == hash && |chains| == n
    {
      this.hash := hash;
      buckets := new Entry?<K, V>[n](_ => null);
      first, last, length, current := null, null, 0, null;
      order, chains, at := [], seq(n, _ => []), -1;
    }

    method FindByKey(k: K) returns (entry: Entry?<K, V>)
      requires Valid()
      ensures entry != null ==> entry in order && entry.key == k
      ensures entry != null <==> HasKey(order, k)
    {
      var b := Bucket(hash, buckets.Length, k);
      var e, _, i := Walk(buckets[b], k, chains[b]);
      entry := e;
      assert e != null ==> e == chains[b][i];
    }

    /** Append an entry for `k`, or nothing if there is one. */
    method AddImpl(k: K, v: V) returns (entry: Entry?<K, V>)
      requires Valid()
      modifies this, buckets, order`nextByHash, order`nextByOrder
      ensures Valid() && at == old(at)
      ensures entry == null ==> order == old(order) && HasKey(order, k)
      ensures entry != null ==> order == old(order) + [entry] && fresh(entry) && !HasKey(old(order), k)
      ensures entry != null ==> entry.key == k && entry.value == v
    {
      var b := Bucket(hash, buckets.Length, k);
      var e, prev, i := Walk(buckets[b], k, chains[b]);
      if e != null {
        assert e == chains[b][i];
        return null;
      }
      entry := AppendNew(k, v, b, prev);
    }

    /** Append a new entry to the chain that ends with `prev`. */
    method AppendNew(k: K, v: V, b: int, prev: Entry?<K, V>) returns (entry: Entry<K, V>)
      requires Valid() && b == Bucket(hash, buckets.Length, k) && prev == Nth(chains[b], |chains[b]| - 1)
      requires forall i :: 0 <= i < |chains[b]| ==> chains[b][i].key != k
      modifies this, buckets, order`nextByHash, order`nextByOrder
      ensures Valid() && at == old(at) && order == old(order) + [entry] && fresh(entry) && !HasKey(old(order), k)
      ensures entry.key == k && entry.value == v
    {
      entry := new Entry(k, v);
      var first', last' := Append(hash, buckets, b, prev, entry, first, last, order, chains);
      Update(first', last', length + 1, current, at, chains[b := chains[b] + [entry]], order + [entry]);
    }

    method Update(first: Entry?<K, V>, last: Entry?<K, V>, length: int, current: Entry?<K, V>, ghost at: int,
                  ghost chains: seq<seq<Entry<K, V>>>, ghost order: seq<Entry<K, V>>)
      requires Linked(hash, buckets, first, last, order, chains) && length == |order|
      requires -1 <= at < |order| && current == Nth(order, at)
      modifies this`first, this`last, this`length, this`current, this`at, this`chains, this`order
      ensures Valid() && this.at == at && this.order == order
    {
      this.first, this.last, this.length, this.current, this.at, this.chains, this.order :=
        first, last, length, current, at, chains, order;
    }

    /** Append the pair, unless the key is there. */
    method Add(v: V, k: K) returns (added: bool)
      requires Valid()
      modifies this, buckets, order`nextByHash, order`nextByOrder
      ensures Valid() && added == !Has(old(Pairs()), k)
      ensures Pairs() == old(Pairs()) + if added then [(k, v)] else []
      ensures Unvisited() == old(Unvisited()) + if added then [(k, v)] else []
    {
      HasPair(order, k);
      ghost var order0, pairs0 := order, Pairs();
      var entry := AddImpl(k, v);
      added := entry != null;
      assert PairsOf(order0) == pairs0;
      if added {
        PairsSnoc(order0, entry);
        assert Pairs() == pairs0 + [(k, v)];
        SnocAfter(pairs0, (k, v), at);
      }
    }

    /** The entry for `k`, which is appended with the value `v` of a new entry if it is missing. */
    method AddUnique(k: K, v: V) returns (entry: Entry<K, V>)
      requires Valid()
      modifies this, buckets, order`nextByHash, order`nextByOrder
      ensures Valid() && entry in order && entry.key == k
      ensures Pairs() == old(Pairs()) + if Has(old(Pairs()), k) then [] else [(k, v)]
      ensures Unvisited() == old(Unvisited()) + if Has(old(Pairs()), k) then [] else [(k, v)]
    {
      HasPair(order, k);
      ghost var order0, added := order, !HasKey(order, k);
      entry := UniqueEntry(k, v);
      if added {
        PairsSnoc(order0, entry);
        SnocAfter(PairsOf(order0), (k, v), at);
      }
    }

    method UniqueEntry(k: K, v: V) returns (entry: Entry<K, V>)
      requires Valid()
      modifies this, buckets, order`nextByHash, order`nextByOrder
      ensures Valid() && at == old(at) && entry in order && entry.key == k
      ensures if HasKey(old(order), k) then order == old(order)
              else order == old(order) + [entry] && fresh(entry) && entry.value == v
    {
      var b := Bucket(hash, buckets.Length, k);
      var e, prev, i := Walk(buckets[b], k, chains[b]);
      if e != null {
        assert e == chains[b][i];
        return e;
      }
      entry := AppendNew(k, v, b, prev);
    }

    /** The value of `k`. */
    method Find(k: K) returns (v: Option<V>)
      requires Valid()
      ensures v.Some? <==> Has(Pairs(), k)
      ensures v.Some? ==> (k, v.value) in Pairs()
    {
      HasPair(order, k);
      var entry := FindByKey(k);
      if entry == null {
        return None;
      }
      ghost var i :| 0 <= i < |order| && order[i] == entry;
      PairAt(order, i);
      v := Some(entry.value);
    }

    /** Take out the entry for `k`.  The iteration goes on as if it had never been there. */
    method Delete(k: K) returns (was: bool)
      requires Valid()
      modifies this, buckets, order`nextByHash, order`nextByOrder, order`prevByOrder
      ensures Within(order, old(order))
      ensures Valid() && was == Has(old(Pairs()), k)
      ensures Pairs() == Erase(old(Pairs()), k) && Unvisited() == Erase(old(Unvisited()), k)
    {
      HasPair(order, k);
      ghost var pairs, j;
      was, pairs, j := DeleteEntry(k);
      Erased(pairs, k, was, j, old(at), Pairs(), at);
    }

    method DeleteEntry(k: K) returns (was: bool, ghost pairs: seq<(K, V)>, ghost j: int)
      requires Valid()
      modifies this, buckets, order`nextByHash, order`nextByOrder, order`prevByOrder
      ensures Within(order, old(order))
      ensures Valid() && was == HasKey(old(order), k) && pairs == old(Pairs())
      ensures Deletion(pairs, k, was, j, old(at), Pairs(), at)
    {
      pairs, j := Pairs(), -1;
      var b := Bucket(hash, buckets.Length, k);
      var e, prev, i := Walk(buckets[b], k, chains[b]);
      was := e != null;
      if was {
        j := DropPair(b, prev, e, i);
      } else {
        HasPair(order, k);
      }
    }

    method DropPair(b: int, prev: Entry?<K, V>, e: Entry<K, V>, ghost i: int) returns (ghost j: int)
      requires Valid() && 0 <= b < |chains| && 0 <= i < |chains[b]| && e == chains[b][i]
      requires prev == Nth(chains[b], i - 1)
      modifies this, buckets, order`nextByHash, order`nextByOrder, order`prevByOrder
      ensures Within(order, old(order))
      ensures Valid() && 0 <= j < |old(order)| && old(order)[j] == e
      ensures old(Pairs())[j].0 == e.key && forall i :: 0 <= i < |old(Pairs())| && i != j ==> old(Pairs())[i].0 != e.key
      ensures Pairs() == Without(old(Pairs()), j) && at == if j <= old(at) then old(at) - 1 else old(at)
    {
      j :| 0 <= j < |order| && order[j] == e;
      DistinctPairs(order, j);
      PairsWithout(order, j);
      Drop(b, prev, e, i, j);
    }

    method Drop(b: int, prev: Entry?<K, V>, e: Entry<K, V>, ghost i: int, ghost j: int)
      requires Valid() && 0 <= b < |chains| && 0 <= i < |chains[b]| && e == chains[b][i]
      requires prev == Nth(chains[b], i - 1)
      requires 0 <= j < |order| && order[j] == e
      modifies this, buckets, order`nextByHash, order`nextByOrder, order`prevByOrder
      ensures Within(order, old(order))
      ensures Valid() && order == Without(old(order), j) && at == if j <= old(at) then old(at) - 1 else old(at)
    {
      ghost var at' := if j <= at then at - 1 else at;
      ghost var order', chains' := Without(order, j), chains[b := Without(chains[b], i)];
      SteppedBack(order, j, at);
      var first', last' := Remove(hash, buckets, b, prev, e, first, last, order, chains, i, j);
      Update(first', last', length - 1, if e == current then e.prevByOrder else current, at', chains', order');
    }

    method IterateStart()
      requires Valid()
      modifies this`current, this`at
      ensures Valid() && Unvisited() == Pairs() == old(Pairs())
    {
      current, at := null, -1;
    }

    /** Start after the entry for `k`, or before all entries if there is none. */
    method IterateStartAt(k: K) returns (found: bool)
      requires Valid()
      modifies this`current, this`at
      ensures Valid() && Pairs() == old(Pairs()) && found == Has(Pairs(), k)
      ensures if found then current != null && 0 <= at && Pairs()[at].0 == k == current.key else Unvisited() == Pairs()
    {
      HasPair(order, k);
      var entry := FindByKey(k);
      found := entry != null;
      ghost var i := -1;
      if found {
        i :| 0 <= i < |order| && order[i] == entry;
        PairAt(order, i);
      }
      current, at := entry, i;
    }

    /** Go to the next entry; at the end, back to before the first. */
    method IterateNext() returns (more: bool)
      requires Valid()
      modifies this`current, this`at
      ensures Valid() && Pairs() == old(Pairs()) && more == (old(Unvisited()) != [])
      ensures if more then current != null && old(Unvisited()) == [(current.key, current.value)] + Unvisited()
              else current == null && Unvisited() == Pairs()
    {
      ghost var pairs := Pairs();
      if at + 1 < |order| {
        PairAt(order, at + 1);
        assert pairs[at + 1..] == [pairs[at + 1]] + pairs[at + 2..];
      }
      current := if current != null then current.nextByOrder else first;
      at := if at + 1 < |order| then at + 1 else -1;
      more := current != null;
      assert Pairs() == pairs;
    }
  }

  // ----- whole iterations -----

  ghost predicate DistinctPairKeys<K, V>(s: seq<(K, V)>)
  {
    forall i, j :: 0 <= i < j < |s| ==> s[i].0 != s[j].0
  }

  lemma KeysDiffer<K, V>(order: seq<Entry<K, V>>)
    requires DistinctKeys(order)
    ensures DistinctPairKeys(PairsOf(order))
  {
    forall i, j | 0 <= i < j < |order| ensures PairsOf(order)[i].0 != PairsOf(order)[j].0 {
      DistinctPairs(order, j);
    }
  }

  /** Erasing the pair just visited. */
  lemma EraseVisited<K, V>(kept: seq<(K, V)>, x: (K, V), rest: seq<(K, V)>)
    requires DistinctPairKeys(kept + [x] + rest)
    ensures Erase(kept + [x] + rest, x.0) == kept + rest && Erase(rest, x.0) == rest
  {
    var s := kept + [x] + rest;
    assert s[|kept|] == x;
    EraseAt(s, |kept|);
    assert Without(s, |kept|) == kept + rest;
    forall i | 0 <= i < |rest| ensures rest[i].0 != x.0 {
      assert s[|kept| + 1 + i] == rest[i];
    }
    EraseAbsent(rest, x.0);
  }

  lemma {:induction false} KeepSnoc<K, V>(s: seq<(K, V)>, x: (K, V), drop: K -> bool)
    ensures Keep(s + [x], drop) == Keep(s, drop) + if drop(x.0) then [] else [x]
  {
    var t := s + [x];
    assert t[..|t| - 1] == s && t[|t| - 1] == x;
  }

  lemma OneTaken<T>(pairs: seq<T>, kept: seq<T>, rest: seq<T>, x: T, rest': seq<T>)
    requires pairs == kept + rest && rest == [x] + rest'
    ensures pairs == kept + [x] + rest'
  {
    Regroup(kept, [x], rest');
  }

  lemma NothingLeft<T>(pairs: seq<T>, kept: seq<T>, rest: seq<T>)
    requires pairs == kept + rest && rest == []
    ensures pairs == kept
  {
  }

  method DropVisited<K(==), V>(h: OrderedHash<K, V>, k: K, ghost kept: seq<(K, V)>, ghost x: (K, V))
    requires h.Valid() && h.Pairs() == kept + [x] + h.Unvisited() && x.0 == k
    modifies h, h.buckets, h.order`nextByHash, h.order`nextByOrder, h.order`prevByOrder
    ensures h.Valid() && Within(h.order, old(h.order)) && h.Unvisited() == old(h.Unvisited())
    ensures h.Pairs() == kept + h.Unvisited()
  {
    KeysDiffer(h.order);
    EraseVisited(kept, x, h.Unvisited());
    var _ := h.Delete(k);
  }

  method HandleVisited<K(==), V>(h: OrderedHash<K, V>, drop: K -> bool, ghost kept: seq<(K, V)>, x: (K, V))
    returns (ghost kept': seq<(K, V)>)
    requires h.Valid() && h.Pairs() == kept + [x] + h.Unvisited()
    modifies h, h.buckets, h.order`nextByHash, h.order`nextByOrder, h.order`prevByOrder
    ensures h.Valid() && Within(h.order, old(h.order)) && h.Unvisited() == old(h.Unvisited())
    ensures h.Pairs() == kept' + h.Unvisited() && kept' == kept + if drop(x.0) then [] else [x]
  {
    kept' := kept;
    if drop(x.0) {
      DropVisited(h, x.0, kept, x);
    } else {
      kept' := kept + [x];
    }
  }

  /** One round of the loop below. */
  method Visit<K(==), V>(h: OrderedHash<K, V>, drop: K -> bool, ghost kept: seq<(K, V)>)
    returns (visited: Option<(K, V)>, ghost kept': seq<(K, V)>)
    requires h.Valid() && h.Pairs() == kept + h.Unvisited()
    modifies h, h.buckets, h.order`nextByHash, h.order`nextByOrder, h.order`prevByOrder
    ensures h.Valid() && Within(h.order, old(h.order))
    ensures visited.None? ==> kept' == kept && old(h.Unvisited()) == [] && h.Pairs() == kept
    ensures visited.Some? ==> old(h.Unvisited()) == [visited.value] + h.Unvisited()
    ensures visited.Some? ==>
      h.Pairs() == kept' + h.Unvisited() && kept' == kept + if drop(visited.value.0) then [] else [visited.value]
  {
    kept' := kept;
    ghost var pairs, rest := h.Pairs(), h.Unvisited();
    var more := h.IterateNext();
    if !more {
      NothingLeft(pairs, kept, rest);
      return None, kept;
    }
    var x := (h.current.key, h.current.value);
    OneTaken(pairs, kept, rest, x, h.Unvisited());
    visited := Some(x);
    kept' := HandleVisited(h, drop, kept, x);
  }

  /** A loop that deletes entries as it visits them still visits every entry once, in order,
      and keeps exactly the entries it did not delete. */
  method Sweep<K(==), V>(h: OrderedHash<K, V>, drop: K -> bool) returns (visited: seq<(K, V)>)
    requires h.Valid()
    modifies h, h.buckets, h.order`nextByHash, h.order`nextByOrder, h.order`prevByOrder
    ensures h.Valid() && visited == old(h.Pairs()) && h.Pairs() == Keep(old(h.Pairs()), drop)
  {
    h.IterateStart();
    visited := SweepOn(h, drop, h.Pairs());
  }

  method SweepOn<K(==), V>(h: OrderedHash<K, V>, drop: K -> bool, ghost pairs: seq<(K, V)>)
    returns (visited: seq<(K, V)>)
    requires h.Valid() && h.Pairs() == h.Unvisited() == pairs
    modifies h, h.buckets, h.order`nextByHash, h.order`nextByOrder, h.order`prevByOrder
    ensures h.Valid() && visited == pairs && h.Pairs() == Keep(pairs, drop)
  {
    visited := [];
    ghost var kept, rest, order0 := [], pairs, h.order;
    var x := None;
    while true
      invariant h.Valid() && Within(h.order, order0)
      invariant rest == h.Unvisited() && pairs == visited + rest && h.Pairs() == kept + rest
      invariant kept == Keep(visited, drop)
      decreases |rest|
    {
      x, kept := Visit(h, drop, kept);
      if x.None? {
        break;
      }
      rest := h.Unvisited();
      KeepSnoc(visited, x.value, drop);
      Regroup(visited, [x.value], rest);
      visited := visited + [x.value];
    }
  }
}
