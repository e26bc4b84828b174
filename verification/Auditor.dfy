/**
 The local auditor: it walks the witness graph from the inputs of a query down to
 the hashes that have no witness of their own, and compares these leaves with the
 inputs of every crawler witness of the root-checked epochs.

 Keys `K` stand for the hexadecimal hashes and `W` for stored witnesses, so the same
 auditor runs over symbolic data and over JSON text.
 */
module Auditor {
  import opened Common

  /** How the auditor reads a stored witness. */
  datatype Reader<!K, !W> = Reader(
    ins: W -> seq<K>,       // the "IN" list
    genuine: W -> bool,     // the signature check
    crawler: W -> bool      // the text holds the hash of the crawler tag
  )

  /** What the auditor downloads: one consistent view of Kanban. */
  datatype Snapshot<!K, W> = Snapshot(
    epoch: int,
    witnesses: map<K, W>,
    epochKeys: map<int, set<K>>,
    rootOk: set<int>        // epochs whose recomputed root hash matches the ledger
  )

  datatype Verdict = Untouched | Pass | Fail

  // ----- the witness graph -----

  ghost function Genuine<K, W>(r: Reader<K, W>, w: map<K, W>): (g: map<K, W>)
  {
    map k | k in w && r.genuine(w[k]) :: w[k]
  }

  /** Each key of `p` has a witness that lists the next key among its inputs. */
  ghost predicate IsPath<K, W>(r: Reader<K, W>, w: map<K, W>, p: seq<K>)
  {
    |p| > 0 && forall i :: 0 <= i < |p| - 1 ==> p[i] in w && p[i + 1] in r.ins(w[p[i]])
  }

  ghost predicate Connects<K, W>(r: Reader<K, W>, w: map<K, W>, p: seq<K>, from: K, to: K)
  {
    IsPath(r, w, p) && p[0] == from && p[|p| - 1] == to
  }

  ghost predicate Reaches<K(!new), W>(r: Reader<K, W>, w: map<K, W>, from: K, to: K)
  {
    exists p: seq<K> :: Connects(r, w, p, from, to)
  }

  /** `x` has no witness and is reachable from one of the start keys. */
  ghost predicate IsLeaf<K(!new), W>(r: Reader<K, W>, w: map<K, W>, starts: seq<K>, x: K)
  {
    x !in w && exists k :: k in starts && Reaches(r, w, k, x)
  }

  /** A topological numbering: every witness is numbered above its inputs. */
  ghost predicate Ranked<K(!new), W>(r: Reader<K, W>, w: map<K, W>, rank: K -> nat)
  {
    forall k, c :: k in w && c in r.ins(w[k]) ==> rank(c) < rank(k)
  }

  ghost predicate Acyclic<K(!new), W>(r: Reader<K, W>, w: map<K, W>)
  {
    exists rank: K -> nat :: Ranked(r, w, rank)
  }

  // ----- reachability, one edge at a time -----

  lemma ReachesSelf<K(!new), W>(r: Reader<K, W>, w: map<K, W>, k: K)
    ensures Reaches(r, w, k, k)
  {
    assert Connects(r, w, [k], k, k);
  }

  lemma ReachesEdge<K(!new), W>(r: Reader<K, W>, w: map<K, W>, k: K, c: K, x: K)
    requires k in w && c in r.ins(w[k]) && Reaches(r, w, c, x)
    ensures Reaches(r, w, k, x)
  {
    var p :| Connects(r, w, p, c, x);
    assert Connects(r, w, [k] + p, k, x);
  }

  /** A path either stays where it starts or leaves through an input of its start. */
  lemma ReachesUnfold<K(!new), W>(r: Reader<K, W>, w: map<K, W>, k: K, x: K)
    requires Reaches(r, w, k, x)
    ensures k == x || (k in w && exists c :: c in r.ins(w[k]) && Reaches(r, w, c, x))
  {
    var p :| Connects(r, w, p, k, x);
    if |p| > 1 {
      assert Connects(r, w, p[1..], p[1], x);
    }
  }

  lemma LeafOfUnwitnessed<K(!new), W>(r: Reader<K, W>, w: map<K, W>, rest: seq<K>, k: K, x: K)
    requires k !in w
    ensures IsLeaf(r, w, rest + [k], x) <==> x == k || IsLeaf(r, w, rest, x)
  {
    ReachesSelf(r, w, k);
    if x != k && IsLeaf(r, w, rest + [k], x) {
      var s :| s in rest + [k] && Reaches(r, w, s, x);
      ReachesUnfold(r, w, s, x);
      assert s in rest;
    }
    assert k in rest + [k];
    assert forall s :: s in rest ==> s in rest + [k];
  }

  lemma LeafOfWitnessed<K(!new), W>(r: Reader<K, W>, w: map<K, W>, rest: seq<K>, k: K, x: K)
    requires k in w
    ensures IsLeaf(r, w, rest + [k], x) <==> IsLeaf(r, w, rest + r.ins(w[k]), x)
  {
    var kids := r.ins(w[k]);
    if IsLeaf(r, w, rest + [k], x) {
      var s :| s in rest + [k] && Reaches(r, w, s, x);
      if s in rest {
        assert s in rest + kids;
      } else {
        ReachesUnfold(r, w, k, x);
        var c :| c in kids && Reaches(r, w, c, x);
        assert c in rest + kids;
      }
    }
    if IsLeaf(r, w, rest + kids, x) {
      var s :| s in rest + kids && Reaches(r, w, s, x);
      if s in kids {
        ReachesEdge(r, w, k, s, x);
        assert k in rest + [k];
      } else {
        assert s in rest + [k];
      }
    }
  }

  // ----- the size of the unfolded trees on the stack -----

  /** Sum of the unfolded tree sizes of `ks`; the graph is walked as a tree because
      the traversal keeps no visited set. */
  ghost function TreeSizes<K(!new), W>(r: Reader<K, W>, w: map<K, W>, rank: K -> nat, ks: seq<K>, bound: nat): (n: nat)
    requires Ranked(r, w, rank)
    requires forall k :: k in ks ==> rank(k) < bound
    decreases bound, |ks|
  {
    if ks == [] then 0
    else
      var k := ks[|ks| - 1];
      TreeSizes(r, w, rank, ks[..|ks| - 1], bound) + TreeSize(r, w, rank, k)
  }

  ghost function TreeSize<K(!new), W>(r: Reader<K, W>, w: map<K, W>, rank: K -> nat, k: K): (n: nat)
    requires Ranked(r, w, rank)
    ensures n > 0
    decreases rank(k)
  {
    1 + if k in w then TreeSizes(r, w, rank, r.ins(w[k]), rank(k)) else 0
  }

  ghost function Bound<K(!new)>(rank: K -> nat, ks: seq<K>): (b: nat)
    ensures forall k :: k in ks ==> rank(k) < b
  {
    if ks == [] then 0
    else
      var b := Bound(rank, ks[1..]);
      assert ks == [ks[0]] + ks[1..];
      if rank(ks[0]) < b then b else rank(ks[0]) + 1
  }

  lemma {:induction false} TreeSizesBound<K(!new), W>(r: Reader<K, W>, w: map<K, W>, rank: K -> nat, ks: seq<K>,
                                                      b: nat, b': nat)
    requires Ranked(r, w, rank)
    requires forall k :: k in ks ==> rank(k) < b && rank(k) < b'
    ensures TreeSizes(r, w, rank, ks, b) == TreeSizes(r, w, rank, ks, b')
    decreases |ks|
  {
    if ks != [] {
      TreeSizesBound(r, w, rank, ks[..|ks| - 1], b, b');
    }
  }

  lemma {:induction false} TreeSizesAppend<K(!new), W>(r: Reader<K, W>, w: map<K, W>, rank: K -> nat, ks: seq<K>,
                                                       ls: seq<K>, b: nat)
    requires Ranked(r, w, rank)
    requires forall k :: k in ks + ls ==> rank(k) < b
    ensures forall k :: k in ks ==> k in ks + ls
    ensures forall k :: k in ls ==> k in ks + ls
    ensures TreeSizes(r, w, rank, ks + ls, b) == TreeSizes(r, w, rank, ks, b) + TreeSizes(r, w, rank, ls, b)
    decreases |ls|
  {
    if ls == [] {
      assert ks + ls == ks;
    } else {
      var front, last := ls[..|ls| - 1], ls[|ls| - 1];
      assert ks + ls == (ks + front) + [last];
      TreeSizesAppend(r, w, rank, ks, front, b);
    }
  }

  // ----- STEP-2: the traversal -----

  /** The stack traversal: it keeps no visited set, ends on every acyclic witness map,
      and collects exactly the reachable keys without a witness. */
  method Traverse<K(==,!new), W>(r: Reader<K, W>, w: map<K, W>, starts: seq<K>) returns (leaves: set<K>)
    requires Acyclic(r, w)
    ensures forall x :: x in leaves <==> IsLeaf(r, w, starts, x)
  {
    ghost var rank: K -> nat :| Ranked(r, w, rank);
    var pad := starts;
    leaves := {};
    ghost var b := Bound(rank, starts);
    while |pad| != 0
      invariant forall k :: k in pad ==> rank(k) < b
      invariant forall x :: IsLeaf(r, w, starts, x) <==> x in leaves || IsLeaf(r, w, pad, x)
      decreases TreeSizes(r, w, rank, pad, b)
    {
      var top, rest := pad[|pad| - 1], pad[..|pad| - 1];
      assert pad == rest + [top];
      assert TreeSizes(r, w, rank, pad, b) == TreeSizes(r, w, rank, rest, b) + TreeSize(r, w, rank, top);
      if top !in w {
        forall x { LeafOfUnwitnessed(r, w, rest, top, x); }
        leaves := leaves + {top};
        pad := rest;
      } else {
        forall x { LeafOfWitnessed(r, w, rest, top, x); }
        var kids := r.ins(w[top]);
        TreeSizesBound(r, w, rank, kids, rank(top), b);
        TreeSizesAppend(r, w, rank, rest, kids, b);
        pad := rest + kids;
      }
    }
  }

  // ----- STEP-3 and STEP-4: the items the leaves must cover -----

  /** Inputs of the genuine crawler witnesses listed for a root-checked epoch at least two behind. */
  ghost predicate IsItem<K(!new), W>(r: Reader<K, W>, s: Snapshot<K, W>, x: K)
  {
    exists e, k :: ItemVia(r, s, e, k, x)
  }

  ghost predicate ItemVia<K, W>(r: Reader<K, W>, s: Snapshot<K, W>, e: int, k: K, x: K)
  {
    && 1 <= e <= s.epoch - 2 && e in s.rootOk
    && e in s.epochKeys && k in s.epochKeys[e]
    && k in Genuine(r, s.witnesses) && r.crawler(s.witnesses[k])
    && x in r.ins(s.witnesses[k])
  }

  /** What a slow-path pass means: every expected item is a leaf below the inputs. */
  ghost predicate Complete<K(!new), W>(r: Reader<K, W>, s: Snapshot<K, W>, inputs: seq<K>)
  {
    forall x :: IsItem(r, s, x) ==> IsLeaf(r, Genuine(r, s.witnesses), inputs, x)
  }

  method WellKeys<K(==,!new), W>(s: Snapshot<K, W>) returns (keys: set<K>)
    ensures forall k :: k in keys <==>
      exists e :: 1 <= e <= s.epoch - 2 && e in s.rootOk && e in s.epochKeys && k in s.epochKeys[e]
  {
    keys := {};
    var e := 1;
    while e <= s.epoch - 2
      invariant 1 <= e
      invariant forall k :: k in keys <==>
        exists d :: 1 <= d < e && d <= s.epoch - 2 && d in s.rootOk && d in s.epochKeys && k in s.epochKeys[d]
    {
      if e in s.rootOk && e in s.epochKeys {
        keys := keys + s.epochKeys[e];
      }
      e := e + 1;
    }
  }

  method CrawledItems<K(==,!new), W>(r: Reader<K, W>, w: map<K, W>, keys: set<K>) returns (items: set<K>)
    ensures forall x :: x in items <==> exists k :: k in keys && k in w && r.crawler(w[k]) && x in r.ins(w[k])
  {
    items := {};
    var todo := keys;
    while todo != {}
      invariant todo <= keys
      invariant forall x :: x in items <==>
        exists k :: k in keys - todo && k in w && r.crawler(w[k]) && x in r.ins(w[k])
      decreases todo
    {
      var k :| k in todo;
      todo := todo - {k};
      if k in w && r.crawler(w[k]) {
        items := items + (set x | x in r.ins(w[k]));
      }
    }
  }

  // ----- STEP-0 and STEP-6: the verify cache -----

  ghost function Hits<K>(inputs: seq<K>, cache: seq<K>): (n: nat)
    ensures n <= |inputs|
  {
    if inputs == [] then 0
    else Hits(inputs[..|inputs| - 1], cache) + if inputs[|inputs| - 1] in cache then 1 else 0
  }

  ghost predicate FastPath<K>(cache: seq<K>, cacheEpoch: int, epoch: int, inputs: seq<K>)
  {
    epoch == cacheEpoch && |cache| != 0 && |cache| == Hits(inputs, cache)
  }

  ghost predicate Distinct<K>(ks: seq<K>)
  {
    forall i, j :: 0 <= i < j < |ks| ==> ks[i] != ks[j]
  }

  ghost function Elements<K(!new)>(ks: seq<K>): (s: set<K>)
    ensures forall k :: k in s <==> k in ks
  {
    set k | k in ks
  }

  lemma {:induction false} ElementsSize<K(!new)>(ks: seq<K>)
    ensures |Elements(ks)| <= |ks|
  {
    if ks != [] {
      var front := ks[..|ks| - 1];
      ElementsSize(front);
      assert ks == front + [ks[|ks| - 1]];
      assert Elements(ks) == Elements(front) + {ks[|ks| - 1]};
    }
  }

  /** Without repeats, the hit counter counts the common elements. */
  lemma {:induction false} HitsCommon<K(!new)>(inputs: seq<K>, cache: seq<K>)
    requires Distinct(inputs)
    ensures Hits(inputs, cache) == |Elements(inputs) * Elements(cache)|
  {
    if inputs == [] {
      assert Elements(inputs) * Elements(cache) == {};
    } else {
      var front, last := inputs[..|inputs| - 1], inputs[|inputs| - 1];
      assert inputs == front + [last];
      HitsCommon(front, cache);
      var common := Elements(front) * Elements(cache);
      assert last !in common;
      assert Elements(inputs) * Elements(cache) == if last in cache then common + {last} else common;
    }
  }

  /** A fast-path hit by a repeat-free list contains every cached key. */
  lemma FastPathCovers<K(!new)>(cache: seq<K>, inputs: seq<K>)
    requires Distinct(inputs) && |cache| == Hits(inputs, cache)
    ensures forall k :: k in cache ==> k in inputs
  {
    HitsCommon(inputs, cache);
    ElementsSize(cache);
    SubsetBySize(Elements(inputs) * Elements(cache), Elements(cache));
    forall k | k in cache ensures k in inputs {
      assert k in Elements(cache);
    }
  }

  /** More start keys reach more leaves. */
  lemma CompleteMonotone<K(!new), W>(r: Reader<K, W>, s: Snapshot<K, W>, few: seq<K>, many: seq<K>)
    requires forall k :: k in few ==> k in many
    requires Complete(r, s, few)
    ensures Complete(r, s, many)
  {
    var w := Genuine(r, s.witnesses);
    forall x | IsItem(r, s, x) ensures IsLeaf(r, w, many, x) {
      var k :| k in few && Reaches(r, w, k, x);
      assert k in many;
    }
  }

  /** The cache agrees with the full audit: a fast-path pass of a repeat-free list
      is a list the full traversal would also pass. */
  lemma FastPathAgrees<K(!new), W>(r: Reader<K, W>, s: Snapshot<K, W>, cache: seq<K>, inputs: seq<K>)
    requires Complete(r, s, cache) && Distinct(inputs)
    requires FastPath(cache, s.epoch, s.epoch, inputs)
    ensures Complete(r, s, inputs)
  {
    FastPathCovers(cache, inputs);
    CompleteMonotone(r, s, cache, inputs);
  }

  /** Whatever the graph and whatever list passed the full audit before, the cache lets
      `inputs` pass only where the full audit would. */
  ghost predicate CacheSafe<K(!new)>(inputs: seq<K>)
  {
    forall r: Reader<K, seq<K>>, s: Snapshot<K, seq<K>>, cache: seq<K> ::
      CacheHit(r, s, cache, inputs) ==> Complete(r, s, inputs)
  }

  ghost predicate CacheHit<K(!new), W>(r: Reader<K, W>, s: Snapshot<K, W>, cache: seq<K>, inputs: seq<K>)
  {
    && s.epoch >= 3 && Acyclic(r, Genuine(r, s.witnesses))
    && Complete(r, s, cache) && FastPath(cache, s.epoch, s.epoch, inputs)
  }

  lemma {:induction false} HitsOfOne<K>(inputs: seq<K>, cache: seq<K>, x: K)
    requires forall k :: k in inputs ==> (k in cache <==> k == x)
    ensures Hits(inputs, cache) == multiset(inputs)[x]
  {
    if inputs != [] {
      var front, last := inputs[..|inputs| - 1], inputs[|inputs| - 1];
      assert inputs == front + [last];
      HitsOfOne(front, cache, x);
    }
  }

  lemma RepeatCounts<K>(ks: seq<K>, i: nat, j: nat)
    requires i < j < |ks| && ks[i] == ks[j]
    ensures multiset(ks)[ks[i]] >= 2
  {
    var a, b := ks[..j], ks[j..];
    assert ks == a + b;
    assert ks[i] == a[i] && a[i] in multiset(a);
    assert ks[j] == b[0] && b[0] in multiset(b);
  }

  /** A crawler witness `y` for the one item `z`. */
  ghost function OneItem<K>(y: K, z: K): Snapshot<K, seq<K>>
  {
    Snapshot(3, map[y := [z]], map[1 := {y}], {1})
  }

  ghost function PlainReader<K>(): Reader<K, seq<K>>
  {
    Reader(w => w, w => true, w => true)
  }

  /** Only lists that name the item or its witness pass the full audit. */
  lemma OneItemComplete<K(!new)>(y: K, z: K, inputs: seq<K>)
    requires y != z
    ensures Acyclic(PlainReader(), Genuine(PlainReader(), OneItem(y, z).witnesses))
    ensures z in inputs ==> Complete(PlainReader(), OneItem(y, z), inputs)
    ensures z !in inputs && y !in inputs ==> !Complete(PlainReader(), OneItem(y, z), inputs)
  {
    var r, s := PlainReader(), OneItem(y, z);
    var w := Genuine(r, s.witnesses);
    assert w == s.witnesses;
    assert Ranked(r, w, k => if k == y then 1 else 0);
    assert forall x :: IsItem(r, s, x) ==> x == z;
    ReachesSelf(r, w, z);
    assert ItemVia(r, s, 1, y, z);
    if z !in inputs && y !in inputs && IsLeaf(r, w, inputs, z) {
      var k :| k in inputs && Reaches(r, w, k, z);
      ReachesUnfold(r, w, k, z);
      assert false;
    }
  }

  /** A key that occurs `m` times hits a cache of `m` keys that names it once and otherwise
      only a key outside the list. */
  lemma RepeatHits<K(!new)>(inputs: seq<K>, i: nat, j: nat, z: K) returns (cache: seq<K>)
    requires i < j < |inputs| && inputs[i] == inputs[j] && z !in inputs
    ensures z in cache && |cache| != 0 && |cache| == Hits(inputs, cache)
  {
    var m := multiset(inputs)[inputs[i]];
    RepeatCounts(inputs, i, j);
    var others := seq(m - 1, n requires 0 <= n < m - 1 => z);
    cache := [inputs[i]] + others;
    assert cache[1] == z;
    HitsOfOne(inputs, cache, inputs[i]);
  }

  lemma RepeatsDefeatTheCache<K(!new)>(inputs: seq<K>, y: K, z: K)
    requires !Distinct(inputs) && y !in inputs && z !in inputs && y != z
    ensures !CacheSafe(inputs)
  {
    var i, j :| 0 <= i < j < |inputs| && inputs[i] == inputs[j];
    var cache := RepeatHits(inputs, i, j, z);
    OneItemComplete(y, z, cache);
    OneItemComplete(y, z, inputs);
    assert CacheHit(PlainReader(), OneItem(y, z), cache, inputs);
  }

  lemma {:induction false} LongerThanAll(inputs: seq<string>) returns (n: nat)
    ensures forall k :: k in inputs ==> |k| < n
  {
    if inputs == [] {
      n := 0;
    } else {
      var last := inputs[|inputs| - 1];
      var rest := LongerThanAll(inputs[..|inputs| - 1]);
      n := if rest <= |last| then |last| + 1 else rest;
      assert inputs == inputs[..|inputs| - 1] + [last];
    }
  }

  /** The cache is right for a list of hashes, on every graph and after every passing list,
      exactly if the list has no repeats. */
  lemma CacheIsExact(inputs: seq<string>)
    ensures CacheSafe(inputs) <==> Distinct(inputs)
  {
    if Distinct(inputs) {
      forall r: Reader<string, seq<string>>, s: Snapshot<string, seq<string>>, cache: seq<string> |
        CacheHit(r, s, cache, inputs)
        ensures Complete(r, s, inputs)
      {
        FastPathAgrees(r, s, cache, inputs);
      }
    } else {
      var n := LongerThanAll(inputs);
      var y := seq(n, m requires 0 <= m < n => 'a');
      RepeatsDefeatTheCache(inputs, y, y + "a");
    }
  }

  // ----- the auditor itself -----

  class LocalAuditor<K(==,!new), W> {
    var cache: seq<K>
    var cacheEpoch: int

    constructor ()
      ensures cache == [] && cacheEpoch == 0
    {
      cache, cacheEpoch := [], 0;
    }

    /** The cache only holds lists that the full audit passes. */
    ghost predicate Sound(r: Reader<K, W>, s: Snapshot<K, W>)
      reads this
    {
      |cache| != 0 && cacheEpoch == s.epoch ==> Complete(r, s, cache)
    }

    method Verify(r: Reader<K, W>, s: Snapshot<K, W>, inputs: seq<K>) returns (verdict: Verdict)
      requires s.epoch >= 3 && !FastPath(cache, cacheEpoch, s.epoch, inputs) ==> Acyclic(r, Genuine(r, s.witnesses))
      modifies this
      ensures s.epoch < 3 ==> verdict == Untouched && cache == old(cache) && cacheEpoch == old(cacheEpoch)
      ensures s.epoch >= 3 && FastPath(old(cache), old(cacheEpoch), s.epoch, inputs) ==>
        verdict == Pass && cache == old(cache) && cacheEpoch == old(cacheEpoch)
      ensures s.epoch >= 3 && !FastPath(old(cache), old(cacheEpoch), s.epoch, inputs) ==>
        && verdict == (if Complete(r, s, inputs) then Pass else Fail)
        && (verdict == Pass ==> cache == inputs && cacheEpoch == s.epoch)
        && (verdict == Fail ==> cacheEpoch == old(cacheEpoch))
        && (verdict == Fail ==> cache == if s.epoch == old(cacheEpoch) then old(cache) else [])
      ensures old(Sound(r, s)) ==> Sound(r, s)
      ensures old(Sound(r, s)) && s.epoch >= 3 && Distinct(inputs) ==> (verdict == Pass <==> Complete(r, s, inputs))
    {
      if s.epoch < 3 {
        return Untouched;
      }
      var hits := CountHits(inputs, cache);
      if s.epoch == cacheEpoch && |cache| != 0 && |cache| == hits {
        if Sound(r, s) && Distinct(inputs) {
          FastPathAgrees(r, s, cache, inputs);
        }
        return Pass;
      }
      if s.epoch != cacheEpoch {
        cache := [];
      }
      var w := map k | k in s.witnesses && r.genuine(s.witnesses[k]) :: s.witnesses[k];
      var leaves := Traverse(r, w, inputs);
      var keys := WellKeys(s);
      var items := CrawledItems(r, w, keys);
      assert forall x :: x in items <==> IsItem(r, s, x) by {
        ItemsAreItems(r, s, keys, items);
      }
      if items - leaves == {} {
        forall x | IsItem(r, s, x) ensures IsLeaf(r, w, inputs, x) {
          assert x !in items - leaves;
        }
        cache, cacheEpoch := inputs, s.epoch;
        verdict := Pass;
      } else {
        var x :| x in items - leaves;
        assert IsItem(r, s, x) && !IsLeaf(r, w, inputs, x);
        verdict := Fail;
      }
    }
  }

  lemma ItemsAreItems<K(!new), W>(r: Reader<K, W>, s: Snapshot<K, W>, keys: set<K>, items: set<K>)
    requires forall k :: k in keys <==>
      exists e :: 1 <= e <= s.epoch - 2 && e in s.rootOk && e in s.epochKeys && k in s.epochKeys[e]
    requires var w := Genuine(r, s.witnesses);
      forall x :: x in items <==> exists k :: k in keys && k in w && r.crawler(w[k]) && x in r.ins(w[k])
    ensures forall x :: x in items <==> IsItem(r, s, x)
  {
    forall x ensures x in items <==> IsItem(r, s, x) {
      if x in items {
        var w := Genuine(r, s.witnesses);
        var k :| k in keys && k in w && r.crawler(w[k]) && x in r.ins(w[k]);
        var e :| 1 <= e <= s.epoch - 2 && e in s.rootOk && e in s.epochKeys && k in s.epochKeys[e];
        assert ItemVia(r, s, e, k, x);
      }
    }
  }

  method CountHits<K(==)>(inputs: seq<K>, cache: seq<K>) returns (hits: nat)
    ensures hits == Hits(inputs, cache)
  {
    hits := 0;
    for i := 0 to |inputs|
      invariant hits == Hits(inputs[..i], cache)
    {
      assert inputs[..i + 1][..i] == inputs[..i];
      if inputs[i] in cache {
        hits := hits + 1;
      }
    }
    assert inputs[..|inputs|] == inputs;
  }
}
