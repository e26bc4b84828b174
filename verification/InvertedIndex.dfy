/**
 The inverted index of a shard: word identifiers to the strictly increasing numbers of
 the documents that hold the word, counted from 1.

 The tokenizer is not modelled: a document is its text with the word identifiers the
 tokenizer finds in it.
 */
module InvertedIndex {

  const DIGEST_MAX_LENGTH: nat := 256

  type Word = nat
  type Postings = seq<nat>
  type Index = map<Word, Postings>

  datatype Doc = Doc(text: string, words: seq<Word>)

  /** The digests of the documents and the index over them. */
  datatype Table = Table(digests: seq<string>, index: Index)

  /** Reading through operator[]: a missing word has no documents. */
  function At(index: Index, w: Word): Postings
  {
    if w in index then index[w] else []
  }

  // ----- the index as it should be -----

  /** The numbers of the documents that hold `w`. */
  ghost function DocsWith(docs: seq<Doc>, w: Word): (p: Postings)
  {
    if docs == [] then []
    else
      var p := DocsWith(docs[..|docs| - 1], w);
      if w in docs[|docs| - 1].words then p + [|docs|] else p
  }

  ghost predicate Occurs(docs: seq<Doc>, w: Word)
  {
    exists i :: 0 <= i < |docs| && w in docs[i].words
  }

  /** `index` is the index of `docs` without the stop words. */
  ghost predicate Indexes(index: Index, docs: seq<Doc>, stop: set<Word>)
  {
    && (forall w :: w in index <==> w !in stop && Occurs(docs, w))
    && (forall w :: w in index ==> index[w] == DocsWith(docs, w))
  }

  /** `t` is what indexing `docs` in one go would give. */
  ghost predicate TableOf(t: Table, docs: seq<Doc>, stop: set<Word>)
  {
    Indexes(t.index, docs, stop) && t.digests == Digests(docs)
  }

  predicate Increasing(p: Postings)
  {
    forall i, j :: 0 <= i < j < |p| ==> p[i] < p[j]
  }

  /** A posting list is strictly increasing and holds exactly the numbers of the documents with the word. */
  lemma {:induction false} DocsWithMeans(docs: seq<Doc>, w: Word)
    ensures Increasing(DocsWith(docs, w))
    ensures forall d :: d in DocsWith(docs, w) <==> 1 <= d <= |docs| && w in docs[d - 1].words
    ensures DocsWith(docs, w) != [] <==> Occurs(docs, w)
  {
    if docs != [] {
      var front := docs[..|docs| - 1];
      DocsWithMeans(front, w);
      var p, q := DocsWith(front, w), DocsWith(docs, w);
      assert forall d :: d in p ==> d <= |front|;
      forall i, j | 0 <= i < j < |q| ensures q[i] < q[j] {
        if j == |p| {
          assert q[i] in p;
        }
      }
      assert forall d :: d in q <==> d in p || (d == |docs| && w in docs[|docs| - 1].words);
      assert forall i :: 0 <= i < |front| ==> docs[i] == front[i];
      if Occurs(docs, w) && !(w in docs[|docs| - 1].words) {
        var i :| 0 <= i < |docs| && w in docs[i].words;
        assert front[i] == docs[i];
      }
      if q != [] {
        assert q[0] in q;
      }
    }
  }

  // ----- building -----

  function AddOnce(p: Postings, d: nat): Postings
  {
    if p != [] && p[|p| - 1] == d then p else p + [d]
  }

  /** Push, then pop again if the last two entries are equal. */
  method PushDeduplicated(p: Postings, d: nat) returns (q: Postings)
    ensures q == AddOnce(p, d)
  {
    q := p + [d];
    if |q| > 1 && q[|q| - 1] == q[|q| - 2] {
      q := q[..|q| - 1];
    }
  }

  ghost predicate Entered(index: Index, before: Index, words: seq<Word>, d: nat)
  {
    && (forall w :: w in index <==> w in before || w in words)
    && (forall w :: w in index ==> index[w] == At(before, w) + if w in words then [d] else [])
  }

  class Indexer {
    var digests: seq<string>
    var index: Index

    constructor ()
      ensures digests == [] && index == map[]
    {
      digests, index := [], map[];
    }

    /** Enter every word of document `d`, however often it occurs. */
    method YieldIndex(d: nat, words: seq<Word>)
      requires forall w :: w in index ==> forall x :: x in index[w] ==> x < d
      modifies this`index
      ensures Entered(index, old(index), words, d)
    {
      ghost var before := index;
      for i := 0 to |words|
        invariant Entered(index, before, words[..i], d)
      {
        var w := words[i];
        var p := At(index, w);
        var q := PushDeduplicated(p, d);
        index := index[w := q];
        assert words[..i + 1] == words[..i] + [w];
        EnterStep(before, words[..i], w, d, p, q);
      }
      assert words[..|words|] == words;
    }

    method EnterAll(docs: seq<Doc>)
      requires digests == [] && index == map[]
      modifies this
      ensures Indexes(index, docs, {}) && digests == Digests(docs)
    {
      for i := 0 to |docs|
        invariant Indexes(index, docs[..i], {})
        invariant digests == Digests(docs[..i])
      {
        IndexesNonEmpty(index, docs[..i], {});
        ghost var before := index;
        YieldIndex(i + 1, docs[i].words);
        assert docs[..i + 1][..i] == docs[..i];
        IndexStep(index, before, docs[..i + 1]);
        digests := digests + [Digest(docs[i])];
      }
      assert docs[..|docs|] == docs;
    }

    method EraseAll(stop: seq<Word>)
      modifies this`index
      ensures index == old(index) - (set w | w in stop)
    {
      for i := 0 to |stop|
        invariant index == old(index) - (set w | w in stop[..i])
      {
        index := index - {stop[i]};
        assert stop[..i + 1] == stop[..i] + [stop[i]];
      }
      assert stop[..|stop|] == stop;
    }

    /** Index `docs` from scratch, keep the first bytes of each as its digest, and erase the stop words. */
    method BuildIndex(docs: seq<Doc>, stop: seq<Word>)
      requires digests == [] && index == map[]
      modifies this
      ensures Indexes(index, docs, set w | w in stop)
      ensures digests == Digests(docs)
      ensures |digests| == |docs| && forall i :: 0 <= i < |docs| ==> Opens(digests[i], docs[i].text)
    {
      EnterAll(docs);
      EraseAll(stop);
      DigestsAre(docs);
    }
  }

  /** `digest` is `text`, cut after 256 bytes. */
  ghost predicate Opens(digest: string, text: string)
  {
    digest <= text && |digest| == if |text| < DIGEST_MAX_LENGTH then |text| else DIGEST_MAX_LENGTH
  }

  function Digest(d: Doc): (digest: string)
    ensures Opens(digest, d.text)
  {
    if |d.text| > DIGEST_MAX_LENGTH then d.text[..DIGEST_MAX_LENGTH] else d.text
  }

  function Digests(docs: seq<Doc>): (ds: seq<string>)
    ensures |ds| == |docs|
  {
    if docs == [] then [] else Digests(docs[..|docs| - 1]) + [Digest(docs[|docs| - 1])]
  }

  lemma {:induction false} DigestsAre(docs: seq<Doc>)
    ensures |Digests(docs)| == |docs|
    ensures forall m :: 0 <= m < |docs| ==> Digests(docs)[m] == Digest(docs[m])
  {
    if docs != [] {
      DigestsAre(docs[..|docs| - 1]);
    }
  }

  lemma EnterStep(before: Index, done: seq<Word>, w: Word, d: nat, p: Postings, q: Postings)
    requires w in before ==> forall x :: x in before[w] ==> x < d
    requires p == At(before, w) + if w in done then [d] else []
    requires q == AddOnce(p, d)
    ensures q == At(before, w) + [d]
  {
    if w in done {
      assert p[|p| - 1] == d;
    } else if p != [] {
      assert p[|p| - 1] in before[w];
    }
  }

  lemma IndexStep(index: Index, before: Index, docs: seq<Doc>)
    requires docs != [] && Indexes(before, docs[..|docs| - 1], {})
    requires Entered(index, before, docs[|docs| - 1].words, |docs|)
    ensures Indexes(index, docs, {})
  {
    var front, last := docs[..|docs| - 1], docs[|docs| - 1];
    assert docs == front + [last];
    forall w ensures Occurs(docs, w) <==> Occurs(front, w) || w in last.words {
      OccursAppend(front, [last], w);
      assert Occurs([last], w) <==> w in last.words by {
        assert [last][0] == last;
      }
    }
    forall w | w in index ensures index[w] == DocsWith(docs, w) {
      DocsWithMeans(front, w);
      assert At(before, w) == DocsWith(front, w);
    }
  }

  // ----- merging -----

  function Shift(p: Postings, offset: nat): (q: Postings)
    ensures |q| == |p|
  {
    if p == [] then [] else Shift(p[..|p| - 1], offset) + [p[|p| - 1] + offset]
  }

  /** The posting lists of `a` followed by those of `b` moved up by `offset`. */
  ghost predicate MergesTo(m: Index, a: Index, b: Index, offset: nat)
  {
    && (forall w :: w in m <==> w in a || At(b, w) != [])
    && (forall w :: w in m ==> m[w] == At(a, w) + Shift(At(b, w), offset))
  }

  method AppendShifted(p: Postings, list: Postings, offset: nat) returns (q: Postings)
    ensures q == p + Shift(list, offset)
  {
    q := p;
    for i := 0 to |list|
      invariant q == p + Shift(list[..i], offset)
    {
      assert list[..i + 1][..i] == list[..i];
      q := q + [list[i] + offset];
    }
    assert list[..|list|] == list;
  }

  /** The merge walks the second table in any order. */
  method MergeTables(a: Table, b: Table) returns (m: Table)
    ensures m.digests == a.digests + b.digests
    ensures MergesTo(m.index, a.index, b.index, |a.digests|)
  {
    var offset := |a.digests|;
    var index := a.index;
    var todo := b.index.Keys;
    while todo != {}
      invariant todo <= b.index.Keys
      invariant MergesTo(index, a.index, b.index - todo, offset)
      decreases todo
    {
      var w :| w in todo;
      var before := index;
      if b.index[w] != [] {
        var p := AppendShifted(At(index, w), b.index[w], offset);
        index := index[w := p];
      }
      MergeStep(before, index, a.index, b.index, todo, w, offset);
      todo := todo - {w};
    }
    assert b.index - {} == b.index;
    m := Table(a.digests + b.digests, index);
  }

  lemma MergeStep(m: Index, m': Index, a: Index, b: Index, todo: set<Word>, w: Word, offset: nat)
    requires todo <= b.Keys && w in todo && MergesTo(m, a, b - todo, offset)
    requires m' == if b[w] == [] then m else m[w := At(m, w) + Shift(b[w], offset)]
    ensures MergesTo(m', a, b - (todo - {w}), offset)
  {
    assert At(b - todo, w) == [] && Shift([], offset) == [];
    assert At(m, w) == At(a, w);
    forall x ensures At(b - (todo - {w}), x) == if x == w then b[w] else At(b - todo, x) {
      RemovedLess(b, todo, w, x);
    }
  }

  lemma RemovedLess(b: Index, todo: set<Word>, w: Word, x: Word)
    requires todo <= b.Keys && w in todo
    ensures At(b - (todo - {w}), x) == if x == w then b[w] else At(b - todo, x)
  {
  }

  lemma {:induction false} DocsWithAppend(a: seq<Doc>, b: seq<Doc>, w: Word)
    ensures DocsWith(a + b, w) == DocsWith(a, w) + Shift(DocsWith(b, w), |a|)
    decreases |b|
  {
    if b == [] {
      assert a + b == a;
    } else {
      var front, last := b[..|b| - 1], b[|b| - 1];
      DocsWithAppend(a, front, w);
      assert (a + b)[..|a + b| - 1] == a + front;
      var p := DocsWith(front, w);
      if w in last.words {
        assert (p + [|b|])[..|p|] == p;
        assert Shift(p + [|b|], |a|) == Shift(p, |a|) + [|b| + |a|];
      }
    }
  }

  lemma OccursAppend(a: seq<Doc>, b: seq<Doc>, w: Word)
    ensures Occurs(a + b, w) <==> Occurs(a, w) || Occurs(b, w)
  {
    if Occurs(a + b, w) {
      var i :| 0 <= i < |a + b| && w in (a + b)[i].words;
      if i >= |a| {
        assert b[i - |a|] == (a + b)[i];
      }
    }
    if Occurs(a, w) {
      var i :| 0 <= i < |a| && w in a[i].words;
      assert (a + b)[i] == a[i];
    }
    if Occurs(b, w) {
      var i :| 0 <= i < |b| && w in b[i].words;
      assert (a + b)[|a| + i] == b[i];
    }
  }

  /** Merging the indexes of two document lists gives the index of their concatenation. */
  lemma MergeIndexes(m: Index, a: Index, b: Index, docsA: seq<Doc>, docsB: seq<Doc>, stop: set<Word>)
    requires Indexes(a, docsA, stop) && Indexes(b, docsB, stop) && MergesTo(m, a, b, |docsA|)
    ensures Indexes(m, docsA + docsB, stop)
  {
    IndexesNonEmpty(b, docsB, stop);
    forall w ensures w in m <==> w !in stop && Occurs(docsA + docsB, w) {
      OccursAppend(docsA, docsB, w);
    }
    forall w | w in m ensures m[w] == DocsWith(docsA + docsB, w) {
      DocsWithAppend(docsA, docsB, w);
      DocsWithMeans(docsA, w);
      DocsWithMeans(docsB, w);
      assert At(a, w) == DocsWith(docsA, w) && At(b, w) == DocsWith(docsB, w);
    }
  }

  lemma {:induction false} DigestsAppend(a: seq<Doc>, b: seq<Doc>)
    ensures Digests(a + b) == Digests(a) + Digests(b)
    decreases |b|
  {
    if b == [] {
      assert a + b == a;
    } else {
      DigestsAppend(a, b[..|b| - 1]);
      assert (a + b)[..|a + b| - 1] == a + b[..|b| - 1];
    }
  }

  /** Posting lists of an index are not empty and hold document numbers from 1 on. */
  lemma IndexesNonEmpty(index: Index, docs: seq<Doc>, stop: set<Word>)
    requires Indexes(index, docs, stop)
    ensures forall w :: w in index ==> index[w] != [] && forall d :: d in index[w] ==> 1 <= d <= |docs|
  {
    forall w | w in index ensures index[w] != [] && forall d :: d in index[w] ==> 1 <= d <= |docs| {
      DocsWithMeans(docs, w);
    }
  }

  /** The index of a document list is unique. */
  lemma IndexesUnique(a: Index, b: Index, docs: seq<Doc>, stop: set<Word>)
    requires Indexes(a, docs, stop) && Indexes(b, docs, stop)
    ensures a == b
  {
    assert a.Keys == b.Keys;
  }
}
