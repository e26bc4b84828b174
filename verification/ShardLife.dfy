/**
 The life of a shard as binary data: indexers build it, reducers unmarshal, merge and
 marshal it epoch after epoch, queriers unmarshal it.  Through any number of epochs it
 stays the index of all documents so far, numbered in the order they came.
 */
module ShardLife {
  import opened Common
  import opened InvertedIndex
  import opened Marshal

  /** The texts hold no NUL, and word and document numbers and sizes fit their integer types. */
  ghost predicate Sized(docs: seq<Doc>, stop: set<Word>)
  {
    && (forall d :: d in docs ==> '\0' !in d.text)
    && (forall index, order :: Indexes(index, docs, stop) && Walks(order, index) ==> FitsInts(order, index))
  }

  /** `buffer` holds the index of `docs`. */
  ghost predicate Holds(buffer: string, docs: seq<Doc>, stop: set<Word>)
  {
    Unmarshal(buffer).Some? && TableOf(Unmarshal(buffer).value, docs, stop)
  }

  lemma {:induction false} DigestsStringy(docs: seq<Doc>)
    requires forall d :: d in docs ==> '\0' !in d.text
    ensures forall s :: s in Digests(docs) ==> Stringy(s)
  {
    if docs != [] {
      var front, last := docs[..|docs| - 1], docs[|docs| - 1];
      assert docs == front + [last];
      DigestsStringy(front);
      assert Stringy(Digest(last));
    }
  }

  /** Marshalling the index of a document list, in whatever order, stores that index. */
  lemma MarshalledHolds(order: seq<Word>, t: Table, docs: seq<Doc>, stop: set<Word>)
    requires TableOf(t, docs, stop) && Sized(docs, stop) && Walks(order, t.index)
    ensures FitsInts(order, t.index) && Unmarshal(Marshalled(order, t)) == Some(t)
  {
    IndexesNonEmpty(t.index, docs, stop);
    DigestsStringy(docs);
    assert Storable(t);
    MarshalRoundTrip(order, t);
  }

  /** Some order in which a map can be walked. */
  method WalkOf(index: Index) returns (order: seq<Word>)
    ensures Walks(order, index)
  {
    order := [];
    var todo := index.Keys;
    while todo != {}
      invariant todo <= index.Keys
      invariant forall w :: w in order <==> w in index && w !in todo
      invariant forall i, j :: 0 <= i < j < |order| ==> order[i] != order[j]
      decreases todo
    {
      var w :| w in todo;
      order := order + [w];
      todo := todo - {w};
    }
  }

  method Merge2Binary(t: Table) returns (out: string, order: seq<Word>)
    requires forall order :: Walks(order, t.index) ==> FitsInts(order, t.index)
    ensures Walks(order, t.index) && FitsInts(order, t.index) && out == Marshalled(order, t)
  {
    order := WalkOf(t.index);
    var digests := Digest2Binary(t.digests);
    var flat := Index2Words(order, t.index);
    var b := Bytes(flat);
    out := WordBytes(|b|) + (b + digests[..]);
  }

  /** Recover digests and index from a buffer, as queriers and reducers do: of a buffer that
      holds the index of some documents, that index. */
  method Setup(buffer: string) returns (t: Option<Table>)
    ensures t == Unmarshal(buffer)
    ensures forall docs, stop :: Holds(buffer, docs, stop) ==> t.Some? && TableOf(t.value, docs, stop)
  {
    if |buffer| < 4 {
      return None;
    }
    var n := ReadWord(buffer[..4]);
    if n >= INT_LIMIT || 4 + n > |buffer| {
      return None;
    }
    var index := Words2Index(ReadWords(buffer[4..4 + n]));
    var digests := Binary2Digest(buffer[4 + n..]);
    t := if digests.None? then None else Some(Table(digests.value, index));
  }

  /** An indexer's task: the documents of a batch to the binary index. */
  method BuildShard(docs: seq<Doc>, stop: seq<Word>) returns (out: string)
    requires Sized(docs, set w | w in stop)
    ensures Holds(out, docs, set w | w in stop)
  {
    ghost var stops := set w | w in stop;
    var ix := new Indexer();
    ix.BuildIndex(docs, stop);
    var t := Table(ix.digests, ix.index);
    ghost var order;
    out, order := Merge2Binary(t);
    MarshalledHolds(order, t, docs, stops);
  }

  /** The documents read from a list of texts. */
  function Parsed(texts: seq<string>, read: string -> seq<Doc>): seq<Doc>
  {
    if texts == [] then [] else Parsed(texts[..|texts| - 1], read) + read(texts[|texts| - 1])
  }

  /** What the enclave recovers of the texts it is given as one binary; none if its buffer overflows. */
  ghost function Received(texts: seq<string>): Option<seq<string>>
  {
    DecodeDigests(DigestsBytes(texts), "", [])
  }

  /** An indexer's whole task: the item texts of a batch go to the enclave as one binary, and
      come out as the index of their documents. */
  method IndexBatch(texts: seq<string>, read: string -> seq<Doc>, stop: seq<Word>) returns (out: Option<string>)
    requires Received(texts).Some? ==> Sized(Parsed(Received(texts).value, read), set w | w in stop)
    ensures out.None? <==> Received(texts).None?
    ensures out.Some? ==> Holds(out.value, Parsed(Received(texts).value, read), set w | w in stop)
    ensures Received(texts) == Some(texts) <==> forall s :: s in texts ==> Stringy(s)
  {
    DigestsRoundTrip(texts);
    var binary := Digest2Binary(texts);
    var inputs := Binary2Digest(binary[..]);
    if inputs.None? {
      return None;
    }
    var docs := [];
    for i := 0 to |inputs.value|
      invariant docs == Parsed(inputs.value[..i], read)
    {
      assert inputs.value[..i + 1][..i] == inputs.value[..i];
      docs := docs + read(inputs.value[i]);
    }
    assert inputs.value[..|inputs.value|] == inputs.value;
    var buffer := BuildShard(docs, stop);
    out := Some(buffer);
  }

  /** A reducer's task: from the indexes of two document lists to the index of their concatenation. */
  method DoMerge(index1: string, index2: string, ghost docs1: seq<Doc>, ghost docs2: seq<Doc>, ghost stop: set<Word>)
    returns (out: string)
    requires Holds(index1, docs1, stop) && Holds(index2, docs2, stop) && Sized(docs1 + docs2, stop)
    ensures Holds(out, docs1 + docs2, stop)
  {
    var t1 := Setup(index1);
    var t2 := Setup(index2);
    var m := MergeTables(t1.value, t2.value);
    MergeIndexes(m.index, t1.value.index, t2.value.index, docs1, docs2, stop);
    DigestsAppend(docs1, docs2);
    ghost var order;
    out, order := Merge2Binary(m);
    MarshalledHolds(order, m, docs1 + docs2, stop);
  }

  function Concat(batches: seq<seq<Doc>>): seq<Doc>
  {
    if batches == [] then [] else Concat(batches[..|batches| - 1]) + batches[|batches| - 1]
  }

  /** The batches one after the other. */
  lemma {:induction false} ConcatAppend(a: seq<seq<Doc>>, b: seq<seq<Doc>>)
    ensures Concat(a + b) == Concat(a) + Concat(b)
    ensures |b| == 1 ==> Concat(b) == b[0]
    decreases |b|
  {
    if b == [] {
      assert a + b == a;
    } else {
      var front, last := b[..|b| - 1], b[|b| - 1];
      ConcatAppend(a, front);
      assert (a + b)[..|a + b| - 1] == a + front;
      Regroup(Concat(a), Concat(front), last);
    }
  }

  /** A shard over its epochs: built from the first batch, then merged with the index of each next one. */
  method RunShard(batches: seq<seq<Doc>>, stop: seq<Word>) returns (out: string)
    requires batches != []
    requires forall n :: 0 <= n < |batches| ==> Sized(batches[n], set w | w in stop)
    requires forall n :: 0 <= n <= |batches| ==> Sized(Concat(batches[..n]), set w | w in stop)
    ensures Holds(out, Concat(batches), set w | w in stop)
  {
    ghost var stops := set w | w in stop;
    out := BuildShard(batches[0], stop);
    assert batches[..1][..0] == [] && Concat(batches[..1]) == batches[0];
    for n := 1 to |batches|
      invariant Holds(out, Concat(batches[..n]), stops)
    {
      var fresh' := BuildShard(batches[n], stop);
      assert batches[..n + 1][..n] == batches[..n];
      assert Concat(batches[..n + 1]) == Concat(batches[..n]) + batches[n];
      out := DoMerge(out, fresh', Concat(batches[..n]), batches[n], stops);
    }
    assert batches[..|batches|] == batches;
  }

  /** Two ways of cutting the same documents into epochs give the same table. */
  lemma CutsAgree(a: string, b: string, docs: seq<Doc>, stop: set<Word>)
    requires Holds(a, docs, stop) && Holds(b, docs, stop)
    ensures Unmarshal(a) == Unmarshal(b)
  {
    IndexesUnique(Unmarshal(a).value.index, Unmarshal(b).value.index, docs, stop);
  }
}
