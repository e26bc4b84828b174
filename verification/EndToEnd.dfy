/**
 From crawled blocks to search results: what the pipeline stores, read as inverted indexes,
 answers queries over exactly the documents of all blocks that the audit covers.

 `posts` gives the documents of a block, in order.
 */
module EndToEnd {
  import opened Common
  import opened Pipeline
  import opened PipelineSafety
  import opened AuditTheorem
  import opened ShardLife
  import I = InvertedIndex
  import Queriers
  import T = TestAndWrite
  import M = Marshal
  import Q = Query

  /** The documents of every block. */
  type Archive = nat -> seq<I.Doc>

  // ----- the documents in a datum -----

  ghost function DocsOf(d: Data, posts: Archive): seq<I.Doc>
    decreases d
  {
    match d
    case Block(id) => posts(id)
    case Posts(blocks) => DocsOfAll(blocks, posts)
    case Index(ps) => DocsOfAll(ps, posts)
    case Merged(prior, newer) => DocsOf(prior, posts) + DocsOf(newer, posts)
  }

  ghost function DocsOfAll(ds: seq<Data>, posts: Archive): seq<I.Doc>
    decreases ds
  {
    if ds == [] then [] else DocsOfAll(ds[..|ds| - 1], posts) + DocsOf(ds[|ds| - 1], posts)
  }

  /** How crawled posts are written as the text of an item, and read back as documents. */
  datatype Format = Format(write: Data -> string, read: string -> seq<I.Doc>)

  /** The text of the posts passes the enclave's buffer and is read as their documents. */
  ghost predicate Legible(f: Format, d: Data, posts: Archive)
  {
    M.Stringy(f.write(d)) && f.read(f.write(d)) == DocsOf(d, posts)
  }

  /** The executors can compute `d`: its items are legible and all its indexes fit their integers. */
  ghost predicate Computable(d: Data, f: Format, posts: Archive, stop: set<I.Word>)
    decreases d
  {
    && Sized(DocsOf(d, posts), stop)
    && match d
       case Index(ps) => forall p :: p in ps ==> Legible(f, p, posts)
       case Merged(prior, newer) => Computable(prior, f, posts, stop) && Computable(newer, f, posts, stop)
       case _ => false
  }

  ghost predicate LegibleAll(f: Format, ds: seq<Data>, posts: Archive)
  {
    forall d :: d in ds ==> Legible(f, d, posts)
  }

  function Texts(f: Format, ds: seq<Data>): (texts: seq<string>)
    ensures |texts| == |ds|
  {
    if ds == [] then [] else Texts(f, ds[..|ds| - 1]) + [f.write(ds[|ds| - 1])]
  }

  lemma {:induction false} TextsRead(f: Format, ds: seq<Data>, posts: Archive)
    requires LegibleAll(f, ds, posts)
    ensures forall s :: s in Texts(f, ds) ==> M.Stringy(s)
    ensures Parsed(Texts(f, ds), f.read) == DocsOfAll(ds, posts)
  {
    if ds != [] {
      var front, last := ds[..|ds| - 1], ds[|ds| - 1];
      assert ds == front + [last];
      TextsRead(f, front, posts);
      assert Legible(f, last, posts);
      assert Texts(f, ds)[..|ds| - 1] == Texts(f, front);
    }
  }

  method ComputeIndex(ps: seq<Data>, f: Format, ghost posts: Archive, stop: seq<I.Word>) returns (buffer: string)
    requires LegibleAll(f, ps, posts) && Sized(DocsOfAll(ps, posts), set w | w in stop)
    ensures Holds(buffer, DocsOfAll(ps, posts), set w | w in stop)
  {
    var texts := Texts(f, ps);
    TextsRead(f, ps, posts);
    M.DigestsRoundTrip(texts);
    var out := IndexBatch(texts, f.read, stop);
    buffer := out.value;
  }

  /** What the executors store for a datum: an indexer's output, or a reducer's over what was
      stored for its two inputs.  However often it was merged, it is the index of all its
      documents at once. */
  method Compute(d: Data, f: Format, ghost posts: Archive, stop: seq<I.Word>) returns (buffer: string)
    requires Computable(d, f, posts, set w | w in stop)
    ensures Holds(buffer, DocsOf(d, posts), set w | w in stop)
    decreases d
  {
    match d
    case Index(ps) =>
      buffer := ComputeIndex(ps, f, posts, stop);
    case Merged(prior, newer) =>
      var a := Compute(prior, f, posts, stop);
      var b := Compute(newer, f, posts, stop);
      buffer := DoMerge(a, b, DocsOf(prior, posts), DocsOf(newer, posts), set w | w in stop);
  }

  // ----- the documents of a range of blocks -----

  ghost function Between(posts: Archive, lo: nat, n: nat): seq<I.Doc>
  {
    if n == 0 then [] else Between(posts, lo, n - 1) + posts(lo + n)
  }

  lemma {:induction false} BetweenJoin(posts: Archive, lo: nat, m: nat, n: nat)
    ensures Between(posts, lo, m) + Between(posts, lo + m, n) == Between(posts, lo, m + n)
  {
    if n > 0 {
      BetweenJoin(posts, lo, m, n - 1);
      Regroup(Between(posts, lo, m), Between(posts, lo + m, n - 1), posts(lo + m + n));
    }
  }

  lemma {:induction false} DocsOfBlocks(posts: Archive, lo: nat, n: nat)
    ensures DocsOfAll(BlockRange(lo, n), posts) == Between(posts, lo, n)
  {
    if n > 0 {
      DocsOfBlocks(posts, lo, n - 1);
      assert BlockRange(lo, n)[..n - 1] == BlockRange(lo, n - 1);
    }
  }

  /** The documents of the blocks of shard `i` crawled in epoch `c`. */
  ghost function ShardBatch(posts: Archive, c: nat, i: nat): seq<I.Doc>
    requires c >= 1 && i >= 1
  {
    Between(posts, BlockIdAt(c) + (i - 1) * (ITEMS_BULK_MAX * INDEX_BULK_MAX), ITEMS_BULK_MAX * INDEX_BULK_MAX)
  }

  lemma DocsOfItems(posts: Archive, e: nat, i: nat)
    requires e >= 1 && i >= 1
    ensures DocsOf(ItemsVal(e, i), posts) == Between(posts, BlockIdAt(e) + (i - 1) * ITEMS_BULK_MAX, ITEMS_BULK_MAX)
  {
    DocsOfBlocks(posts, BlockIdAt(e) + (i - 1) * ITEMS_BULK_MAX, ITEMS_BULK_MAX);
  }

  lemma {:induction false} DocsOfBatch(posts: Archive, e: nat, b: nat, n: nat)
    requires e >= 2 && b >= 1 && n <= INDEX_BULK_MAX
    ensures DocsOfAll(IndexVal(e, b).posts[..n], posts)
         == Between(posts, BlockIdAt(e - 1) + (b - 1) * (ITEMS_BULK_MAX * INDEX_BULK_MAX), n * ITEMS_BULK_MAX)
  {
    if n > 0 {
      var lo := BlockIdAt(e - 1) + (b - 1) * (ITEMS_BULK_MAX * INDEX_BULK_MAX);
      DocsOfBatch(posts, e, b, n - 1);
      DocsOfBatchStep(posts, e, b, n, IndexVal(e, b).posts, lo);
      BetweenJoin(posts, lo, (n - 1) * ITEMS_BULK_MAX, ITEMS_BULK_MAX);
    }
  }

  lemma DocsOfSnoc(posts: Archive, ds: seq<Data>, n: nat)
    requires 1 <= n <= |ds|
    ensures DocsOfAll(ds[..n], posts) == DocsOfAll(ds[..n - 1], posts) + DocsOf(ds[n - 1], posts)
  {
    assert ds[..n][..n - 1] == ds[..n - 1];
  }

  lemma DocsOfBatchStep(posts: Archive, e: nat, b: nat, n: nat, ps: seq<Data>, lo: nat)
    requires e >= 2 && b >= 1 && 1 <= n <= INDEX_BULK_MAX && ps == IndexVal(e, b).posts
    requires lo == BlockIdAt(e - 1) + (b - 1) * (ITEMS_BULK_MAX * INDEX_BULK_MAX)
    ensures DocsOfAll(ps[..n], posts)
         == DocsOfAll(ps[..n - 1], posts) + Between(posts, lo + (n - 1) * ITEMS_BULK_MAX, ITEMS_BULK_MAX)
  {
    DocsOfSnoc(posts, ps, n);
    BatchItem(e, b, n);
    DocsOfItems(posts, e - 1, FirstItem(b) + n - 1);
    BatchBlocks(b, n);
  }

  lemma BatchItem(e: nat, b: nat, n: nat)
    requires e >= 2 && b >= 1 && 1 <= n <= INDEX_BULK_MAX
    ensures IndexVal(e, b).posts[n - 1] == ItemsVal(e - 1, FirstItem(b) + n - 1)
  {
  }

  lemma BatchBlocks(b: nat, n: nat)
    requires b >= 1 && n >= 1
    ensures (FirstItem(b) + n - 2) * ITEMS_BULK_MAX
         == (b - 1) * (ITEMS_BULK_MAX * INDEX_BULK_MAX) + (n - 1) * ITEMS_BULK_MAX
  {
  }

  lemma DocsOfIndex(posts: Archive, e: nat, b: nat)
    requires e >= 2 && b >= 1
    ensures DocsOf(IndexVal(e, b), posts) == ShardBatch(posts, e - 1, b)
  {
    DocsOfBatch(posts, e, b, INDEX_BULK_MAX);
    assert IndexVal(e, b).posts[..INDEX_BULK_MAX] == IndexVal(e, b).posts;
  }

  /** The documents of shard `i` of all epochs before `e`, oldest first. */
  ghost function ShardDocs(posts: Archive, e: nat, i: nat): seq<I.Doc>
    requires i >= 1
  {
    if e <= 1 then [] else ShardDocs(posts, e - 1, i) + ShardBatch(posts, e - 1, i)
  }

  lemma {:induction false} DocsOfGlobal(posts: Archive, e: nat, i: nat)
    requires e >= 2 && i >= 1
    ensures DocsOf(GlobalVal(e, i), posts) == ShardDocs(posts, e, i)
  {
    DocsOfIndex(posts, e, i);
    if e == 2 {
      assert ShardDocs(posts, 1, i) == [];
    } else {
      DocsOfGlobal(posts, e - 1, i);
    }
  }

  // ----- where a document of a block is -----

  lemma {:induction false} PlaceBetween(posts: Archive, lo: nat, n: nat, b: nat, j: nat) returns (m: nat)
    requires 1 <= b <= n && j < |posts(lo + b)|
    ensures m < |Between(posts, lo, n)| && Between(posts, lo, n)[m] == posts(lo + b)[j]
  {
    if b == n {
      m := |Between(posts, lo, n - 1)| + j;
    } else {
      m := PlaceBetween(posts, lo, n - 1, b, j);
    }
  }

  lemma {:induction false} BlockBetween(posts: Archive, lo: nat, n: nat, m: nat) returns (b: nat, j: nat)
    requires m < |Between(posts, lo, n)|
    ensures 1 <= b <= n && j < |posts(lo + b)| && Between(posts, lo, n)[m] == posts(lo + b)[j]
  {
    var before := |Between(posts, lo, n - 1)|;
    if m >= before {
      b, j := n, m - before;
    } else {
      b, j := BlockBetween(posts, lo, n - 1, m);
    }
  }

  /** Every document of a block of the shard has its number. */
  lemma {:induction false} PlaceInShard(posts: Archive, e: nat, i: nat, c: nat, id: nat, j: nat) returns (m: nat)
    requires i >= 1 && 1 <= c < e && InShard(id, c, i) && j < |posts(id)|
    ensures m < |ShardDocs(posts, e, i)| && ShardDocs(posts, e, i)[m] == posts(id)[j]
  {
    var before, batch := ShardDocs(posts, e - 1, i), ShardBatch(posts, e - 1, i);
    assert ShardDocs(posts, e, i) == before + batch;
    if c == e - 1 {
      m := PlaceInBatch(posts, c, i, id, j);
      assert (before + batch)[|before| + m] == batch[m];
      m := |before| + m;
    } else {
      m := PlaceInShard(posts, e - 1, i, c, id, j);
      assert (before + batch)[m] == before[m];
    }
  }

  lemma PlaceInBatch(posts: Archive, c: nat, i: nat, id: nat, j: nat) returns (m: nat)
    requires i >= 1 && c >= 1 && InShard(id, c, i) && j < |posts(id)|
    ensures m < |ShardBatch(posts, c, i)| && ShardBatch(posts, c, i)[m] == posts(id)[j]
  {
    var lo := BlockIdAt(c) + (i - 1) * (ITEMS_BULK_MAX * INDEX_BULK_MAX);
    m := PlaceBetween(posts, lo, ITEMS_BULK_MAX * INDEX_BULK_MAX, id - lo, j);
  }

  /** Every number stands for a document of a block of the shard. */
  lemma {:induction false} BlockInShardDocs(posts: Archive, e: nat, i: nat, m: nat) returns (c: nat, id: nat, j: nat)
    requires i >= 1 && m < |ShardDocs(posts, e, i)|
    ensures 1 <= c < e && InShard(id, c, i) && j < |posts(id)| && ShardDocs(posts, e, i)[m] == posts(id)[j]
  {
    var before, batch := ShardDocs(posts, e - 1, i), ShardBatch(posts, e - 1, i);
    assert ShardDocs(posts, e, i) == before + batch;
    if m >= |before| {
      assert (before + batch)[m] == batch[m - |before|];
      c := e - 1;
      id, j := BlockInBatch(posts, c, i, m - |before|);
    } else {
      assert (before + batch)[m] == before[m];
      c, id, j := BlockInShardDocs(posts, e - 1, i, m);
    }
  }

  lemma BlockInBatch(posts: Archive, c: nat, i: nat, m: nat) returns (id: nat, j: nat)
    requires i >= 1 && c >= 1 && m < |ShardBatch(posts, c, i)|
    ensures InShard(id, c, i) && j < |posts(id)| && ShardBatch(posts, c, i)[m] == posts(id)[j]
  {
    var lo := BlockIdAt(c) + (i - 1) * (ITEMS_BULK_MAX * INDEX_BULK_MAX);
    var b;
    b, j := BlockBetween(posts, lo, ITEMS_BULK_MAX * INDEX_BULK_MAX, m);
    id := lo + b;
  }

  // ----- searching -----

  /** The blocks of all epochs that are at least two behind. */
  ghost predicate Searchable(epoch: nat, id: nat)
  {
    epoch >= 3 && START_STEEM_BLOCK_ID < id <= START_STEEM_BLOCK_ID + (epoch - 2) * (ITEMS_BULK_MAX * ITEMS_POOL_MAX)
  }

  /** A querier was set up with a buffer that holds the index of the documents of `d`, as the
      executors compute it, and recovered the table `t` from it. */
  ghost predicate Serves(d: Data, buffer: string, t: I.Table, posts: Archive, stop: set<I.Word>)
  {
    Holds(buffer, DocsOf(d, posts), stop) && M.Unmarshal(buffer) == Some(t)
  }

  /** What a querier does for a request, from the stored buffer to the page: for one or two words
      that are not stop words, the page of the digests of the documents that hold them all. */
  method QueryShard(buffer: string, words: seq<I.Word>, page: int, ghost docs: seq<I.Doc>, ghost stop: set<I.Word>)
    returns (results: Option<seq<string>>)
    requires Holds(buffer, docs, stop)
    ensures |words| <= Q.WORDS_MAX ==> Q.Returns(results, M.Unmarshal(buffer).value, words, page)
    ensures |words| > Q.WORDS_MAX ==> Q.Returns(results, M.Unmarshal(buffer).value, words[..Q.WORDS_MAX], page)
    ensures page < 1 <==> results.None?
    ensures Q.Asked(words, stop) && page >= 1 ==> results == Some(Q.PageIn(Q.MatchDigests(docs, words), page))
  {
    var t := Setup(buffer);
    results := Q.DoQuery(t.value, words, page, docs, stop);
  }

  lemma DocsFound(t: I.Table, docs: seq<I.Doc>, stop: set<I.Word>, words: seq<I.Word>, answer: I.Postings, d: nat)
    requires I.TableOf(t, docs, stop) && Q.Asked(words, stop) && answer == Q.Answer(t.index, words)
    ensures Q.InRange(answer, t.digests) && |t.digests| == |docs|
    ensures d in answer <==> 1 <= d <= |docs| && Q.HasAll(docs[d - 1], words)
    ensures 1 <= d <= |docs| ==> t.digests[d - 1] == I.Digest(docs[d - 1])
  {
    IndexFinds(t.index, docs, stop, words, answer, d);
    Q.AnswerInRange(t, docs, stop, words);
    DigestOfDoc(t, docs, stop, d);
  }

  lemma IndexFinds(index: I.Index, docs: seq<I.Doc>, stop: set<I.Word>, words: seq<I.Word>, answer: I.Postings, d: nat)
    requires I.Indexes(index, docs, stop) && Q.Asked(words, stop) && answer == Q.Answer(index, words)
    ensures d in answer <==> 1 <= d <= |docs| && Q.HasAll(docs[d - 1], words)
  {
    Q.AnswersDocuments(index, docs, stop, words);
  }

  lemma DigestOfDoc(t: I.Table, docs: seq<I.Doc>, stop: set<I.Word>, d: nat)
    requires I.TableOf(t, docs, stop)
    ensures |t.digests| == |docs| && (1 <= d <= |docs| ==> t.digests[d - 1] == I.Digest(docs[d - 1]))
  {
    I.DigestsAre(docs);
  }

  lemma TableFinds(t: I.Table, docs: seq<I.Doc>, stop: set<I.Word>, words: seq<I.Word>, answer: I.Postings, m: nat)
    returns (page: nat, r: nat)
    requires I.TableOf(t, docs, stop) && Q.Asked(words, stop) && answer == Q.Answer(t.index, words)
    requires m < |docs| && Q.HasAll(docs[m], words)
    ensures Q.OnPage(answer, t.digests, page, r, I.Digest(docs[m]))
  {
    DocsFound(t, docs, stop, words, answer, m + 1);
    page, r := Q.AnswerOnPage(answer, t.digests, m + 1);
  }

  lemma TableFound(t: I.Table, docs: seq<I.Doc>, stop: set<I.Word>, words: seq<I.Word>, answer: I.Postings, page: nat,
                   r: nat)
    returns (m: nat)
    requires I.TableOf(t, docs, stop) && Q.Asked(words, stop) && answer == Q.Answer(t.index, words)
    requires Q.HasEntry(answer, page, r)
    ensures m < |docs| && Q.HasAll(docs[m], words) && Q.OnPage(answer, t.digests, page, r, I.Digest(docs[m]))
  {
    DocsFound(t, docs, stop, words, answer, 0);
    var d := Q.PageHoldsAnswer(answer, t.digests, page, r);
    DocsFound(t, docs, stop, words, answer, d);
    m := d - 1;
  }

  // ----- the blocks that are searched -----

  /** The shard of a block. */
  function ShardOfId(id: nat): (i: nat)
    requires id > START_STEEM_BLOCK_ID
    ensures 1 <= i <= INDEX_POOL_MAX
  {
    ((id - START_STEEM_BLOCK_ID - 1) % (ITEMS_BULK_MAX * ITEMS_POOL_MAX)) / (ITEMS_BULK_MAX * INDEX_BULK_MAX) + 1
  }

  lemma EpochOfBlock(epoch: nat, id: nat) returns (c: nat)
    requires Searchable(epoch, id)
    ensures 1 <= c < epoch - 1 && InShard(id, c, ShardOfId(id))
  {
    c := (id - START_STEEM_BLOCK_ID - 1) / (ITEMS_BULK_MAX * ITEMS_POOL_MAX) + 1;
  }

  lemma ShardIsSearchable(epoch: nat, c: nat, i: nat, id: nat)
    requires epoch >= 3 && 1 <= c < epoch - 1 && 1 <= i <= INDEX_POOL_MAX && InShard(id, c, i)
    ensures Searchable(epoch, id) && ShardOfId(id) == i
  {
    assert c * (ITEMS_BULK_MAX * ITEMS_POOL_MAX) <= (epoch - 2) * (ITEMS_BULK_MAX * ITEMS_POOL_MAX);
    var n := id - START_STEEM_BLOCK_ID - 1;
    assert (c - 1) * 1024 + (i - 1) * 256 <= n < (c - 1) * 1024 + i * 256;
    Remainders(n, c - 1, i - 1);
  }

  lemma Remainders(n: nat, q: nat, r: nat)
    requires r < 4 && q * 1024 + r * 256 <= n < q * 1024 + r * 256 + 256
    ensures (n % 1024) / 256 == r
  {
    var x := n - q * 1024;
    assert 0 <= x < 1024 && n == 1024 * q + x;
    assert n % 1024 == x;
  }

  /** Every block of an epoch that is at least two behind is in exactly one shard, of one epoch. */
  lemma BlockHasShard(epoch: nat, id: nat, i: nat)
    requires epoch >= 3 && 1 <= i <= INDEX_POOL_MAX
    ensures Searchable(epoch, id) && i == ShardOfId(id) <==> exists c: nat :: 1 <= c < epoch - 1 && InShard(id, c, i)
  {
    if Searchable(epoch, id) && i == ShardOfId(id) {
      var c := EpochOfBlock(epoch, id);
    }
    if c: nat :| 1 <= c < epoch - 1 && InShard(id, c, i) {
      ShardIsSearchable(epoch, c, i, id);
    }
  }

  /** `doc` is a post of a block of shard `i` that was crawled in epoch `c`, at least two behind. */
  ghost predicate IsPost(epoch: nat, i: nat, posts: Archive, c: nat, id: nat, j: nat, doc: I.Doc)
  {
    i >= 1 && epoch >= 3 && 1 <= c < epoch - 1 && InShard(id, c, i) && j < |posts(id)| && doc == posts(id)[j]
  }

  lemma FindInShard(docs: seq<I.Doc>, epoch: nat, i: nat, posts: Archive, c: nat, id: nat, j: nat, doc: I.Doc)
    returns (m: nat)
    requires IsPost(epoch, i, posts, c, id, j, doc) && docs == ShardDocs(posts, epoch - 1, i)
    ensures m < |docs| && docs[m] == doc
  {
    m := PlaceInShard(posts, epoch - 1, i, c, id, j);
  }

  lemma PostOfNumber(posts: Archive, epoch: nat, i: nat, docs: seq<I.Doc>, m: nat, doc: I.Doc)
    returns (c: nat, id: nat, j: nat)
    requires epoch >= 3 && i >= 1 && docs == ShardDocs(posts, epoch - 1, i) && m < |docs| && doc == docs[m]
    ensures IsPost(epoch, i, posts, c, id, j, doc)
  {
    c, id, j := BlockInShardDocs(posts, epoch - 1, i, m);
  }

  // ----- what a search finds -----

  /** Some page shows the text of `doc`, cut after 256 bytes. */
  ghost predicate Shows(answer: I.Postings, digests: seq<string>, doc: I.Doc)
  {
    exists page: nat, r: nat, text :: Q.OnPage(answer, digests, page, r, text) && I.Opens(text, doc.text)
  }

  /** Complete: each post of each searched block of the shard that holds all words is shown. */
  ghost predicate Complete(epoch: nat, i: nat, t: I.Table, posts: Archive, words: seq<I.Word>)
  {
    forall c: nat, id: nat, j: nat, doc: I.Doc {:trigger IsPost(epoch, i, posts, c, id, j, doc)} ::
      IsPost(epoch, i, posts, c, id, j, doc) && Q.HasAll(doc, words) ==> Shows(Q.Answer(t.index, words), t.digests, doc)
  }

  /** The entry is the text, cut after 256 bytes, of a post of a searched block of the shard that
      holds all words. */
  ghost predicate Genuine(epoch: nat, i: nat, t: I.Table, posts: Archive, words: seq<I.Word>, page: nat, r: nat)
  {
    exists c: nat, id: nat, j: nat, doc: I.Doc, text ::
      && IsPost(epoch, i, posts, c, id, j, doc) && Q.HasAll(doc, words) && I.Opens(text, doc.text)
      && Q.OnPage(Q.Answer(t.index, words), t.digests, page, r, text)
  }

  /** Sound: every result on every page is genuine. */
  ghost predicate Sound(epoch: nat, i: nat, t: I.Table, posts: Archive, words: seq<I.Word>)
  {
    forall page: nat, r: nat :: Q.HasEntry(Q.Answer(t.index, words), page, r) ==>
      Genuine(epoch, i, t, posts, words, page, r)
  }

  /** In order: the pages, put together, are the digests of the posts of the shard that hold all
      words, in the order of their blocks, then dummies; no digest is looked up out of range. */
  ghost predicate Ordered(epoch: nat, i: nat, t: I.Table, posts: Archive, words: seq<I.Word>)
    requires epoch >= 1 && i >= 1
  {
    && Q.InRange(Q.Answer(t.index, words), t.digests)
    && forall n :: Q.AllPages(Q.Answer(t.index, words), t.digests, n)
                == Q.Paged(Q.MatchDigests(ShardDocs(posts, epoch - 1, i), words), n)
  }

  ghost predicate Exact(epoch: nat, i: nat, t: I.Table, posts: Archive, words: seq<I.Word>)
  {
    && epoch >= 1 && i >= 1 && Complete(epoch, i, t, posts, words) && Sound(epoch, i, t, posts, words)
    && Ordered(epoch, i, t, posts, words)
  }

  lemma ShowsPost(epoch: nat, i: nat, docs: seq<I.Doc>, t: I.Table, posts: Archive, stop: set<I.Word>,
                  words: seq<I.Word>, c: nat, id: nat, j: nat, doc: I.Doc)
    requires IsPost(epoch, i, posts, c, id, j, doc) && docs == ShardDocs(posts, epoch - 1, i)
    requires I.TableOf(t, docs, stop) && Q.Asked(words, stop) && Q.HasAll(doc, words)
    ensures Shows(Q.Answer(t.index, words), t.digests, doc)
  {
    var m := FindInShard(docs, epoch, i, posts, c, id, j, doc);
    var page, r := TableFinds(t, docs, stop, words, Q.Answer(t.index, words), m);
  }

  lemma EntryIsGenuine(epoch: nat, i: nat, docs: seq<I.Doc>, t: I.Table, posts: Archive, stop: set<I.Word>,
                       words: seq<I.Word>, page: nat, r: nat)
    requires epoch >= 3 && 1 <= i <= INDEX_POOL_MAX && docs == ShardDocs(posts, epoch - 1, i)
    requires I.TableOf(t, docs, stop) && Q.Asked(words, stop) && Q.HasEntry(Q.Answer(t.index, words), page, r)
    ensures Genuine(epoch, i, t, posts, words, page, r)
  {
    var m := TableFound(t, docs, stop, words, Q.Answer(t.index, words), page, r);
    var c, id, j := PostOfNumber(posts, epoch, i, docs, m, docs[m]);
  }

  lemma TableIsComplete(epoch: nat, i: nat, docs: seq<I.Doc>, t: I.Table, posts: Archive, stop: set<I.Word>,
                        words: seq<I.Word>)
    requires epoch >= 3 && i >= 1 && docs == ShardDocs(posts, epoch - 1, i) && I.TableOf(t, docs, stop)
    requires Q.Asked(words, stop)
    ensures Complete(epoch, i, t, posts, words)
  {
    forall c: nat, id: nat, j: nat, doc: I.Doc {:trigger IsPost(epoch, i, posts, c, id, j, doc)} |
      IsPost(epoch, i, posts, c, id, j, doc) && Q.HasAll(doc, words)
      ensures Shows(Q.Answer(t.index, words), t.digests, doc)
    {
      ShowsPost(epoch, i, docs, t, posts, stop, words, c, id, j, doc);
    }
  }

  lemma TableIsSound(epoch: nat, i: nat, docs: seq<I.Doc>, t: I.Table, posts: Archive, stop: set<I.Word>,
                     words: seq<I.Word>)
    requires epoch >= 3 && 1 <= i <= INDEX_POOL_MAX && docs == ShardDocs(posts, epoch - 1, i)
    requires I.TableOf(t, docs, stop) && Q.Asked(words, stop)
    ensures Sound(epoch, i, t, posts, words)
  {
    forall page: nat, r: nat | Q.HasEntry(Q.Answer(t.index, words), page, r)
      ensures Genuine(epoch, i, t, posts, words, page, r)
    {
      EntryIsGenuine(epoch, i, docs, t, posts, stop, words, page, r);
    }
  }

  lemma TableIsOrdered(epoch: nat, i: nat, docs: seq<I.Doc>, t: I.Table, posts: Archive, stop: set<I.Word>,
                       words: seq<I.Word>)
    requires epoch >= 3 && i >= 1 && docs == ShardDocs(posts, epoch - 1, i) && I.TableOf(t, docs, stop)
    requires Q.Asked(words, stop)
    ensures Ordered(epoch, i, t, posts, words)
  {
    Q.PagesOfTable(t, docs, stop, words, 0);
    forall n ensures Q.AllPages(Q.Answer(t.index, words), t.digests, n) == Q.Paged(Q.MatchDigests(docs, words), n) {
      Q.PagesOfTable(t, docs, stop, words, n);
    }
  }

  ghost predicate Searches(epoch: nat, i: nat, t: I.Table, posts: Archive, stop: set<I.Word>)
  {
    forall words :: Q.Asked(words, stop) ==> Exact(epoch, i, t, posts, words)
  }

  /** `t` is the table of the documents of shard `i` of all closed epochs but the last, oldest first. */
  ghost predicate ShardTable(epoch: nat, i: nat, docs: seq<I.Doc>, t: I.Table, posts: Archive, stop: set<I.Word>)
  {
    epoch >= 3 && 1 <= i <= INDEX_POOL_MAX && docs == ShardDocs(posts, epoch - 1, i) && I.TableOf(t, docs, stop)
  }

  lemma TableSearches(epoch: nat, i: nat, docs: seq<I.Doc>, t: I.Table, posts: Archive, stop: set<I.Word>)
    requires ShardTable(epoch, i, docs, t, posts, stop)
    ensures Searches(epoch, i, t, posts, stop)
  {
    forall words | Q.Asked(words, stop) ensures Exact(epoch, i, t, posts, words) {
      TableIsComplete(epoch, i, docs, t, posts, stop, words);
      TableIsSound(epoch, i, docs, t, posts, stop, words);
      TableIsOrdered(epoch, i, docs, t, posts, stop, words);
    }
  }

  /** The querier of a shard serves what is stored for the last closed epoch. */
  ghost predicate ServesLast(k: Kanban, i: nat, buffer: string, t: I.Table, posts: Archive, stop: set<I.Word>)
  {
    && k.epoch >= 3 && 1 <= i <= INDEX_POOL_MAX && Slot(k.epoch - 1, i) in k.globals
    && Serves(k.globals[Slot(k.epoch - 1, i)], buffer, t, posts, stop)
  }

  lemma LastDocs(k: Kanban, i: nat, posts: Archive)
    requires StoreInv(k) && k.epoch >= 3 && 1 <= i <= INDEX_POOL_MAX && Slot(k.epoch - 1, i) in k.globals
    ensures DocsOf(k.globals[Slot(k.epoch - 1, i)], posts) == ShardDocs(posts, k.epoch - 1, i)
  {
    Queriers.StoredIsGlobal(k, k.epoch - 1, i);
    DocsOfGlobal(posts, k.epoch - 1, i);
  }

  lemma ServesTable(k: Kanban, i: nat, buffer: string, t: I.Table, posts: Archive, stop: set<I.Word>, docs: seq<I.Doc>)
    requires ServesLast(k, i, buffer, t, posts, stop) && docs == DocsOf(k.globals[Slot(k.epoch - 1, i)], posts)
    requires docs == ShardDocs(posts, k.epoch - 1, i)
    ensures ShardTable(k.epoch, i, docs, t, posts, stop)
  {
  }

  lemma SearchInStore(k: Kanban, i: nat, buffer: string, t: I.Table, posts: Archive, stop: set<I.Word>)
    requires StoreInv(k) && ServesLast(k, i, buffer, t, posts, stop)
    ensures Searches(k.epoch, i, t, posts, stop)
  {
    LastDocs(k, i, posts);
    var docs := DocsOf(k.globals[Slot(k.epoch - 1, i)], posts);
    ServesTable(k, i, buffer, t, posts, stop, docs);
    TableSearches(k.epoch, i, docs, t, posts, stop);
  }

  /** In every undisturbed run, whenever a querier was set up with what the executors computed for a shard
      of the last closed epoch, its pages for every query of one or two words that are not stop
      words are complete, sound and in order over the posts of all blocks of the shard that were
      crawled at least two epochs before. */
  lemma SearchIsExact(events: seq<Event>, k: Kanban, i: nat, buffer: string, t: I.Table, posts: Archive,
                      stop: set<I.Word>)
    requires T.Undisturbed(events) && k == T.FineRun(events).s.k && ServesLast(k, i, buffer, t, posts, stop)
    ensures Searches(k.epoch, i, t, posts, stop)
  {
    T.UndisturbedStore(events, k);
    SearchInStore(k, i, buffer, t, posts, stop);
  }
  /** So what such a querier returns for page `page` is that page of the digests of the posts of
      these blocks that hold all words, in the order of their blocks. */
  method SearchShard(ghost events: seq<Event>, ghost k: Kanban, ghost i: nat, buffer: string, ghost t: I.Table,
                     words: seq<I.Word>, page: int, ghost posts: Archive, ghost stop: set<I.Word>)
    returns (results: Option<seq<string>>)
    requires T.Undisturbed(events) && k == T.FineRun(events).s.k && ServesLast(k, i, buffer, t, posts, stop)
    ensures page < 1 <==> results.None?
    ensures Q.Asked(words, stop) && page >= 1 ==>
      results == Some(Q.PageIn(Q.MatchDigests(ShardDocs(posts, k.epoch - 1, i), words), page))
  {
    T.UndisturbedStore(events, k);
    LastDocs(k, i, posts);
    results := QueryShard(buffer, words, page, DocsOf(k.globals[Slot(k.epoch - 1, i)], posts), stop);
  }
}
