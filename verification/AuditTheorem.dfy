/**
 The auditor over the pipeline: in every run the walk from the served global indexes
 reaches exactly the blocks that were crawled two epochs ago or earlier, so the audit
 passes if and only if every shard is served, and served from the last closed epoch.
 */
module AuditTheorem {
  import opened Common
  import opened Auditor
  import opened Pipeline
  import opened PipelineSafety

  function DataReader(): Reader<Data, Data>
  {
    Reader(Inputs, (d: Data) => true, (d: Data) => d.Posts?)
  }

  /** What the auditor downloads from Kanban.  A root hash checks when the key set
      that was hashed is the key set that is there now. */
  ghost function View(k: Kanban): Snapshot<Data, Data>
  {
    Snapshot(k.epoch, map d | d in k.witnessed :: d, k.keys,
             set e: nat | e in k.root && KeysAt(k, e) == k.root[e])
  }

  ghost function Graph(k: Kanban): (w: map<Data, Data>)
    ensures w.Keys == k.witnessed && forall d :: d in w ==> w[d] == d
  {
    map d | d in k.witnessed :: d
  }

  lemma GenuineGraph(k: Kanban)
    ensures Genuine(DataReader(), View(k).witnesses) == Graph(k)
  {
  }

  // ----- the graph has no cycle -----

  function Rank(d: Data): nat
  {
    match d
    case Block(_) => 0
    case Posts(_) => 1
    case Index(_) => 2
    case Merged(prior, newer) => Rank(prior) + Rank(newer) + 1
  }

  lemma RankOfRecorded(k: Kanban, e: nat, d: Data, c: Data)
    requires StoreInv(k) && Recorded(k, e, d) && c in Inputs(d)
    ensures Rank(c) < Rank(d)
  {
    if InIndex(k, e, d) {
      var i: nat :| Slot(e, i) in k.index && k.index[Slot(e, i)] == d;
      assert IndexedFrom(d, e, i);
      var b: nat :| 1 <= b <= i && d == IndexVal(e, b);
      var j :| 0 <= j < |d.posts| && d.posts[j] == c;
      assert c == ItemsVal(e - 1, FirstItem(b) + j);
    } else if InGlobals(k, e, d) {
      KindOfGlobal(k, e, d);
    }
  }

  lemma GraphAcyclic(k: Kanban)
    requires StoreInv(k)
    ensures Acyclic(DataReader(), Graph(k))
  {
    var r, w := DataReader(), Graph(k);
    forall d, c | d in w && c in r.ins(w[d]) ensures Rank(c) < Rank(d) {
      var e: nat :| Recorded(k, e, d);
      RankOfRecorded(k, e, d, c);
    }
    assert Ranked(r, w, Rank);
  }

  // ----- what lies below a datum -----

  ghost predicate LeafBelow(k: Kanban, d: Data, x: Data)
  {
    x !in k.witnessed && Reaches(DataReader(), Graph(k), d, x)
  }

  lemma LeafOfBlock(k: Kanban, id: nat, x: Data)
    requires StoreInv(k)
    ensures LeafBelow(k, Block(id), x) <==> x == Block(id)
  {
    BlocksUnwitnessed(k, id);
    ReachesSelf(DataReader(), Graph(k), Block(id));
    if LeafBelow(k, Block(id), x) {
      ReachesUnfold(DataReader(), Graph(k), Block(id), x);
    }
  }

  lemma BlocksUnwitnessed(k: Kanban, id: nat)
    requires StoreInv(k)
    ensures Block(id) !in k.witnessed
  {
    if Block(id) in k.witnessed {
      var e: nat :| Recorded(k, e, Block(id));
      if InIndex(k, e, Block(id)) {
        KindOfIndex(k, e, Block(id));
      } else if InGlobals(k, e, Block(id)) {
        KindOfGlobal(k, e, Block(id));
      }
    }
  }

  lemma LeafUnfold(k: Kanban, d: Data, x: Data)
    requires d in k.witnessed
    ensures LeafBelow(k, d, x) <==> exists c :: c in Inputs(d) && LeafBelow(k, c, x)
  {
    var r, w := DataReader(), Graph(k);
    if LeafBelow(k, d, x) {
      ReachesUnfold(r, w, d, x);
      var c :| c in r.ins(w[d]) && Reaches(r, w, c, x);
      assert c in Inputs(d) && LeafBelow(k, c, x);
    }
    if c :| c in Inputs(d) && LeafBelow(k, c, x) {
      ReachesEdge(r, w, d, c, x);
    }
  }

  // ----- block numbers -----

  /** The blocks of task slot `i` of epoch `e`. */
  ghost predicate InItem(id: nat, e: nat, i: nat)
    requires e >= 1 && i >= 1
  {
    BlockIdAt(e) + (i - 1) * ITEMS_BULK_MAX < id <= BlockIdAt(e) + i * ITEMS_BULK_MAX
  }

  /** The blocks of epoch `e` that shard `i` indexes in the epoch after. */
  ghost predicate InShard(id: nat, e: nat, i: nat)
    requires e >= 1 && i >= 1
  {
    BlockIdAt(e) + (i - 1) * (ITEMS_BULK_MAX * INDEX_BULK_MAX)
      < id <= BlockIdAt(e) + i * (ITEMS_BULK_MAX * INDEX_BULK_MAX)
  }

  lemma ShardUnique(id: nat, e: nat, i: nat, e': nat, i': nat)
    requires e >= 1 && e' >= 1 && 1 <= i <= INDEX_POOL_MAX && 1 <= i' <= INDEX_POOL_MAX
    requires InShard(id, e, i) && InShard(id, e', i')
    ensures e == e' && i == i'
  {
  }

  lemma ShardItem(id: nat, e: nat, s: nat) returns (j: nat)
    requires e >= 1 && 1 <= s <= INDEX_POOL_MAX && InShard(id, e, s)
    ensures j < INDEX_BULK_MAX && InItem(id, e, FirstItem(s) + j)
  {
    j := (id - (BlockIdAt(e) + (FirstItem(s) - 1) * ITEMS_BULK_MAX) - 1) / ITEMS_BULK_MAX;
  }

  // ----- leaves of the three kinds of output -----

  lemma LeafOfItems(k: Kanban, e: nat, i: nat, x: Data)
    requires StoreInv(k) && e >= 1 && i >= 1 && ItemsVal(e, i) in k.witnessed
    ensures LeafBelow(k, ItemsVal(e, i), x) <==> x.Block? && InItem(x.id, e, i)
  {
    var blocks := ItemsVal(e, i).blocks;
    LeafUnfold(k, ItemsVal(e, i), x);
    if LeafBelow(k, ItemsVal(e, i), x) {
      var c :| c in blocks && LeafBelow(k, c, x);
      LeafOfBlock(k, c.id, x);
    }
    if x.Block? && InItem(x.id, e, i) {
      var j := x.id - (BlockIdAt(e) + (i - 1) * ITEMS_BULK_MAX) - 1;
      assert blocks[j] == x;
      LeafOfBlock(k, x.id, x);
    }
  }

  lemma LeafOfBatch(k: Kanban, e: nat, s: nat, j: nat, x: Data)
    requires StoreInv(k) && 2 <= e <= k.epoch && 1 <= s <= INDEX_POOL_MAX && j < INDEX_BULK_MAX
    ensures LeafBelow(k, IndexVal(e, s).posts[j], x) <==> x.Block? && InItem(x.id, e - 1, FirstItem(s) + j)
  {
    ItemsWitnessed(k, e - 1, FirstItem(s) + j);
    LeafOfItems(k, e - 1, FirstItem(s) + j, x);
  }

  lemma LeafOfIndex(k: Kanban, e: nat, s: nat, x: Data)
    requires StoreInv(k) && 2 <= e <= k.epoch && 1 <= s <= INDEX_POOL_MAX && IndexVal(e, s) in k.witnessed
    ensures LeafBelow(k, IndexVal(e, s), x) <==> x.Block? && InShard(x.id, e - 1, s)
  {
    LeafUnfold(k, IndexVal(e, s), x);
    if LeafBelow(k, IndexVal(e, s), x) {
      LeafOfIndexDown(k, e, s, x);
    }
    if x.Block? && InShard(x.id, e - 1, s) {
      var j := ShardItem(x.id, e - 1, s);
      LeafOfBatch(k, e, s, j, x);
      assert IndexVal(e, s).posts[j] in Inputs(IndexVal(e, s));
    }
  }

  lemma LeafOfIndexDown(k: Kanban, e: nat, s: nat, x: Data)
    requires StoreInv(k) && 2 <= e <= k.epoch && 1 <= s <= INDEX_POOL_MAX
    requires exists c :: c in Inputs(IndexVal(e, s)) && LeafBelow(k, c, x)
    ensures x.Block? && InShard(x.id, e - 1, s)
  {
    var posts := IndexVal(e, s).posts;
    var c :| c in posts && LeafBelow(k, c, x);
    var j :| 0 <= j < |posts| && posts[j] == c;
    LeafOfBatch(k, e, s, j, x);
  }

  lemma ExpectedWitnessed(k: Kanban, e: nat, d: Data)
    requires KeysOk(k) && ClosedOk(k) && 1 <= e < k.epoch && d in ExpectedKeys(e)
    ensures d in k.witnessed && d in KeysAt(k, e)
  {
    assert Finished(k, e);
  }

  lemma ItemsWitnessed(k: Kanban, e: nat, i: nat)
    requires KeysOk(k) && ClosedOk(k) && 1 <= e < k.epoch && 1 <= i <= ITEMS_POOL_MAX
    ensures ItemsVal(e, i) in k.witnessed && ItemsVal(e, i) in KeysAt(k, e)
  {
    assert ItemsVal(e, i) in ItemKeys(e);
    ExpectedWitnessed(k, e, ItemsVal(e, i));
  }

  lemma IndexWitnessed(k: Kanban, e: nat, i: nat)
    requires KeysOk(k) && ClosedOk(k) && 2 <= e < k.epoch && 1 <= i <= INDEX_POOL_MAX
    ensures IndexVal(e, i) in k.witnessed
  {
    assert IndexVal(e, i) in IndexKeys(e);
    ExpectedWitnessed(k, e, IndexVal(e, i));
  }

  lemma GlobalWitnessed(k: Kanban, e: nat, i: nat)
    requires KeysOk(k) && ClosedOk(k) && 2 <= e < k.epoch && 1 <= i <= INDEX_POOL_MAX
    ensures GlobalVal(e, i) in k.witnessed
  {
    if e == 2 {
      IndexWitnessed(k, e, i);
    } else {
      assert GlobalVal(e, i) in GlobalKeys(e);
      ExpectedWitnessed(k, e, GlobalVal(e, i));
    }
  }

  /** Below a global index of epoch `e` lie the blocks of its shard of all epochs before `e`. */
  lemma {:induction false} LeafOfGlobal(k: Kanban, e: nat, i: nat, x: Data)
    requires StoreInv(k) && 2 <= e < k.epoch && 1 <= i <= INDEX_POOL_MAX
    ensures LeafBelow(k, GlobalVal(e, i), x) <==> x.Block? && exists c :: 1 <= c < e && InShard(x.id, c, i)
    decreases e
  {
    IndexWitnessed(k, e, i);
    LeafOfIndex(k, e, i, x);
    if e == 2 {
      assert x.Block? && InShard(x.id, 1, i) <==> x.Block? && exists c :: 1 <= c < 2 && InShard(x.id, c, i);
    } else {
      GlobalWitnessed(k, e, i);
      LeafUnfold(k, GlobalVal(e, i), x);
      LeafOfGlobal(k, e - 1, i, x);
      assert Inputs(GlobalVal(e, i)) == [GlobalVal(e - 1, i), IndexVal(e, i)];
      assert LeafBelow(k, GlobalVal(e, i), x)
        <==> LeafBelow(k, GlobalVal(e - 1, i), x) || LeafBelow(k, IndexVal(e, i), x) by {
        assert GlobalVal(e - 1, i) in Inputs(GlobalVal(e, i)) && IndexVal(e, i) in Inputs(GlobalVal(e, i));
      }
    }
  }

  // ----- what the auditor expects -----

  /** The expected items are the blocks of every epoch that is at least two behind. */
  lemma ItemsAreBlocks(k: Kanban, x: Data)
    requires StoreInv(k) && k.epoch >= 3
    ensures IsItem(DataReader(), View(k), x) <==>
      x.Block? && START_STEEM_BLOCK_ID < x.id
        <= START_STEEM_BLOCK_ID + (k.epoch - 2) * (ITEMS_BULK_MAX * ITEMS_POOL_MAX)
  {
    var r, v := DataReader(), View(k);
    GenuineGraph(k);
    if IsItem(r, v, x) {
      var e, d :| ItemVia(r, v, e, d, x);
      ItemOfCrawler(k, e, d, x);
    }
    if x.Block? && START_STEEM_BLOCK_ID < x.id
        <= START_STEEM_BLOCK_ID + (k.epoch - 2) * (ITEMS_BULK_MAX * ITEMS_POOL_MAX) {
      BlockIsItem(k, x);
    }
  }

  /** Where a block is crawled: epoch, task and place. */
  lemma BlockPlace(id: nat, epochs: nat) returns (e: nat, i: nat, j: nat)
    requires START_STEEM_BLOCK_ID < id <= START_STEEM_BLOCK_ID + epochs * (ITEMS_BULK_MAX * ITEMS_POOL_MAX)
    ensures 1 <= e <= epochs && 1 <= i <= ITEMS_POOL_MAX && j < ITEMS_BULK_MAX && ItemsVal(e, i).blocks[j] == Block(id)
  {
    var n := id - START_STEEM_BLOCK_ID - 1;
    e := n / (ITEMS_BULK_MAX * ITEMS_POOL_MAX) + 1;
    i := (n % (ITEMS_BULK_MAX * ITEMS_POOL_MAX)) / ITEMS_BULK_MAX + 1;
    j := n % ITEMS_BULK_MAX;
    PlaceOf(n, epochs);
    assert BlockIdAt(e) == START_STEEM_BLOCK_ID + (e - 1) * (ITEMS_BULK_MAX * ITEMS_POOL_MAX);
    assert ItemsVal(e, i).blocks[j].id == BlockIdAt(e) + (i - 1) * ITEMS_BULK_MAX + j + 1;
  }

  lemma PlaceOf(n: nat, epochs: nat)
    requires n < epochs * 1024
    ensures n / 1024 < epochs && (n % 1024) / 64 < 16 && n == (n / 1024) * 1024 + ((n % 1024) / 64) * 64 + n % 64
  {
    var q, r := n / 1024, n % 1024;
    assert n == q * 1024 + r && r == (r / 64) * 64 + r % 64;
    assert n == (16 * q + r / 64) * 64 + r % 64;
  }

  lemma BlockIsItem(k: Kanban, x: Data)
    requires StoreInv(k) && k.epoch >= 3 && x.Block?
    requires START_STEEM_BLOCK_ID < x.id <= START_STEEM_BLOCK_ID + (k.epoch - 2) * (ITEMS_BULK_MAX * ITEMS_POOL_MAX)
    ensures IsItem(DataReader(), View(k), x)
  {
    var e, i, j := BlockPlace(x.id, k.epoch - 2);
    GenuineGraph(k);
    ItemsWitnessed(k, e, i);
    assert Finished(k, e) && RootedOk(k, e);
    assert ItemVia(DataReader(), View(k), e, ItemsVal(e, i), x);
  }

  lemma ItemOfCrawler(k: Kanban, e: nat, d: Data, x: Data)
    requires StoreInv(k) && 1 <= e <= k.epoch - 2 && d in KeysAt(k, e) && d.Posts? && x in Inputs(d)
    ensures x.Block?
    ensures START_STEEM_BLOCK_ID < x.id <= START_STEEM_BLOCK_ID + (k.epoch - 2) * (ITEMS_BULK_MAX * ITEMS_POOL_MAX)
  {
    assert Finished(k, e);
    assert d in ItemKeys(e);
    var i: nat :| 1 <= i <= ITEMS_POOL_MAX && d == ItemsVal(e, i);
    var j :| 0 <= j < |d.blocks| && d.blocks[j] == x;
  }

  // ----- the theorem -----

  /** A global index that a querier serves: epoch and shard. */
  datatype Served = Served(e: nat, i: nat)

  ghost predicate ServedOk(k: Kanban, served: seq<Served>)
  {
    forall j :: 0 <= j < |served| ==> 2 <= served[j].e < k.epoch && 1 <= served[j].i <= INDEX_POOL_MAX
  }

  function ServedHashes(served: seq<Served>): seq<Data>
    requires forall j :: 0 <= j < |served| ==> served[j].e >= 2 && served[j].i >= 1
  {
    seq(|served|, j requires 0 <= j < |served| => GlobalVal(served[j].e, served[j].i))
  }

  /** Every shard is served, and from the last closed epoch. */
  ghost predicate FreshAndComplete(k: Kanban, served: seq<Served>)
    requires k.epoch >= 1
  {
    ServesAll(served, k.epoch - 1)
  }

  ghost predicate ServesAll(served: seq<Served>, e: nat)
  {
    forall i: nat :: 1 <= i <= INDEX_POOL_MAX ==> Served(e, i) in served
  }

  ghost predicate ServedBelow(k: Kanban, served: seq<Served>, x: Data)
    requires forall j :: 0 <= j < |served| ==> served[j].e >= 2 && served[j].i >= 1
  {
    exists j :: 0 <= j < |served| && LeafBelow(k, ServedHashes(served)[j], x)
  }

  lemma LeafOfServed(k: Kanban, served: seq<Served>, x: Data)
    requires StoreInv(k) && ServedOk(k, served)
    ensures IsLeaf(DataReader(), Graph(k), ServedHashes(served), x) <==> ServedBelow(k, served, x)
  {
    var hs := ServedHashes(served);
    if IsLeaf(DataReader(), Graph(k), hs, x) {
      var h :| h in hs && Reaches(DataReader(), Graph(k), h, x);
      var j :| 0 <= j < |hs| && hs[j] == h;
      assert LeafBelow(k, hs[j], x);
    }
    if j :| 0 <= j < |served| && LeafBelow(k, hs[j], x) {
      assert hs[j] in hs;
    }
  }

  /** A block of shard `i` from the epoch before the last closed one is not below any other
      served global index. */
  lemma NotBelow(k: Kanban, v: Served, i: nat, x: Data)
    requires StoreInv(k) && k.epoch >= 3 && 2 <= v.e < k.epoch && 1 <= v.i <= INDEX_POOL_MAX
    requires 1 <= i <= INDEX_POOL_MAX && v != Served(k.epoch - 1, i) && x.Block? && InShard(x.id, k.epoch - 2, i)
    ensures !LeafBelow(k, GlobalVal(v.e, v.i), x)
  {
    LeafOfGlobal(k, v.e, v.i, x);
    if c :| 1 <= c < v.e && InShard(x.id, c, v.i) {
      ShardUnique(x.id, k.epoch - 2, i, c, v.i);
    }
  }

  lemma MissingShardFails(k: Kanban, served: seq<Served>, i: nat)
    requires StoreInv(k) && k.epoch >= 3 && ServedOk(k, served)
    requires 1 <= i <= INDEX_POOL_MAX && Served(k.epoch - 1, i) !in served
    ensures !Complete(DataReader(), View(k), ServedHashes(served))
  {
    var x := Block(BlockIdAt(k.epoch - 2) + (i - 1) * (ITEMS_BULK_MAX * INDEX_BULK_MAX) + 1);
    assert InShard(x.id, k.epoch - 2, i);
    BlockIsItem(k, x);
    GenuineGraph(k);
    LeafOfServed(k, served, x);
    forall j | 0 <= j < |served| ensures !LeafBelow(k, ServedHashes(served)[j], x) {
      NotBelow(k, served[j], i, x);
    }
  }

  lemma BlockInShard(k: Kanban, x: Data) returns (e: nat, i: nat)
    requires k.epoch >= 3 && x.Block?
    requires START_STEEM_BLOCK_ID < x.id <= START_STEEM_BLOCK_ID + (k.epoch - 2) * (ITEMS_BULK_MAX * ITEMS_POOL_MAX)
    ensures 1 <= e < k.epoch - 1 && 1 <= i <= INDEX_POOL_MAX && InShard(x.id, e, i)
  {
    var n := x.id - START_STEEM_BLOCK_ID - 1;
    e := n / (ITEMS_BULK_MAX * ITEMS_POOL_MAX) + 1;
    i := (n % (ITEMS_BULK_MAX * ITEMS_POOL_MAX)) / (ITEMS_BULK_MAX * INDEX_BULK_MAX) + 1;
  }

  lemma ServesBelow(k: Kanban, served: seq<Served>, v: Served, x: Data)
    requires v in served && forall j :: 0 <= j < |served| ==> served[j].e >= 2 && served[j].i >= 1
    requires LeafBelow(k, GlobalVal(v.e, v.i), x)
    ensures ServedBelow(k, served, x)
  {
    var j :| 0 <= j < |served| && served[j] == v;
    assert ServedHashes(served)[j] == GlobalVal(v.e, v.i);
  }

  /** The blocks of a shard are below its global index of the last closed epoch. */
  lemma BelowLast(k: Kanban, c: nat, i: nat, x: Data)
    requires StoreInv(k) && k.epoch >= 3 && x.Block? && 1 <= c < k.epoch - 1 && 1 <= i <= INDEX_POOL_MAX
    requires InShard(x.id, c, i)
    ensures LeafBelow(k, GlobalVal(k.epoch - 1, i), x)
  {
    LeafOfGlobal(k, k.epoch - 1, i, x);
  }

  lemma ShardIsServed(k: Kanban, served: seq<Served>, c: nat, i: nat, x: Data)
    requires StoreInv(k) && k.epoch >= 3 && ServedOk(k, served) && Served(k.epoch - 1, i) in served
    requires x.Block? && 1 <= c < k.epoch - 1 && 1 <= i <= INDEX_POOL_MAX && InShard(x.id, c, i)
    ensures ServedBelow(k, served, x)
  {
    BelowLast(k, c, i, x);
    ServesBelow(k, served, Served(k.epoch - 1, i), x);
  }

  lemma ItemIsBelow(k: Kanban, served: seq<Served>, x: Data)
    requires StoreInv(k) && k.epoch >= 3 && ServedOk(k, served) && FreshAndComplete(k, served)
    requires IsItem(DataReader(), View(k), x)
    ensures IsLeaf(DataReader(), Graph(k), ServedHashes(served), x)
  {
    ItemsAreBlocks(k, x);
    var c, i := BlockInShard(k, x);
    ShardIsServed(k, served, c, i, x);
    LeafOfServed(k, served, x);
  }

  lemma AllShardsPass(k: Kanban, served: seq<Served>)
    requires StoreInv(k) && k.epoch >= 3 && ServedOk(k, served) && FreshAndComplete(k, served)
    ensures Complete(DataReader(), View(k), ServedHashes(served))
  {
    GenuineGraph(k);
    forall x | IsItem(DataReader(), View(k), x)
      ensures IsLeaf(DataReader(), Graph(k), ServedHashes(served), x)
    {
      ItemIsBelow(k, served, x);
    }
  }

  lemma AuditIsExactAt(k: Kanban, served: seq<Served>)
    requires StoreInv(k) && k.epoch >= 3 && ServedOk(k, served)
    ensures Complete(DataReader(), View(k), ServedHashes(served)) <==> FreshAndComplete(k, served)
  {
    if FreshAndComplete(k, served) {
      AllShardsPass(k, served);
    } else {
      var i: nat :| 1 <= i <= INDEX_POOL_MAX && Served(k.epoch - 1, i) !in served;
      MissingShardFails(k, served, i);
    }
  }

  /** End to end: in every run and at every epoch from 3 on, the witness graph is acyclic
      and auditing any list of served global indexes passes exactly when it names every
      shard of the last closed epoch. */
  lemma AuditIsExact(events: seq<Event>, served: seq<Served>)
    requires Run(events).k.epoch >= 3 && ServedOk(Run(events).k, served)
    ensures var k := Run(events).k;
      && Acyclic(DataReader(), Genuine(DataReader(), View(k).witnesses))
      && (Complete(DataReader(), View(k), ServedHashes(served)) <==> FreshAndComplete(k, served))
  {
    var k := Run(events).k;
    RunInv(events);
    GenuineGraph(k);
    GraphAcyclic(k);
    AuditIsExactAt(k, served);
  }

  /** The global indexes that queriers find on Kanban are the audited ones. */
  lemma ServedIsStored(events: seq<Event>, v: Served)
    requires var k := Run(events).k; 2 <= v.e < k.epoch && 1 <= v.i && Slot(v.e, v.i) in k.globals
    ensures v.i <= INDEX_POOL_MAX && Run(events).k.globals[Slot(v.e, v.i)] == GlobalVal(v.e, v.i)
  {
    var k := Run(events).k;
    RunInv(events);
    assert GlobalFrom(k, Slot(v.e, v.i), k.globals[Slot(v.e, v.i)]);
    assert Finished(k, v.e);
  }

  // ----- the cache over the pipeline -----

  ghost predicate PassesInFull(k: Kanban, served: seq<Served>)
    requires forall j :: 0 <= j < |served| ==> served[j].e >= 2 && served[j].i >= 1
  {
    Complete(DataReader(), View(k), ServedHashes(served))
  }

  lemma StableAt(k: Kanban, k': Kanban, served: seq<Served>)
    requires StoreInv(k) && StoreInv(k') && k'.epoch == k.epoch >= 3 && ServedOk(k, served)
    ensures PassesInFull(k, served) <==> PassesInFull(k', served)
  {
    AuditIsExactAt(k, served);
    AuditIsExactAt(k', served);
  }

  /** A list that passed still passes in every later store of the same epoch, whatever the
      processes did in between, and one that failed still fails. */
  lemma AuditIsStable(events: seq<Event>, more: seq<Event>, k: Kanban, k': Kanban, served: seq<Served>)
    requires k == Run(events).k && k' == Run(events + more).k && k'.epoch == k.epoch >= 3 && ServedOk(k, served)
    ensures PassesInFull(k, served) <==> PassesInFull(k', served)
  {
    assert StoreInv(k) && StoreInv(k') by {
      RunInv(events);
      RunInv(events + more);
    }
    StableAt(k, k', served);
  }

  /** A sound cache of served hashes stays sound for the rest of the run. */
  lemma SoundStays(a: LocalAuditor<Data, Data>, events: seq<Event>, more: seq<Event>,
                   k: Kanban, k': Kanban, served: seq<Served>)
    requires k == Run(events).k && k' == Run(events + more).k && k.epoch >= 3 && ServedOk(k, served)
    requires a.cache == ServedHashes(served) && a.cacheEpoch <= k.epoch && a.Sound(DataReader(), View(k))
    ensures a.Sound(DataReader(), View(k'))
  {
    NothingIsOverwritten(events, more);
    if a.cacheEpoch == k'.epoch {
      AuditIsStable(events, more, k, k', served);
    }
  }

  /** All shards of one epoch, and lists of shards of that epoch. */
  function AllShards(e: nat): seq<Served>
  {
    seq(INDEX_POOL_MAX, j requires 0 <= j < INDEX_POOL_MAX => Served(e, j + 1))
  }

  ghost predicate OfEpoch(served: seq<Served>, e: nat)
  {
    forall j :: 0 <= j < |served| ==> served[j].e == e && 1 <= served[j].i <= INDEX_POOL_MAX
  }

  lemma {:induction false} HitsAll<K>(inputs: seq<K>, cache: seq<K>)
    requires forall k :: k in inputs ==> k in cache
    ensures Hits(inputs, cache) == |inputs|
  {
    if inputs != [] {
      var front, last := inputs[..|inputs| - 1], inputs[|inputs| - 1];
      assert inputs == front + [last];
      HitsAll(front, cache);
    }
  }

  lemma {:induction false} DistinctBySize<K(!new)>(ks: seq<K>)
    ensures Distinct(ks) <==> |Elements(ks)| == |ks|
  {
    if ks != [] {
      var front, last := ks[..|ks| - 1], ks[|ks| - 1];
      assert ks == front + [last];
      DistinctBySize(front);
      ElementsSize(front);
      assert Elements(ks) == Elements(front) + {last};
      if last in front {
        var j :| 0 <= j < |front| && front[j] == last;
        assert ks[j] == ks[|ks| - 1];
        assert Elements(ks) == Elements(front);
      } else {
        assert Distinct(front) ==> Distinct(ks);
        assert Distinct(ks) ==> Distinct(front);
      }
    }
  }

  /** As many entries as shards cover all shards exactly if no shard comes twice. */
  lemma CoversByCount(served: seq<Served>, e: nat)
    requires OfEpoch(served, e) && |served| == INDEX_POOL_MAX
    ensures ServesAll(served, e) <==> Distinct(served)
  {
    var all := AllShards(e);
    assert Distinct(all);
    DistinctBySize(all);
    DistinctBySize(served);
    forall v | v in Elements(served) ensures v in Elements(all) {
      var j :| 0 <= j < |served| && served[j] == v;
      assert all[v.i - 1] == v;
    }
    if Distinct(served) {
      SubsetBySize(Elements(served), Elements(all));
      forall i: nat | 1 <= i <= INDEX_POOL_MAX ensures Served(e, i) in served {
        assert all[i - 1] == Served(e, i);
        assert Served(e, i) in Elements(served);
      }
    }
    if ServesAll(served, e) {
      forall v | v in Elements(all) ensures v in Elements(served) {
        var j :| 0 <= j < |all| && all[j] == v;
      }
      assert Elements(all) == Elements(served);
    }
  }

  /** Once all shards of the last closed epoch are cached, any list of as many of them hits. */
  lemma CachedShards(served: seq<Served>, e: nat, epoch: nat)
    requires e >= 2 && OfEpoch(served, e)
    ensures FastPath(ServedHashes(AllShards(e)), epoch, epoch, ServedHashes(served)) <==> |served| == INDEX_POOL_MAX
  {
    var all, inputs := ServedHashes(AllShards(e)), ServedHashes(served);
    forall h | h in inputs ensures h in all {
      var j :| 0 <= j < |inputs| && inputs[j] == h;
      assert all[served[j].i - 1] == h;
    }
    HitsAll(inputs, all);
  }

  lemma AllServed(e: nat)
    ensures ServesAll(AllShards(e), e)
  {
    forall i: nat | 1 <= i <= INDEX_POOL_MAX ensures Served(e, i) in AllShards(e) {
      assert AllShards(e)[i - 1] == Served(e, i);
    }
  }

  lemma PassesExactly(k: Kanban, served: seq<Served>, e: nat)
    requires StoreInv(k) && e == k.epoch - 1 && e >= 2 && OfEpoch(served, e)
    ensures PassesInFull(k, served) <==> ServesAll(served, e)
  {
    AuditIsExactAt(k, served);
  }

  /** In every run: with all shards of the last closed epoch cached, the fast path passes a
      list of them that the full audit fails exactly if the list has as many entries as there
      are shards and names some shard twice. */
  lemma CacheErrsOnRepeats(events: seq<Event>, k: Kanban, e: nat, served: seq<Served>)
    requires k == Run(events).k && e == k.epoch - 1 && e >= 2 && OfEpoch(served, e)
    ensures PassesInFull(k, AllShards(e))
    ensures FastPath(ServedHashes(AllShards(e)), k.epoch, k.epoch, ServedHashes(served)) && !PassesInFull(k, served)
       <==> |served| == INDEX_POOL_MAX && !Distinct(served)
  {
    assert PassesInFull(k, AllShards(e)) && (PassesInFull(k, served) <==> ServesAll(served, e)) by {
      RunInv(events);
      PassesExactly(k, served, e);
      AllServed(e);
      PassesExactly(k, AllShards(e), e);
    }
    CachedShards(served, e, k.epoch);
    if |served| == INDEX_POOL_MAX {
      CoversByCount(served, e);
    }
  }

  /** So one shard named four times passes, in every run and for every shard. */
  lemma OneShardFourTimes(events: seq<Event>, k: Kanban, e: nat, i: nat)
    requires k == Run(events).k && e == k.epoch - 1 && e >= 2 && 1 <= i <= INDEX_POOL_MAX
    ensures var four := [Served(e, i), Served(e, i), Served(e, i), Served(e, i)];
      FastPath(ServedHashes(AllShards(e)), k.epoch, k.epoch, ServedHashes(four)) && !PassesInFull(k, four)
  {
    var v := Served(e, i);
    assert [v, v, v, v][0] == [v, v, v, v][1];
    CacheErrsOnRepeats(events, k, e, [v, v, v, v]);
  }
}
