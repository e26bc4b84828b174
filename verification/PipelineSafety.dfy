/**
 Safety of the pipeline over every run: whatever the interleaving, an epoch that the
 manager closed holds exactly the data its tasks should have produced, and nothing
 written to Kanban ever changes.
 */
module PipelineSafety {
  import opened Common
  import opened Pipeline

  // ----- distinct tasks have distinct outputs -----

  lemma ItemsValDistinct(e: nat, i: nat, e': nat, i': nat)
    requires e >= 1 && e' >= 1 && 1 <= i <= ITEMS_POOL_MAX && 1 <= i' <= ITEMS_POOL_MAX
    requires ItemsVal(e, i) == ItemsVal(e', i')
    ensures e == e' && i == i'
  {
    assert ItemsVal(e, i).blocks[0] == ItemsVal(e', i').blocks[0];
  }

  lemma IndexValDistinct(e: nat, b: nat, e': nat, b': nat)
    requires e >= 2 && e' >= 2 && 1 <= b <= INDEX_POOL_MAX && 1 <= b' <= INDEX_POOL_MAX
    requires IndexVal(e, b) == IndexVal(e', b')
    ensures e == e' && b == b'
  {
    assert IndexVal(e, b).posts[0] == IndexVal(e', b').posts[0];
    ItemsValDistinct(e - 1, FirstItem(b), e' - 1, FirstItem(b'));
  }

  // ----- the invariant -----

  ghost predicate ItemsOk(k: Kanban)
  {
    forall s :: s in k.items ==>
      1 <= s.e <= k.epoch && 1 <= s.i <= ITEMS_POOL_MAX && k.items[s] == ItemsVal(s.e, s.i)
  }

  /** Shard `i` was built from some batch that is not after its own. */
  ghost predicate IndexedFrom(d: Data, e: nat, i: nat)
    requires e >= 2
  {
    exists b: nat :: 1 <= b <= i && d == IndexVal(e, b)
  }

  ghost predicate IndexOk(k: Kanban)
  {
    forall s :: s in k.index ==>
      2 <= s.e <= k.epoch && 1 <= s.i <= INDEX_POOL_MAX && IndexedFrom(k.index[s], s.e, s.i)
  }

  /** The recurrence of the reducers, seeded by a copy of the first index. */
  ghost predicate GlobalFrom(k: Kanban, s: Slot, d: Data)
  {
    && s.e >= 2 && s in k.index
    && if s.e == 2 then d == k.index[s]
       else Slot(s.e - 1, s.i) in k.globals && d == Merged(k.globals[Slot(s.e - 1, s.i)], k.index[s])
  }

  ghost predicate GlobalsOk(k: Kanban)
  {
    forall s {:trigger GlobalFrom(k, s, k.globals[s])} :: s in k.globals ==> GlobalFrom(k, s, k.globals[s])
  }

  ghost predicate InItems(k: Kanban, e: nat, d: Data)
  {
    exists i: nat :: Slot(e, i) in k.items && k.items[Slot(e, i)] == d
  }

  ghost predicate InIndex(k: Kanban, e: nat, d: Data)
  {
    exists i: nat :: Slot(e, i) in k.index && k.index[Slot(e, i)] == d
  }

  ghost predicate InGlobals(k: Kanban, e: nat, d: Data)
  {
    e >= 3 && exists i: nat :: Slot(e, i) in k.globals && k.globals[Slot(e, i)] == d
  }

  /** `d` is the output of a task of epoch `e` that has been written. */
  ghost predicate Recorded(k: Kanban, e: nat, d: Data)
  {
    InItems(k, e, d) || InIndex(k, e, d) || InGlobals(k, e, d)
  }

  ghost predicate KeysOk(k: Kanban)
  {
    forall e, d :: d in KeysAt(k, e) ==> Recorded(k, e, d) && d in k.witnessed
  }

  ghost predicate WitnessedOk(k: Kanban)
  {
    forall d :: d in k.witnessed ==> exists e: nat :: Recorded(k, e, d)
  }

  ghost predicate ItemsFinished(k: Kanban, e: nat)
    requires e >= 1
  {
    forall i :: 1 <= i <= ITEMS_POOL_MAX ==> Slot(e, i) in k.items
  }

  ghost predicate IndexFinished(k: Kanban, e: nat)
    requires e >= 2
  {
    forall i :: 1 <= i <= INDEX_POOL_MAX ==> Slot(e, i) in k.index && k.index[Slot(e, i)] == IndexVal(e, i)
  }

  ghost predicate GlobalsFinished(k: Kanban, e: nat)
    requires e >= 3
  {
    forall i :: 1 <= i <= INDEX_POOL_MAX ==> Slot(e, i) in k.globals && k.globals[Slot(e, i)] == GlobalVal(e, i)
  }

  /** Everything epoch `e` should produce is there, and its key set is the expected one. */
  ghost predicate Finished(k: Kanban, e: nat)
    requires e >= 1
  {
    && ItemsFinished(k, e)
    && (e >= 2 ==> IndexFinished(k, e))
    && (e >= 3 ==> GlobalsFinished(k, e))
    && KeysAt(k, e) == ExpectedKeys(e)
  }

  ghost predicate RootedOk(k: Kanban, e: nat)
    requires e >= 1
  {
    e in k.root && k.root[e] == ExpectedKeys(e)
  }

  ghost predicate ClosedOk(k: Kanban)
  {
    forall e :: 1 <= e < k.epoch ==> Finished(k, e) && RootedOk(k, e)
  }

  ghost predicate StoreInv(k: Kanban)
  {
    && (k.epoch >= 1 ==> k.blockId == BlockIdAt(k.epoch))
    && (k.epoch == 0 ==> k == InitialKanban)
    && ItemsOk(k) && IndexOk(k) && GlobalsOk(k) && KeysOk(k) && WitnessedOk(k) && ClosedOk(k)
  }

  ghost predicate CrawlerInv(k: Kanban, p: Proc)
    requires p.Crawler? && p.e >= 1
  {
    && 1 <= p.i <= ITEMS_POOL_MAX && p.blockId == BlockIdAt(p.e)
    && (p.cphase.CAppend? ==> Slot(p.e, p.i) in k.items)
  }

  ghost predicate IndexerInv(k: Kanban, p: Proc)
    requires p.Indexer?
  {
    && 2 <= p.e && 1 <= p.i <= INDEX_POOL_MAX
    && p.skipped < p.i && p.pos == FirstItem(p.i - p.skipped)
    && (p.iphase.IAppend? || p.iphase.ICopy? ==>
          && Slot(p.e, p.i) in k.index && k.index[Slot(p.e, p.i)] == p.iphase.d
          && p.iphase.d == IndexVal(p.e, p.i - p.skipped))
    && (p.iphase.ICopy? ==> p.e == 2)
  }

  ghost predicate ReducerInv(k: Kanban, p: Proc)
    requires p.Reducer?
  {
    && 3 <= p.e && 1 <= p.i <= INDEX_POOL_MAX
    && (p.rphase.RReadIndex? || p.rphase.RPut? || p.rphase.RAppend? ==>
          Slot(p.e - 1, p.i) in k.globals && k.globals[Slot(p.e - 1, p.i)] == p.rphase.g)
    && (p.rphase.RPut? || p.rphase.RAppend? ==>
          Slot(p.e, p.i) in k.index && k.index[Slot(p.e, p.i)] == p.rphase.n)
    && (p.rphase.RAppend? ==> Slot(p.e, p.i) in k.globals)
  }

  ghost predicate ProcInv(k: Kanban, p: Proc)
  {
    && 1 <= p.e <= k.epoch
    && match p
       case Crawler(_, _, _, _) => CrawlerInv(k, p)
       case Indexer(_, _, _, _, _) => IndexerInv(k, p)
       case Reducer(_, _, _) => ReducerInv(k, p)
  }

  ghost predicate ManagerInv(k: Kanban, m: Manager)
  {
    && (m.Counted? ==> k.epoch >= 1 && Finished(k, k.epoch) && m.seen == ExpectedKeys(k.epoch))
    && (m == Manager.Rooted ==> k.epoch >= 1 && Finished(k, k.epoch) && RootedOk(k, k.epoch))
  }

  ghost predicate Inv(s: State)
  {
    && StoreInv(s.k)
    && (forall p :: p in s.procs ==> ProcInv(s.k, s.procs[p]))
    && ManagerInv(s.k, s.manager)
  }

  // ----- what no step undoes -----

  ghost predicate SubMap(a: map<Slot, Data>, b: map<Slot, Data>)
  {
    forall s :: s in a ==> s in b && a[s] == b[s]
  }

  /** `k'` keeps every value of `k`. */
  ghost predicate Extends(k: Kanban, k': Kanban)
  {
    && k.epoch <= k'.epoch
    && SubMap(k.items, k'.items) && SubMap(k.index, k'.index) && SubMap(k.globals, k'.globals)
    && k.witnessed <= k'.witnessed
    && (forall e :: KeysAt(k, e) <= KeysAt(k', e))
  }

  lemma ProcStable(k: Kanban, k': Kanban, p: Proc)
    requires Extends(k, k') && ProcInv(k, p)
    ensures ProcInv(k', p)
  {
  }

  lemma RecordedStable(k: Kanban, k': Kanban, e: nat, d: Data)
    requires Extends(k, k') && Recorded(k, e, d)
    ensures Recorded(k', e, d)
  {
    if i: nat :| Slot(e, i) in k.items && k.items[Slot(e, i)] == d {
      assert k'.items[Slot(e, i)] == d;
    } else if i: nat :| Slot(e, i) in k.index && k.index[Slot(e, i)] == d {
      assert k'.index[Slot(e, i)] == d;
    } else if i: nat :| e >= 3 && Slot(e, i) in k.globals && k.globals[Slot(e, i)] == d {
      assert k'.globals[Slot(e, i)] == d;
    }
  }

  lemma ItemsExpected(k: Kanban, e: nat, d: Data)
    requires e >= 1 && ItemsOk(k) && InItems(k, e, d)
    ensures d in ItemKeys(e)
  {
    var i: nat :| Slot(e, i) in k.items && k.items[Slot(e, i)] == d;
    assert d == ItemsVal(e, i);
  }

  lemma IndexExpected(k: Kanban, e: nat, d: Data)
    requires e >= 1 && IndexOk(k) && InIndex(k, e, d)
    ensures d in IndexKeys(e)
  {
    var i: nat :| Slot(e, i) in k.index && k.index[Slot(e, i)] == d;
    assert IndexedFrom(d, e, i);
    var b: nat :| 1 <= b <= i && d == IndexVal(e, b);
  }

  lemma GlobalsExpected(k: Kanban, e: nat, d: Data)
    requires e >= 1 && IndexOk(k) && GlobalsOk(k) && Finished(k, e) && InGlobals(k, e, d)
    ensures d in GlobalKeys(e)
  {
    var i: nat :| Slot(e, i) in k.globals && k.globals[Slot(e, i)] == d;
    assert GlobalFrom(k, Slot(e, i), k.globals[Slot(e, i)]);
    assert 1 <= i <= INDEX_POOL_MAX;
    assert d == GlobalVal(e, i);
  }

  /** In a finished epoch every written output is an expected key. */
  lemma RecordedExpected(k: Kanban, e: nat, d: Data)
    requires e >= 1 && ItemsOk(k) && IndexOk(k) && GlobalsOk(k) && Finished(k, e) && Recorded(k, e, d)
    ensures d in ExpectedKeys(e)
  {
    if InItems(k, e, d) {
      ItemsExpected(k, e, d);
    } else if InIndex(k, e, d) {
      IndexExpected(k, e, d);
    } else {
      GlobalsExpected(k, e, d);
    }
  }

  // ----- the four ways a store changes -----

  /** What every store access of a process keeps. */
  ghost predicate Keeps(k: Kanban, k': Kanban)
  {
    && Extends(k, k') && StoreInv(k')
    && k'.epoch == k.epoch && k'.root == k.root
    && (forall e :: 1 <= e && Finished(k, e) ==> Finished(k', e))
  }

  lemma GlobalsStable(k: Kanban, k': Kanban)
    requires GlobalsOk(k) && SubMap(k.index, k'.index) && k'.globals == k.globals
    ensures GlobalsOk(k')
  {
    forall s | s in k'.globals ensures GlobalFrom(k', s, k'.globals[s]) {
      assert GlobalFrom(k, s, k.globals[s]);
    }
  }

  lemma FinishedStable(k: Kanban, k': Kanban, e: nat)
    requires e >= 1 && Extends(k, k') && Finished(k, e) && KeysAt(k', e) == KeysAt(k, e)
    ensures Finished(k', e)
  {
  }

  lemma ClosedStable(k: Kanban, k': Kanban)
    requires ClosedOk(k) && k'.epoch == k.epoch && k'.root == k.root
    requires forall e :: 1 <= e && Finished(k, e) ==> Finished(k', e)
    ensures ClosedOk(k')
  {
    forall e | 1 <= e < k'.epoch ensures Finished(k', e) && RootedOk(k', e) {
      assert Finished(k, e) && RootedOk(k, e);
    }
  }

  lemma DataWrite(k: Kanban, k': Kanban)
    requires StoreInv(k) && Extends(k, k') && k.epoch >= 1
    requires k'.epoch == k.epoch && k'.root == k.root && k'.blockId == k.blockId
    requires k'.keys == k.keys && k'.witnessed == k.witnessed
    requires ItemsOk(k') && IndexOk(k') && GlobalsOk(k')
    ensures Keeps(k, k')
  {
    forall e, d | d in KeysAt(k', e) ensures Recorded(k', e, d) {
      RecordedStable(k, k', e, d);
    }
    forall d | d in k'.witnessed ensures exists e: nat :: Recorded(k', e, d) {
      var e: nat :| Recorded(k, e, d);
      RecordedStable(k, k', e, d);
    }
    forall e | 1 <= e && Finished(k, e) ensures Finished(k', e) {
      assert KeysAt(k', e) == KeysAt(k, e);
      FinishedStable(k, k', e);
    }
    ClosedStable(k, k');
  }

  lemma PutItems(k: Kanban, e: nat, i: nat)
    requires StoreInv(k) && 1 <= e <= k.epoch && 1 <= i <= ITEMS_POOL_MAX
    ensures Keeps(k, k.(items := k.items[Slot(e, i) := ItemsVal(e, i)]))
  {
    var k' := k.(items := k.items[Slot(e, i) := ItemsVal(e, i)]);
    GlobalsStable(k, k');
    DataWrite(k, k');
  }

  lemma PutIndex(k: Kanban, e: nat, i: nat, d: Data)
    requires StoreInv(k) && 2 <= e <= k.epoch && 1 <= i <= INDEX_POOL_MAX
    requires Slot(e, i) !in k.index && IndexedFrom(d, e, i)
    ensures Keeps(k, k.(index := k.index[Slot(e, i) := d]))
  {
    var k' := k.(index := k.index[Slot(e, i) := d]);
    GlobalsStable(k, k');
    DataWrite(k, k');
  }

  /** Writing a global index that is there already writes the value that is there. */
  lemma PutGlobal(k: Kanban, s: Slot, d: Data)
    requires StoreInv(k) && s.e <= k.epoch && GlobalFrom(k, s, d)
    ensures Keeps(k, k.(globals := k.globals[s := d]))
  {
    var k' := k.(globals := k.globals[s := d]);
    if s in k.globals {
      assert GlobalFrom(k, s, k.globals[s]);
    }
    forall r | r in k'.globals ensures GlobalFrom(k', r, k'.globals[r]) {
      if r != s {
        assert GlobalFrom(k, r, k.globals[r]);
      }
    }
    DataWrite(k, k');
  }

  lemma AppendExtends(k: Kanban, e: nat, d: Data)
    ensures Extends(k, AppendWitness(k, e, d))
  {
  }

  lemma AppendKeysOk(k: Kanban, e: nat, d: Data)
    requires KeysOk(k) && Recorded(k, e, d)
    ensures KeysOk(AppendWitness(k, e, d))
  {
    var k' := AppendWitness(k, e, d);
    AppendExtends(k, e, d);
    forall c, x | x in KeysAt(k', c) ensures Recorded(k', c, x) && x in k'.witnessed {
      assert x in KeysAt(k, c) || (c == e && x == d);
      RecordedStable(k, k', c, x);
    }
  }

  lemma AppendWitnessedOk(k: Kanban, e: nat, d: Data)
    requires WitnessedOk(k) && Recorded(k, e, d)
    ensures WitnessedOk(AppendWitness(k, e, d))
  {
    var k' := AppendWitness(k, e, d);
    AppendExtends(k, e, d);
    forall x | x in k'.witnessed ensures exists c: nat :: Recorded(k', c, x) {
      var c: nat :| Recorded(k, c, x);
      RecordedStable(k, k', c, x);
    }
  }

  /** A late append to a finished epoch adds no key. */
  lemma AppendFinished(k: Kanban, e: nat, d: Data, c: nat)
    requires ItemsOk(k) && IndexOk(k) && GlobalsOk(k) && e >= 1 && Recorded(k, e, d)
    requires c >= 1 && Finished(k, c)
    ensures Finished(AppendWitness(k, e, d), c)
  {
    var k' := AppendWitness(k, e, d);
    AppendExtends(k, e, d);
    if c == e {
      RecordedExpected(k, e, d);
    }
    assert KeysAt(k', c) == KeysAt(k, c);
    FinishedStable(k, k', c);
  }

  lemma Append(k: Kanban, e: nat, d: Data)
    requires StoreInv(k) && 1 <= e <= k.epoch && Recorded(k, e, d)
    ensures Keeps(k, AppendWitness(k, e, d))
  {
    var k' := AppendWitness(k, e, d);
    AppendExtends(k, e, d);
    AppendKeysOk(k, e, d);
    AppendWitnessedOk(k, e, d);
    GlobalsStable(k, k');
    forall c | 1 <= c && Finished(k, c) ensures Finished(k', c) {
      AppendFinished(k, e, d, c);
    }
    ClosedStable(k, k');
  }

  // ----- steps of the processes -----

  lemma CrawlerStep(k: Kanban, p: Proc)
    requires StoreInv(k) && p.Crawler? && ProcInv(k, p)
    ensures var m := MoveCrawler(k, p);
      m.Moved? && Keeps(k, m.k) && (m.next.Some? ==> ProcInv(m.k, m.next.value))
  {
    assert Crawl(p.blockId, p.i) == ItemsVal(p.e, p.i);
    if p.cphase.CPut? {
      PutItems(k, p.e, p.i);
    } else if p.cphase.CAppend? {
      assert k.items[Slot(p.e, p.i)] == ItemsVal(p.e, p.i);
      assert InItems(k, p.e, ItemsVal(p.e, p.i));
      Append(k, p.e, ItemsVal(p.e, p.i));
    }
  }

  lemma BatchBuilt(k: Kanban, e: nat, b: nat)
    requires ItemsOk(k) && e >= 2 && 1 <= b <= INDEX_POOL_MAX
    requires BatchReady(k.items, e - 1, FirstItem(b))
    ensures BuildIndex(k.items, e - 1, FirstItem(b)) == IndexVal(e, b)
  {
    var built, wanted := BuildIndex(k.items, e - 1, FirstItem(b)), IndexVal(e, b);
    forall j | 0 <= j < INDEX_BULK_MAX ensures built.posts[j] == wanted.posts[j] {
      assert Slot(e - 1, FirstItem(b) + j) in k.items;
    }
  }

  lemma KeepsSelf(k: Kanban)
    requires StoreInv(k)
    ensures Keeps(k, k)
  {
  }

  /** The batch of a shard is ready, and putting its index keeps everything. */
  lemma PutBatch(k: Kanban, e: nat, i: nat, b: nat)
    requires StoreInv(k) && 2 <= e <= k.epoch && 1 <= b <= i <= INDEX_POOL_MAX && Slot(e, i) !in k.index
    ensures BatchReady(k.items, e - 1, FirstItem(b))
    ensures BuildIndex(k.items, e - 1, FirstItem(b)) == IndexVal(e, b)
    ensures Keeps(k, k.(index := k.index[Slot(e, i) := IndexVal(e, b)]))
  {
    assert Finished(k, e - 1);
    assert BatchReady(k.items, e - 1, FirstItem(b));
    BatchBuilt(k, e, b);
    PutIndex(k, e, i, IndexVal(e, b));
  }

  /** An indexer that finds its shard missing writes the batch that lies as many places
      before the shard as it skipped shards. */
  lemma IndexerBuilds(k: Kanban, p: Proc)
    requires StoreInv(k) && p.Indexer? && ProcInv(k, p) && p.iphase.ICheckPut? && Slot(p.e, p.i) !in k.index
    ensures var d := IndexVal(p.e, p.i - p.skipped);
      && MoveIndexer(k, p) == Moved(k.(index := k.index[Slot(p.e, p.i) := d]), Some(p.(iphase := IAppend(d))))
      && Keeps(k, k.(index := k.index[Slot(p.e, p.i) := d]))
  {
    PutBatch(k, p.e, p.i, p.i - p.skipped);
  }

  lemma IndexerPut(k: Kanban, p: Proc)
    requires StoreInv(k) && p.Indexer? && ProcInv(k, p) && p.iphase.ICheckPut?
    ensures var m := MoveIndexer(k, p);
      m.Moved? && Keeps(k, m.k) && (m.next.Some? ==> ProcInv(m.k, m.next.value))
  {
    if Slot(p.e, p.i) in k.index {
      KeepsSelf(k);
    } else {
      IndexerBuilds(k, p);
    }
  }

  lemma IndexerAppend(k: Kanban, p: Proc)
    requires StoreInv(k) && p.Indexer? && ProcInv(k, p) && p.iphase.IAppend?
    ensures var m := MoveIndexer(k, p);
      m.Moved? && Keeps(k, m.k) && (m.next.Some? ==> ProcInv(m.k, m.next.value))
  {
    assert InIndex(k, p.e, p.iphase.d);
    Append(k, p.e, p.iphase.d);
  }

  lemma IndexerCopy(k: Kanban, p: Proc)
    requires StoreInv(k) && p.Indexer? && ProcInv(k, p) && p.iphase.ICopy?
    ensures var m := MoveIndexer(k, p);
      m.Moved? && Keeps(k, m.k) && (m.next.Some? ==> ProcInv(m.k, m.next.value))
  {
    PutGlobal(k, Slot(p.e, p.i), p.iphase.d);
  }

  lemma IndexerStep(k: Kanban, p: Proc)
    requires StoreInv(k) && p.Indexer? && ProcInv(k, p)
    ensures var m := MoveIndexer(k, p);
      m.Moved? && Keeps(k, m.k) && (m.next.Some? ==> ProcInv(m.k, m.next.value))
  {
    match p.iphase
    case ICheckPut => IndexerPut(k, p);
    case IAppend(_) => IndexerAppend(k, p);
    case ICopy(_) => IndexerCopy(k, p);
  }

  lemma ReducerPut(k: Kanban, p: Proc)
    requires StoreInv(k) && p.Reducer? && ProcInv(k, p) && p.rphase.RPut?
    ensures var m := MoveReducer(k, p);
      m.Moved? ==> Keeps(k, m.k) && (m.next.Some? ==> ProcInv(m.k, m.next.value))
  {
    PutGlobal(k, Slot(p.e, p.i), Merged(p.rphase.g, p.rphase.n));
  }

  lemma ReducerAppend(k: Kanban, p: Proc)
    requires StoreInv(k) && p.Reducer? && ProcInv(k, p) && p.rphase.RAppend?
    ensures var m := MoveReducer(k, p);
      m.Moved? ==> Keeps(k, m.k) && (m.next.Some? ==> ProcInv(m.k, m.next.value))
  {
    var d := Merged(p.rphase.g, p.rphase.n);
    assert GlobalFrom(k, Slot(p.e, p.i), k.globals[Slot(p.e, p.i)]);
    assert InGlobals(k, p.e, d);
    Append(k, p.e, d);
  }

  lemma ReducerStep(k: Kanban, p: Proc)
    requires StoreInv(k) && p.Reducer? && ProcInv(k, p)
    ensures var m := MoveReducer(k, p);
      m.Moved? ==> Keeps(k, m.k) && (m.next.Some? ==> ProcInv(m.k, m.next.value))
  {
    if p.rphase.RPut? {
      ReducerPut(k, p);
    } else if p.rphase.RAppend? {
      ReducerAppend(k, p);
    }
  }

  lemma MoveKeeps(k: Kanban, p: Proc)
    requires StoreInv(k) && ProcInv(k, p)
    ensures Runnable(p)
    ensures Move(k, p).Moved? ==> Keeps(k, Move(k, p).k)
    ensures Move(k, p).Moved? && Move(k, p).next.Some? ==> ProcInv(Move(k, p).k, Move(k, p).next.value)
  {
    match p
    case Crawler(_, _, _, _) => CrawlerStep(k, p);
    case Indexer(_, _, _, _, _) => IndexerStep(k, p);
    case Reducer(_, _, _) => ReducerStep(k, p);
  }

  lemma ManagerStable(k: Kanban, k': Kanban, m: Manager)
    requires ManagerInv(k, m) && k'.epoch == k.epoch && k'.root == k.root
    requires forall e :: 1 <= e && Finished(k, e) ==> Finished(k', e)
    ensures ManagerInv(k', m)
  {
  }

  lemma AdvanceKeepsInv(s: State, p: nat)
    requires Inv(s)
    ensures Inv(AdvanceProc(s, p)) && Extends(s.k, AdvanceProc(s, p).k)
  {
    if p in s.procs {
      MoveKeeps(s.k, s.procs[p]);
      var s' := AdvanceProc(s, p);
      forall q | q in s'.procs ensures ProcInv(s'.k, s'.procs[q]) {
        if q != p {
          ProcStable(s.k, s'.k, s.procs[q]);
        }
      }
      ManagerStable(s.k, s'.k, s.manager);
    }
  }

  // ----- counting: a large enough key set is the expected one -----

  lemma {:induction false} ValuesSize(m: map<nat, Data>)
    ensures |m.Values| <= |m.Keys|
  {
    if m.Keys != {} {
      var i :| i in m.Keys;
      var rest := m - {i};
      ValuesSize(rest);
      assert m.Keys == rest.Keys + {i};
      assert m.Values == rest.Values + {m[i]};
    }
  }

  ghost function UpTo(n: nat): (s: set<nat>)
    ensures |s| == n
    ensures forall i :: i in s <==> 1 <= i <= n
  {
    if n == 0 then {} else UpTo(n - 1) + {n}
  }

  lemma ItemKeysSize(e: nat)
    requires e >= 1
    ensures |ItemKeys(e)| <= ITEMS_POOL_MAX
  {
    var m := map i | i in UpTo(ITEMS_POOL_MAX) :: ItemsVal(e, i);
    ValuesSize(m);
    assert m.Keys == UpTo(ITEMS_POOL_MAX);
    forall d | d in ItemKeys(e) ensures d in m.Values {
      var i: nat :| 1 <= i <= ITEMS_POOL_MAX && d == ItemsVal(e, i);
      assert i in m && m[i] == d;
    }
    SizeOfSubset(ItemKeys(e), m.Values);
  }

  lemma IndexKeysSize(e: nat)
    requires e >= 1
    ensures |IndexKeys(e)| <= if e < 2 then 0 else INDEX_POOL_MAX
  {
    if e >= 2 {
      var m := map b | b in UpTo(INDEX_POOL_MAX) :: IndexVal(e, b);
      ValuesSize(m);
      assert m.Keys == UpTo(INDEX_POOL_MAX);
      forall d | d in IndexKeys(e) ensures d in m.Values {
        var b: nat :| 1 <= b <= INDEX_POOL_MAX && d == IndexVal(e, b);
        assert b in m && m[b] == d;
      }
      SizeOfSubset(IndexKeys(e), m.Values);
    }
  }

  /** The shards whose global index of epoch `e` is written. */
  ghost function MergedShards(k: Kanban, e: nat): set<nat>
  {
    set i: nat | 1 <= i <= INDEX_POOL_MAX && Slot(e, i) in k.globals
  }

  ghost function MergedKeys(k: Kanban, e: nat): set<Data>
  {
    if e < 3 then {} else set i | i in MergedShards(k, e) :: k.globals[Slot(e, i)]
  }

  lemma MergedKeysSize(k: Kanban, e: nat)
    ensures |MergedKeys(k, e)| <= if e < 3 then 0 else |MergedShards(k, e)|
  {
    if e >= 3 {
      var m := map i | i in MergedShards(k, e) :: k.globals[Slot(e, i)];
      ValuesSize(m);
      assert m.Keys == MergedShards(k, e);
      assert MergedKeys(k, e) == m.Values;
    }
  }

  lemma KeysCovered(k: Kanban, e: nat)
    requires StoreInv(k) && e >= 1
    ensures KeysAt(k, e) <= ItemKeys(e) + IndexKeys(e) + MergedKeys(k, e)
  {
    forall d | d in KeysAt(k, e) ensures d in ItemKeys(e) + IndexKeys(e) + MergedKeys(k, e) {
      assert Recorded(k, e, d);
      if InItems(k, e, d) {
        ItemsExpected(k, e, d);
      } else if InIndex(k, e, d) {
        IndexExpected(k, e, d);
      } else {
        var i: nat :| Slot(e, i) in k.globals && k.globals[Slot(e, i)] == d;
        assert GlobalFrom(k, Slot(e, i), k.globals[Slot(e, i)]);
        assert i in MergedShards(k, e);
      }
    }
  }

  /** The threshold leaves no room: every slot of every task is used. */
  lemma Pigeonhole(k: Kanban, e: nat)
    requires StoreInv(k) && e >= 1 && |KeysAt(k, e)| >= ExpectedKeySize(e)
    ensures KeysAt(k, e) == ItemKeys(e) + IndexKeys(e) + MergedKeys(k, e)
    ensures e >= 3 ==> MergedShards(k, e) == UpTo(INDEX_POOL_MAX)
  {
    KeysCovered(k, e);
    ItemKeysSize(e);
    IndexKeysSize(e);
    MergedKeysSize(k, e);
    var all := ItemKeys(e) + IndexKeys(e) + MergedKeys(k, e);
    assert MergedShards(k, e) <= UpTo(INDEX_POOL_MAX);
    SizeOfSubset(MergedShards(k, e), UpTo(INDEX_POOL_MAX));
    assert |ItemKeys(e) + IndexKeys(e)| <= |ItemKeys(e)| + |IndexKeys(e)|;
    assert |all| <= |ItemKeys(e) + IndexKeys(e)| + |MergedKeys(k, e)|;
    SizeOfSubset(KeysAt(k, e), all);
    SubsetBySize(KeysAt(k, e), all);
    if e >= 3 {
      SubsetBySize(MergedShards(k, e), UpTo(INDEX_POOL_MAX));
    }
  }

  lemma KindOfIndex(k: Kanban, e: nat, d: Data)
    requires StoreInv(k) && InIndex(k, e, d)
    ensures d.Index?
  {
    var i: nat :| Slot(e, i) in k.index && k.index[Slot(e, i)] == d;
    assert IndexedFrom(d, e, i);
  }

  lemma KindOfGlobal(k: Kanban, e: nat, d: Data)
    requires StoreInv(k) && InGlobals(k, e, d)
    ensures d.Merged?
  {
    var i: nat :| Slot(e, i) in k.globals && k.globals[Slot(e, i)] == d;
    assert GlobalFrom(k, Slot(e, i), k.globals[Slot(e, i)]);
  }

  lemma ItemsDone(k: Kanban, e: nat, i: nat)
    requires StoreInv(k) && e >= 1 && 1 <= i <= ITEMS_POOL_MAX && ItemsVal(e, i) in KeysAt(k, e)
    ensures Slot(e, i) in k.items
  {
    var d := ItemsVal(e, i);
    assert Recorded(k, e, d);
    if InIndex(k, e, d) {
      KindOfIndex(k, e, d);
    }
    if InGlobals(k, e, d) {
      KindOfGlobal(k, e, d);
    }
    var j: nat :| Slot(e, j) in k.items && k.items[Slot(e, j)] == d;
    ItemsValDistinct(e, i, e, j);
  }

  /** A batch with a key was built for a shard at or after its own. */
  lemma ShardOfBatch(k: Kanban, e: nat, b: nat) returns (i: nat)
    requires StoreInv(k) && e >= 2 && 1 <= b <= INDEX_POOL_MAX && IndexVal(e, b) in KeysAt(k, e)
    ensures b <= i <= INDEX_POOL_MAX && Slot(e, i) in k.index && k.index[Slot(e, i)] == IndexVal(e, b)
  {
    var d := IndexVal(e, b);
    assert Recorded(k, e, d);
    if InGlobals(k, e, d) {
      KindOfGlobal(k, e, d);
    }
    i :| Slot(e, i) in k.index && k.index[Slot(e, i)] == d;
    assert IndexedFrom(d, e, i);
    var c: nat :| 1 <= c <= i && d == IndexVal(e, c);
    IndexValDistinct(e, b, e, c);
  }

  /** If every batch has a key, every shard was built from its own batch. */
  lemma {:induction false} OwnBatch(k: Kanban, e: nat, i: nat)
    requires StoreInv(k) && e >= 2 && 1 <= i <= INDEX_POOL_MAX && IndexKeys(e) <= KeysAt(k, e)
    ensures Slot(e, i) in k.index && k.index[Slot(e, i)] == IndexVal(e, i)
    decreases INDEX_POOL_MAX - i
  {
    assert IndexVal(e, i) in IndexKeys(e);
    var j := ShardOfBatch(k, e, i);
    if j > i {
      OwnBatch(k, e, j);
      IndexValDistinct(e, i, e, j);
      assert false;
    }
  }

  lemma GlobalDone(k: Kanban, e: nat, i: nat)
    requires StoreInv(k) && 3 <= e <= k.epoch && 1 <= i <= INDEX_POOL_MAX
    requires Slot(e, i) in k.globals && Slot(e, i) in k.index && k.index[Slot(e, i)] == IndexVal(e, i)
    ensures k.globals[Slot(e, i)] == GlobalVal(e, i)
  {
    assert GlobalFrom(k, Slot(e, i), k.globals[Slot(e, i)]);
    assert Finished(k, e - 1);
    if e == 3 {
      assert GlobalFrom(k, Slot(2, i), k.globals[Slot(2, i)]);
    }
  }

  lemma AllItemsDone(k: Kanban, e: nat)
    requires StoreInv(k) && e >= 1 && ItemKeys(e) <= KeysAt(k, e)
    ensures ItemsFinished(k, e)
  {
    forall i | 1 <= i <= ITEMS_POOL_MAX ensures Slot(e, i) in k.items {
      assert ItemsVal(e, i) in ItemKeys(e);
      ItemsDone(k, e, i);
    }
  }

  lemma AllIndexDone(k: Kanban, e: nat)
    requires StoreInv(k) && e >= 2 && IndexKeys(e) <= KeysAt(k, e)
    ensures IndexFinished(k, e)
  {
    forall i | 1 <= i <= INDEX_POOL_MAX ensures Slot(e, i) in k.index && k.index[Slot(e, i)] == IndexVal(e, i) {
      OwnBatch(k, e, i);
    }
  }

  lemma AllGlobalsDone(k: Kanban, e: nat)
    requires StoreInv(k) && 3 <= e <= k.epoch && IndexFinished(k, e)
    requires MergedShards(k, e) == UpTo(INDEX_POOL_MAX)
    ensures GlobalsFinished(k, e)
  {
    forall i | 1 <= i <= INDEX_POOL_MAX ensures Slot(e, i) in k.globals && k.globals[Slot(e, i)] == GlobalVal(e, i) {
      assert i in UpTo(INDEX_POOL_MAX);
      GlobalDone(k, e, i);
    }
  }

  lemma MergedAreGlobal(k: Kanban, e: nat)
    requires e >= 3 && GlobalsFinished(k, e)
    ensures MergedKeys(k, e) == GlobalKeys(e)
  {
    forall d | d in GlobalKeys(e) ensures d in MergedKeys(k, e) {
      var i: nat :| 1 <= i <= INDEX_POOL_MAX && d == GlobalVal(e, i);
      assert i in MergedShards(k, e) && k.globals[Slot(e, i)] == d;
    }
  }

  /** The manager's count implies that the epoch is finished. */
  lemma CountedIsFinished(k: Kanban)
    requires StoreInv(k) && k.epoch >= 1
    requires |KeysAt(k, k.epoch)| >= ExpectedKeySize(k.epoch)
    ensures Finished(k, k.epoch)
  {
    var e := k.epoch;
    Pigeonhole(k, e);
    AllItemsDone(k, e);
    if e >= 2 {
      AllIndexDone(k, e);
    }
    if e >= 3 {
      AllGlobalsDone(k, e);
      MergedAreGlobal(k, e);
    }
  }

  // ----- whole runs -----

  lemma PublishKeepsInv(s: State)
    requires Inv(s) && s.manager == Manager.Rooted
    ensures Inv(Step(s, PublishEpoch))
  {
    var s' := Step(s, PublishEpoch);
    GlobalsStable(s.k, s'.k);
    forall e | 1 <= e < s'.k.epoch ensures Finished(s'.k, e) && RootedOk(s'.k, e) {
      assert Finished(s.k, e) && RootedOk(s.k, e);
      FinishedStable(s.k, s'.k, e);
    }
    DataUnchanged(s.k, s'.k);
    forall p | p in s'.procs ensures ProcInv(s'.k, s'.procs[p]) {
      ProcStable(s.k, s'.k, s'.procs[p]);
    }
  }

  lemma DataUnchanged(k: Kanban, k': Kanban)
    requires KeysOk(k) && WitnessedOk(k) && Extends(k, k') && k'.keys == k.keys && k'.witnessed == k.witnessed
    ensures KeysOk(k') && WitnessedOk(k')
  {
    forall e, d | d in KeysAt(k', e) ensures Recorded(k', e, d) {
      RecordedStable(k, k', e, d);
    }
    forall d | d in k'.witnessed ensures exists e: nat :: Recorded(k', e, d) {
      var e: nat :| Recorded(k, e, d);
      RecordedStable(k, k', e, d);
    }
  }

  lemma WriteRootKeepsInv(s: State)
    requires Inv(s) && s.manager.Counted?
    ensures Inv(Step(s, WriteRoot))
  {
    var s' := Step(s, WriteRoot);
    GlobalsStable(s.k, s'.k);
    DataUnchanged(s.k, s'.k);
    forall e | 1 <= e <= s'.k.epoch ensures Finished(s'.k, e) && RootedOk(s'.k, e) {
      assert Finished(s.k, e) && (e < s.k.epoch ==> RootedOk(s.k, e));
      FinishedStable(s.k, s'.k, e);
    }
    forall p | p in s'.procs ensures ProcInv(s'.k, s'.procs[p]) {
      ProcStable(s.k, s'.k, s'.procs[p]);
    }
  }

  lemma InitKeepsInv(s: State)
    requires Inv(s)
    ensures Inv(Step(s, InitEpoch)) && Extends(s.k, Step(s, InitEpoch).k)
  {
  }

  lemma SpawnKeepsInv(s: State, p: nat, proc: Proc)
    requires Inv(s) && ProcInv(s.k, proc)
    ensures Inv(Spawn(s, p, proc))
  {
  }

  lemma CountKeepsInv(s: State)
    requires Inv(s)
    ensures Inv(Step(s, CountKeys))
  {
    if s.k.epoch >= 1 && |KeysAt(s.k, s.k.epoch)| >= ExpectedKeySize(s.k.epoch) {
      CountedIsFinished(s.k);
    }
  }

  /** Every step of every process and of the manager keeps the invariant and all data. */
  lemma StepKeepsInv(s: State, ev: Event)
    requires Inv(s)
    ensures Inv(Step(s, ev)) && Extends(s.k, Step(s, ev).k)
  {
    match ev
    case Advance(p) => AdvanceKeepsInv(s, p);
    case InitEpoch => InitKeepsInv(s);
    case CountKeys => CountKeepsInv(s);
    case WriteRoot => if s.manager.Counted? { WriteRootKeepsInv(s); }
    case PublishEpoch => if s.manager == Manager.Rooted { PublishKeepsInv(s); }
    case StartCrawler(p) => StartKeepsInv(s, ev);
    case StartIndexer(p) => StartKeepsInv(s, ev);
    case StartReducer(p) => StartKeepsInv(s, ev);
  }

  lemma StartKeepsInv(s: State, ev: Event)
    requires Inv(s) && (ev.StartCrawler? || ev.StartIndexer? || ev.StartReducer?)
    ensures Inv(Step(s, ev)) && Step(s, ev).k == s.k
  {
    match ev
    case StartCrawler(p) =>
      if s.k.epoch >= 1 { SpawnKeepsInv(s, p, Crawler(s.k.epoch, s.k.blockId, 1, CCheck)); }
    case StartIndexer(p) =>
      if s.k.epoch >= 2 {
        assert 1 == FirstItem(1);
        SpawnKeepsInv(s, p, Indexer(s.k.epoch, 1, 1, 0, ICheckPut));
      }
    case StartReducer(p) =>
      if s.k.epoch >= 3 { SpawnKeepsInv(s, p, Reducer(s.k.epoch, 1, RCheck)); }
  }

  lemma {:induction false} RunInv(events: seq<Event>)
    ensures Inv(Run(events))
  {
    if events != [] {
      RunInv(events[..|events| - 1]);
      StepKeepsInv(Run(events[..|events| - 1]), events[|events| - 1]);
    }
  }

  /** The last event of the longer run. */
  lemma {:induction false} RunSnoc(events: seq<Event>, front: seq<Event>, last: Event)
    ensures Run(events + (front + [last])) == Step(Run(events + front), last)
  {
    var all := events + (front + [last]);
    assert all[..|all| - 1] == events + front && all[|all| - 1] == last;
  }

  /** Every prefix of a run is extended by the run: no written value changes. */
  lemma {:induction false} NothingIsOverwritten(events: seq<Event>, more: seq<Event>)
    ensures Extends(Run(events).k, Run(events + more).k)
    decreases |more|
  {
    if more == [] {
      assert events + more == events;
    } else {
      var front, last := more[..|more| - 1], more[|more| - 1];
      assert more == front + [last];
      NothingIsOverwritten(events, front);
      RunInv(events + front);
      StepKeepsInv(Run(events + front), last);
      RunSnoc(events, front, last);
      ExtendsTransitive(Run(events).k, Run(events + front).k, Run(events + more).k);
    }
  }

  lemma ExtendsTransitive(a: Kanban, b: Kanban, c: Kanban)
    requires Extends(a, b) && Extends(b, c)
    ensures Extends(a, c)
  {
    forall e ensures KeysAt(a, e) <= KeysAt(c, e) {
      assert KeysAt(a, e) <= KeysAt(b, e) <= KeysAt(c, e);
    }
  }

  /** In every run every closed epoch holds the expected data, key set and root hash,
      and a key set that was rooted never grows again. */
  lemma ClosedEpochs(events: seq<Event>, more: seq<Event>, e: nat)
    requires 1 <= e < Run(events).k.epoch
    ensures var k := Run(events).k;
      && (forall i :: 1 <= i <= ITEMS_POOL_MAX ==> Slot(e, i) in k.items && k.items[Slot(e, i)] == ItemsVal(e, i))
      && (e >= 2 ==> IndexFinished(k, e)) && (e >= 3 ==> GlobalsFinished(k, e))
    ensures KeysAt(Run(events).k, e) == KeysAt(Run(events + more).k, e) == ExpectedKeys(e)
    ensures RootedOk(Run(events + more).k, e)
  {
    RunInv(events);
    RunInv(events + more);
    NothingIsOverwritten(events, more);
    assert Finished(Run(events).k, e) && Finished(Run(events + more).k, e);
    assert RootedOk(Run(events + more).k, e);
  }

  /** An indexer that skipped a shard gives later shards an earlier batch.  Such an epoch
      can never be closed: the repeated batch leaves the key set one short for ever. */
  lemma MisassignedShardStalls(events: seq<Event>, more: seq<Event>, s: Slot)
    requires s.e >= 2 && s.i >= 1
    requires s in Run(events).k.index && Run(events).k.index[s] != IndexVal(s.e, s.i)
    ensures Run(events + more).k.epoch == s.e
  {
    RunInv(events);
    RunInv(events + more);
    NothingIsOverwritten(events, more);
    var k' := Run(events + more).k;
    if s.e < k'.epoch {
      ClosedShard(k', s);
    }
  }

  lemma ClosedShard(k: Kanban, s: Slot)
    requires StoreInv(k) && s in k.index && s.e < k.epoch
    ensures s.e >= 2 && s.i >= 1 && k.index[s] == IndexVal(s.e, s.i)
  {
    assert Finished(k, s.e);
  }
}
