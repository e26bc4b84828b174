/**
 Runs in which an indexer writes a shard that another one has written since it tested it.  In
 every epoch from the second on some run replaces the batch of a shard by another one; some
 run even closes that epoch, and the audit of all its shards then fails.
 */
module Overwritten {
  import opened Common
  import opened Pipeline
  import opened PipelineSafety
  import opened Duties
  import opened Progress
  import opened TestAndWrite
  import opened AuditTheorem
  import Auditor
  import Queriers

  // ----- an outdated test -----

  /** No reducer of epoch `e` has written. */
  ghost predicate NoGlobals(k: Kanban, e: nat)
  {
    e >= 3 ==> forall x :: x in k.globals ==> x.e != e
  }

  /** Indexer `q` tested the second shard and would give it the first batch, but meanwhile it
      has been written. */
  ghost predicate Outdated(f: Fine, e: nat, q: nat)
  {
    && Open(f.s) && f.s.k.epoch == e >= 2 && q in f.tested && Taken(f.s, q)
    && f.s.procs[q] == Indexer(e, 2, 1, 1, ICheckPut) && NoGlobals(f.s.k, e)
  }

  /** The second indexer skips the first shard and finds the second one missing. */
  lemma Tests(a: State, e: nat, q: nat) returns (f: Fine)
    requires Open(a) && e == a.k.epoch >= 2 && Prefix(a.k, e, 1)
    requires q in a.procs && a.procs[q] == Indexer(e, 1, 1, 0, ICheckPut)
    ensures Calmly(Fine(a, {}), f) && f.tested == {q} && Open(f.s) && f.s.k == a.k
    ensures f.s.procs == a.procs[q := Indexer(e, 2, 1, 1, ICheckPut)]
  {
    var b := Skips(a, e, q);
    var g := SplitStep(Fine(a, {}), Advance(q));
    assert g == Fine(b, {});
    CalmStep(Fine(a, {}), g, Advance(q));
    f := FineStep(g, Advance(q));
  }

  /** Then the first indexer writes it. */
  lemma Outdates(f: Fine, e: nat, p: nat, q: nat) returns (g: Fine)
    requires Open(f.s) && e == f.s.k.epoch >= 2 && Prefix(f.s.k, e, 1) && f.tested == {q} && p != q
    requires p in f.s.procs && f.s.procs[p] == Ready(e, 1)
    requires q in f.s.procs && f.s.procs[q] == Indexer(e, 2, 1, 1, ICheckPut) && NoGlobals(f.s.k, e)
    ensures Calmly(f, g) && Outdated(g, e, q)
  {
    var c := WriteNext(f.s, p, 1);
    assert Slot(e, 2) in c.k.index;
    g := SplitStep(f, Advance(p));
  }

  lemma TestIsOutdated(e: nat) returns (events: seq<Event>, f: Fine, q: nat)
    requires e >= 2
    ensures f == FineRun(events) && Undisturbed(events) && Outdated(f, e, q)
  {
    var single, s := EveryEpochIsReached(e);
    var split := RunIsUndisturbed(single);
    var a, p;
    a, p, q := Races(s, e);
    var g0 := SplitReach(Fine(s, {}), a);
    assert g0 == Fine(a, {});
    var g1 := Tests(a, e, q);
    CalmTrans(Fine(s, {}), g0, g1);
    f := Outdates(g1, e, p, q);
    CalmTrans(Fine(s, {}), g1, f);
    var more := RunCalmly(split, f);
    events := split + more;
  }

  lemma Overwrites(f: Fine, e: nat, q: nat) returns (g: Fine)
    requires Outdated(f, e, q)
    ensures g == FineStep(f, Advance(q)) && g.s.manager == f.s.manager
    ensures g.s.k == f.s.k.(index := f.s.k.index[Slot(e, 2) := IndexVal(e, 1)])
    ensures g.s.procs == f.s.procs[q := Indexer(e, 2, 1, 1, IAppend(IndexVal(e, 1)))]
  {
    g := FineStep(f, Advance(q));
    FirstBatch(f.s.k, e);
  }

  lemma FirstBatch(k: Kanban, e: nat)
    requires StoreInv(k) && 2 <= e <= k.epoch
    ensures BatchReady(k.items, e - 1, 1) && BuildIndex(k.items, e - 1, 1) == IndexVal(e, 1)
  {
    assert Finished(k, e - 1);
    assert FirstItem(1) == 1;
    BatchBuilt(k, e, 1);
  }

  /** In every epoch from the second on, some run replaces the batch of the second shard by that
      of the first. */
  lemma ShardIsOverwritten(e: nat) returns (events: seq<Event>, q: nat, k: Kanban, k': Kanban)
    requires e >= 2
    ensures Undisturbed(events) && k == FineRun(events).s.k && k' == FineRun(events + [Advance(q)]).s.k
    ensures Slot(e, 2) in k.index && k.index[Slot(e, 2)] == IndexVal(e, 2)
    ensures Slot(e, 2) in k'.index && k'.index[Slot(e, 2)] == IndexVal(e, 1) != IndexVal(e, 2)
  {
    var f;
    events, f, q := TestIsOutdated(e);
    var g := Overwrites(f, e, q);
    k, k' := f.s.k, g.s.k;
    FineThen(events, Advance(q));
    if IndexVal(e, 1) == IndexVal(e, 2) {
      IndexValDistinct(e, 1, e, 2);
    }
  }

  lemma FineThen(events: seq<Event>, ev: Event)
    ensures FineRun(events + [ev]) == FineStep(FineRun(events), ev)
  {
    assert (events + [ev])[..|events|] == events;
  }

  // ----- the rest of the epoch's work -----

  ghost function SeedDuties(): seq<Duty>
  {
    seq(INDEX_POOL_MAX, j requires 0 <= j < INDEX_POOL_MAX => Seed(j + 1))
  }

  lemma SeedsPaid(k: Kanban)
    requires AllDone(k, SeedDuties())
    ensures SeedsThere(k, 2)
  {
    forall j: nat {:trigger Slot(2, j)} | 1 <= j <= INDEX_POOL_MAX ensures Slot(2, j) in k.globals {
      assert SeedDuties()[j - 1] == Seed(j);
      assert Done(k, Seed(j));
    }
  }

  /** The epoch whose global indexes are read next: in epoch 2 there are no others. */
  ghost function SeedEpoch(e: nat): nat
    requires e >= 2
  {
    if e == 2 then 2 else e - 1
  }

  /** All items and indexes of epoch `e` and their keys are there, and what reducers or queriers read. */
  ghost predicate Worked(k: Kanban, e: nat)
  {
    && e >= 2 && IndexFinished(k, e) && ItemKeys(e) + IndexKeys(e) <= KeysAt(k, e) && NoGlobals(k, e)
    && SeedsThere(k, SeedEpoch(e))
  }

  lemma ItemsAndIndexes(s: State, e: nat) returns (t: State)
    requires Open(s) && s.k.epoch == e >= 2 && NoGlobals(s.k, e)
    ensures Onward(s, t) && IndexFinished(t.k, e) && ItemKeys(e) + IndexKeys(e) <= KeysAt(t.k, e) && NoGlobals(t.k, e)
  {
    var a := Crawls(s);
    t := Indexes(a);
    OnwardTrans(s, a, t);
    KeysStay(a, t, e, ItemKeys(e));
  }

  lemma SeedsDue(k: Kanban)
    requires IndexFinished(k, 2)
    ensures AllDue(k, SeedDuties())
  {
  }

  lemma CopiesAll(s: State) returns (t: State)
    requires Open(s) && s.k.epoch == 2 && IndexFinished(s.k, 2)
    ensures Onward(s, t) && OnlySeeds(s.k, t.k, true) && SeedsThere(t.k, 2)
  {
    SeedsDue(s.k);
    t := PayAll(s, SeedDuties());
    SeedsPaid(t.k);
  }

  lemma StillWorked(k: Kanban, k': Kanban, e: nat)
    requires e >= 2 && IndexFinished(k, e) && ItemKeys(e) + IndexKeys(e) <= KeysAt(k, e) && NoGlobals(k, e)
    requires Extends(k, k') && k'.index == k.index && SeedsThere(k', SeedEpoch(e))
    requires forall x :: x in k'.globals ==> x in k.globals || x.e == 2
    ensures Worked(k', e)
  {
    assert KeysAt(k, e) <= KeysAt(k', e);
  }

  lemma WorksOn(s: State, e: nat) returns (t: State)
    requires Open(s) && s.k.epoch == e >= 2 && NoGlobals(s.k, e)
    ensures Onward(s, t) && Worked(t.k, e)
  {
    var a := ItemsAndIndexes(s, e);
    t := SeedsOn(a, e);
    OnwardTrans(s, a, t);
    StillWorked(a.k, t.k, e);
  }

  lemma SeedsOn(s: State, e: nat) returns (t: State)
    requires Open(s) && s.k.epoch == e >= 2 && IndexFinished(s.k, e)
    ensures Onward(s, t) && OnlySeeds(s.k, t.k, true) && SeedsThere(t.k, SeedEpoch(e))
  {
    if e == 2 {
      t := CopiesAll(s);
    } else {
      t := Seeds(s);
      assert SeedEpoch(e) == e - 1;
    }
  }

  lemma WorksOutdated(e: nat) returns (events: seq<Event>, f: Fine, q: nat)
    requires e >= 2
    ensures f == FineRun(events) && Outdated(f, e, q) && Worked(f.s.k, e)
  {
    var before, g;
    before, g, q := TestIsOutdated(e);
    var t := WorksOn(g.s, e);
    f := SplitReach(g, t);
    var more := RunCalmly(before, f);
    events := before + more;
  }

  // ----- steps from a state that no run with single steps reaches -----

  ghost predicate FineComes(f: Fine, g: Fine)
  {
    exists events :: FineAll(f, events) == g
  }

  lemma FineComesSelf(f: Fine)
    ensures FineComes(f, f)
  {
    assert FineAll(f, []) == f;
  }

  lemma FineComesStep(f: Fine, g: Fine, ev: Event)
    requires FineComes(f, g)
    ensures FineComes(f, FineStep(g, ev))
  {
    var x :| FineAll(f, x) == g;
    assert (x + [ev])[..|x|] == x;
    assert FineAll(f, x + [ev]) == FineStep(g, ev);
  }

  lemma FineComesTrans(f: Fine, g: Fine, h: Fine)
    requires FineComes(f, g) && FineComes(g, h)
    ensures FineComes(f, h)
  {
    var x :| FineAll(f, x) == g;
    var y :| FineAll(g, y) == h;
    FineAllAppend(f, x, y);
  }

  lemma RunFinely(events: seq<Event>, g: Fine) returns (more: seq<Event>)
    requires FineComes(FineRun(events), g)
    ensures FineRun(events + more) == g
  {
    more :| FineAll(FineRun(events), more) == g;
    FineAllAppend(Fine(Initial, {}), events, more);
  }

  /** A step of a process that is not at a test. */
  lemma FineGoes(f: Fine, p: nat, proc: Proc, k: Kanban, next: Option<Proc>) returns (g: Fine)
    requires p in f.s.procs && f.s.procs[p] == proc && Runnable(proc) && !AtTest(proc)
    requires Move(f.s.k, proc) == Moved(k, next)
    ensures FineComes(f, g) && g.s.k == k && g.s.manager == f.s.manager
    ensures next.Some? ==> p in g.s.procs && g.s.procs[p] == next.value
  {
    FineComesSelf(f);
    FineComesStep(f, f, Advance(p));
    g := FineStep(f, Advance(p));
  }

  // ----- a reducer's pass over whatever indexes are there -----

  ghost predicate Given(k: Kanban, e: nat, i: nat)
  {
    e >= 3 && Slot(e - 1, i) in k.globals && Slot(e, i) in k.index
  }

  ghost function MergedAt(k: Kanban, e: nat, i: nat): Data
    requires Given(k, e, i)
  {
    Merged(k.globals[Slot(e - 1, i)], k.index[Slot(e, i)])
  }

  ghost function MergeOne(k: Kanban, e: nat, i: nat): Kanban
    requires Given(k, e, i)
  {
    AppendWitness(k.(globals := k.globals[Slot(e, i) := MergedAt(k, e, i)]), e, MergedAt(k, e, i))
  }

  lemma ReducesOne(f: Fine, p: nat, e: nat, i: nat) returns (g: Fine)
    requires Given(f.s.k, e, i) && i >= 1 && Slot(e, i) !in f.s.k.globals
    requires p in f.s.procs && f.s.procs[p] == Reducer(e, i, RCheck)
    ensures FineComes(f, g) && g.s.k == MergeOne(f.s.k, e, i) && g.s.manager == f.s.manager
    ensures i < INDEX_POOL_MAX ==> p in g.s.procs && g.s.procs[p] == Reducer(e, i + 1, RCheck)
  {
    var k := f.s.k;
    var x, n := k.globals[Slot(e - 1, i)], k.index[Slot(e, i)];
    var k1 := k.(globals := k.globals[Slot(e, i) := Merged(x, n)]);
    ReduceMoves(k, e, i, x, n);
    var a := FineGoes(f, p, Reducer(e, i, RCheck), k, Some(Reducer(e, i, RReadGlobal)));
    var b := FineGoes(a, p, Reducer(e, i, RReadGlobal), k, Some(Reducer(e, i, RReadIndex(x))));
    FineComesTrans(f, a, b);
    var c := FineGoes(b, p, Reducer(e, i, RReadIndex(x)), k, Some(Reducer(e, i, RPut(x, n))));
    FineComesTrans(f, b, c);
    var d := FineGoes(c, p, Reducer(e, i, RPut(x, n)), k1, Some(Reducer(e, i, RAppend(x, n))));
    FineComesTrans(f, c, d);
    g := FineGoes(d, p, Reducer(e, i, RAppend(x, n)), AppendWitness(k1, e, Merged(x, n)), NextReduce(e, i));
    FineComesTrans(f, d, g);
  }

  /** The global indexes of `k` that the reducer adds for the shards before `i`. */
  ghost function MergedBefore(k: Kanban, e: nat, i: nat): set<Data>
    requires forall j: nat :: 1 <= j < i ==> Given(k, e, j)
  {
    set j: nat | 1 <= j < i :: MergedAt(k, e, j)
  }

  ghost predicate AllInputs(k: Kanban, e: nat)
  {
    forall j: nat :: 1 <= j <= INDEX_POOL_MAX ==> Given(k, e, j)
  }

  /** `k'` is `k` after the reducer's pass over the shards before `i`. */
  ghost predicate PassedTo(k: Kanban, k': Kanban, e: nat, i: nat)
    requires AllInputs(k, e) && 1 <= i <= INDEX_POOL_MAX + 1
  {
    && k'.epoch == k.epoch && k'.index == k.index && k'.root == k.root
    && k'.witnessed == k.witnessed + MergedBefore(k, e, i)
    && (forall j: nat :: 1 <= j < i ==> Slot(e, j) in k'.globals && k'.globals[Slot(e, j)] == MergedAt(k, e, j))
    && (forall j: nat :: i <= j ==> Slot(e, j) !in k'.globals)
    && (forall x :: x in k.globals ==> x in k'.globals && k'.globals[x] == k.globals[x])
    && KeysAt(k', e) == KeysAt(k, e) + MergedBefore(k, e, i)
    && (forall c :: c != e ==> KeysAt(k', c) == KeysAt(k, c) && (c in k'.keys <==> c in k.keys))
  }

  lemma MergedSnoc(k: Kanban, e: nat, i: nat)
    requires AllInputs(k, e) && 1 <= i <= INDEX_POOL_MAX
    ensures MergedBefore(k, e, i + 1) == MergedBefore(k, e, i) + {MergedAt(k, e, i)}
  {
    forall d | d in MergedBefore(k, e, i + 1) ensures d in MergedBefore(k, e, i) + {MergedAt(k, e, i)} {
      var j: nat :| 1 <= j < i + 1 && d == MergedAt(k, e, j);
      assert j < i || j == i;
    }
  }

  lemma PassedNext(k: Kanban, k': Kanban, e: nat, i: nat)
    requires AllInputs(k, e) && 1 <= i <= INDEX_POOL_MAX && e >= 3 && PassedTo(k, k', e, i)
    ensures Given(k', e, i) && MergedAt(k', e, i) == MergedAt(k, e, i) && PassedTo(k, MergeOne(k', e, i), e, i + 1)
  {
    assert Given(k, e, i);
    MergedSnoc(k, e, i);
  }

  lemma {:induction false} ReducesFrom(f: Fine, p: nat, k: Kanban, e: nat, i: nat) returns (g: Fine)
    requires AllInputs(k, e) && 1 <= i <= INDEX_POOL_MAX && e >= 3 && PassedTo(k, f.s.k, e, i)
    requires p in f.s.procs && f.s.procs[p] == Reducer(e, i, RCheck)
    ensures FineComes(f, g) && PassedTo(k, g.s.k, e, INDEX_POOL_MAX + 1) && g.s.manager == f.s.manager
    decreases INDEX_POOL_MAX - i
  {
    PassedNext(k, f.s.k, e, i);
    g := ReducesOne(f, p, e, i);
    if i < INDEX_POOL_MAX {
      var a := g;
      g := ReducesFrom(a, p, k, e, i + 1);
      FineComesTrans(f, a, g);
    }
  }

  lemma ReducesAll(f: Fine, e: nat) returns (g: Fine)
    requires AllInputs(f.s.k, e) && f.s.k.epoch == e >= 3 && NoGlobals(f.s.k, e)
    ensures FineComes(f, g) && PassedTo(f.s.k, g.s.k, e, INDEX_POOL_MAX + 1) && g.s.manager == f.s.manager
  {
    var p := Above(f.s.procs.Keys);
    FineComesSelf(f);
    FineComesStep(f, f, StartReducer(p));
    var a := FineStep(f, StartReducer(p));
    assert MergedBefore(f.s.k, e, 1) == {};
    g := ReducesFrom(a, p, f.s.k, e, 1);
    FineComesTrans(f, a, g);
  }

  // ----- closing the epoch -----

  lemma CountsFinely(f: Fine) returns (g: Fine)
    requires f.s.manager == Waiting && f.s.k.epoch >= 1 && |KeysAt(f.s.k, f.s.k.epoch)| >= ExpectedKeySize(f.s.k.epoch)
    ensures FineComes(f, g)
    ensures var k := f.s.k; g.s.k == k.(root := k.root[k.epoch := KeysAt(k, k.epoch)], epoch := k.epoch + 1,
                                        blockId := k.blockId + ITEMS_BULK_MAX * ITEMS_POOL_MAX)
  {
    FineComesSelf(f);
    FineComesStep(f, f, CountKeys);
    var a := FineStep(f, CountKeys);
    FineComesStep(f, a, WriteRoot);
    var b := FineStep(a, WriteRoot);
    FineComesStep(f, b, PublishEpoch);
    g := FineStep(b, PublishEpoch);
  }

  // ----- an epoch that is closed with a wrong batch -----

  /** The store after the outdated write, and in epoch 2 its copy. */
  ghost function Spoiled(k: Kanban, e: nat): Kanban
    requires e >= 2
  {
    k.(index := k.index[Slot(e, 2) := IndexVal(e, 1)],
       globals := if e == 2 then k.globals[Slot(2, 2) := IndexVal(2, 1)] else k.globals)
  }

  /** Filing a witness again changes nothing. */
  lemma AppendAgain(k: Kanban, e: nat, d: Data)
    requires d in KeysAt(k, e) && d in k.witnessed
    ensures AppendWitness(k, e, d) == k
  {
    assert k.witnessed + {d} == k.witnessed && KeysAt(k, e) + {d} == KeysAt(k, e);
    assert k.keys[e := k.keys[e]] == k.keys;
  }

  lemma CopiesWrong(f: Fine, q: nat) returns (g: Fine)
    requires q in f.s.procs && f.s.procs[q] == Indexer(2, 2, 1, 1, IAppend(IndexVal(2, 1)))
    requires IndexVal(2, 1) in KeysAt(f.s.k, 2) && IndexVal(2, 1) in f.s.k.witnessed
    ensures FineComes(f, g) && g.s.manager == f.s.manager
    ensures g.s.k == f.s.k.(globals := f.s.k.globals[Slot(2, 2) := IndexVal(2, 1)])
  {
    var k, d := f.s.k, IndexVal(2, 1);
    AppendAgain(k, 2, d);
    var filing, copy := Indexer(2, 2, 1, 1, IAppend(d)), Indexer(2, 2, 1, 1, ICopy(d));
    assert Move(k, filing) == Moved(k, Some(copy));
    var a := FineGoes(f, q, filing, k, Some(copy));
    var next := Indexer(2, 3, 5, 1, ICheckPut);
    assert Move(k, copy) == Moved(k.(globals := k.globals[Slot(2, 2) := d]), Some(next));
    g := FineGoes(a, q, copy, k.(globals := k.globals[Slot(2, 2) := d]), Some(next));
    FineComesTrans(f, a, g);
  }

  lemma IndexIsFiled(k: Kanban, e: nat, b: nat)
    requires KeysOk(k) && e >= 2 && IndexKeys(e) <= KeysAt(k, e) && 1 <= b <= INDEX_POOL_MAX
    ensures IndexVal(e, b) in KeysAt(k, e) && IndexVal(e, b) in k.witnessed
  {
    assert IndexVal(e, b) in IndexKeys(e);
  }

  lemma Spoils(f: Fine, e: nat, q: nat) returns (g: Fine)
    requires Outdated(f, e, q) && Worked(f.s.k, e)
    ensures FineComes(f, g) && g.s.k == Spoiled(f.s.k, e) && g.s.manager == Waiting
  {
    g := Overwrites(f, e, q);
    FineComesSelf(f);
    FineComesStep(f, f, Advance(q));
    if e == 2 {
      var a := g;
      IndexIsFiled(f.s.k, e, 1);
      g := CopiesWrong(a, q);
      FineComesTrans(f, a, g);
    }
  }

  lemma GlobalValDistinct(e: nat, i: nat, j: nat)
    requires e >= 2 && 1 <= i <= INDEX_POOL_MAX && 1 <= j <= INDEX_POOL_MAX && GlobalVal(e, i) == GlobalVal(e, j)
    ensures i == j
  {
    IndexValDistinct(e, i, e, j);
  }

  /** What the reducer of epoch `e` finds: the right global indexes, and the wrong second index. */
  ghost predicate Priors(k: Kanban, e: nat)
  {
    && AllInputs(k, e) && e >= 3
    && forall i: nat {:trigger Given(k, e, i)} :: 1 <= i <= INDEX_POOL_MAX && Given(k, e, i) ==>
         MergedAt(k, e, i) == Spoilt(e, i)
  }

  ghost function Spoilt(e: nat, i: nat): Data
    requires e >= 3 && i >= 1
  {
    Merged(GlobalVal(e - 1, i), IndexVal(e, if i == 2 then 1 else i))
  }

  lemma SpoiledPrior(k: Kanban, e: nat, i: nat)
    requires StoreInv(k) && k.epoch == e >= 3 && 1 <= i <= INDEX_POOL_MAX && Given(k, e, i) && IndexFinished(k, e)
    ensures Given(Spoiled(k, e), e, i) && MergedAt(Spoiled(k, e), e, i) == Spoilt(e, i)
  {
    Queriers.StoredIsGlobal(k, e - 1, i);
  }

  lemma WorkedIsGiven(k: Kanban, e: nat, i: nat)
    requires e >= 3 && Worked(k, e) && 1 <= i <= INDEX_POOL_MAX
    ensures Given(k, e, i)
  {
    var c := e - 1;
    assert Slot(c, i) in k.globals && Slot(e, i) in k.index;
  }

  lemma SpoiledPriors(k: Kanban, e: nat)
    requires StoreInv(k) && k.epoch == e >= 3 && Worked(k, e)
    ensures Priors(Spoiled(k, e), e)
  {
    forall i: nat | 1 <= i <= INDEX_POOL_MAX
      ensures Given(Spoiled(k, e), e, i) && MergedAt(Spoiled(k, e), e, i) == Spoilt(e, i)
    {
      WorkedIsGiven(k, e, i);
      SpoiledPrior(k, e, i);
    }
  }

  ghost function SpoiltMap(e: nat): map<nat, Data>
    requires e >= 3
  {
    map i | i in UpTo(INDEX_POOL_MAX) :: Spoilt(e, i)
  }

  lemma SpoiltCount(e: nat)
    requires e >= 3
    ensures |SpoiltMap(e).Values| == INDEX_POOL_MAX
  {
    var m := SpoiltMap(e);
    forall i, j | i in m && j in m && m[i] == m[j] ensures i == j {
      GlobalValDistinct(e - 1, i, j);
    }
    InjectiveSize(m);
    assert m.Keys == UpTo(INDEX_POOL_MAX);
  }

  lemma MergedIsSpoilt(k: Kanban, e: nat)
    requires Priors(k, e)
    ensures MergedBefore(k, e, INDEX_POOL_MAX + 1) == SpoiltMap(e).Values
  {
    var m := SpoiltMap(e);
    forall d | d in MergedBefore(k, e, INDEX_POOL_MAX + 1) ensures d in m.Values {
      var i: nat :| 1 <= i < INDEX_POOL_MAX + 1 && d == MergedAt(k, e, i);
      assert Given(k, e, i) && i in m && m[i] == d;
    }
    forall d | d in m.Values ensures d in MergedBefore(k, e, INDEX_POOL_MAX + 1) {
      var i :| i in m && m[i] == d;
      assert i in UpTo(INDEX_POOL_MAX) && Given(k, e, i) && MergedAt(k, e, i) == d;
    }
  }

  lemma SpoiltKinds(e: nat)
    requires e >= 3
    ensures ItemKeys(e) !! IndexKeys(e) && ItemKeys(e) !! SpoiltMap(e).Values && IndexKeys(e) !! SpoiltMap(e).Values
  {
    KeyKinds(e);
    assert forall d :: d in SpoiltMap(e).Values ==> d.Merged?;
    assert forall d :: d in ItemKeys(e) ==> d.Posts?;
    assert forall d :: d in IndexKeys(e) ==> d.Index?;
  }

  lemma SpoiltKeys(e: nat)
    requires e >= 3
    ensures |ItemKeys(e) + IndexKeys(e) + SpoiltMap(e).Values| == ExpectedKeySize(e)
  {
    SpoiltKinds(e);
    UnionSize(ItemKeys(e), IndexKeys(e), SpoiltMap(e).Values);
    ItemKeysExact(e);
    IndexKeysExact(e);
    SpoiltCount(e);
  }

  lemma EnoughKeys(k: Kanban, k': Kanban, e: nat)
    requires Priors(k, e) && PassedTo(k, k', e, INDEX_POOL_MAX + 1) && ItemKeys(e) + IndexKeys(e) <= KeysAt(k, e)
    ensures |KeysAt(k', e)| >= ExpectedKeySize(e)
  {
    assert KeysAt(k', e) == KeysAt(k, e) + MergedBefore(k, e, INDEX_POOL_MAX + 1);
    MergedIsSpoilt(k, e);
    SpoiltKeys(e);
    SizeOfSubset(ItemKeys(e) + IndexKeys(e) + SpoiltMap(e).Values, KeysAt(k', e));
  }

  lemma EnoughInSecond(k: Kanban)
    requires ItemKeys(2) + IndexKeys(2) <= KeysAt(k, 2)
    ensures |KeysAt(k, 2)| >= ExpectedKeySize(2)
  {
    ThresholdIsExact(2);
    SizeOfSubset(ExpectedKeys(2), KeysAt(k, 2));
  }

  /** What is stored in the end for shard `i`: the second one lacks its batch. */
  ghost function Stored(e: nat, i: nat): Data
    requires e >= 2 && i >= 1
  {
    if e == 2 then IndexVal(2, if i == 2 then 1 else i) else Spoilt(e, i)
  }

  ghost function StoredNew(e: nat): set<Data>
    requires e >= 2
  {
    if e == 2 then {} else SpoiltMap(e).Values
  }

  ghost predicate StoredAll(k: Kanban, e: nat)
    requires e >= 2
  {
    forall i: nat {:trigger Slot(e, i)} :: 1 <= i <= INDEX_POOL_MAX ==>
      Slot(e, i) in k.globals && k.globals[Slot(e, i)] == Stored(e, i)
  }

  ghost predicate OtherKeysStay(k: Kanban, k': Kanban, e: nat)
  {
    forall c :: c != e ==> KeysAt(k', c) == KeysAt(k, c) && (c in k'.keys <==> c in k.keys)
  }

  /** The store after the reducer's pass, with `k` the store before the outdated write. */
  ghost predicate Merges(k: Kanban, k': Kanban, e: nat)
    requires e >= 2
  {
    && k'.epoch == k.epoch && k'.index == Spoiled(k, e).index && k'.root == k.root && StoredAll(k', e)
    && k'.witnessed == k.witnessed + StoredNew(e) && OtherKeysStay(k, k', e)
    && |KeysAt(k', e)| >= ExpectedKeySize(e)
  }

  lemma SecondStored(k: Kanban, i: nat)
    requires GlobalsOk(k) && IndexFinished(k, 2) && Slot(2, i) in k.globals && 1 <= i <= INDEX_POOL_MAX
    ensures k.globals[Slot(2, i)] == IndexVal(2, i)
  {
    assert GlobalFrom(k, Slot(2, i), k.globals[Slot(2, i)]);
  }

  lemma SecondStoredAll(k: Kanban)
    requires GlobalsOk(k) && IndexFinished(k, 2) && SeedsThere(k, 2)
    ensures StoredAll(Spoiled(k, 2), 2)
  {
    forall i: nat {:trigger Slot(2, i)} | 1 <= i <= INDEX_POOL_MAX ensures k.globals[Slot(2, i)] == IndexVal(2, i) {
      SecondStored(k, i);
    }
  }

  lemma SecondMerges(k: Kanban)
    requires StoreInv(k) && k.epoch == 2 && Worked(k, 2)
    ensures Merges(k, Spoiled(k, 2), 2)
  {
    SecondStoredAll(k);
    EnoughInSecond(k);
    SecondSame(k);
  }

  lemma SecondSame(k: Kanban)
    ensures OtherKeysStay(k, Spoiled(k, 2), 2) && KeysAt(Spoiled(k, 2), 2) == KeysAt(k, 2)
    ensures Spoiled(k, 2).witnessed == k.witnessed + StoredNew(2)
  {
  }

  lemma StoredGlobals(k: Kanban, k': Kanban, e: nat, i: nat)
    requires Priors(k, e) && PassedTo(k, k', e, INDEX_POOL_MAX + 1) && 1 <= i <= INDEX_POOL_MAX
    ensures Slot(e, i) in k'.globals && k'.globals[Slot(e, i)] == Stored(e, i)
  {
    assert Given(k, e, i);
  }

  lemma AllStored(k: Kanban, k': Kanban, e: nat)
    requires Priors(k, e) && PassedTo(k, k', e, INDEX_POOL_MAX + 1)
    ensures StoredAll(k', e)
  {
    forall i: nat {:trigger Slot(e, i)} | 1 <= i <= INDEX_POOL_MAX
      ensures Slot(e, i) in k'.globals && k'.globals[Slot(e, i)] == Stored(e, i)
    {
      StoredGlobals(k, k', e, i);
    }
  }

  lemma LaterSame(k: Kanban, spoiled: Kanban, k': Kanban, e: nat, added: set<Data>)
    requires e >= 3 && spoiled == Spoiled(k, e) && AllInputs(spoiled, e) && PassedTo(spoiled, k', e, INDEX_POOL_MAX + 1)
    requires added == MergedBefore(spoiled, e, INDEX_POOL_MAX + 1)
    ensures k'.epoch == k.epoch && k'.index == spoiled.index && k'.root == k.root
    ensures k'.witnessed == k.witnessed + added && OtherKeysStay(k, k', e)
  {
    assert forall c :: KeysAt(spoiled, c) == KeysAt(k, c);
  }

  lemma LaterMerges(k: Kanban, spoiled: Kanban, k': Kanban, e: nat)
    requires e >= 3 && ItemKeys(e) + IndexKeys(e) <= KeysAt(k, e) && spoiled == Spoiled(k, e)
    requires Priors(spoiled, e) && PassedTo(spoiled, k', e, INDEX_POOL_MAX + 1)
    ensures Merges(k, k', e)
  {
    assert StoredAll(k', e) by {
      AllStored(spoiled, k', e);
    }
    assert |KeysAt(k', e)| >= ExpectedKeySize(e) by {
      EnoughKeys(spoiled, k', e);
    }
    MergedIsSpoilt(spoiled, e);
    LaterSame(k, spoiled, k', e, StoredNew(e));
  }

  lemma SpoiledInputs(k: Kanban, e: nat)
    requires StoreInv(k) && k.epoch == e >= 3 && Worked(k, e)
    ensures Priors(Spoiled(k, e), e) && AllInputs(Spoiled(k, e), e) && NoGlobals(Spoiled(k, e), e)
  {
    SpoiledPriors(k, e);
  }

  /** The outdated write, and what the reducers make of it. */
  lemma SpoilsAndMerges(f: Fine, e: nat, q: nat) returns (g: Fine)
    requires Outdated(f, e, q) && Worked(f.s.k, e)
    ensures FineComes(f, g) && Merges(f.s.k, g.s.k, e) && g.s.manager == Waiting
  {
    g := Spoils(f, e, q);
    if e == 2 {
      SecondMerges(f.s.k);
    } else {
      var a := g;
      SpoiledInputs(f.s.k, e);
      g := ReducesAll(a, e);
      FineComesTrans(f, a, g);
      LaterMerges(f.s.k, a.s.k, g.s.k, e);
    }
  }

  /** The witnesses, keys and root hashes when the epoch is closed. */
  ghost predicate ClosedKeys(k: Kanban, k': Kanban, e: nat)
    requires e >= 2
  {
    && k'.epoch == e + 1 && k'.witnessed == k.witnessed + StoredNew(e) && OtherKeysStay(k, k', e)
    && (forall c :: c != e && c in k.root ==> c in k'.root && k'.root[c] == k.root[c])
  }

  /** The store when the epoch is closed. */
  ghost predicate ClosedOver(k: Kanban, k': Kanban, e: nat)
    requires e >= 2
  {
    ClosedKeys(k, k', e) && k'.index == Spoiled(k, e).index && StoredAll(k', e)
  }

  lemma ClosesSpoiled(f: Fine, k: Kanban, e: nat) returns (g: Fine)
    requires e >= 2 && k.epoch == e && Merges(k, f.s.k, e) && f.s.manager == Waiting
    ensures FineComes(f, g) && ClosedOver(k, g.s.k, e)
  {
    g := CountsFinely(f);
  }

  lemma EpochIsSpoiled(e: nat) returns (events: seq<Event>, k: Kanban, k': Kanban)
    requires e >= 2
    ensures StoreInv(k) && k.epoch == e && Worked(k, e) && k' == FineRun(events).s.k && ClosedOver(k, k', e)
  {
    var before, f, q := WorksOutdated(e);
    var g := SpoilsAndMerges(f, e, q);
    var h := ClosesSpoiled(g, f.s.k, e);
    FineComesTrans(f, g, h);
    var more := RunFinely(before, h);
    events, k, k' := before + more, f.s.k, h.s.k;
  }

  // ----- the audit of the spoiled epoch -----

  lemma {:induction false} RankOfGlobal(e: nat, i: nat)
    requires e >= 2 && i >= 1
    ensures Rank(GlobalVal(e, i)) == 3 * e - 4
  {
    if e > 2 {
      RankOfGlobal(e - 1, i);
    }
  }

  /** What a witness of epochs up to `e`, without global indexes of `e`, lists as input is of lower
      rank than the global indexes of `e`. */
  lemma InputsRankLow(k: Kanban, e: nat, c: nat, d: Data, x: Data)
    requires StoreInv(k) && k.epoch == e >= 3 && NoGlobals(k, e) && Recorded(k, c, d) && x in Inputs(d)
    ensures Rank(x) < 3 * e - 4
  {
    if InIndex(k, c, d) {
      var i: nat :| Slot(c, i) in k.index && k.index[Slot(c, i)] == d;
      assert IndexedFrom(d, c, i);
      var b: nat :| 1 <= b <= i && d == IndexVal(c, b);
      var j :| 0 <= j < |d.posts| && d.posts[j] == x;
      assert x == ItemsVal(c - 1, FirstItem(b) + j);
    } else if InGlobals(k, c, d) {
      GlobalInputs(k, e, c, d, x);
    } else {
      assert d.Posts?;
      var j :| 0 <= j < |d.blocks| && d.blocks[j] == x;
    }
  }

  lemma GlobalInputs(k: Kanban, e: nat, c: nat, d: Data, x: Data)
    requires StoreInv(k) && k.epoch == e >= 3 && NoGlobals(k, e) && InGlobals(k, c, d) && x in Inputs(d)
    ensures Rank(x) < 3 * e - 4
  {
    var i: nat :| Slot(c, i) in k.globals && k.globals[Slot(c, i)] == d;
    assert GlobalFrom(k, Slot(c, i), k.globals[Slot(c, i)]);
    var prior, newer := Slot(c - 1, i), k.index[Slot(c, i)];
    assert IndexedFrom(newer, c, i);
    assert x == k.globals[prior] || x == newer;
    assert GlobalFrom(k, prior, k.globals[prior]);
    Queriers.StoredIsGlobal(k, c - 1, i);
    RankOfGlobal(c - 1, i);
  }

  lemma SpoiltRank(e: nat, i: nat)
    requires e >= 3 && i >= 1
    ensures Rank(Spoilt(e, i)) == 3 * e - 4
  {
    RankOfGlobal(e - 1, i);
  }

  /** New witnesses that no old witness lists add nothing below old data. */
  lemma {:induction false} PathIsOld(k: Kanban, k': Kanban, p: seq<Data>, n: nat)
    requires Auditor.IsPath(DataReader(), Graph(k'), p) && n < |p| && p[0] !in k'.witnessed - k.witnessed
    requires forall d, x :: d in k.witnessed && x in Inputs(d) ==> x !in k'.witnessed - k.witnessed
    ensures p[n] !in k'.witnessed - k.witnessed
  {
    if n > 0 {
      PathIsOld(k, k', p, n - 1);
      assert p[n - 1] in Graph(k') && p[n] in DataReader().ins(Graph(k')[p[n - 1]]);
    }
  }

  lemma BelowOld(k: Kanban, k': Kanban, d: Data, x: Data)
    requires k.witnessed <= k'.witnessed && d !in k'.witnessed - k.witnessed && LeafBelow(k', d, x)
    requires forall d, x :: d in k.witnessed && x in Inputs(d) ==> x !in k'.witnessed - k.witnessed
    ensures LeafBelow(k, d, x)
  {
    var p :| Auditor.Connects(DataReader(), Graph(k'), p, d, x);
    forall i | 0 <= i < |p| - 1 ensures p[i] in Graph(k) && p[i + 1] in DataReader().ins(Graph(k)[p[i]]) {
      PathIsOld(k, k', p, i);
    }
    assert Auditor.Connects(DataReader(), Graph(k), p, d, x);
  }

  /** The new global indexes are inputs of no older witness. */
  lemma NewIsNoInput(k: Kanban, k': Kanban, e: nat, d: Data, x: Data)
    requires StoreInv(k) && k.epoch == e >= 2 && NoGlobals(k, e) && k'.witnessed == k.witnessed + StoredNew(e)
    requires d in k.witnessed && x in Inputs(d)
    ensures x !in k'.witnessed - k.witnessed
  {
    if e >= 3 && x in SpoiltMap(e).Values {
      var c: nat :| Recorded(k, c, d);
      InputsRankLow(k, e, c, d, x);
      var i :| i in SpoiltMap(e) && SpoiltMap(e)[i] == x;
      SpoiltRank(e, i);
      assert false;
    }
  }

  lemma StoreGrows(k: Kanban, k': Kanban, e: nat)
    requires StoreInv(k) && k.epoch == e >= 2 && NoGlobals(k, e) && k'.witnessed == k.witnessed + StoredNew(e)
    ensures forall d, x :: d in k.witnessed && x in Inputs(d) ==> x !in k'.witnessed - k.witnessed
  {
    forall d, x | d in k.witnessed && x in Inputs(d) ensures x !in k'.witnessed - k.witnessed {
      NewIsNoInput(k, k', e, d, x);
    }
  }

  /** A block of the second batch of the epoch before. */
  ghost function Lost(e: nat): Data
    requires e >= 2
  {
    Block(BlockIdAt(e - 1) + ITEMS_BULK_MAX * INDEX_BULK_MAX + 1)
  }

  lemma LostNotBelowIndex(k: Kanban, e: nat, b: nat)
    requires StoreInv(k) && 2 <= e <= k.epoch && 1 <= b <= INDEX_POOL_MAX && b != 2 && IndexVal(e, b) in k.witnessed
    ensures !LeafBelow(k, IndexVal(e, b), Lost(e))
  {
    LeafOfIndex(k, e, b, Lost(e));
    assert InShard(Lost(e).id, e - 1, 2);
  }

  lemma LostNotBelowGlobal(k: Kanban, e: nat, i: nat)
    requires StoreInv(k) && k.epoch == e >= 3 && 1 <= i <= INDEX_POOL_MAX
    ensures !LeafBelow(k, GlobalVal(e - 1, i), Lost(e))
  {
    LeafOfGlobal(k, e - 1, i, Lost(e));
    assert InShard(Lost(e).id, e - 1, 2);
  }

  /** The witnesses that matter for the lost block. */
  ghost predicate Grown(k: Kanban, k': Kanban, e: nat)
  {
    && StoreInv(k) && k.epoch == e >= 2 && NoGlobals(k, e) && IndexKeys(e) <= KeysAt(k, e)
    && k'.witnessed == k.witnessed + StoredNew(e)
  }

  lemma OldNotBelow(k: Kanban, k': Kanban, e: nat, d: Data)
    requires Grown(k, k', e) && d !in StoredNew(e) && !LeafBelow(k, d, Lost(e))
    ensures !LeafBelow(k', d, Lost(e))
  {
    StoreGrows(k, k', e);
    if LeafBelow(k', d, Lost(e)) {
      BelowOld(k, k', d, Lost(e));
    }
  }

  lemma IndexNotBelow(k: Kanban, k': Kanban, e: nat, b: nat)
    requires Grown(k, k', e) && 1 <= b <= INDEX_POOL_MAX && b != 2
    ensures !LeafBelow(k', IndexVal(e, b), Lost(e))
  {
    IndexIsFiled(k, e, b);
    LostNotBelowIndex(k, e, b);
    OldNotBelow(k, k', e, IndexVal(e, b));
  }

  lemma GlobalIsOld(e: nat, i: nat)
    requires e >= 3 && i >= 1
    ensures GlobalVal(e - 1, i) !in StoredNew(e)
  {
    RankOfGlobal(e - 1, i);
    forall j | j in SpoiltMap(e) ensures SpoiltMap(e)[j] != GlobalVal(e - 1, i) {
      SpoiltRank(e, j);
    }
  }

  lemma GlobalNotBelow(k: Kanban, k': Kanban, e: nat, i: nat)
    requires Grown(k, k', e) && e >= 3 && 1 <= i <= INDEX_POOL_MAX
    ensures !LeafBelow(k', GlobalVal(e - 1, i), Lost(e))
  {
    LostNotBelowGlobal(k, e, i);
    GlobalIsOld(e, i);
    OldNotBelow(k, k', e, GlobalVal(e - 1, i));
  }

  lemma SpoiltIsNew(e: nat, i: nat)
    requires e >= 3 && 1 <= i <= INDEX_POOL_MAX
    ensures Spoilt(e, i) in StoredNew(e)
  {
    assert i in SpoiltMap(e) && SpoiltMap(e)[i] == Spoilt(e, i);
  }

  lemma InputsNotBelow(k: Kanban, k': Kanban, e: nat, i: nat, prior: Data, newer: Data)
    requires Grown(k, k', e) && e >= 3 && 1 <= i <= INDEX_POOL_MAX
    requires prior == GlobalVal(e - 1, i) && newer == IndexVal(e, if i == 2 then 1 else i)
    ensures !LeafBelow(k', prior, Lost(e)) && !LeafBelow(k', newer, Lost(e))
  {
    IndexNotBelow(k, k', e, if i == 2 then 1 else i);
    GlobalNotBelow(k, k', e, i);
  }

  lemma SpoiltNotBelow(k: Kanban, k': Kanban, e: nat, i: nat)
    requires Grown(k, k', e) && e >= 3 && 1 <= i <= INDEX_POOL_MAX
    ensures !LeafBelow(k', Spoilt(e, i), Lost(e))
  {
    var d := Spoilt(e, i);
    InputsNotBelow(k, k', e, i, d.prior, d.newer);
    SpoiltIsNew(e, i);
    MergedNotBelow(k', d.prior, d.newer, Lost(e));
  }

  lemma MergedNotBelow(k: Kanban, prior: Data, newer: Data, x: Data)
    requires Merged(prior, newer) in k.witnessed && !LeafBelow(k, prior, x) && !LeafBelow(k, newer, x)
    ensures !LeafBelow(k, Merged(prior, newer), x)
  {
    LeafUnfold(k, Merged(prior, newer), x);
  }

  /** The lost block is below none of the stored global indexes. */
  lemma StoredNotBelow(k: Kanban, k': Kanban, e: nat, i: nat)
    requires Grown(k, k', e) && 1 <= i <= INDEX_POOL_MAX
    ensures !LeafBelow(k', Stored(e, i), Lost(e))
  {
    var b := if i == 2 then 1 else i;
    if e == 2 {
      IndexNotBelow(k, k', e, b);
    } else {
      SpoiltNotBelow(k, k', e, i);
    }
  }

  /** The witness of `d` is filed among the keys of epoch `c`, which has its root hash. */
  ghost predicate Filed(k: Kanban, c: nat, d: Data)
  {
    d in k.witnessed && d in KeysAt(k, c) && c in k.root && k.root[c] == KeysAt(k, c)
  }

  lemma ItemsAreFiled(k: Kanban, c: nat, d: Data)
    requires StoreInv(k) && 1 <= c < k.epoch && d == ItemsVal(c, 5)
    ensures Filed(k, c, d)
  {
    ItemsWitnessed(k, c, 5);
    assert Finished(k, c) && RootedOk(k, c);
  }

  lemma ItemIsExpected(k: Kanban, c: nat, d: Data, x: Data)
    requires 1 <= c <= k.epoch - 2 && Filed(k, c, d) && d.Posts? && x in d.blocks
    ensures Auditor.IsItem(DataReader(), View(k), x)
  {
    GenuineGraph(k);
    assert Auditor.ItemVia(DataReader(), View(k), c, d, x);
  }

  lemma StillFiled(k: Kanban, k': Kanban, e: nat, c: nat, d: Data)
    requires e >= 2 && ClosedKeys(k, k', e) && c != e && Filed(k, c, d)
    ensures Filed(k', c, d)
  {
  }

  lemma StillExpected(k: Kanban, k': Kanban, e: nat, c: nat, d: Data, x: Data)
    requires e >= 2 && ClosedKeys(k, k', e) && c == e - 1 && Filed(k, c, d) && d.Posts? && x in d.blocks
    ensures Auditor.IsItem(DataReader(), View(k'), x)
  {
    StillFiled(k, k', e, c, d);
    ItemIsExpected(k', c, d, x);
  }

  lemma LostBlock(e: nat) returns (d: Data)
    requires e >= 2
    ensures d == ItemsVal(e - 1, 5) && d.Posts? && Lost(e) in d.blocks
  {
    d := ItemsVal(e - 1, 5);
    assert d.blocks[0] == Lost(e);
  }

  lemma LostIsFiled(k: Kanban, e: nat) returns (d: Data)
    requires StoreInv(k) && k.epoch == e >= 2
    ensures Filed(k, e - 1, d) && d.Posts? && Lost(e) in d.blocks
  {
    d := LostBlock(e);
    ItemsAreFiled(k, e - 1, d);
  }

  /** The hashes that the queriers of all shards serve. */
  ghost function ServedNow(k: Kanban, e: nat): seq<Data>
    requires forall i: nat {:trigger Slot(e, i)} :: 1 <= i <= INDEX_POOL_MAX ==> Slot(e, i) in k.globals
  {
    seq(INDEX_POOL_MAX, j requires 0 <= j < INDEX_POOL_MAX => k.globals[Slot(e, j + 1)])
  }

  lemma ServedNotBelow(k: Kanban, k': Kanban, e: nat, d: Data)
    requires Grown(k, k', e) && StoredAll(k', e) && d in ServedNow(k', e)
    ensures !LeafBelow(k', d, Lost(e))
  {
    var j :| 0 <= j < INDEX_POOL_MAX && ServedNow(k', e)[j] == d;
    var i: nat := j + 1;
    assert Slot(e, i) in k'.globals && d == Stored(e, i);
    StoredNotBelow(k, k', e, i);
  }

  lemma NotLeaf(k: Kanban, served: seq<Data>, x: Data)
    requires forall d :: d in served ==> !LeafBelow(k, d, x)
    ensures !Auditor.IsLeaf(DataReader(), Graph(k), served, x)
  {
  }

  lemma LostIsMissed(k: Kanban, k': Kanban, e: nat)
    requires Grown(k, k', e) && StoredAll(k', e)
    ensures !Auditor.IsLeaf(DataReader(), Graph(k'), ServedNow(k', e), Lost(e))
  {
    forall d | d in ServedNow(k', e) ensures !LeafBelow(k', d, Lost(e)) {
      ServedNotBelow(k, k', e, d);
    }
    NotLeaf(k', ServedNow(k', e), Lost(e));
  }

  lemma LostIsItem(k: Kanban, k': Kanban, e: nat)
    requires StoreInv(k) && k.epoch == e >= 2 && ClosedKeys(k, k', e)
    ensures Auditor.IsItem(DataReader(), View(k'), Lost(e))
  {
    var d := LostIsFiled(k, e);
    StillExpected(k, k', e, e - 1, d, Lost(e));
  }

  lemma LostFailsAudit(k: Kanban, e: nat)
    requires e >= 2 && StoredAll(k, e) && Auditor.IsItem(DataReader(), View(k), Lost(e))
    requires !Auditor.IsLeaf(DataReader(), Graph(k), ServedNow(k, e), Lost(e))
    ensures !Auditor.Complete(DataReader(), View(k), ServedNow(k, e))
  {
    GenuineGraph(k);
  }

  lemma SpoiledAuditFails(k: Kanban, k': Kanban, e: nat)
    requires Grown(k, k', e) && ClosedKeys(k, k', e) && StoredAll(k', e)
    ensures !Auditor.Complete(DataReader(), View(k'), ServedNow(k', e))
  {
    LostIsItem(k, k', e);
    LostIsMissed(k, k', e);
    LostFailsAudit(k', e);
  }

  /** In every epoch from the second on, some run overwrites the second shard with the first
      batch, and the manager closes the epoch all the same: the key set has all the keys it
      waits for.  What `ClosedEpochs` promises fails, and at the next epoch the audit of all
      shards fails. */
  lemma SpoiledEpochCloses(e: nat) returns (events: seq<Event>, k: Kanban)
    requires e >= 2
    ensures k == FineRun(events).s.k && k.epoch == e + 1 && !IndexFinished(k, e)
    ensures Slot(e, 2) in k.index && k.index[Slot(e, 2)] == IndexVal(e, 1)
    ensures forall i: nat {:trigger Slot(e, i)} :: 1 <= i <= INDEX_POOL_MAX ==> Slot(e, i) in k.globals
    ensures !Auditor.Complete(DataReader(), View(k), ServedNow(k, e))
  {
    var before;
    events, before, k := EpochIsSpoiled(e);
    SpoiledAuditFails(before, k, e);
    if IndexVal(e, 1) == IndexVal(e, 2) {
      IndexValDistinct(e, 1, e, 2);
    }
  }
}
