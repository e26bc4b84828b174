/**
 Progress of the pipeline.  In every state of every run, whatever the processes have done so
 far and wherever they have stopped, the open epoch can still be closed exactly if no shard
 written in it has the wrong batch.  So every epoch is reached, some runs get stuck in any
 epoch from the second on, and some reducer finds the last global index of epoch 2 missing.
 */
module Progress {
  import opened Common
  import opened Pipeline
  import opened PipelineSafety
  import opened Duties

  // ----- sequences of events from any state -----

  function StepAll(s: State, events: seq<Event>): State
  {
    if events == [] then s else Step(StepAll(s, events[..|events| - 1]), events[|events| - 1])
  }

  lemma {:induction false} StepAllAppend(s: State, a: seq<Event>, b: seq<Event>)
    ensures StepAll(s, a + b) == StepAll(StepAll(s, a), b)
    decreases |b|
  {
    if b == [] {
      assert a + b == a;
    } else {
      var front, last := b[..|b| - 1], b[|b| - 1];
      StepAllAppend(s, a, front);
      assert (a + b)[..|a + b| - 1] == a + front && (a + b)[|a + b| - 1] == last;
    }
  }

  lemma {:induction false} RunIsStepAll(events: seq<Event>)
    ensures Run(events) == StepAll(Initial, events)
  {
    if events != [] {
      RunIsStepAll(events[..|events| - 1]);
    }
  }

  ghost predicate Comes(s: State, t: State)
  {
    exists events :: StepAll(s, events) == t
  }

  /** No indexer is advanced at a shard that it would skip. */
  ghost predicate Polite(s: State, ev: Event)
  {
    ev.Advance? && ev.p in s.procs && AtTest(s.procs[ev.p]) ==> Writes(s.k, s.procs[ev.p])
  }

  ghost predicate PoliteAll(s: State, events: seq<Event>)
  {
    events != [] ==>
      && PoliteAll(s, events[..|events| - 1])
      && Polite(StepAll(s, events[..|events| - 1]), events[|events| - 1])
  }

  lemma {:induction false} PoliteAllAppend(s: State, a: seq<Event>, b: seq<Event>)
    requires PoliteAll(s, a) && PoliteAll(StepAll(s, a), b)
    ensures PoliteAll(s, a + b)
    decreases |b|
  {
    if b == [] {
      assert a + b == a;
    } else {
      var front, last := b[..|b| - 1], b[|b| - 1];
      PoliteAllAppend(s, a, front);
      StepAllAppend(s, a, front);
      assert (a + b)[..|a + b| - 1] == a + front && (a + b)[|a + b| - 1] == last;
    }
  }

  /** The events lead from `s` to `t`, politely. */
  ghost predicate Leading(s: State, events: seq<Event>, t: State)
  {
    StepAll(s, events) == t && PoliteAll(s, events)
  }

  ghost predicate Reaches(s: State, t: State)
  {
    exists events :: Leading(s, events, t)
  }

  lemma ReachesSelf(s: State)
    ensures Reaches(s, s)
  {
    assert Leading(s, [], s);
  }

  lemma ReachesStep(s: State, ev: Event)
    requires Polite(s, ev)
    ensures Reaches(s, Step(s, ev))
  {
    assert [ev][..0] == [] && StepAll(s, []) == s;
    assert Leading(s, [ev], Step(s, ev));
  }

  lemma ReachesTrans(a: State, b: State, c: State)
    requires Reaches(a, b) && Reaches(b, c)
    ensures Reaches(a, c)
  {
    var x :| Leading(a, x, b);
    var y :| Leading(b, y, c);
    StepAllAppend(a, x, y);
    PoliteAllAppend(a, x, y);
    assert Leading(a, x + y, c);
  }

  lemma ReachesComes(s: State, t: State)
    requires Reaches(s, t)
    ensures Comes(s, t)
  {
    var events :| Leading(s, events, t);
    assert StepAll(s, events) == t;
  }

  lemma ComesStep(s: State, t: State, ev: Event)
    requires Comes(s, t)
    ensures Comes(s, Step(t, ev))
  {
    var x :| StepAll(s, x) == t;
    assert (x + [ev])[..|x|] == x;
    assert StepAll(s, x + [ev]) == Step(t, ev);
  }

  lemma RunComes(events: seq<Event>, t: State) returns (more: seq<Event>)
    requires Comes(Run(events), t)
    ensures Run(events + more) == t
  {
    more :| StepAll(Run(events), more) == t;
    RunIsStepAll(events);
    RunIsStepAll(events + more);
    StepAllAppend(Initial, events, more);
  }

  lemma RunReaches(events: seq<Event>, t: State) returns (more: seq<Event>)
    requires Reaches(Run(events), t)
    ensures Run(events + more) == t
  {
    ReachesComes(Run(events), t);
    more := RunComes(events, t);
  }

  // ----- steps that keep the epoch open and its batches right -----

  ghost predicate Open(s: State)
  {
    Deep(s) && s.manager == Waiting && s.k.epoch >= 1 && OwnBatches(s.k, s.k.epoch)
  }

  ghost predicate Onward(s: State, t: State)
  {
    Reaches(s, t) && Open(t) && Extends(s.k, t.k) && t.k.epoch == s.k.epoch
  }

  lemma OnwardSelf(s: State)
    requires Open(s)
    ensures Onward(s, s)
  {
    ReachesSelf(s);
  }

  lemma OnwardTrans(a: State, b: State, c: State)
    requires Onward(a, b) && Onward(b, c)
    ensures Onward(a, c)
  {
    ReachesTrans(a, b, c);
    ExtendsTransitive(a.k, b.k, c.k);
  }

  lemma OnwardStep(s: State, ev: Event, t: State)
    requires Open(s) && t == Step(s, ev) && t.manager == Waiting
    requires Polite(s, ev) && t.k.epoch == s.k.epoch && OwnBatches(t.k, t.k.epoch)
    ensures Onward(s, t)
  {
    ReachesStep(s, ev);
    StepKeepsDeep(s, ev);
  }

  lemma KeepsOwn(k: Kanban, p: Proc)
    requires StoreInv(k) && ProcInv(k, p) && Move(k, p).Moved? && OwnBatches(k, k.epoch)
    requires AtTest(p) ==> p.skipped == 0
    ensures OwnBatches(Move(k, p).k, k.epoch)
  {
    IndexMoves(k, p);
    if Move(k, p).k.index != k.index {
      IndexerBuilds(k, p);
    }
  }

  /** A step of a process that will not write a wrong batch. */
  lemma Go(s: State, p: nat)
    requires Open(s) && p in s.procs
    requires AtTest(s.procs[p]) ==> s.procs[p].skipped == 0 && Writes(s.k, s.procs[p])
    ensures Onward(s, AdvanceProc(s, p))
  {
    var proc := s.procs[p];
    assert ProcInv(s.k, proc);
    if Move(s.k, proc).Moved? {
      MoveKeeps(s.k, proc);
      KeepsOwn(s.k, proc);
      OnwardStep(s, Advance(p), AdvanceProc(s, p));
    } else {
      OnwardSelf(s);
    }
  }

  /** The same, with what the step does. */
  lemma Goes(s: State, p: nat, proc: Proc, k: Kanban, next: Option<Proc>) returns (t: State)
    requires Open(s) && p in s.procs && s.procs[p] == proc && Runnable(proc) && Move(s.k, proc) == Moved(k, next)
    requires AtTest(proc) ==> proc.skipped == 0 && Writes(s.k, proc)
    ensures Onward(s, t) && t.k == k && (next.Some? ==> p in t.procs && t.procs[p] == next.value)
    ensures forall q :: q in s.procs && q != p ==> q in t.procs && t.procs[q] == s.procs[q]
  {
    Go(s, p);
    t := AdvanceProc(s, p);
  }

  lemma {:induction false} Above(ids: set<nat>) returns (b: nat)
    ensures forall p :: p in ids ==> p < b
  {
    if ids == {} {
      b := 0;
    } else {
      var p :| p in ids;
      var rest := Above(ids - {p});
      b := if rest <= p then p + 1 else rest;
      assert ids == (ids - {p}) + {p};
    }
  }

  lemma Start(s: State, ev: Event, p: nat, proc: Proc)
    requires Open(s) && !ev.Advance? && p !in s.procs && Step(s, ev) == Spawn(s, p, proc)
    ensures Onward(s, Spawn(s, p, proc))
  {
    OnwardStep(s, ev, Spawn(s, p, proc));
  }

  // ----- doing what is owed -----

  /** No global index is added but in epoch 2, and none for other duties than copies. */
  ghost predicate OnlySeeds(k: Kanban, k': Kanban, seeds: bool)
  {
    && k'.items == k.items && k'.index == k.index && (!seeds ==> k'.globals == k.globals)
    && forall x :: x in k'.globals ==> x in k.globals || x.e == 2
  }

  lemma OwnerPays(k: Kanban, p: Proc, d: Duty)
    requires StoreInv(k) && ProcInv(k, p) && Owes(p, d) && Due(k, d)
    ensures var m := Move(k, p);
      && m.Moved? && OnlySeeds(k, m.k, d.Seed?)
      && (Done(m.k, d) || (d.Seed? && m.next.Some? && Owes(m.next.value, d) && m.next.value.iphase.ICopy?))
      && (d.Seed? && p.iphase.ICopy? ==> Done(m.k, d))
  {
    if d.ItemKey? {
      assert k.items[Slot(p.e, p.i)] == ItemsVal(p.e, p.i);
    } else if d.GlobalKey? {
      assert GlobalFrom(k, Slot(p.e, p.i), k.globals[Slot(p.e, p.i)]);
    }
  }

  /** One step of the process that owes it. */
  lemma OwnerGoes(s: State, p: nat, d: Duty) returns (t: State)
    requires Open(s) && p in s.procs && Owes(s.procs[p], d) && Due(s.k, d)
    ensures Onward(s, t)
    ensures (Done(t.k, d) || (d.Seed? && p in t.procs && Owes(t.procs[p], d) && t.procs[p].iphase.ICopy?))
    ensures d.Seed? && s.procs[p].iphase.ICopy? ==> Done(t.k, d)
    ensures OnlySeeds(s.k, t.k, d.Seed?)
  {
    var proc := s.procs[p];
    assert ProcInv(s.k, proc);
    OwnerPays(s.k, proc, d);
    t := Goes(s, p, proc, Move(s.k, proc).k, Move(s.k, proc).next);
  }

  /** A duty costs no more than two steps, and no other data. */
  lemma Pay(s: State, d: Duty) returns (t: State)
    requires Open(s) && Due(s.k, d)
    ensures Onward(s, t) && Done(t.k, d) && OnlySeeds(s.k, t.k, d.Seed?)
  {
    if Done(s.k, d) {
      t := s;
      OnwardSelf(s);
    } else {
      assert Owed(s, d);
      var p :| p in s.procs && Owes(s.procs[p], d);
      t := OwnerGoes(s, p, d);
      if !Done(t.k, d) {
        var a := t;
        StillDue(s.k, a.k, d);
        t := OwnerGoes(a, p, d);
        OnwardTrans(s, a, t);
      }
    }
  }

  ghost predicate AllDue(k: Kanban, ds: seq<Duty>)
  {
    forall d :: d in ds ==> Due(k, d)
  }

  ghost predicate AllDone(k: Kanban, ds: seq<Duty>)
  {
    forall d :: d in ds ==> Done(k, d)
  }

  ghost predicate NoSeed(ds: seq<Duty>)
  {
    forall d :: d in ds ==> !d.Seed?
  }

  lemma {:induction false} PayAll(s: State, ds: seq<Duty>) returns (t: State)
    requires Open(s) && AllDue(s.k, ds)
    ensures Onward(s, t) && AllDone(t.k, ds) && OnlySeeds(s.k, t.k, !NoSeed(ds))
  {
    if ds == [] {
      t := s;
      OnwardSelf(s);
    } else {
      var front, last := ds[..|ds| - 1], ds[|ds| - 1];
      var a := PayAll(s, front);
      assert last in ds && Due(s.k, last);
      StillDue(s.k, a.k, last);
      t := Pay(a, last);
      OnwardTrans(s, a, t);
      forall d | d in ds ensures Done(t.k, d) {
        if d in front {
          DoneStays(a.k, t.k, d);
        }
      }
    }
  }

  lemma StillDue(k: Kanban, k': Kanban, d: Duty)
    requires Extends(k, k') && Due(k, d)
    ensures Due(k', d)
  {
  }

  // ----- a crawler's pass, over whatever is there -----

  ghost function NextCrawl(e: nat, b: nat, i: nat): Option<Proc>
  {
    if i < ITEMS_POOL_MAX then Some(Crawler(e, b, i + 1, CCheck)) else None
  }

  lemma CrawlMoves(k: Kanban, e: nat, b: nat, i: nat)
    requires e >= 1 && i >= 1
    ensures var k1 := k.(items := k.items[Slot(e, i) := Crawl(b, i)]);
      && Move(k, Crawler(e, b, i, CCheck))
         == Moved(k, if Slot(e, i) in k.items then NextCrawl(e, b, i) else Some(Crawler(e, b, i, CPut)))
      && Move(k, Crawler(e, b, i, CPut)) == Moved(k1, Some(Crawler(e, b, i, CAppend)))
      && Move(k1, Crawler(e, b, i, CAppend)) == Moved(AppendWitness(k1, e, Crawl(b, i)), NextCrawl(e, b, i))
  {
  }

  lemma NextItem(s: State, p: nat, i: nat) returns (t: State)
    requires Open(s) && 1 <= i <= ITEMS_POOL_MAX
    requires p in s.procs && s.procs[p] == Crawler(s.k.epoch, BlockIdAt(s.k.epoch), i, CCheck)
    ensures Onward(s, t) && Slot(s.k.epoch, i) in t.k.items
    ensures t.k.index == s.k.index && t.k.globals == s.k.globals
    ensures i < ITEMS_POOL_MAX ==>
      p in t.procs && t.procs[p] == Crawler(s.k.epoch, BlockIdAt(s.k.epoch), i + 1, CCheck)
  {
    var e, b := s.k.epoch, BlockIdAt(s.k.epoch);
    CrawlMoves(s.k, e, b, i);
    if Slot(e, i) in s.k.items {
      t := Goes(s, p, Crawler(e, b, i, CCheck), s.k, NextCrawl(e, b, i));
    } else {
      var k1 := s.k.(items := s.k.items[Slot(e, i) := Crawl(b, i)]);
      var x := Goes(s, p, Crawler(e, b, i, CCheck), s.k, Some(Crawler(e, b, i, CPut)));
      var y := Goes(x, p, Crawler(e, b, i, CPut), k1, Some(Crawler(e, b, i, CAppend)));
      OnwardTrans(s, x, y);
      t := Goes(y, p, Crawler(e, b, i, CAppend), AppendWitness(k1, e, Crawl(b, i)), NextCrawl(e, b, i));
      OnwardTrans(s, y, t);
    }
  }

  ghost predicate ItemsFrom(k: Kanban, e: nat, i: nat)
  {
    forall j: nat :: i <= j <= ITEMS_POOL_MAX ==> Slot(e, j) in k.items
  }

  lemma ItemsFirst(k: Kanban, k': Kanban, e: nat, i: nat)
    requires Extends(k, k') && Slot(e, i) in k.items && ItemsFrom(k', e, i + 1)
    ensures ItemsFrom(k', e, i)
  {
  }

  lemma {:induction false} FillItems(s: State, p: nat, i: nat) returns (t: State)
    requires Open(s) && 1 <= i <= ITEMS_POOL_MAX
    requires p in s.procs && s.procs[p] == Crawler(s.k.epoch, BlockIdAt(s.k.epoch), i, CCheck)
    ensures Onward(s, t) && t.k.index == s.k.index && t.k.globals == s.k.globals && ItemsFrom(t.k, s.k.epoch, i)
    decreases ITEMS_POOL_MAX - i
  {
    t := NextItem(s, p, i);
    if i < ITEMS_POOL_MAX {
      var a := t;
      t := FillItems(a, p, i + 1);
      OnwardTrans(s, a, t);
      ItemsFirst(a.k, t.k, s.k.epoch, i);
    }
  }

  lemma ItemsDue(k: Kanban, e: nat)
    requires ItemsFrom(k, e, 1)
    ensures AllDue(k, ItemDuties(e))
  {
  }

  ghost function ItemDuties(e: nat): seq<Duty>
  {
    seq(ITEMS_POOL_MAX, j requires 0 <= j < ITEMS_POOL_MAX => ItemKey(e, j + 1))
  }

  lemma ItemsPaid(k: Kanban, e: nat)
    requires StoreInv(k) && e >= 1 && AllDone(k, ItemDuties(e))
    ensures ItemKeys(e) <= KeysAt(k, e)
  {
    forall d | d in ItemKeys(e) ensures d in KeysAt(k, e) {
      var i: nat :| 1 <= i <= ITEMS_POOL_MAX && d == ItemsVal(e, i);
      assert ItemDuties(e)[i - 1] == ItemKey(e, i);
      assert Done(k, ItemKey(e, i));
    }
  }

  /** All items of the open epoch and their keys can be supplied. */
  lemma Crawls(s: State) returns (t: State)
    requires Open(s)
    ensures Onward(s, t) && ItemKeys(s.k.epoch) <= KeysAt(t.k, s.k.epoch)
    ensures t.k.index == s.k.index && t.k.globals == s.k.globals
  {
    var e := s.k.epoch;
    var p := Above(s.procs.Keys);
    var proc := Crawler(e, s.k.blockId, 1, CCheck);
    Start(s, StartCrawler(p), p, proc);
    var a := Spawn(s, p, proc);
    var b := FillItems(a, p, 1);
    OnwardTrans(s, a, b);
    ItemsDue(b.k, e);
    t := PayAll(b, ItemDuties(e));
    OnwardTrans(s, b, t);
    ItemsPaid(t.k, e);
  }

  // ----- an indexer's pass: the leader goes on -----

  lemma PrefixUnique(k: Kanban, e: nat, m: nat, n: nat)
    requires Prefix(k, e, m) && Prefix(k, e, n)
    ensures m == n
  {
    assert Slot(e, m) in k.index <==> 1 <= m;
    assert Slot(e, n) in k.index <==> 1 <= n;
  }

  /** No global index is added but in epoch 2, and not that of the last shard. */
  ghost predicate NoLast(k: Kanban, k': Kanban)
  {
    forall x :: x in k'.globals ==> x in k.globals || (x.e == k.epoch == 2 && x.i < INDEX_POOL_MAX)
  }

  ghost function Ready(e: nat, m: nat): Proc
  {
    Indexer(e, m + 1, FirstItem(m + 1), 0, ICheckPut)
  }

  lemma FileMoves(k: Kanban, e: nat, m: nat, d: Data)
    requires e >= 2 && 1 <= m < INDEX_POOL_MAX
    ensures var copy := Indexer(e, m, FirstItem(m), 0, ICopy(d));
      && Move(k, Indexer(e, m, FirstItem(m), 0, IAppend(d)))
         == Moved(AppendWitness(k, e, d), Some(if e == 2 then copy else Ready(e, m)))
      && Move(k, copy) == Moved(k.(globals := k.globals[Slot(e, m) := d]), Some(Ready(e, m)))
  {
    assert FirstItem(m) + INDEX_BULK_MAX == FirstItem(m + 1);
  }

  lemma LeaderIs(k: Kanban, p: Proc, e: nat, m: nat)
    requires ProcInv(k, p) && Leader(p, e, m)
    ensures p.iphase.ICheckPut? ==> p == Ready(e, m)
    ensures !p.iphase.ICheckPut? ==> m >= 1 && p == Indexer(e, m, FirstItem(m), 0, p.iphase)
  {
  }

  lemma Copies(s: State, p: nat, e: nat, m: nat, d: Data) returns (t: State)
    requires Open(s) && e == s.k.epoch == 2 && 1 <= m < INDEX_POOL_MAX
    requires p in s.procs && s.procs[p] == Indexer(e, m, FirstItem(m), 0, ICopy(d))
    ensures Onward(s, t) && NoLast(s.k, t.k) && t.k.index == s.k.index && p in t.procs && t.procs[p] == Ready(e, m)
  {
    FileMoves(s.k, e, m, d);
    var k1 := s.k.(globals := s.k.globals[Slot(e, m) := d]);
    t := Goes(s, p, Indexer(e, m, FirstItem(m), 0, ICopy(d)), k1, Some(Ready(e, m)));
  }

  lemma Files(s: State, p: nat, e: nat, m: nat, d: Data) returns (t: State)
    requires Open(s) && e == s.k.epoch >= 2 && 1 <= m < INDEX_POOL_MAX
    requires p in s.procs && s.procs[p] == Indexer(e, m, FirstItem(m), 0, IAppend(d))
    ensures Onward(s, t) && NoLast(s.k, t.k) && t.k.index == s.k.index && p in t.procs && t.procs[p] == Ready(e, m)
  {
    FileMoves(s.k, e, m, d);
    var filing := Indexer(e, m, FirstItem(m), 0, IAppend(d));
    if e == 2 {
      var a := Goes(s, p, filing, AppendWitness(s.k, e, d), Some(Indexer(e, m, FirstItem(m), 0, ICopy(d))));
      t := Copies(a, p, e, m, d);
      OnwardTrans(s, a, t);
    } else {
      t := Goes(s, p, filing, AppendWitness(s.k, e, d), Some(Ready(e, m)));
    }
  }

  /** The leader files what it has written and stands before the next shard. */
  lemma Stand(s: State, p: nat, m: nat) returns (t: State)
    requires Open(s) && p in s.procs && Leader(s.procs[p], s.k.epoch, m) && s.k.epoch >= 2 && m < INDEX_POOL_MAX
    ensures Onward(s, t) && NoLast(s.k, t.k) && t.k.index == s.k.index
    ensures p in t.procs && t.procs[p] == Ready(s.k.epoch, m)
  {
    var e, proc := s.k.epoch, s.procs[p];
    assert ProcInv(s.k, proc);
    LeaderIs(s.k, proc, e, m);
    match proc.iphase
    case ICheckPut =>
      t := s;
      OnwardSelf(s);
    case ICopy(d) =>
      t := Copies(s, p, e, m, d);
    case IAppend(d) =>
      t := Files(s, p, e, m, d);
  }

  lemma WriteNext(s: State, p: nat, m: nat) returns (t: State)
    requires Open(s) && p in s.procs && s.procs[p] == Ready(s.k.epoch, m)
    requires s.k.epoch >= 2 && m < INDEX_POOL_MAX && Prefix(s.k, s.k.epoch, m)
    ensures t == Step(s, Advance(p)) && Onward(s, t) && Prefix(t.k, s.k.epoch, m + 1) && t.k.globals == s.k.globals
  {
    Go(s, p);
    t := AdvanceProc(s, p);
    IndexerBuilds(s.k, s.procs[p]);
  }

  /** Some indexer leads, or can be started when nothing is written. */
  lemma FindLeader(s: State, m: nat) returns (t: State, p: nat)
    requires Open(s) && s.k.epoch >= 2 && m < INDEX_POOL_MAX && Prefix(s.k, s.k.epoch, m)
    ensures Onward(s, t) && t.k == s.k && p in t.procs && Leader(t.procs[p], s.k.epoch, m)
  {
    var e := s.k.epoch;
    assert Led(s, e);
    var n: nat :| LedTo(s, e, n);
    PrefixUnique(s.k, e, m, n);
    if m == 0 {
      p := Above(s.procs.Keys);
      var proc := Indexer(e, 1, 1, 0, ICheckPut);
      Start(s, StartIndexer(p), p, proc);
      t := Spawn(s, p, proc);
    } else {
      OnwardSelf(s);
      t := s;
      p :| p in s.procs && Leader(s.procs[p], e, m);
    }
  }

  lemma NextShard(s: State, m: nat) returns (t: State)
    requires Open(s) && s.k.epoch >= 2 && m < INDEX_POOL_MAX && Prefix(s.k, s.k.epoch, m)
    ensures Onward(s, t) && Prefix(t.k, s.k.epoch, m + 1) && NoLast(s.k, t.k)
  {
    var a, p := FindLeader(s, m);
    var b := Stand(a, p, m);
    OnwardTrans(s, a, b);
    t := WriteNext(b, p, m);
    OnwardTrans(s, b, t);
  }

  lemma NoLastTrans(a: State, b: State, c: State)
    requires NoLast(a.k, b.k) && NoLast(b.k, c.k) && b.k.epoch == a.k.epoch
    ensures NoLast(a.k, c.k)
  {
  }

  lemma {:induction false} FillIndex(s: State, m: nat) returns (t: State)
    requires Open(s) && s.k.epoch >= 2 && m <= INDEX_POOL_MAX && Prefix(s.k, s.k.epoch, m)
    ensures Onward(s, t) && Prefix(t.k, s.k.epoch, INDEX_POOL_MAX) && NoLast(s.k, t.k)
    decreases INDEX_POOL_MAX - m
  {
    if m == INDEX_POOL_MAX {
      t := s;
      OnwardSelf(s);
    } else {
      var a := NextShard(s, m);
      t := FillIndex(a, m + 1);
      OnwardTrans(s, a, t);
      NoLastTrans(s, a, t);
    }
  }

  ghost function IndexDuties(e: nat): seq<Duty>
  {
    seq(INDEX_POOL_MAX, j requires 0 <= j < INDEX_POOL_MAX => IndexKey(e, j + 1))
  }

  lemma IndexPaid(k: Kanban, e: nat)
    requires e >= 2 && AllDone(k, IndexDuties(e)) && OwnBatches(k, e)
    ensures IndexFinished(k, e) && IndexKeys(e) <= KeysAt(k, e)
  {
    forall i: nat | 1 <= i <= INDEX_POOL_MAX
      ensures Slot(e, i) in k.index && k.index[Slot(e, i)] == IndexVal(e, i) && IndexVal(e, i) in KeysAt(k, e)
    {
      assert IndexDuties(e)[i - 1] == IndexKey(e, i);
      assert Done(k, IndexKey(e, i));
    }
  }

  /** All indexes of the open epoch and their keys can be supplied, each from its own batch,
      without copying the last one. */
  lemma Indexes(s: State) returns (t: State)
    requires Open(s) && s.k.epoch >= 2
    ensures Onward(s, t) && IndexFinished(t.k, s.k.epoch) && IndexKeys(s.k.epoch) <= KeysAt(t.k, s.k.epoch)
    ensures NoLast(s.k, t.k)
  {
    var e := s.k.epoch;
    assert Led(s, e);
    var m: nat :| LedTo(s, e, m);
    var a := FillIndex(s, m);
    t := PayAll(a, IndexDuties(e));
    OnwardTrans(s, a, t);
    IndexPaid(t.k, e);
  }

  // ----- a reducer's pass -----

  ghost predicate Mergeable(k: Kanban, i: nat)
    requires k.epoch >= 3
  {
    Slot(k.epoch - 1, i) in k.globals && Slot(k.epoch, i) in k.index
  }

  ghost function NextReduce(e: nat, i: nat): Option<Proc>
  {
    if i < INDEX_POOL_MAX then Some(Reducer(e, i + 1, RCheck)) else None
  }

  lemma ReduceMoves(k: Kanban, e: nat, i: nat, g: Data, n: Data)
    requires e >= 3 && i >= 1 && Slot(e - 1, i) in k.globals && k.globals[Slot(e - 1, i)] == g
    requires Slot(e, i) in k.index && k.index[Slot(e, i)] == n
    ensures var k1 := k.(globals := k.globals[Slot(e, i) := Merged(g, n)]);
      && Move(k, Reducer(e, i, RCheck))
         == Moved(k, if Slot(e, i) in k.globals then NextReduce(e, i) else Some(Reducer(e, i, RReadGlobal)))
      && Move(k, Reducer(e, i, RReadGlobal)) == Moved(k, Some(Reducer(e, i, RReadIndex(g))))
      && Move(k, Reducer(e, i, RReadIndex(g))) == Moved(k, Some(Reducer(e, i, RPut(g, n))))
      && Move(k, Reducer(e, i, RPut(g, n))) == Moved(k1, Some(Reducer(e, i, RAppend(g, n))))
      && Move(k1, Reducer(e, i, RAppend(g, n))) == Moved(AppendWitness(k1, e, Merged(g, n)), NextReduce(e, i))
  {
  }

  lemma NextGlobal(s: State, p: nat, i: nat) returns (t: State)
    requires Open(s) && s.k.epoch >= 3 && 1 <= i <= INDEX_POOL_MAX && Mergeable(s.k, i)
    requires p in s.procs && s.procs[p] == Reducer(s.k.epoch, i, RCheck)
    ensures Onward(s, t) && Slot(s.k.epoch, i) in t.k.globals && t.k.index == s.k.index
    ensures forall x :: x in t.k.globals ==> x in s.k.globals || x == Slot(s.k.epoch, i)
    ensures i < INDEX_POOL_MAX ==> p in t.procs && t.procs[p] == Reducer(s.k.epoch, i + 1, RCheck)
  {
    var e := s.k.epoch;
    var g, n := s.k.globals[Slot(e - 1, i)], s.k.index[Slot(e, i)];
    ReduceMoves(s.k, e, i, g, n);
    if Slot(e, i) in s.k.globals {
      t := Goes(s, p, Reducer(e, i, RCheck), s.k, NextReduce(e, i));
    } else {
      var a := Reads(s, p, e, i, g, n);
      var k1 := s.k.(globals := s.k.globals[Slot(e, i) := Merged(g, n)]);
      var b := Goes(a, p, Reducer(e, i, RPut(g, n)), k1, Some(Reducer(e, i, RAppend(g, n))));
      OnwardTrans(s, a, b);
      t := Goes(b, p, Reducer(e, i, RAppend(g, n)), AppendWitness(k1, e, Merged(g, n)), NextReduce(e, i));
      OnwardTrans(s, b, t);
    }
  }

  lemma Reads(s: State, p: nat, e: nat, i: nat, g: Data, n: Data) returns (t: State)
    requires Open(s) && e >= 3 && i >= 1 && p in s.procs && s.procs[p] == Reducer(e, i, RCheck)
    requires Slot(e, i) !in s.k.globals && Slot(e - 1, i) in s.k.globals && s.k.globals[Slot(e - 1, i)] == g
    requires Slot(e, i) in s.k.index && s.k.index[Slot(e, i)] == n
    ensures Onward(s, t) && t.k == s.k && p in t.procs && t.procs[p] == Reducer(e, i, RPut(g, n))
  {
    ReduceMoves(s.k, e, i, g, n);
    var a := Goes(s, p, Reducer(e, i, RCheck), s.k, Some(Reducer(e, i, RReadGlobal)));
    var b := Goes(a, p, Reducer(e, i, RReadGlobal), s.k, Some(Reducer(e, i, RReadIndex(g))));
    OnwardTrans(s, a, b);
    t := Goes(b, p, Reducer(e, i, RReadIndex(g)), s.k, Some(Reducer(e, i, RPut(g, n))));
    OnwardTrans(s, b, t);
  }

  ghost predicate MergeableTo(k: Kanban, i: nat, n: nat)
    requires k.epoch >= 3
  {
    forall j: nat :: i <= j < n ==> Mergeable(k, j)
  }

  lemma MergeableStays(k: Kanban, k': Kanban, i: nat, n: nat)
    requires Extends(k, k') && k'.epoch == k.epoch >= 3 && MergeableTo(k, i, n)
    ensures MergeableTo(k', i + 1, n)
  {
    forall j: nat | i + 1 <= j < n ensures Mergeable(k', j) {
      assert Mergeable(k, j);
    }
  }

  ghost predicate MergedTo(k: Kanban, e: nat, i: nat, n: nat)
  {
    forall j: nat :: i <= j < n ==> Slot(e, j) in k.globals
  }

  /** No global index of another epoch is added. */
  ghost predicate NoOther(k: Kanban, k': Kanban)
  {
    forall x :: x in k'.globals ==> x in k.globals || x.e == k.epoch
  }

  lemma MergedFirst(a: Kanban, b: Kanban, c: Kanban, i: nat, n: nat)
    requires Extends(b, c) && b.epoch == a.epoch && Slot(a.epoch, i) in b.globals && MergedTo(c, a.epoch, i + 1, n)
    requires NoOther(a, b) && NoOther(b, c)
    ensures MergedTo(c, a.epoch, i, n) && NoOther(a, c)
  {
  }

  /** A reducer merges shard after shard before shard `n`. */
  lemma {:induction false} FillGlobals(s: State, p: nat, i: nat, n: nat) returns (t: State)
    requires Open(s) && s.k.epoch >= 3 && 1 <= i <= n <= INDEX_POOL_MAX + 1 && MergeableTo(s.k, i, n)
    requires i <= INDEX_POOL_MAX ==> p in s.procs && s.procs[p] == Reducer(s.k.epoch, i, RCheck)
    ensures Onward(s, t) && t.k.index == s.k.index && MergedTo(t.k, s.k.epoch, i, n) && NoOther(s.k, t.k)
    ensures n <= INDEX_POOL_MAX ==> p in t.procs && t.procs[p] == Reducer(s.k.epoch, n, RCheck)
    decreases n - i
  {
    if i == n {
      t := s;
      OnwardSelf(s);
    } else {
      assert Mergeable(s.k, i);
      var a := NextGlobal(s, p, i);
      MergeableStays(s.k, a.k, i, n);
      t := FillGlobals(a, p, i + 1, n);
      OnwardTrans(s, a, t);
      MergedFirst(s.k, a.k, t.k, i, n);
    }
  }

  ghost function GlobalDuties(e: nat): seq<Duty>
  {
    seq(INDEX_POOL_MAX, j requires 0 <= j < INDEX_POOL_MAX => GlobalKey(e, j + 1))
  }

  lemma GlobalPaid(k: Kanban, e: nat, i: nat)
    requires StoreInv(k) && e == k.epoch >= 3 && 1 <= i <= INDEX_POOL_MAX
    requires Done(k, GlobalKey(e, i)) && IndexFinished(k, e)
    ensures GlobalVal(e, i) in KeysAt(k, e)
  {
    GlobalDone(k, e, i);
  }

  lemma GlobalKeysIn(keys: set<Data>, e: nat)
    requires e >= 3 && forall i: nat {:trigger GlobalVal(e, i)} :: 1 <= i <= INDEX_POOL_MAX ==> GlobalVal(e, i) in keys
    ensures GlobalKeys(e) <= keys
  {
  }

  lemma GlobalsPaid(k: Kanban, e: nat)
    requires StoreInv(k) && e == k.epoch >= 3 && AllDone(k, GlobalDuties(e)) && IndexFinished(k, e)
    ensures GlobalKeys(e) <= KeysAt(k, e)
  {
    forall i: nat {:trigger GlobalVal(e, i)} | 1 <= i <= INDEX_POOL_MAX ensures GlobalVal(e, i) in KeysAt(k, e) {
      assert GlobalDuties(e)[i - 1] == GlobalKey(e, i);
      GlobalPaid(k, e, i);
    }
    GlobalKeysIn(KeysAt(k, e), e);
  }

  lemma SeedsAre(k: Kanban)
    requires StoreInv(k) && CopiedInv(k) && k.epoch >= 3 && Slot(2, INDEX_POOL_MAX) in k.globals
    ensures SeedsThere(k, k.epoch - 1)
  {
    var e := k.epoch - 1;
    forall j: nat {:trigger Slot(e, j)} | 1 <= j <= INDEX_POOL_MAX ensures Slot(e, j) in k.globals {
      if e > 2 || j < INDEX_POOL_MAX {
        GlobalIsThere(k, e, j);
      }
    }
  }

  lemma LastIsDue(k: Kanban)
    requires StoreInv(k) && k.epoch >= 3
    ensures Due(k, Seed(INDEX_POOL_MAX))
  {
    IndexIsThere(k, 2, INDEX_POOL_MAX);
  }

  /** The global indexes of the epoch before are there, or can be copied. */
  lemma Seeds(s: State) returns (t: State)
    requires Open(s) && s.k.epoch >= 3
    ensures Onward(s, t) && OnlySeeds(s.k, t.k, true) && SeedsThere(t.k, s.k.epoch - 1)
  {
    LastIsDue(s.k);
    t := Pay(s, Seed(INDEX_POOL_MAX));
    SeedsAre(t.k);
  }

  ghost predicate SeedsThere(k: Kanban, e: nat)
  {
    forall j: nat {:trigger Slot(e, j)} :: 1 <= j <= INDEX_POOL_MAX ==> Slot(e, j) in k.globals
  }

  /** A reducer started on shards whose inputs are there up to shard `n`. */
  lemma ReduceTo(s: State, n: nat) returns (t: State, p: nat)
    requires Open(s) && s.k.epoch >= 3 && 1 <= n <= INDEX_POOL_MAX + 1 && MergeableTo(s.k, 1, n)
    ensures Onward(s, t) && t.k.index == s.k.index && MergedTo(t.k, s.k.epoch, 1, n) && NoOther(s.k, t.k)
    ensures n <= INDEX_POOL_MAX ==> p in t.procs && t.procs[p] == Reducer(s.k.epoch, n, RCheck)
  {
    p := Above(s.procs.Keys);
    var proc := Reducer(s.k.epoch, 1, RCheck);
    Start(s, StartReducer(p), p, proc);
    var a := Spawn(s, p, proc);
    t := FillGlobals(a, p, 1, n);
    OnwardTrans(s, a, t);
  }

  lemma AllMergeable(k: Kanban)
    requires k.epoch >= 3 && SeedsThere(k, k.epoch - 1) && IndexFinished(k, k.epoch)
    ensures MergeableTo(k, 1, INDEX_POOL_MAX + 1)
  {
    var e := k.epoch - 1;
    forall j: nat | 1 <= j < INDEX_POOL_MAX + 1 ensures Mergeable(k, j) {
      assert Slot(e, j) in k.globals && Slot(k.epoch, j) in k.index;
    }
  }

  lemma GlobalsDue(k: Kanban, e: nat)
    requires e >= 3 && MergedTo(k, e, 1, INDEX_POOL_MAX + 1)
    ensures AllDue(k, GlobalDuties(e))
  {
  }

  lemma Reduces(s: State) returns (t: State)
    requires Open(s) && s.k.epoch >= 3 && IndexFinished(s.k, s.k.epoch)
    ensures Onward(s, t) && GlobalKeys(s.k.epoch) <= KeysAt(t.k, s.k.epoch)
  {
    var e := s.k.epoch;
    var a := Seeds(s);
    AllMergeable(a.k);
    var b, p := ReduceTo(a, INDEX_POOL_MAX + 1);
    OnwardTrans(s, a, b);
    GlobalsDue(b.k, e);
    t := PayAll(b, GlobalDuties(e));
    OnwardTrans(s, b, t);
    GlobalsPaid(t.k, e);
  }

  // ----- the threshold is the number of expected keys -----

  ghost predicate Injective(m: map<nat, Data>)
  {
    forall i, j :: i in m && j in m && m[i] == m[j] ==> i == j
  }

  lemma ValuesWithout(m: map<nat, Data>, i: nat)
    requires Injective(m) && i in m
    ensures Injective(m - {i}) && m.Values == (m - {i}).Values + {m[i]} && m[i] !in (m - {i}).Values
  {
    var rest := m - {i};
    forall d | d in m.Values ensures d in rest.Values + {m[i]} {
      var j :| j in m && m[j] == d;
      assert j == i || (j in rest && rest[j] == d);
    }
  }

  lemma {:induction false} InjectiveSize(m: map<nat, Data>)
    requires Injective(m)
    ensures |m.Values| == |m.Keys|
  {
    if m.Keys != {} {
      var i :| i in m.Keys;
      ValuesWithout(m, i);
      InjectiveSize(m - {i});
      assert m.Keys == (m - {i}).Keys + {i};
    }
  }

  ghost function ItemMap(e: nat): map<nat, Data>
    requires e >= 1
  {
    map i | i in UpTo(ITEMS_POOL_MAX) :: ItemsVal(e, i)
  }

  lemma ItemMapHas(e: nat, d: Data)
    requires e >= 1
    ensures d in ItemMap(e).Values <==> d in ItemKeys(e)
  {
    var m := ItemMap(e);
    if d in ItemKeys(e) {
      var i: nat :| 1 <= i <= ITEMS_POOL_MAX && d == ItemsVal(e, i);
      assert i in m && m[i] == d;
    }
    if d in m.Values {
      var i :| i in m && m[i] == d;
      assert i in UpTo(ITEMS_POOL_MAX);
    }
  }

  lemma ItemMapValues(e: nat)
    requires e >= 1
    ensures ItemMap(e).Values == ItemKeys(e)
  {
    forall d ensures d in ItemMap(e).Values <==> d in ItemKeys(e) {
      ItemMapHas(e, d);
    }
  }

  lemma ItemMapInjective(e: nat, i: nat, j: nat)
    requires e >= 1 && i in ItemMap(e) && j in ItemMap(e) && ItemMap(e)[i] == ItemMap(e)[j]
    ensures i == j
  {
    ItemsValDistinct(e, i, e, j);
  }

  lemma ItemKeysExact(e: nat)
    requires e >= 1
    ensures |ItemKeys(e)| == ITEMS_POOL_MAX
  {
    var m := ItemMap(e);
    forall i, j | i in m && j in m && m[i] == m[j] ensures i == j {
      ItemMapInjective(e, i, j);
    }
    InjectiveSize(m);
    ItemMapValues(e);
    assert m.Keys == UpTo(ITEMS_POOL_MAX);
  }

  lemma IndexKeysExact(e: nat)
    requires e >= 2
    ensures |IndexKeys(e)| == INDEX_POOL_MAX
  {
    var m := map i | i in UpTo(INDEX_POOL_MAX) :: IndexVal(e, i);
    forall i, j | i in m && j in m && m[i] == m[j] ensures i == j {
      IndexValDistinct(e, i, e, j);
    }
    InjectiveSize(m);
    assert m.Keys == UpTo(INDEX_POOL_MAX);
    forall d | d in IndexKeys(e) ensures d in m.Values {
      var i: nat :| 1 <= i <= INDEX_POOL_MAX && d == IndexVal(e, i);
      assert i in m && m[i] == d;
    }
    assert m.Values == IndexKeys(e);
  }

  lemma GlobalKeysExact(e: nat)
    requires e >= 3
    ensures |GlobalKeys(e)| == INDEX_POOL_MAX
  {
    var m := map i | i in UpTo(INDEX_POOL_MAX) :: GlobalVal(e, i);
    forall i, j | i in m && j in m && m[i] == m[j] ensures i == j {
      IndexValDistinct(e, i, e, j);
    }
    InjectiveSize(m);
    assert m.Keys == UpTo(INDEX_POOL_MAX);
    forall d | d in GlobalKeys(e) ensures d in m.Values {
      var i: nat :| 1 <= i <= INDEX_POOL_MAX && d == GlobalVal(e, i);
      assert i in m && m[i] == d;
    }
    assert m.Values == GlobalKeys(e);
  }

  /** Outputs of the three tasks are of three kinds. */
  lemma KeyKinds(e: nat)
    requires e >= 1
    ensures ItemKeys(e) !! IndexKeys(e) && ItemKeys(e) !! GlobalKeys(e) && IndexKeys(e) !! GlobalKeys(e)
  {
    assert forall d :: d in ItemKeys(e) ==> d.Posts?;
    assert forall d :: d in IndexKeys(e) ==> d.Index?;
    assert forall d :: d in GlobalKeys(e) ==> d.Merged?;
  }

  lemma UnionSize<T>(a: set<T>, b: set<T>, c: set<T>)
    requires a !! b && a !! c && b !! c
    ensures |a + b + c| == |a| + |b| + |c|
  {
    assert |a + b| == |a| + |b|;
  }

  /** The manager waits for exactly as many keys as the tasks of the epoch produce. */
  lemma ThresholdIsExact(e: nat)
    requires e >= 1
    ensures |ExpectedKeys(e)| == ExpectedKeySize(e)
  {
    KeyKinds(e);
    UnionSize(ItemKeys(e), IndexKeys(e), GlobalKeys(e));
    ItemKeysExact(e);
    if e >= 2 {
      IndexKeysExact(e);
    }
    if e >= 3 {
      GlobalKeysExact(e);
    }
  }

  // ----- closing an epoch -----

  /** Nothing of the current epoch is written. */
  ghost predicate Untouched(k: Kanban)
  {
    && (forall s :: s in k.items ==> s.e < k.epoch)
    && (forall s :: s in k.index ==> s.e < k.epoch)
    && (forall s :: s in k.globals ==> s.e < k.epoch)
  }

  lemma KeysStay(s: State, t: State, e: nat, keys: set<Data>)
    requires Onward(s, t) && keys <= KeysAt(s.k, e)
    ensures keys <= KeysAt(t.k, e)
  {
  }

  /** As long as no written shard has a wrong batch, all the keys of the epoch can be supplied. */
  lemma Works(s: State) returns (t: State)
    requires Open(s)
    ensures Onward(s, t) && ExpectedKeys(s.k.epoch) <= KeysAt(t.k, s.k.epoch)
  {
    var e := s.k.epoch;
    t := Crawls(s);
    if e >= 2 {
      var a := t;
      t := Indexes(a);
      OnwardTrans(s, a, t);
      KeysStay(a, t, e, ItemKeys(e));
    }
    if e >= 3 {
      var b := t;
      t := Reduces(b);
      OnwardTrans(s, b, t);
      KeysStay(b, t, e, ItemKeys(e) + IndexKeys(e));
    }
  }

  lemma Publishes(s: State, t: State)
    requires Deep(s) && s.manager == Rooted && t == Step(s, PublishEpoch)
    ensures Reaches(s, t) && t.k.epoch == s.k.epoch + 1 && t.k.globals == s.k.globals && Open(t) && Untouched(t.k)
  {
    ReachesStep(s, PublishEpoch);
    StepKeepsDeep(s, PublishEpoch);
    forall x | x in t.k.globals ensures x.e < t.k.epoch {
      assert GlobalFrom(s.k, x, s.k.globals[x]);
    }
  }

  lemma RootsAndPublishes(s: State) returns (t: State)
    requires Deep(s) && s.manager.Counted? && s.k.epoch >= 1
    ensures Reaches(s, t) && t.k.epoch == s.k.epoch + 1 && t.k.globals == s.k.globals && Open(t) && Untouched(t.k)
  {
    var a := Step(s, WriteRoot);
    ReachesStep(s, WriteRoot);
    StepKeepsDeep(s, WriteRoot);
    t := Step(a, PublishEpoch);
    Publishes(a, t);
    ReachesTrans(s, a, t);
  }

  /** The manager closes an epoch that has all its keys. */
  lemma Counts(s: State) returns (t: State)
    requires Open(s) && ExpectedKeys(s.k.epoch) <= KeysAt(s.k, s.k.epoch)
    ensures Reaches(s, t) && t.k.epoch == s.k.epoch + 1 && t.k.globals == s.k.globals && Open(t) && Untouched(t.k)
  {
    ThresholdIsExact(s.k.epoch);
    SizeOfSubset(ExpectedKeys(s.k.epoch), KeysAt(s.k, s.k.epoch));
    var a := Step(s, CountKeys);
    ReachesStep(s, CountKeys);
    StepKeepsDeep(s, CountKeys);
    t := RootsAndPublishes(a);
    ReachesTrans(s, a, t);
  }

  lemma Closes(s: State) returns (t: State)
    requires Deep(s) && s.k.epoch >= 1 && OwnBatches(s.k, s.k.epoch)
    ensures Reaches(s, t) && t.k.epoch == s.k.epoch + 1 && Open(t) && Untouched(t.k)
  {
    match s.manager
    case Rooted =>
      t := Step(s, PublishEpoch);
      Publishes(s, t);
    case Counted(_) =>
      t := RootsAndPublishes(s);
    case Waiting =>
      var a := Works(s);
      t := Counts(a);
      ReachesTrans(s, a, t);
  }

  // ----- over every run -----

  ghost predicate CanClose(events: seq<Event>)
  {
    exists more :: Run(events + more).k.epoch > Run(events).k.epoch
  }

  lemma WrongBatchStalls(events: seq<Event>, more: seq<Event>)
    requires !OwnBatches(Run(events).k, Run(events).k.epoch)
    ensures Run(events + more).k.epoch == Run(events).k.epoch
  {
    var k := Run(events).k;
    var i: nat :| 1 <= i <= INDEX_POOL_MAX && Slot(k.epoch, i) in k.index
      && k.index[Slot(k.epoch, i)] != IndexVal(k.epoch, i);
    MisassignedShardStalls(events, more, Slot(k.epoch, i));
  }

  /** In every state of every run, the open epoch can still be closed exactly if no shard that
      is written in it has a wrong batch. */
  lemma CanStillClose(events: seq<Event>)
    requires Run(events).k.epoch >= 1
    ensures CanClose(events) <==> OwnBatches(Run(events).k, Run(events).k.epoch)
  {
    if OwnBatches(Run(events).k, Run(events).k.epoch) {
      RunIsDeep(events);
      var t := Closes(Run(events));
      var more := RunReaches(events, t);
    } else {
      forall more ensures Run(events + more).k.epoch == Run(events).k.epoch {
        WrongBatchStalls(events, more);
      }
    }
  }

  /** Every epoch is reached by some run, with nothing of that epoch done yet. */
  lemma {:induction false} EveryEpochIsReached(e: nat) returns (events: seq<Event>, s: State)
    requires e >= 1
    ensures s == Run(events) && s.k.epoch == e && Untouched(s.k) && Open(s)
  {
    if e == 1 {
      events := [InitEpoch];
      s := Step(Initial, InitEpoch);
      assert Run([]) == Initial && events[..0] == [];
      RunIsDeep(events);
    } else {
      var before, t := EveryEpochIsReached(e - 1);
      s := Closes(t);
      var more := RunReaches(before, s);
      events := before + more;
    }
  }

  // ----- a run that gets stuck -----

  /** One indexer stands before the second shard, another one before the first, which is written. */
  lemma Races(s: State, e: nat) returns (t: State, p: nat, q: nat)
    requires Open(s) && Untouched(s.k) && e == s.k.epoch >= 2
    ensures Onward(s, t) && NoLast(s.k, t.k) && Prefix(t.k, e, 1) && p in t.procs && q in t.procs && p != q
    ensures t.procs[p] == Ready(e, 1) && t.procs[q] == Indexer(e, 1, 1, 0, ICheckPut)
  {
    var a;
    a, p := OneWrites(s, e);
    q := Above(a.procs.Keys);
    Start(a, StartIndexer(q), q, Indexer(e, 1, 1, 0, ICheckPut));
    t := Spawn(a, q, Indexer(e, 1, 1, 0, ICheckPut));
    OnwardTrans(s, a, t);
  }

  lemma OneWrites(s: State, e: nat) returns (t: State, p: nat)
    requires Open(s) && Untouched(s.k) && e == s.k.epoch >= 2
    ensures Onward(s, t) && NoLast(s.k, t.k) && Prefix(t.k, e, 1) && p in t.procs && t.procs[p] == Ready(e, 1)
  {
    var a := NextShard(s, 0);
    var b;
    b, p := FindLeader(a, 1);
    OnwardTrans(s, a, b);
    t := Stand(b, p, 1);
    OnwardTrans(s, b, t);
    NoLastTrans(s, b, t);
  }

  /** The second indexer skips the first shard and keeps its item position. */
  lemma Skips(s: State, e: nat, q: nat) returns (t: State)
    requires Open(s) && e == s.k.epoch >= 2 && Prefix(s.k, e, 1)
    requires q in s.procs && s.procs[q] == Indexer(e, 1, 1, 0, ICheckPut)
    ensures t == Step(s, Advance(q)) && Open(t) && t.k == s.k && Slot(e, 2) !in t.k.index
    ensures t.procs == s.procs[q := Indexer(e, 2, 1, 1, ICheckPut)]
  {
    t := Step(s, Advance(q));
    assert Slot(e, 1) in s.k.index;
    StepKeepsDeep(s, Advance(q));
  }

  lemma WritesWrong(s: State, p: nat, e: nat) returns (t: State)
    requires Inv(s) && e == s.k.epoch >= 2 && Slot(e, 2) !in s.k.index
    requires p in s.procs && s.procs[p] == Indexer(e, 2, 1, 1, ICheckPut)
    ensures t == Step(s, Advance(p)) && t.k.epoch == e
    ensures Slot(e, 2) in t.k.index && t.k.index[Slot(e, 2)] == IndexVal(e, 1)
  {
    IndexerBuilds(s.k, s.procs[p]);
    t := Step(s, Advance(p));
  }

  /** A second indexer that skips the first shard gives the second one the first batch. */
  lemma Misassigns(s: State, e: nat) returns (t: State)
    requires Open(s) && Untouched(s.k) && e == s.k.epoch >= 2
    ensures Comes(s, t) && t.k.epoch == e && Slot(e, 2) in t.k.index && t.k.index[Slot(e, 2)] == IndexVal(e, 1)
  {
    var a, p, q := Races(s, e);
    ReachesComes(s, a);
    var b := Skips(a, e, q);
    ComesStep(s, a, Advance(q));
    t := WritesWrong(b, q, e);
    ComesStep(s, b, Advance(q));
  }

  /** In every epoch from the second on, some run gives a shard a wrong batch, and whatever
      happens then, that epoch is never closed. */
  lemma EpochCanStall(e: nat) returns (events: seq<Event>)
    requires e >= 2
    ensures var k := Run(events).k;
      k.epoch == e && Slot(e, 2) in k.index && k.index[Slot(e, 2)] == IndexVal(e, 1) != IndexVal(e, 2)
    ensures forall more :: Run(events + more).k.epoch == e
  {
    var before, s := EveryEpochIsReached(e);
    var t := Misassigns(s, e);
    var more := RunComes(before, t);
    events := before + more;
    if IndexVal(e, 1) == IndexVal(e, 2) {
      IndexValDistinct(e, 1, e, 2);
    }
    forall later ensures Run(events + later).k.epoch == e {
      MisassignedShardStalls(events, later, Slot(e, 2));
    }
  }

  // ----- a run in which a reducer waits for the last index of epoch 2 -----

  /** Epoch 2 can be closed before its last index is copied. */
  lemma ClosesUncopied(s: State) returns (t: State)
    requires Open(s) && Untouched(s.k) && s.k.epoch == 2
    ensures Reaches(s, t) && t.k.epoch == 3 && Open(t) && Untouched(t.k) && Slot(2, INDEX_POOL_MAX) !in t.k.globals
  {
    var a := Indexes(s);
    var b := Crawls(a);
    OnwardTrans(s, a, b);
    KeysStay(a, b, 2, IndexKeys(2));
    t := Counts(b);
    ReachesTrans(s, b, t);
  }

  lemma MergeableBeforeLast(k: Kanban)
    requires StoreInv(k) && CopiedInv(k) && k.epoch == 3 && IndexFinished(k, 3)
    ensures MergeableTo(k, 1, INDEX_POOL_MAX)
  {
    forall j: nat | 1 <= j < INDEX_POOL_MAX ensures Mergeable(k, j) {
      GlobalIsThere(k, 2, j);
      assert Slot(3, j) in k.index;
    }
  }

  lemma NoneWithoutPrior(k: Kanban, i: nat)
    requires GlobalsOk(k)
    ensures Slot(3, i) in k.globals ==> Slot(2, i) in k.globals
  {
    assert Slot(3, i) in k.globals ==> GlobalFrom(k, Slot(3, i), k.globals[Slot(3, i)]);
  }

  lemma MissesLast(s: State) returns (t: State, p: nat)
    requires Open(s) && s.k.epoch == 3 && Slot(2, INDEX_POOL_MAX) !in s.k.globals
    ensures Reaches(s, t) && p in t.procs && t.procs[p] == Reducer(3, INDEX_POOL_MAX, RReadGlobal)
    ensures t.k.epoch == 3 && Slot(2, INDEX_POOL_MAX) !in t.k.globals
  {
    var a := Indexes(s);
    MergeableBeforeLast(a.k);
    var b;
    b, p := ReduceTo(a, INDEX_POOL_MAX);
    OnwardTrans(s, a, b);
    assert Slot(2, INDEX_POOL_MAX) !in b.k.globals;
    NoneWithoutPrior(b.k, INDEX_POOL_MAX);
    var check, read := Reducer(3, INDEX_POOL_MAX, RCheck), Reducer(3, INDEX_POOL_MAX, RReadGlobal);
    assert Move(b.k, check) == Moved(b.k, Some(read));
    t := Goes(b, p, check, b.k, Some(read));
    OnwardTrans(s, b, t);
  }

  lemma LastIsMissing(k: Kanban, p: Proc)
    requires k.epoch == 3 && Slot(2, INDEX_POOL_MAX) !in k.globals && p == Reducer(3, INDEX_POOL_MAX, RReadGlobal)
    ensures Missing(k, p) && Move(k, p).Blocked?
  {
  }

  /** Some run closes epoch 2 before its last index is copied, and a reducer of epoch 3 then
      finds that global index missing. */
  lemma LastSeedCanBeMissing() returns (events: seq<Event>, s: State, p: nat)
    ensures s == Run(events) && p in s.procs && s.procs[p] == Reducer(3, INDEX_POOL_MAX, RReadGlobal)
    ensures Missing(s.k, s.procs[p]) && Move(s.k, s.procs[p]).Blocked?
  {
    var before, open := EveryEpochIsReached(2);
    var t := ClosesUncopied(open);
    s, p := MissesLast(t);
    LastIsMissing(s.k, s.procs[p]);
    ReachesTrans(open, t, s);
    var more := RunReaches(before, s);
    events := before + more;
  }
}
