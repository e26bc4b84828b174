/**
 The pipeline with the manager's new epoch and the block counter that belongs to it as two
 writes.  Between them a crawler that starts pairs the new epoch with the old counter.

 A run in which no crawler starts in between is a run of `Pipeline`, but for the counter, and
 every run of `Pipeline` is such a run.  A crawler that does start in between crawls the blocks
 of the epoch before once more, and some run fills every item of an epoch that way.
 */
module LateCounter {
  import opened Common
  import opened Pipeline
  import opened PipelineSafety
  import opened Duties
  import opened Progress

  /** A state, and whether the counter of its epoch is still to be written. */
  datatype Late = Late(s: State, late: bool)

  datatype LateEvent = Of(ev: Event) | SetCounter

  const EPOCH_BLOCKS: nat := ITEMS_BULK_MAX * ITEMS_POOL_MAX

  function LateStep(l: Late, ev: LateEvent): Late
  {
    match ev
    case SetCounter =>
      if l.late then Late(l.s.(k := l.s.k.(blockId := l.s.k.blockId + EPOCH_BLOCKS)), false) else l
    case Of(PublishEpoch) =>
      if l.s.manager == Rooted then Late(l.s.(k := l.s.k.(epoch := l.s.k.epoch + 1), manager := Waiting), true) else l
    case Of(CountKeys) => if l.late then l else Late(Step(l.s, CountKeys), l.late)
    case Of(other) => Late(Step(l.s, other), l.late)
  }

  function LateAll(l: Late, events: seq<LateEvent>): Late
  {
    if events == [] then l else LateStep(LateAll(l, events[..|events| - 1]), events[|events| - 1])
  }

  function LateRun(events: seq<LateEvent>): Late
  {
    LateAll(Late(Initial, false), events)
  }

  lemma {:induction false} LateAllAppend(l: Late, a: seq<LateEvent>, b: seq<LateEvent>)
    ensures LateAll(l, a + b) == LateAll(LateAll(l, a), b)
    decreases |b|
  {
    if b == [] {
      assert a + b == a;
    } else {
      LateAllAppend(l, a, b[..|b| - 1]);
      assert (a + b)[..|a + b| - 1] == a + b[..|b| - 1] && (a + b)[|a + b| - 1] == b[|b| - 1];
    }
  }

  lemma LateThen(events: seq<LateEvent>, ev: LateEvent)
    ensures LateRun(events + [ev]) == LateStep(LateRun(events), ev)
  {
    assert (events + [ev])[..|events|] == events;
  }

  // ----- what every run crawls -----

  /** The counter is that of the epoch, or of the one before while it is late. */
  ghost predicate CounterInv(l: Late)
  {
    && (l.s.k.epoch == 0 ==> !l.late && l.s.k.blockId == START_STEEM_BLOCK_ID)
    && (l.s.k.epoch >= 1 && !l.late ==> l.s.k.blockId == BlockIdAt(l.s.k.epoch))
    && (l.late ==> l.s.k.epoch >= 2 && l.s.k.blockId == BlockIdAt(l.s.k.epoch - 1) && l.s.manager == Waiting)
    && (l.s.manager != Waiting ==> l.s.k.epoch >= 1)
  }

  /** A crawler has the counter of its epoch or of the one before. */
  ghost predicate Paired(p: Proc)
  {
    p.Crawler? ==>
      && p.e >= 1 && p.i >= 1
      && (p.blockId == BlockIdAt(p.e) || (p.e >= 2 && p.blockId == BlockIdAt(p.e - 1)))
  }

  /** An item holds the blocks of its own epoch or of the one before. */
  ghost predicate ItemPaired(s: Slot, d: Data)
  {
    s.e >= 1 && s.i >= 1 && (d == ItemsVal(s.e, s.i) || (s.e >= 2 && d == ItemsVal(s.e - 1, s.i)))
  }

  ghost predicate PairInv(l: Late)
  {
    && CounterInv(l)
    && (forall p :: p in l.s.procs ==> Paired(l.s.procs[p]))
    && (forall x :: x in l.s.k.items ==> ItemPaired(x, l.s.k.items[x]))
  }

  lemma MoveKeepsCounter(k: Kanban, p: Proc)
    requires Runnable(p)
    ensures Move(k, p).Moved? ==> Move(k, p).k.blockId == k.blockId && Move(k, p).k.epoch == k.epoch
  {
    match p
    case Crawler(_, _, _, _) =>
    case Indexer(_, _, _, _, _) =>
    case Reducer(_, _, _) =>
  }

  lemma MovePaired(k: Kanban, p: Proc)
    requires Runnable(p) && Paired(p) && Move(k, p).Moved?
    ensures Move(k, p).next.Some? ==> Paired(Move(k, p).next.value)
    ensures Move(k, p).k.items == k.items
         || (p.Crawler? && Move(k, p).k.items == k.items[Slot(p.e, p.i) := Crawl(p.blockId, p.i)])
  {
    match p
    case Crawler(_, _, _, _) =>
    case Indexer(_, _, _, _, _) =>
    case Reducer(_, _, _) =>
  }

  lemma AdvancePaired(l: Late, p: nat)
    requires PairInv(l)
    ensures PairInv(Late(AdvanceProc(l.s, p), l.late))
  {
    if p in l.s.procs && Runnable(l.s.procs[p]) && Move(l.s.k, l.s.procs[p]).Moved? {
      MovePaired(l.s.k, l.s.procs[p]);
      MoveKeepsCounter(l.s.k, l.s.procs[p]);
    }
  }

  lemma StepPaired(l: Late, ev: LateEvent)
    requires PairInv(l)
    ensures PairInv(LateStep(l, ev))
  {
    if ev.Of? && ev.ev.Advance? {
      AdvancePaired(l, ev.ev.p);
    } else {
      OthersPaired(l, ev);
    }
  }

  lemma OthersPaired(l: Late, ev: LateEvent)
    requires PairInv(l) && !(ev.Of? && ev.ev.Advance?)
    ensures PairInv(LateStep(l, ev))
  {
    CounterStays(l, ev);
  }

  lemma CounterStays(l: Late, ev: LateEvent)
    requires CounterInv(l) && !(ev.Of? && ev.ev.Advance?)
    ensures CounterInv(LateStep(l, ev))
  {
  }

  /** In every run each item holds the blocks of its own epoch or those of the epoch before. */
  lemma {:induction false} ItemsArePaired(events: seq<LateEvent>)
    ensures PairInv(LateRun(events))
  {
    if events != [] {
      ItemsArePaired(events[..|events| - 1]);
      StepPaired(LateRun(events[..|events| - 1]), events[|events| - 1]);
    }
  }

  /** In every run, a crawler that starts will write the blocks of its own epoch exactly if the
      counter is not late, and otherwise those of the epoch before. */
  lemma CrawlsOwnBlocks(events: seq<LateEvent>, l: Late, l': Late, p: nat, i: nat)
    requires l == LateRun(events) && l' == LateStep(l, Of(StartCrawler(p))) && l.s.k.epoch >= 1 && p !in l.s.procs
    requires 1 <= i <= ITEMS_POOL_MAX
    ensures p in l'.s.procs && l'.s.procs[p].Crawler? && l'.s.procs[p].e == l.s.k.epoch
    ensures Crawl(l'.s.procs[p].blockId, i) == ItemsVal(l.s.k.epoch, i) <==> !l.late
    ensures l.late ==> l.s.k.epoch >= 2 && Crawl(l'.s.procs[p].blockId, i) == ItemsVal(l.s.k.epoch - 1, i)
  {
    ItemsArePaired(events);
    if l.late && ItemsVal(l.s.k.epoch - 1, i) == ItemsVal(l.s.k.epoch, i) {
      ItemsValDistinct(l.s.k.epoch - 1, i, l.s.k.epoch, i);
    }
  }

  // ----- runs in which no crawler starts before the counter is written -----

  /** A crawler starts before the counter is written. */
  ghost predicate Hasty(l: Late, ev: LateEvent)
  {
    l.late && ev.Of? && ev.ev.StartCrawler? && ev.ev.p !in l.s.procs
  }

  ghost predicate Prompt(events: seq<LateEvent>)
  {
    events != [] ==>
      Prompt(events[..|events| - 1]) && !Hasty(LateRun(events[..|events| - 1]), events[|events| - 1])
  }

  /** The state with the counter that belongs to its epoch. */
  function OnTime(l: Late): State
  {
    if l.late then WithCounter(l.s, l.s.k.blockId + EPOCH_BLOCKS) else l.s
  }

  function WithCounter(s: State, b: nat): State
  {
    s.(k := s.k.(blockId := b))
  }

  ghost predicate SameMove(m: Moved, m': Moved, b: nat)
  {
    match m
    case Blocked => m' == Blocked
    case Moved(k, next) => m' == Moved(k.(blockId := b), next)
  }

  lemma CrawlerIgnoresCounter(k: Kanban, p: Proc, b: nat)
    requires p.Crawler? && p.i >= 1
    ensures SameMove(MoveCrawler(k, p), MoveCrawler(k.(blockId := b), p), b)
  {
  }

  lemma IndexerIgnoresCounter(k: Kanban, p: Proc, b: nat)
    requires p.Indexer? && p.e >= 1
    ensures SameMove(MoveIndexer(k, p), MoveIndexer(k.(blockId := b), p), b)
  {
  }

  lemma ReducerIgnoresCounter(k: Kanban, p: Proc, b: nat)
    requires p.Reducer? && p.e >= 1
    ensures SameMove(MoveReducer(k, p), MoveReducer(k.(blockId := b), p), b)
  {
  }

  /** No process reads the counter after its start. */
  lemma MoveIgnoresCounter(k: Kanban, p: Proc, b: nat)
    requires Runnable(p)
    ensures SameMove(Move(k, p), Move(k.(blockId := b), p), b)
  {
    match p
    case Crawler(_, _, _, _) => CrawlerIgnoresCounter(k, p, b);
    case Indexer(_, _, _, _, _) => IndexerIgnoresCounter(k, p, b);
    case Reducer(_, _, _) => ReducerIgnoresCounter(k, p, b);
  }

  lemma AdvanceIgnoresCounter(s: State, p: nat, b: nat)
    ensures AdvanceProc(WithCounter(s, b), p) == WithCounter(AdvanceProc(s, p), b)
  {
    if p in s.procs && Runnable(s.procs[p]) {
      MoveIgnoresCounter(s.k, s.procs[p], b);
    }
  }

  lemma AdvanceKeepsCounter(s: State, p: nat)
    ensures AdvanceProc(s, p).k.blockId == s.k.blockId
  {
    if p in s.procs && Runnable(s.procs[p]) {
      MoveKeepsCounter(s.k, s.procs[p]);
    }
  }

  lemma OnTimeAdvance(l: Late, p: nat)
    ensures OnTime(Late(AdvanceProc(l.s, p), l.late)) == AdvanceProc(OnTime(l), p)
  {
    if l.late {
      var b := l.s.k.blockId + EPOCH_BLOCKS;
      AdvanceKeepsCounter(l.s, p);
      AdvanceIgnoresCounter(l.s, p, b);
      assert OnTime(l) == WithCounter(l.s, b);
    }
  }

  lemma OnTimeStart(l: Late, ev: Event)
    requires (ev.StartCrawler? && !Hasty(l, Of(ev))) || ev.StartIndexer? || ev.StartReducer?
    ensures OnTime(LateStep(l, Of(ev))) == Step(OnTime(l), ev)
  {
  }

  lemma OnTimeManager(l: Late, ev: Event)
    requires CounterInv(l) && (ev.InitEpoch? || ev.CountKeys? || ev.WriteRoot? || ev.PublishEpoch?)
    ensures OnTime(LateStep(l, Of(ev))) == OnTime(l) || OnTime(LateStep(l, Of(ev))) == Step(OnTime(l), ev)
  {
  }

  lemma OnTimeStep(l: Late, ev: LateEvent)
    requires CounterInv(l) && !Hasty(l, ev)
    ensures OnTime(LateStep(l, ev)) == OnTime(l) || (ev.Of? && OnTime(LateStep(l, ev)) == Step(OnTime(l), ev.ev))
  {
    match ev
    case SetCounter =>
    case Of(Advance(p)) => OnTimeAdvance(l, p);
    case Of(StartCrawler(_)) => OnTimeStart(l, ev.ev);
    case Of(StartIndexer(_)) => OnTimeStart(l, ev.ev);
    case Of(StartReducer(_)) => OnTimeStart(l, ev.ev);
    case Of(_) => OnTimeManager(l, ev.ev);
  }

  /** Such a run ends, with the counter written, where some run with single steps ends. */
  lemma {:induction false} PromptIsRun(events: seq<LateEvent>) returns (merged: seq<Event>)
    requires Prompt(events)
    ensures Run(merged) == OnTime(LateRun(events))
  {
    if events == [] {
      merged := [];
    } else {
      var front, last := events[..|events| - 1], events[|events| - 1];
      var before := PromptIsRun(front);
      ItemsArePaired(front);
      OnTimeStep(LateRun(front), last);
      if OnTime(LateRun(events)) == OnTime(LateRun(front)) {
        merged := before;
      } else {
        merged := before + [last.ev];
        RunThen(before, last.ev);
      }
    }
  }

  /** And every run with single steps is such a run. */
  lemma {:induction false} RunIsPrompt(events: seq<Event>) returns (split: seq<LateEvent>)
    ensures Prompt(split) && LateRun(split) == Late(Run(events), false)
  {
    if events == [] {
      split := [];
    } else {
      var front, last := events[..|events| - 1], events[|events| - 1];
      var before := RunIsPrompt(front);
      split := before + [Of(last)];
      LateThen(before, Of(last));
      assert split[..|before|] == before;
      if last == PublishEpoch && Run(front).manager == Rooted {
        LateThen(split, SetCounter);
        assert (split + [SetCounter])[..|split|] == split;
        split := split + [SetCounter];
      }
    }
  }

  // ----- a run that crawls the same blocks twice -----

  ghost predicate LateComes(l: Late, m: Late)
  {
    exists events :: LateAll(l, events) == m
  }

  lemma LateComesStep(l: Late, m: Late, ev: LateEvent)
    requires LateComes(l, m)
    ensures LateComes(l, LateStep(m, ev))
  {
    var x :| LateAll(l, x) == m;
    assert (x + [ev])[..|x|] == x;
    assert LateAll(l, x + [ev]) == LateStep(m, ev);
  }

  lemma LateComesSelf(l: Late)
    ensures LateComes(l, l)
  {
    assert LateAll(l, []) == l;
  }

  lemma LateComesTrans(l: Late, m: Late, n: Late)
    requires LateComes(l, m) && LateComes(m, n)
    ensures LateComes(l, n)
  {
    var x :| LateAll(l, x) == m;
    var y :| LateAll(m, y) == n;
    LateAllAppend(l, x, y);
  }

  lemma LateGoes(l: Late, p: nat, proc: Proc, k: Kanban, next: Option<Proc>) returns (m: Late)
    requires p in l.s.procs && l.s.procs[p] == proc && Runnable(proc) && Move(l.s.k, proc) == Moved(k, next)
    ensures LateComes(l, m) && m.s.k == k && (next.Some? ==> p in m.s.procs && m.s.procs[p] == next.value)
  {
    LateComesSelf(l);
    LateComesStep(l, l, Of(Advance(p)));
    m := LateStep(l, Of(Advance(p)));
  }

  /** A crawler writes and files one item. */
  lemma CrawlsOne(l: Late, p: nat, e: nat, b: nat, i: nat) returns (m: Late)
    requires e >= 1 && i >= 1 && Slot(e, i) !in l.s.k.items
    requires p in l.s.procs && l.s.procs[p] == Crawler(e, b, i, CCheck)
    ensures LateComes(l, m) && m.s.k.epoch == l.s.k.epoch && m.s.k.items == l.s.k.items[Slot(e, i) := Crawl(b, i)]
    ensures Crawl(b, i) in KeysAt(m.s.k, e) && KeysAt(l.s.k, e) <= KeysAt(m.s.k, e)
    ensures i < ITEMS_POOL_MAX ==> p in m.s.procs && m.s.procs[p] == Crawler(e, b, i + 1, CCheck)
  {
    var k := l.s.k;
    var k1 := k.(items := k.items[Slot(e, i) := Crawl(b, i)]);
    CrawlMoves(k, e, b, i);
    var x := LateGoes(l, p, Crawler(e, b, i, CCheck), k, Some(Crawler(e, b, i, CPut)));
    var y := LateGoes(x, p, Crawler(e, b, i, CPut), k1, Some(Crawler(e, b, i, CAppend)));
    LateComesTrans(l, x, y);
    m := LateGoes(y, p, Crawler(e, b, i, CAppend), AppendWitness(k1, e, Crawl(b, i)), NextCrawl(e, b, i));
    LateComesTrans(l, y, m);
  }

  /** The items from `i` on are those that counter `b` gives, and have their keys. */
  ghost predicate CrawledFrom(k: Kanban, e: nat, b: nat, i: nat)
  {
    forall j: nat {:trigger Slot(e, j)} :: 1 <= j && i <= j <= ITEMS_POOL_MAX ==>
      Slot(e, j) in k.items && k.items[Slot(e, j)] == Crawl(b, j) && Crawl(b, j) in KeysAt(k, e)
  }

  ghost predicate FreeFrom(k: Kanban, e: nat, i: nat)
  {
    forall j: nat {:trigger Slot(e, j)} :: i <= j ==> Slot(e, j) !in k.items
  }

  lemma {:induction false} CrawlsFrom(l: Late, p: nat, e: nat, b: nat, i: nat) returns (m: Late)
    requires e >= 1 && 1 <= i <= ITEMS_POOL_MAX && FreeFrom(l.s.k, e, i)
    requires p in l.s.procs && l.s.procs[p] == Crawler(e, b, i, CCheck)
    ensures LateComes(l, m) && m.s.k.epoch == l.s.k.epoch && CrawledFrom(m.s.k, e, b, i)
    ensures KeysAt(l.s.k, e) <= KeysAt(m.s.k, e)
    ensures forall x :: x in l.s.k.items ==> x in m.s.k.items && m.s.k.items[x] == l.s.k.items[x]
    decreases ITEMS_POOL_MAX - i
  {
    var a := CrawlsOne(l, p, e, b, i);
    if i == ITEMS_POOL_MAX {
      m := a;
    } else {
      m := CrawlsFrom(a, p, e, b, i + 1);
      LateComesTrans(l, a, m);
      forall j: nat {:trigger Slot(e, j)} | 1 <= j && i <= j <= ITEMS_POOL_MAX
        ensures Slot(e, j) in m.s.k.items && m.s.k.items[Slot(e, j)] == Crawl(b, j) && Crawl(b, j) in KeysAt(m.s.k, e)
      {
        assert j == i ==> Slot(e, j) in a.s.k.items && a.s.k.items[Slot(e, j)] == Crawl(b, j);
      }
    }
  }

  /** A state in which the manager is about to publish epoch `e`. */
  lemma AboutToPublish(e: nat) returns (events: seq<LateEvent>, s: State)
    requires e >= 2
    ensures LateRun(events) == Late(s, false) && Prompt(events) && Deep(s) && s.manager == Rooted && s.k.epoch == e - 1
  {
    var single, a := EveryEpochIsReached(e - 1);
    s := Roots(a);
    var more := RunReaches(single, s);
    events := RunIsPrompt(single + more);
  }

  lemma Roots(s: State) returns (t: State)
    requires Open(s)
    ensures Reaches(s, t) && Deep(t) && t.manager == Rooted && t.k.epoch == s.k.epoch
  {
    var a := Works(s);
    ThresholdIsExact(a.k.epoch);
    SizeOfSubset(ExpectedKeys(a.k.epoch), KeysAt(a.k, a.k.epoch));
    var b := Step(a, CountKeys);
    ReachesStep(a, CountKeys);
    StepKeepsDeep(a, CountKeys);
    t := Step(b, WriteRoot);
    ReachesStep(b, WriteRoot);
    StepKeepsDeep(b, WriteRoot);
    ReachesTrans(s, a, b);
    ReachesTrans(s, b, t);
  }

  /** Publish, and start a crawler before the counter is written. */
  lemma StartsHasty(s: State, e: nat) returns (l: Late, p: nat)
    requires Deep(s) && s.manager == Rooted && s.k.epoch == e - 1 && e >= 2
    ensures LateComes(Late(s, false), l) && l.s.k.epoch == e && FreeFrom(l.s.k, e, 1)
    ensures p in l.s.procs && l.s.procs[p] == Crawler(e, BlockIdAt(e - 1), 1, CCheck)
  {
    var a := LateStep(Late(s, false), Of(PublishEpoch));
    LateComesSelf(Late(s, false));
    LateComesStep(Late(s, false), Late(s, false), Of(PublishEpoch));
    p := Above(s.procs.Keys);
    LateComesStep(Late(s, false), a, Of(StartCrawler(p)));
    l := LateStep(a, Of(StartCrawler(p)));
  }

  /** The item holds the blocks of the epoch before, and is filed in epoch `e`. */
  ghost predicate OldItem(k: Kanban, e: nat, i: nat)
    requires e >= 2 && i >= 1
  {
    && Slot(e, i) in k.items && k.items[Slot(e, i)] == ItemsVal(e - 1, i) != ItemsVal(e, i)
    && ItemsVal(e - 1, i) in KeysAt(k, e)
  }

  lemma CrawledIsOld(k: Kanban, e: nat, i: nat)
    requires e >= 2 && 1 <= i <= ITEMS_POOL_MAX && CrawledFrom(k, e, BlockIdAt(e - 1), 1)
    ensures OldItem(k, e, i)
  {
    assert Slot(e, i) in k.items && k.items[Slot(e, i)] == Crawl(BlockIdAt(e - 1), i);
    OldIsOther(e, i);
  }

  /** In every epoch from the second on, some run fills all items with the blocks of the epoch
      before, and files them as the items of this epoch. */
  lemma BlocksCrawledTwice(e: nat) returns (events: seq<LateEvent>, k: Kanban)
    requires e >= 2
    ensures k == LateRun(events).s.k && k.epoch == e
    ensures forall i: nat :: 1 <= i <= ITEMS_POOL_MAX ==> OldItem(k, e, i)
  {
    var before, s := AboutToPublish(e);
    var l, p := StartsHasty(s, e);
    var m := CrawlsFrom(l, p, e, BlockIdAt(e - 1), 1);
    LateComesTrans(Late(s, false), l, m);
    var more :| LateAll(Late(s, false), more) == m;
    LateAllAppend(Late(Initial, false), before, more);
    events, k := before + more, m.s.k;
    forall i: nat | 1 <= i <= ITEMS_POOL_MAX ensures OldItem(k, e, i) {
      CrawledIsOld(k, e, i);
    }
  }

  lemma OldIsOther(e: nat, i: nat)
    requires e >= 2 && 1 <= i <= ITEMS_POOL_MAX
    ensures Crawl(BlockIdAt(e - 1), i) == ItemsVal(e - 1, i) != ItemsVal(e, i)
  {
    if ItemsVal(e - 1, i) == ItemsVal(e, i) {
      ItemsValDistinct(e - 1, i, e, i);
    }
  }
}
