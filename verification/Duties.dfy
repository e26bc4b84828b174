/**
 What the running processes still owe, over every run: a written output without its key has
 a process about to append it, a first index without its copy has a process about to copy
 it, and as long as every written shard has its own batch, one indexer leads the way and can
 write the next shard.  It follows who may wait for whom, and what for.
 */
module Duties {
  import opened Common
  import opened Pipeline
  import opened PipelineSafety

  // ----- keys and copies that some process owes -----

  datatype Duty =
    | ItemKey(e: nat, i: nat)
    | IndexKey(e: nat, i: nat)
    | GlobalKey(e: nat, i: nat)
    | Seed(i: nat)                            // the copy of an index of epoch 2

  /** The write that makes the duty due. */
  ghost predicate Due(k: Kanban, d: Duty)
  {
    match d
    case ItemKey(e, i) => Slot(e, i) in k.items
    case IndexKey(e, i) => Slot(e, i) in k.index
    case GlobalKey(e, i) => e >= 3 && Slot(e, i) in k.globals
    case Seed(i) => Slot(2, i) in k.index
  }

  ghost predicate Done(k: Kanban, d: Duty)
  {
    match d
    case ItemKey(e, i) => Slot(e, i) in k.items && k.items[Slot(e, i)] in KeysAt(k, e)
    case IndexKey(e, i) => Slot(e, i) in k.index && k.index[Slot(e, i)] in KeysAt(k, e)
    case GlobalKey(e, i) => Slot(e, i) in k.globals && k.globals[Slot(e, i)] in KeysAt(k, e)
    case Seed(i) => Slot(2, i) in k.globals
  }

  /** The process is on its way to do it. */
  ghost predicate Owes(p: Proc, d: Duty)
  {
    match d
    case ItemKey(e, i) => p.Crawler? && p.e == e && p.i == i && p.cphase.CAppend?
    case IndexKey(e, i) => p.Indexer? && p.e == e && p.i == i && p.iphase.IAppend?
    case GlobalKey(e, i) => p.Reducer? && p.e == e && p.i == i && p.rphase.RAppend?
    case Seed(i) => p.Indexer? && p.e == 2 && p.i == i && !p.iphase.ICheckPut?
  }

  ghost predicate Owed(s: State, d: Duty)
  {
    exists p :: p in s.procs && Owes(s.procs[p], d)
  }

  ghost predicate DutyInv(s: State)
  {
    forall d :: Due(s.k, d) ==> Done(s.k, d) || Owed(s, d)
  }

  lemma DoneStays(k: Kanban, k': Kanban, d: Duty)
    requires Extends(k, k') && Done(k, d)
    ensures Done(k', d)
  {
    assert !d.Seed? ==> KeysAt(k, d.e) <= KeysAt(k', d.e);
  }

  lemma CrawlerDuty(k: Kanban, p: Proc, d: Duty)
    requires StoreInv(k) && p.Crawler? && ProcInv(k, p)
    requires Due(MoveCrawler(k, p).k, d) && (!Due(k, d) || Owes(p, d))
    ensures var m := MoveCrawler(k, p); Done(m.k, d) || (m.next.Some? && Owes(m.next.value, d))
  {
    assert Owes(p, d) ==> k.items[Slot(p.e, p.i)] == ItemsVal(p.e, p.i);
  }

  lemma IndexerDuty(k: Kanban, p: Proc, d: Duty)
    requires StoreInv(k) && p.Indexer? && ProcInv(k, p) && MoveIndexer(k, p).Moved?
    requires Due(MoveIndexer(k, p).k, d) && (!Due(k, d) || Owes(p, d))
    ensures var m := MoveIndexer(k, p); Done(m.k, d) || (m.next.Some? && Owes(m.next.value, d))
  {
  }

  lemma ReducerDuty(k: Kanban, p: Proc, d: Duty)
    requires StoreInv(k) && p.Reducer? && ProcInv(k, p) && MoveReducer(k, p).Moved?
    requires Due(MoveReducer(k, p).k, d) && (!Due(k, d) || Owes(p, d))
    ensures var m := MoveReducer(k, p); Done(m.k, d) || (m.next.Some? && Owes(m.next.value, d))
  {
    if Owes(p, d) {
      assert GlobalFrom(k, Slot(p.e, p.i), k.globals[Slot(p.e, p.i)]);
    }
  }

  /** A duty that the step of a process makes due, or that the process had, is done by that
      step or is still the process's own. */
  lemma MoveKeepsDuty(k: Kanban, p: Proc, d: Duty)
    requires StoreInv(k) && ProcInv(k, p) && Move(k, p).Moved?
    requires Due(Move(k, p).k, d) && (!Due(k, d) || Owes(p, d))
    ensures var m := Move(k, p); Done(m.k, d) || (m.next.Some? && Owes(m.next.value, d))
  {
    match p
    case Crawler(_, _, _, _) => CrawlerDuty(k, p, d);
    case Indexer(_, _, _, _, _) => IndexerDuty(k, p, d);
    case Reducer(_, _, _) => ReducerDuty(k, p, d);
  }

  lemma AdvanceKeepsDuty(s: State, p: nat, d: Duty)
    requires Inv(s) && DutyInv(s) && p in s.procs && Move(s.k, s.procs[p]).Moved?
    requires Due(AdvanceProc(s, p).k, d) && !Done(AdvanceProc(s, p).k, d)
    ensures Owed(AdvanceProc(s, p), d)
  {
    var s' := AdvanceProc(s, p);
    if !Due(s.k, d) || Owes(s.procs[p], d) {
      MoveKeepsDuty(s.k, s.procs[p], d);
      assert p in s'.procs && Owes(s'.procs[p], d);
    } else {
      if Done(s.k, d) {
        AdvanceKeepsInv(s, p);
        DoneStays(s.k, s'.k, d);
      }
      var q :| q in s.procs && Owes(s.procs[q], d);
      assert q in s'.procs && Owes(s'.procs[q], d);
    }
  }

  /** Events that move no process: the data, the keys and the processes stay. */
  ghost predicate Quiet(s: State, s': State)
  {
    && s'.k.items == s.k.items && s'.k.index == s.k.index && s'.k.globals == s.k.globals && s'.k.keys == s.k.keys
    && forall p :: p in s.procs ==> p in s'.procs && s'.procs[p] == s.procs[p]
  }

  lemma OthersAreQuiet(s: State, ev: Event)
    requires !ev.Advance?
    ensures Quiet(s, Step(s, ev))
  {
  }

  lemma QuietKeepsDuties(s: State, s': State)
    requires DutyInv(s) && Quiet(s, s')
    ensures DutyInv(s')
  {
    forall d | Due(s'.k, d) ensures Done(s'.k, d) || Owed(s', d) {
      assert Due(s.k, d);
      if !Done(s'.k, d) {
        assert !Done(s.k, d);
        var p :| p in s.procs && Owes(s.procs[p], d);
        assert p in s'.procs && Owes(s'.procs[p], d);
      }
    }
  }

  lemma StepKeepsDuties(s: State, ev: Event)
    requires Inv(s) && DutyInv(s)
    ensures DutyInv(Step(s, ev))
  {
    if ev.Advance? {
      var p, s' := ev.p, AdvanceProc(s, ev.p);
      if p in s.procs && Runnable(s.procs[p]) && Move(s.k, s.procs[p]).Moved? {
        forall d | Due(s'.k, d) && !Done(s'.k, d) ensures Owed(s', d) {
          AdvanceKeepsDuty(s, p, d);
        }
      }
    } else {
      OthersAreQuiet(s, ev);
      QuietKeepsDuties(s, Step(s, ev));
    }
  }

  // ----- shards and their batches -----

  /** Every shard of epoch `e` that is written has its own batch. */
  ghost predicate OwnBatches(k: Kanban, e: nat)
  {
    e >= 2 ==> forall i: nat {:trigger Slot(e, i)} ::
      1 <= i <= INDEX_POOL_MAX && Slot(e, i) in k.index ==> k.index[Slot(e, i)] == IndexVal(e, i)
  }

  /** Exactly the first `m` shards of epoch `e` are written. */
  ghost predicate Prefix(k: Kanban, e: nat, m: nat)
  {
    forall i: nat :: Slot(e, i) in k.index <==> 1 <= i <= m
  }

  /** An indexer that wrote the first `m` shards itself and stands before shard `m + 1`. */
  ghost predicate Leader(p: Proc, e: nat, m: nat)
  {
    && p.Indexer? && p.e == e && p.skipped == 0
    && if p.iphase.ICheckPut? then p.i == m + 1 else p.i == m
  }

  ghost predicate Leads(s: State, e: nat, m: nat)
  {
    exists p :: p in s.procs && Leader(s.procs[p], e, m)
  }

  ghost predicate LedTo(s: State, e: nat, m: nat)
  {
    m <= INDEX_POOL_MAX && Prefix(s.k, e, m) && (m == 0 || m == INDEX_POOL_MAX || Leads(s, e, m))
  }

  ghost predicate Led(s: State, e: nat)
  {
    exists m: nat :: LedTo(s, e, m)
  }

  /** The shards a process has passed are written, and copied if it wrote them all in epoch 2. */
  ghost predicate Passed(k: Kanban, p: Proc)
  {
    p.Indexer? ==> forall j: nat {:trigger Slot(p.e, j)} :: 1 <= j < p.i ==>
      Slot(p.e, j) in k.index && (p.e == 2 && p.skipped == 0 ==> Slot(p.e, j) in k.globals)
  }

  /** A shard of epoch 2 with its own batch is written after the shard before it was copied. */
  ghost predicate CopiedInv(k: Kanban)
  {
    forall i: nat {:trigger Slot(2, i)} ::
      2 <= i <= INDEX_POOL_MAX && Slot(2, i) in k.index && k.index[Slot(2, i)] == IndexVal(2, i) ==>
        Slot(2, i - 1) in k.globals
  }

  ghost predicate BatchInv(s: State)
  {
    && (forall e: nat :: e >= 2 && OwnBatches(s.k, e) ==> Led(s, e))
    && (forall p :: p in s.procs ==> Passed(s.k, s.procs[p]))
    && CopiedInv(s.k)
  }

  lemma OwnBatchesBefore(k: Kanban, k': Kanban, e: nat)
    requires Extends(k, k') && OwnBatches(k', e)
    ensures OwnBatches(k, e)
  {
  }

  lemma PassedStable(k: Kanban, k': Kanban, p: Proc)
    requires Extends(k, k') && Passed(k, p)
    ensures Passed(k', p)
  {
  }

  lemma IndexerPassed(k: Kanban, p: Proc)
    requires p.Indexer? && ProcInv(k, p) && Passed(k, p) && MoveIndexer(k, p).Moved?
    ensures MoveIndexer(k, p).next.Some? ==> Passed(MoveIndexer(k, p).k, MoveIndexer(k, p).next.value)
  {
  }

  lemma SameKind(k: Kanban, p: Proc)
    requires Runnable(p) && !p.Indexer? && Move(k, p).Moved? && Move(k, p).next.Some?
    ensures !Move(k, p).next.value.Indexer?
  {
  }

  lemma MovePassed(k: Kanban, p: Proc)
    requires ProcInv(k, p) && Runnable(p) && Passed(k, p) && Move(k, p).Moved?
    ensures Move(k, p).next.Some? ==> Passed(Move(k, p).k, Move(k, p).next.value)
  {
    if p.Indexer? {
      IndexerPassed(k, p);
    } else if Move(k, p).next.Some? {
      SameKind(k, p);
    }
  }

  /** The process is an indexer that is about to test its shard. */
  ghost predicate AtTest(p: Proc)
  {
    p.Indexer? && p.iphase.ICheckPut?
  }

  ghost predicate Writes(k: Kanban, p: Proc)
  {
    AtTest(p) && Slot(p.e, p.i) !in k.index
  }

  lemma NoIndexWrite(k: Kanban, p: Proc)
    requires Runnable(p) && Move(k, p).Moved? && !Writes(k, p)
    ensures Move(k, p).k.index == k.index
  {
  }

  /** Only an indexer that finds its shard missing writes an index, and only that one. */
  lemma IndexMoves(k: Kanban, p: Proc)
    requires StoreInv(k) && ProcInv(k, p) && Move(k, p).Moved?
    ensures Move(k, p).k.index == k.index
         || (Writes(k, p) && Move(k, p).k.index.Keys == k.index.Keys + {Slot(p.e, p.i)})
  {
    if Writes(k, p) {
      IndexerBuilds(k, p);
    } else {
      NoIndexWrite(k, p);
    }
  }

  /** Who writes a shard of epoch 2 from its own batch has copied the shard before. */
  lemma WriterCopied(k: Kanban, p: Proc)
    requires StoreInv(k) && p.Indexer? && ProcInv(k, p) && Passed(k, p) && p.e == 2 && p.i >= 2
    requires p.iphase.ICheckPut? && Slot(2, p.i) !in k.index
    ensures MoveIndexer(k, p).Moved?
    ensures MoveIndexer(k, p).k.index[Slot(2, p.i)] == IndexVal(2, p.i) ==> Slot(2, p.i - 1) in k.globals
  {
    IndexerBuilds(k, p);
    if IndexVal(2, p.i - p.skipped) == IndexVal(2, p.i) {
      IndexValDistinct(2, p.i, 2, p.i - p.skipped);
    }
  }

  lemma CopiedStable(k: Kanban, k': Kanban, i: nat)
    requires CopiedInv(k) && Extends(k, k') && 2 <= i <= INDEX_POOL_MAX
    requires Slot(2, i) in k.index && k'.index[Slot(2, i)] == IndexVal(2, i)
    ensures Slot(2, i - 1) in k'.globals
  {
  }

  lemma MoveCopiedAt(k: Kanban, p: Proc, k': Kanban, i: nat)
    requires StoreInv(k) && ProcInv(k, p) && Passed(k, p) && Move(k, p).Moved? && k' == Move(k, p).k && Extends(k, k')
    requires 2 <= i <= INDEX_POOL_MAX && Slot(2, i) !in k.index && Slot(2, i) in k'.index
    requires k'.index[Slot(2, i)] == IndexVal(2, i)
    ensures Slot(2, i - 1) in k'.globals
  {
    IndexMoves(k, p);
    WriterCopied(k, p);
  }

  lemma MoveCopied(k: Kanban, p: Proc, k': Kanban)
    requires StoreInv(k) && ProcInv(k, p) && Passed(k, p) && CopiedInv(k)
    requires Move(k, p).Moved? && k' == Move(k, p).k && Extends(k, k')
    ensures CopiedInv(k')
  {
    forall i: nat | 2 <= i <= INDEX_POOL_MAX && Slot(2, i) in k'.index && k'.index[Slot(2, i)] == IndexVal(2, i)
      ensures Slot(2, i - 1) in k'.globals
    {
      if Slot(2, i) in k.index {
        CopiedStable(k, k', i);
      } else {
        MoveCopiedAt(k, p, k', i);
      }
    }
  }

  /** Writing a shard from its own batch takes an indexer that skipped none, and so the next. */
  lemma WriterLeads(k: Kanban, p: Proc, m: nat)
    requires StoreInv(k) && p.Indexer? && ProcInv(k, p) && Passed(k, p) && Prefix(k, p.e, m)
    requires p.iphase.ICheckPut? && Slot(p.e, p.i) !in k.index
    requires MoveIndexer(k, p).Moved? && OwnBatches(MoveIndexer(k, p).k, p.e)
    ensures p.i == m + 1 && Prefix(MoveIndexer(k, p).k, p.e, m + 1)
    ensures MoveIndexer(k, p).next.Some? && Leader(MoveIndexer(k, p).next.value, p.e, m + 1)
  {
    IndexerBuilds(k, p);
    assert MoveIndexer(k, p).k.index[Slot(p.e, p.i)] == IndexVal(p.e, p.i);
    IndexValDistinct(p.e, p.i - p.skipped, p.e, p.i);
    var next: nat := m + 1;
    assert Slot(p.e, next) !in k.index;
  }

  /** A step that writes no index leaves a leader a leader. */
  lemma LeaderStays(k: Kanban, p: Proc, m: nat)
    requires StoreInv(k) && p.Indexer? && ProcInv(k, p) && Prefix(k, p.e, m) && Leader(p, p.e, m)
    requires 0 < m < INDEX_POOL_MAX && MoveIndexer(k, p).Moved? && MoveIndexer(k, p).k.index == k.index
    ensures MoveIndexer(k, p).next.Some? && Leader(MoveIndexer(k, p).next.value, p.e, m)
  {
    if p.iphase.ICheckPut? {
      IndexerBuilds(k, p);
    }
  }

  lemma OthersLead(s: State, s': State, e: nat, m: nat, p: nat)
    requires Prefix(s'.k, e, m) && LedTo(s, e, m) && p in s.procs && !Leader(s.procs[p], e, m)
    requires forall q :: q in s.procs && q != p ==> q in s'.procs && s'.procs[q] == s.procs[q]
    ensures LedTo(s', e, m)
  {
    if Leads(s, e, m) {
      var q :| q in s.procs && Leader(s.procs[q], e, m);
      assert q in s'.procs && Leader(s'.procs[q], e, m);
    }
  }

  lemma AdvanceLedTo(s: State, p: nat, e: nat, m: nat)
    requires Inv(s) && p in s.procs && Passed(s.k, s.procs[p]) && Move(s.k, s.procs[p]).Moved?
    requires e >= 2 && LedTo(s, e, m) && OwnBatches(AdvanceProc(s, p).k, e)
    ensures Led(AdvanceProc(s, p), e)
  {
    var proc, s' := s.procs[p], AdvanceProc(s, p);
    IndexMoves(s.k, proc);
    if proc.e == e && s'.k.index != s.k.index {
      WriterLeads(s.k, proc, m);
      assert p in s'.procs && Leader(s'.procs[p], e, m + 1);
      assert LedTo(s', e, m + 1);
    } else {
      assert Prefix(s'.k, e, m);
      if 0 < m < INDEX_POOL_MAX && Leader(proc, e, m) {
        LeaderStays(s.k, proc, m);
        assert p in s'.procs && Leader(s'.procs[p], e, m);
      } else if 0 < m < INDEX_POOL_MAX {
        OthersLead(s, s', e, m, p);
      }
      assert LedTo(s', e, m);
    }
  }

  lemma AdvanceKeepsBatches(s: State, p: nat)
    requires Inv(s) && BatchInv(s) && p in s.procs && Move(s.k, s.procs[p]).Moved?
    ensures BatchInv(AdvanceProc(s, p))
  {
    var s' := AdvanceProc(s, p);
    AdvanceKeepsInv(s, p);
    forall e: nat | e >= 2 && OwnBatches(s'.k, e) ensures Led(s', e) {
      OwnBatchesBefore(s.k, s'.k, e);
      var m: nat :| LedTo(s, e, m);
      AdvanceLedTo(s, p, e, m);
    }
    forall q | q in s'.procs ensures Passed(s'.k, s'.procs[q]) {
      if q == p {
        MovePassed(s.k, s.procs[p]);
      } else {
        PassedStable(s.k, s'.k, s.procs[q]);
      }
    }
    MoveCopied(s.k, s.procs[p], s'.k);
  }

  /** A process that has not moved has passed nothing. */
  lemma SpawnsPassed(s: State, ev: Event, p: nat)
    requires BatchInv(s) && !ev.Advance? && p in Step(s, ev).procs
    ensures Passed(Step(s, ev).k, Step(s, ev).procs[p])
  {
    if p in s.procs {
      assert Passed(s.k, s.procs[p]);
    }
  }

  lemma OthersKeepBatches(s: State, ev: Event)
    requires BatchInv(s) && !ev.Advance?
    ensures BatchInv(Step(s, ev))
  {
    var s' := Step(s, ev);
    OthersAreQuiet(s, ev);
    forall e: nat | e >= 2 && OwnBatches(s'.k, e) ensures Led(s', e) {
      assert OwnBatches(s.k, e);
      var m: nat :| LedTo(s, e, m);
      if Leads(s, e, m) {
        var q :| q in s.procs && Leader(s.procs[q], e, m);
        assert q in s'.procs && Leader(s'.procs[q], e, m);
      }
      assert LedTo(s', e, m);
    }
    forall p | p in s'.procs ensures Passed(s'.k, s'.procs[p]) {
      SpawnsPassed(s, ev, p);
    }
  }

  // ----- over every run -----

  ghost predicate Deep(s: State)
  {
    Inv(s) && DutyInv(s) && BatchInv(s)
  }

  lemma InitialIsDeep()
    ensures Deep(Initial)
  {
    RunInv([]);
    forall e: nat | e >= 2 ensures Led(Initial, e) {
      assert LedTo(Initial, e, 0);
    }
  }

  lemma StepKeepsDeep(s: State, ev: Event)
    requires Deep(s)
    ensures Deep(Step(s, ev)) && Extends(s.k, Step(s, ev).k)
  {
    StepKeepsInv(s, ev);
    StepKeepsDuties(s, ev);
    if ev.Advance? {
      if ev.p in s.procs && Runnable(s.procs[ev.p]) && Move(s.k, s.procs[ev.p]).Moved? {
        AdvanceKeepsBatches(s, ev.p);
      }
    } else {
      OthersKeepBatches(s, ev);
    }
  }

  lemma {:induction false} RunIsDeep(events: seq<Event>)
    ensures Deep(Run(events))
  {
    if events == [] {
      InitialIsDeep();
    } else {
      RunIsDeep(events[..|events| - 1]);
      StepKeepsDeep(Run(events[..|events| - 1]), events[|events| - 1]);
    }
  }

  lemma WritesBatch(k: Kanban, p: Proc)
    requires StoreInv(k) && ProcInv(k, p) && Writes(k, p)
    ensures p.skipped < p.i && p.e >= 2 && MoveIndexer(k, p).Moved? && Slot(p.e, p.i) in MoveIndexer(k, p).k.index
    ensures var d := MoveIndexer(k, p).k.index[Slot(p.e, p.i)];
      d == IndexVal(p.e, p.i - p.skipped) && (d == IndexVal(p.e, p.i) <==> p.skipped == 0)
  {
    IndexerBuilds(k, p);
    if IndexVal(p.e, p.i - p.skipped) == IndexVal(p.e, p.i) {
      IndexValDistinct(p.e, p.i - p.skipped, p.e, p.i);
    }
  }

  lemma RunThen(events: seq<Event>, ev: Event)
    ensures Run(events + [ev]) == Step(Run(events), ev)
  {
    assert (events + [ev])[..|events|] == events;
  }

  /** In every run, a shard that an indexer writes holds the batch that lies as many places
      before it as the indexer skipped shards: its own batch exactly if it skipped none. */
  lemma WrittenShard(events: seq<Event>, s: State, p: nat, s': State)
    requires s == Run(events) && p in s.procs && Writes(s.k, s.procs[p]) && s' == Run(events + [Advance(p)])
    ensures var w := s.procs[p]; w.e >= 2 && w.skipped < w.i && Slot(w.e, w.i) in s'.k.index
    ensures var w := s.procs[p]; var d := s'.k.index[Slot(w.e, w.i)];
      d == IndexVal(w.e, w.i - w.skipped) && (d == IndexVal(w.e, w.i) <==> w.skipped == 0)
  {
    RunInv(events);
    RunThen(events, Advance(p));
    assert ProcInv(s.k, s.procs[p]);
    WritesBatch(s.k, s.procs[p]);
  }

  /** In every run, as long as the written shards of an epoch have their own batches, they are
      the first ones, and if some but not all are written, one indexer wrote them all and
      stands before the next. */
  lemma OneIndexerLeads(events: seq<Event>, e: nat) returns (m: nat)
    requires e >= 2 && OwnBatches(Run(events).k, e)
    ensures m <= INDEX_POOL_MAX && Prefix(Run(events).k, e, m)
    ensures 0 < m < INDEX_POOL_MAX ==> Leads(Run(events), e, m)
  {
    RunIsDeep(events);
    assert Led(Run(events), e);
    m :| LedTo(Run(events), e, m);
  }

  // ----- who may wait for whom -----

  lemma IndexIsThere(k: Kanban, e: nat, i: nat)
    requires StoreInv(k) && 2 <= e < k.epoch && 1 <= i <= INDEX_POOL_MAX
    ensures Slot(e, i) in k.index && k.index[Slot(e, i)] == IndexVal(e, i)
  {
    assert Finished(k, e);
  }

  /** From epoch 3 on, every global index of a closed epoch is there, but for the last shard
      of epoch 2. */
  lemma GlobalIsThere(k: Kanban, e: nat, i: nat)
    requires StoreInv(k) && CopiedInv(k) && 2 <= e < k.epoch && 1 <= i <= INDEX_POOL_MAX
    requires e == 2 ==> i < INDEX_POOL_MAX
    ensures Slot(e, i) in k.globals
  {
    if e == 2 {
      IndexIsThere(k, 2, i + 1);
    } else {
      ClosedGlobal(k, e, i);
    }
  }

  lemma ClosedGlobal(k: Kanban, e: nat, i: nat)
    requires ClosedOk(k) && 3 <= e < k.epoch && 1 <= i <= INDEX_POOL_MAX
    ensures Slot(e, i) in k.globals
  {
    assert Finished(k, e);
  }

  /** The index of a still open epoch, or the last index of epoch 2 before it is copied. */
  ghost predicate Missing(k: Kanban, p: Proc)
  {
    && p.Reducer?
    && if p.rphase.RReadIndex? then p.e == k.epoch && Slot(p.e, p.i) !in k.index
       else p.rphase.RReadGlobal? && p.e == 3 && p.i == INDEX_POOL_MAX && Slot(2, p.i) !in k.globals
  }

  lemma ReducerWaits(k: Kanban, p: Proc)
    requires StoreInv(k) && CopiedInv(k) && p.Reducer? && ProcInv(k, p)
    ensures MoveReducer(k, p).Blocked? <==> Missing(k, p)
  {
    if p.rphase.RReadIndex? && p.e < k.epoch {
      IndexIsThere(k, p.e, p.i);
    }
    if p.rphase.RReadGlobal? && !(p.e == 3 && p.i == INDEX_POOL_MAX) {
      GlobalIsThere(k, p.e - 1, p.i);
    }
  }

  /** In every run a process is blocked exactly if it is a reducer that wants the index of its
      own, still open epoch, or, in epoch 3, the last global index of epoch 2, and finds it
      missing.  In the second case some indexer has it and still has to copy it. */
  lemma WhoWaits(events: seq<Event>, p: nat)
    requires p in Run(events).procs
    ensures var s := Run(events); Runnable(s.procs[p]) && (Move(s.k, s.procs[p]).Blocked? <==> Missing(s.k, s.procs[p]))
    ensures var s := Run(events);
      Missing(s.k, s.procs[p]) && s.procs[p].rphase.RReadGlobal? ==> Owed(s, Seed(INDEX_POOL_MAX))
  {
    var s := Run(events);
    RunIsDeep(events);
    var proc := s.procs[p];
    assert ProcInv(s.k, proc);
    match proc
    case Crawler(_, _, _, _) => CrawlerStep(s.k, proc);
    case Indexer(_, _, _, _, _) => IndexerStep(s.k, proc);
    case Reducer(_, _, _) =>
      ReducerWaits(s.k, proc);
      if Missing(s.k, proc) && proc.rphase.RReadGlobal? {
        IndexIsThere(s.k, 2, INDEX_POOL_MAX);
        assert Due(s.k, Seed(INDEX_POOL_MAX));
      }
  }
}
