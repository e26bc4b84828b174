/**
 The pipeline with an indexer's test of a shard key and its write of that key as two
 accesses, so that other processes may act between them.

 A run in which every index write finds its key still free is a run of `Pipeline`, and every
 run of `Pipeline` is such a run, so everything proved there holds for exactly these runs.  In
 other runs a shard may be overwritten with another batch; what was written stays exactly if
 every write finds its key free or holding the same batch.
 */
module TestAndWrite {
  import opened Common
  import opened Pipeline
  import opened PipelineSafety
  import opened Duties
  import opened Progress
  import opened AuditTheorem

  /** A state, and the indexers that found their shard missing and have not written it yet. */
  datatype Fine = Fine(s: State, tested: set<nat>)

  /** Write a shard without testing it again. */
  ghost function PutShard(f: Fine, p: nat): Fine
    requires p in f.s.procs && f.s.procs[p].Indexer? && f.s.procs[p].e >= 1
  {
    var w := f.s.procs[p];
    if !BatchReady(f.s.k.items, w.e - 1, w.pos) then f else
      var d := BuildIndex(f.s.k.items, w.e - 1, w.pos);
      var k := f.s.k.(index := f.s.k.index[Slot(w.e, w.i) := d]);
      Fine(f.s.(k := k, procs := f.s.procs[p := w.(iphase := IAppend(d))]), f.tested - {p})
  }

  ghost function FineAdvance(f: Fine, p: nat): Fine
  {
    if p !in f.s.procs || !Runnable(f.s.procs[p]) || !AtTest(f.s.procs[p]) then Fine(AdvanceProc(f.s, p), f.tested)
    else if p in f.tested then PutShard(f, p)
    else if Slot(f.s.procs[p].e, f.s.procs[p].i) in f.s.k.index then Fine(AdvanceProc(f.s, p), f.tested)
    else Fine(f.s, f.tested + {p})
  }

  ghost function FineStep(f: Fine, ev: Event): Fine
  {
    if ev.Advance? then FineAdvance(f, ev.p) else Fine(Step(f.s, ev), f.tested)
  }

  ghost function FineAll(f: Fine, events: seq<Event>): Fine
  {
    if events == [] then f else FineStep(FineAll(f, events[..|events| - 1]), events[|events| - 1])
  }

  ghost function FineRun(events: seq<Event>): Fine
  {
    FineAll(Fine(Initial, {}), events)
  }

  /** The shard that the process is about to test or write is written. */
  ghost predicate Taken(s: State, p: nat)
  {
    p in s.procs && AtTest(s.procs[p]) && Slot(s.procs[p].e, s.procs[p].i) in s.k.index
  }

  /** The event is an index write that finds its key taken. */
  ghost predicate Clashes(f: Fine, ev: Event)
  {
    ev.Advance? && ev.p in f.tested && Taken(f.s, ev.p)
  }

  ghost predicate CalmAll(f: Fine, events: seq<Event>)
  {
    events != [] ==>
      && CalmAll(f, events[..|events| - 1])
      && !Clashes(FineAll(f, events[..|events| - 1]), events[|events| - 1])
  }

  /** Every index write of the run finds its key free. */
  ghost predicate Undisturbed(events: seq<Event>)
  {
    CalmAll(Fine(Initial, {}), events)
  }

  // ----- sequences of events -----

  lemma {:induction false} FineAllAppend(f: Fine, a: seq<Event>, b: seq<Event>)
    ensures FineAll(f, a + b) == FineAll(FineAll(f, a), b)
    ensures CalmAll(f, a + b) <==> CalmAll(f, a) && CalmAll(FineAll(f, a), b)
    decreases |b|
  {
    if b == [] {
      assert a + b == a;
    } else {
      var front, last := b[..|b| - 1], b[|b| - 1];
      FineAllAppend(f, a, front);
      assert (a + b)[..|a + b| - 1] == a + front && (a + b)[|a + b| - 1] == last;
    }
  }

  ghost predicate CalmLeads(f: Fine, events: seq<Event>, g: Fine)
  {
    FineAll(f, events) == g && CalmAll(f, events)
  }

  ghost predicate Calmly(f: Fine, g: Fine)
  {
    exists events :: CalmLeads(f, events, g)
  }

  lemma CalmSelf(f: Fine)
    ensures Calmly(f, f)
  {
    assert CalmLeads(f, [], f);
  }

  lemma CalmStep(f: Fine, g: Fine, ev: Event)
    requires Calmly(f, g) && !Clashes(g, ev)
    ensures Calmly(f, FineStep(g, ev))
  {
    var x :| CalmLeads(f, x, g);
    assert (x + [ev])[..|x|] == x;
    assert CalmLeads(f, x + [ev], FineStep(g, ev));
  }

  lemma CalmTrans(f: Fine, g: Fine, h: Fine)
    requires Calmly(f, g) && Calmly(g, h)
    ensures Calmly(f, h)
  {
    var x :| CalmLeads(f, x, g);
    var y :| CalmLeads(g, y, h);
    FineAllAppend(f, x, y);
    assert CalmLeads(f, x + y, h);
  }

  lemma RunCalmly(events: seq<Event>, g: Fine) returns (more: seq<Event>)
    requires Calmly(FineRun(events), g)
    ensures FineRun(events + more) == g && (Undisturbed(events) ==> Undisturbed(events + more))
  {
    more :| CalmLeads(FineRun(events), more, g);
    FineAllAppend(Fine(Initial, {}), events, more);
  }

  // ----- from separate accesses to single steps -----

  /** A step without a clash is a step of the pipeline, or a test that changes nothing. */
  lemma MergeStep(f: Fine, ev: Event)
    requires !Clashes(f, ev)
    ensures FineStep(f, ev).s == f.s || FineStep(f, ev).s == Step(f.s, ev)
  {
  }

  lemma {:induction false} MergeAll(f: Fine, events: seq<Event>) returns (merged: seq<Event>)
    requires CalmAll(f, events)
    ensures StepAll(f.s, merged) == FineAll(f, events).s
  {
    if events == [] {
      merged := [];
    } else {
      var front, last := events[..|events| - 1], events[|events| - 1];
      var before := MergeAll(f, front);
      MergeStep(FineAll(f, front), last);
      if FineAll(f, events).s == FineAll(f, front).s {
        merged := before;
      } else {
        merged := before + [last];
        assert merged[..|merged| - 1] == before;
      }
    }
  }

  /** An undisturbed run ends where some run with single steps ends. */
  lemma UndisturbedIsRun(events: seq<Event>) returns (merged: seq<Event>)
    requires Undisturbed(events)
    ensures Run(merged) == FineRun(events).s
  {
    merged := MergeAll(Fine(Initial, {}), events);
    RunIsStepAll(merged);
  }

  /** The same for its continuations. */
  lemma UndisturbedGoesOn(events: seq<Event>, more: seq<Event>, merged: seq<Event>) returns (later: seq<Event>)
    requires Undisturbed(events + more) && Run(merged) == FineRun(events).s
    ensures Undisturbed(events) && Run(merged + later) == FineRun(events + more).s
  {
    FineAllAppend(Fine(Initial, {}), events, more);
    later := MergeAll(FineRun(events), more);
    RunIsStepAll(merged);
    StepAllAppend(Initial, merged, later);
    RunIsStepAll(merged + later);
  }

  // ----- from single steps to separate accesses -----

  /** The pending tests survive, but for that of the process that is advanced. */
  ghost predicate Others(f: Fine, g: Fine, ev: Event)
  {
    && g.tested <= f.tested
    && forall q :: q in f.tested && q in f.s.procs && ev != Advance(q) ==>
         q in g.tested && q in g.s.procs && g.s.procs[q] == f.s.procs[q]
  }

  /** A free shard is written in the same way with and without a test. */
  lemma WriteIsPut(f: Fine, p: nat)
    requires Inv(f.s) && p in f.s.procs && Writes(f.s.k, f.s.procs[p])
    ensures f.s.procs[p].e >= 1 && Runnable(f.s.procs[p])
    ensures PutShard(f, p) == Fine(AdvanceProc(f.s, p), f.tested - {p})
  {
    assert ProcInv(f.s.k, f.s.procs[p]);
    IndexerBuilds(f.s.k, f.s.procs[p]);
  }

  lemma SplitWrite(f: Fine, p: nat) returns (g: Fine)
    requires Inv(f.s) && p in f.s.procs && Writes(f.s.k, f.s.procs[p])
    ensures Calmly(f, g) && g == Fine(AdvanceProc(f.s, p), f.tested - {p})
  {
    WriteIsPut(f, p);
    CalmSelf(f);
    g := f;
    if p !in f.tested {
      CalmStep(f, f, Advance(p));
      g := FineStep(f, Advance(p));
      WriteIsPut(g, p);
      assert f.tested + {p} - {p} == f.tested - {p};
    }
    CalmStep(f, g, Advance(p));
    g := FineStep(g, Advance(p));
  }

  lemma OthersStay(f: Fine, g: Fine, ev: Event)
    requires g.s == Step(f.s, ev) && (g.tested == f.tested || (ev.Advance? && g.tested == f.tested - {ev.p}))
    ensures Others(f, g, ev)
  {
  }

  /** A step of the pipeline, as accesses that clash with none, unless it advances an indexer
      whose test is outdated. */
  lemma SplitStep(f: Fine, ev: Event) returns (g: Fine)
    requires Inv(f.s) && !Clashes(f, ev)
    ensures Calmly(f, g) && g.s == Step(f.s, ev) && Others(f, g, ev)
  {
    if ev.Advance? && ev.p in f.s.procs && Writes(f.s.k, f.s.procs[ev.p]) {
      g := SplitWrite(f, ev.p);
    } else {
      CalmSelf(f);
      CalmStep(f, f, ev);
      g := FineStep(f, ev);
    }
    OthersStay(f, g, ev);
  }

  /** Every run with single steps is an undisturbed run. */
  lemma {:induction false} RunIsUndisturbed(events: seq<Event>) returns (split: seq<Event>)
    ensures Undisturbed(split) && FineRun(split) == Fine(Run(events), {})
  {
    if events == [] {
      split := [];
    } else {
      var front, last := events[..|events| - 1], events[|events| - 1];
      var before := RunIsUndisturbed(front);
      RunInv(front);
      var g := SplitStep(FineRun(before), last);
      var more := RunCalmly(before, g);
      split := before + more;
    }
  }

  /** Outdated tests survive what no indexer skips. */
  ghost predicate Spares(f: Fine, g: Fine)
  {
    && g.tested <= f.tested
    && forall q :: q in f.tested && Taken(f.s, q) ==> q in g.tested && Taken(g.s, q) && g.s.procs[q] == f.s.procs[q]
  }

  lemma SparesStep(f: Fine, g: Fine, h: Fine, ev: Event)
    requires Spares(f, g) && Others(g, h, ev) && Polite(g.s, ev) && Extends(g.s.k, h.s.k)
    ensures Spares(f, h)
  {
    forall q | q in f.tested && Taken(f.s, q) ensures q in h.tested && Taken(h.s, q) && h.s.procs[q] == f.s.procs[q] {
      assert q in g.tested && Taken(g.s, q);
      assert ev != Advance(q);
    }
  }

  lemma {:induction false} SplitAll(f: Fine, events: seq<Event>) returns (g: Fine)
    requires Inv(f.s) && PoliteAll(f.s, events)
    ensures Calmly(f, g) && g.s == StepAll(f.s, events) && Inv(g.s) && Spares(f, g)
  {
    if events == [] {
      g := f;
      CalmSelf(f);
    } else {
      var front, last := events[..|events| - 1], events[|events| - 1];
      var a := SplitAll(f, front);
      StepKeepsInv(a.s, last);
      g := SplitStep(a, last);
      CalmTrans(f, a, g);
      SparesStep(f, a, g, last);
    }
  }

  lemma SplitReach(f: Fine, t: State) returns (g: Fine)
    requires Inv(f.s) && Reaches(f.s, t)
    ensures Calmly(f, g) && g.s == t && Spares(f, g)
  {
    var events :| Leading(f.s, events, t);
    g := SplitAll(f, events);
  }

  // ----- when written indexes stay -----

  ghost function IndexAt(events: seq<Event>, n: nat): map<Slot, Data>
    requires n <= |events|
  {
    FineRun(events[..n]).s.k.index
  }

  /** No index that is written at some point of the run has another value later. */
  ghost predicate IndexesStay(events: seq<Event>)
  {
    forall n: nat, m: nat :: n <= m <= |events| ==> Kept(events, n, m)
  }

  ghost predicate Kept(events: seq<Event>, n: nat, m: nat)
    requires n <= |events| && m <= |events|
  {
    SubMap(IndexAt(events, n), IndexAt(events, m))
  }

  /** A clash that writes the batch that is there. */
  ghost predicate Harmless(f: Fine, ev: Event)
  {
    Clashes(f, ev) ==>
      var w := f.s.procs[ev.p];
      Runnable(w) && BatchReady(f.s.k.items, w.e - 1, w.pos) ==>
        f.s.k.index[Slot(w.e, w.i)] == BuildIndex(f.s.k.items, w.e - 1, w.pos)
  }

  /** Every index write of the run finds its key free or holding the batch that it writes. */
  ghost predicate HarmlessAll(events: seq<Event>)
  {
    forall n: nat :: n < |events| ==> Harmless(FineRun(events[..n]), events[n])
  }

  lemma HarmlessStep(f: Fine, ev: Event)
    ensures SubMap(f.s.k.index, FineStep(f, ev).s.k.index) <==> Harmless(f, ev)
  {
    if ev.Advance? && ev.p in f.s.procs && Runnable(f.s.procs[ev.p]) && !AtTest(f.s.procs[ev.p])
       && Move(f.s.k, f.s.procs[ev.p]).Moved? {
      NoIndexWrite(f.s.k, f.s.procs[ev.p]);
    }
  }

  lemma NextIndex(events: seq<Event>, n: nat)
    requires n < |events|
    ensures FineRun(events[..n + 1]) == FineStep(FineRun(events[..n]), events[n])
  {
    assert events[..n + 1][..n] == events[..n];
  }

  ghost predicate KeptByAll(events: seq<Event>)
  {
    forall n: nat :: n < |events| ==> KeptStep(events, n)
  }

  ghost predicate KeptStep(events: seq<Event>, n: nat)
    requires n < |events|
  {
    Kept(events, n, n + 1)
  }

  lemma KeptSelf(events: seq<Event>, n: nat)
    requires n <= |events|
    ensures Kept(events, n, n)
  {
  }

  lemma {:induction false} KeptOn(events: seq<Event>, n: nat, m: nat)
    requires KeptByAll(events) && n <= m <= |events|
    ensures Kept(events, n, m)
    decreases m - n
  {
    if n == m {
      KeptSelf(events, n);
    } else {
      KeptOn(events, n, m - 1);
      assert KeptStep(events, m - 1);
      KeptTrans(events, n, m - 1, m);
    }
  }

  lemma KeptTrans(events: seq<Event>, n: nat, l: nat, m: nat)
    requires n <= |events| && l <= |events| && m <= |events| && Kept(events, n, l) && Kept(events, l, m)
    ensures Kept(events, n, m)
  {
    SubMapTrans(IndexAt(events, n), IndexAt(events, l), IndexAt(events, m));
  }

  lemma HarmlessNext(events: seq<Event>, n: nat)
    requires n < |events| && Harmless(FineRun(events[..n]), events[n])
    ensures Kept(events, n, n + 1)
  {
    NextIndex(events, n);
    HarmlessStep(FineRun(events[..n]), events[n]);
  }

  lemma SubMapTrans(a: map<Slot, Data>, b: map<Slot, Data>, c: map<Slot, Data>)
    requires SubMap(a, b) && SubMap(b, c)
    ensures SubMap(a, c)
  {
  }

  /** For every run: no written index ever changes exactly if every index write finds its key
      free or holding the same batch already. */
  lemma IndexesStayExactly(events: seq<Event>)
    ensures IndexesStay(events) <==> HarmlessAll(events)
  {
    if HarmlessAll(events) {
      forall n: nat | n < |events| ensures KeptStep(events, n) {
        HarmlessNext(events, n);
      }
      forall n: nat, m: nat | n <= m <= |events| ensures Kept(events, n, m) {
        KeptOn(events, n, m);
      }
    }
    if IndexesStay(events) {
      forall n: nat | n < |events| ensures Harmless(FineRun(events[..n]), events[n]) {
        NextIndex(events, n);
        assert Kept(events, n, n + 1);
        HarmlessStep(FineRun(events[..n]), events[n]);
      }
    }
  }

  // ----- what holds of every undisturbed run -----

  lemma UndisturbedIsDeep(events: seq<Event>)
    requires Undisturbed(events)
    ensures Deep(FineRun(events).s)
  {
    var merged := UndisturbedIsRun(events);
    RunIsDeep(merged);
  }

  lemma UndisturbedStore(events: seq<Event>, k: Kanban)
    requires Undisturbed(events) && k == FineRun(events).s.k
    ensures StoreInv(k)
  {
    UndisturbedIsDeep(events);
  }

  /** The audit of served hashes passes exactly if they name every shard of the last closed epoch. */
  lemma AuditsExactly(events: seq<Event>, k: Kanban, served: seq<Served>)
    requires Undisturbed(events) && k == FineRun(events).s.k && k.epoch >= 3 && ServedOk(k, served)
    ensures PassesInFull(k, served) <==> FreshAndComplete(k, served)
  {
    UndisturbedStore(events, k);
    AuditIsExactAt(k, served);
  }

  /** No written value changes. */
  lemma NothingChanges(events: seq<Event>, more: seq<Event>, k: Kanban, k': Kanban)
    requires Undisturbed(events + more) && k == FineRun(events).s.k && k' == FineRun(events + more).s.k
    ensures Extends(k, k')
  {
    FineAllAppend(Fine(Initial, {}), events, more);
    var merged := UndisturbedIsRun(events);
    var later := UndisturbedGoesOn(events, more, merged);
    NothingIsOverwritten(merged, later);
  }

  /** Every closed epoch holds the expected data, key set and root hash, for good. */
  lemma ClosedForGood(events: seq<Event>, more: seq<Event>, k: Kanban, k': Kanban, e: nat)
    requires Undisturbed(events + more) && k == FineRun(events).s.k && k' == FineRun(events + more).s.k
    requires 1 <= e < k.epoch
    ensures Finished(k, e) && Finished(k', e) && RootedOk(k', e)
  {
    FineAllAppend(Fine(Initial, {}), events, more);
    UndisturbedIsDeep(events);
    UndisturbedIsDeep(events + more);
    NothingChanges(events, more, k, k');
  }

  /** A process waits exactly for the values that `Missing` names. */
  lemma WaitsExactly(events: seq<Event>, s: State, p: nat)
    requires Undisturbed(events) && s == FineRun(events).s && p in s.procs
    ensures Runnable(s.procs[p]) && (Move(s.k, s.procs[p]).Blocked? <==> Missing(s.k, s.procs[p]))
  {
    var merged := UndisturbedIsRun(events);
    WhoWaits(merged, p);
  }

  /** Some undisturbed continuation closes the open epoch. */
  ghost predicate CanCloseCalmly(events: seq<Event>)
  {
    exists more :: Undisturbed(events + more) && FineRun(events + more).s.k.epoch > FineRun(events).s.k.epoch
  }

  lemma ClosesCalmly(events: seq<Event>, f: Fine)
    requires Undisturbed(events) && f == FineRun(events) && f.s.k.epoch >= 1 && OwnBatches(f.s.k, f.s.k.epoch)
    ensures CanCloseCalmly(events)
  {
    UndisturbedIsDeep(events);
    var t := Closes(f.s);
    var g := SplitReach(f, t);
    var more := RunCalmly(events, g);
  }

  lemma StallsCalmly(events: seq<Event>, more: seq<Event>, k: Kanban)
    requires Undisturbed(events + more) && k == FineRun(events).s.k && !OwnBatches(k, k.epoch)
    ensures FineRun(events + more).s.k.epoch == k.epoch
  {
    FineAllAppend(Fine(Initial, {}), events, more);
    var merged := UndisturbedIsRun(events);
    var later := UndisturbedGoesOn(events, more, merged);
    WrongBatchStalls(merged, later);
  }

  /** The open epoch can still be closed without a clash exactly if no written shard of it has a
      wrong batch. */
  lemma CanStillCloseCalmly(events: seq<Event>)
    requires Undisturbed(events) && FineRun(events).s.k.epoch >= 1
    ensures CanCloseCalmly(events) <==> OwnBatches(FineRun(events).s.k, FineRun(events).s.k.epoch)
  {
    var k := FineRun(events).s.k;
    if OwnBatches(k, k.epoch) {
      ClosesCalmly(events, FineRun(events));
    } else {
      forall more | Undisturbed(events + more) ensures FineRun(events + more).s.k.epoch == k.epoch {
        StallsCalmly(events, more, k);
      }
    }
  }
}
