/**
 Queriers: which shard of which epoch each serves, and what that means for an audit.

 At every new epoch a querier draws a number from the shared counter and serves the shard
 that the number selects, from the last closed epoch.
 */
module Queriers {
  import opened Common
  import opened Pipeline
  import opened PipelineSafety
  import opened AuditTheorem
  import opened Progress

  /** The shard of the querier that drew `counter`. */
  function ShardOf(counter: nat): (i: nat)
    ensures 1 <= i <= INDEX_POOL_MAX
  {
    counter % INDEX_POOL_MAX + 1
  }

  /** A querier: the shard it drew, the epoch it last set up for, the global index it waits
      for and the one it serves. */
  class Querier {
    var id: nat
    var lastEpoch: nat
    var seen: nat
    var wanted: Option<Slot>
    var serves: Option<Served>

    ghost predicate Valid(k: Kanban)
      reads this
    {
      && (wanted.Some? ==> wanted.value.i == id && 1 <= id <= INDEX_POOL_MAX && 2 <= wanted.value.e < k.epoch)
      && (serves.Some? ==> 2 <= serves.value.e < k.epoch && 1 <= serves.value.i <= INDEX_POOL_MAX)
    }

    constructor (k: Kanban)
      ensures Valid(k) && id == 0 && lastEpoch == 0 && seen == 0 && wanted == None && serves == None
    {
      id, lastEpoch, seen, wanted, serves := 0, 0, 0, None, None;
    }

    /** The update loop saw epoch `e`; if that is a new one, the set-up reads the epoch again,
        which may have grown, and draws a shard. */
    method SetUp(e: nat, k: Kanban, counter: nat) returns (counter': nat)
      requires Valid(k) && wanted.None? && e <= k.epoch
      modifies this
      ensures Valid(k) && serves == old(serves) && lastEpoch == old(lastEpoch)
      ensures if e >= 3 && e != lastEpoch
              then counter' == counter + 1 && seen == e
                   && wanted == Some(Slot(k.epoch - 1, counter' % INDEX_POOL_MAX + 1))
              else counter' == counter && wanted == None
    {
      counter' := counter;
      if e >= 3 && e != lastEpoch {
        counter' := counter + 1;
        id := ShardOf(counter');
        wanted := Some(Slot(k.epoch - 1, id));
        seen := e;
      }
    }

    /** Try to read the wanted global index; what is read is the index of that shard and epoch. */
    method Read(k: Kanban) returns (index: Option<Data>)
      requires Valid(k) && StoreInv(k) && wanted.Some?
      modifies this
      ensures Valid(k)
      ensures var w := old(wanted).value;
        if w in k.globals
        then index == Some(GlobalVal(w.e, w.i)) && serves == Some(Served(w.e, w.i))
             && wanted == None && lastEpoch == old(seen)
        else index == None && serves == old(serves) && wanted == old(wanted) && lastEpoch == old(lastEpoch)
    {
      index := None;
      if wanted.value in k.globals {
        StoredIsGlobal(k, wanted.value.e, wanted.value.i);
        index := Some(k.globals[wanted.value]);
        serves := Some(Served(wanted.value.e, wanted.value.i));
        lastEpoch, wanted := seen, None;
      }
    }
  }

  lemma StoredIsGlobal(k: Kanban, e: nat, i: nat)
    requires StoreInv(k) && 2 <= e < k.epoch && 1 <= i <= INDEX_POOL_MAX && Slot(e, i) in k.globals
    ensures k.globals[Slot(e, i)] == GlobalVal(e, i)
  {
    assert GlobalFrom(k, Slot(e, i), k.globals[Slot(e, i)]);
    assert Finished(k, e);
  }

  /** What `n` queriers serve that draw the numbers after `c` in one epoch. */
  ghost function RoundRobin(e: nat, c: nat, n: nat): (served: seq<Served>)
    ensures |served| == n && forall j :: 0 <= j < n ==> served[j] == Served(e, ShardOf(c + j + 1))
  {
    if n == 0 then [] else RoundRobin(e, c, n - 1) + [Served(e, ShardOf(c + n))]
  }

  /** Every shard is drawn by one of any four consecutive numbers. */
  lemma FourDraws(c: nat, i: nat) returns (j: nat)
    requires 1 <= i <= INDEX_POOL_MAX
    ensures j < INDEX_POOL_MAX && ShardOf(c + j + 1) == i
  {
    var q, r := c / 4, c % 4;
    assert c == 4 * q + r;
    j := if i >= r + 2 then i - r - 2 else i + 2 - r;
    if i >= r + 2 {
      Remainder(c + j + 1, q, i - 1);
    } else {
      Remainder(c + j + 1, q + 1, i - 1);
    }
  }

  lemma Remainder(n: nat, q: nat, r: nat)
    requires n == 4 * q + r && r < 4
    ensures n % 4 == r
  {
  }

  /** Consecutive draws cover all shards exactly if there are as many queriers as shards. */
  lemma RoundRobinCovers(e: nat, c: nat, n: nat)
    ensures ServesAll(RoundRobin(e, c, n), e) <==> n >= INDEX_POOL_MAX
  {
    var served := RoundRobin(e, c, n);
    if n >= INDEX_POOL_MAX {
      forall i: nat | 1 <= i <= INDEX_POOL_MAX ensures Served(e, i) in served {
        var j := FourDraws(c, i);
        assert served[j] == Served(e, i);
      }
    } else {
      var missing := ShardOf(c + n + 1);
      forall j | 0 <= j < |served| ensures served[j] != Served(e, missing) {
        assert ShardOf(c + j + 1) != ShardOf(c + n + 1);
      }
      assert Served(e, missing) !in served;
    }
  }

  lemma QueriersAt(k: Kanban, c: nat, n: nat)
    requires StoreInv(k) && k.epoch >= 3
    ensures PassesInFull(k, RoundRobin(k.epoch - 1, c, n)) <==> n >= INDEX_POOL_MAX
  {
    var served := RoundRobin(k.epoch - 1, c, n);
    RoundRobinCovers(k.epoch - 1, c, n);
    AuditIsExactAt(k, served);
  }

  /** In every run, at every epoch from 3 on: the results of queriers that drew consecutive
      numbers pass the audit together exactly if there is a querier for every shard. */
  lemma QueriersPassAudit(events: seq<Event>, k: Kanban, c: nat, n: nat)
    requires k == Run(events).k && k.epoch >= 3
    ensures PassesInFull(k, RoundRobin(k.epoch - 1, c, n)) <==> n >= INDEX_POOL_MAX
  {
    RunInv(events);
    QueriersAt(k, c, n);
  }

  lemma SeedsFrom(before: seq<Event>, s: State, e: nat) returns (events: seq<Event>, k: Kanban)
    requires s == Run(before) && Open(s) && s.k.epoch == e && e >= 3
    ensures k == Run(events).k && k.epoch == e && SeedsThere(k, e - 1)
  {
    var t := Seeds(s);
    var more := RunReaches(before, t);
    events, k := before + more, t.k;
  }

  /** Every epoch from 3 on is reached by a run in which every querier finds its global index. */
  lemma EveryIndexIsThere(e: nat) returns (events: seq<Event>, k: Kanban)
    requires e >= 3
    ensures k == Run(events).k && k.epoch == e && SeedsThere(k, e - 1)
  {
    var before, s := EveryEpochIsReached(e);
    events, k := SeedsFrom(before, s, e);
  }

  /** There the results of all shards pass the audit. */
  lemma EveryEpochIsServed(e: nat, c: nat) returns (events: seq<Event>, k: Kanban)
    requires e >= 3
    ensures k == Run(events).k && k.epoch == e && SeedsThere(k, e - 1)
    ensures PassesInFull(k, RoundRobin(e - 1, c, INDEX_POOL_MAX))
  {
    events, k := EveryIndexIsThere(e);
    QueriersPassAudit(events, k, c, INDEX_POOL_MAX);
  }
}
