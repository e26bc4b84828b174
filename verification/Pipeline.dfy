/**
 The epoch pipeline: manager, crawlers, indexers and reducers that share nothing but
 the Kanban store.

 A run is any interleaving of the steps of any number of processes.  A step is one
 access to Kanban: processes check a key, read, write and append their witness in
 separate steps, keep the epoch they read at the start of a pass, and may stop for ever
 at any point.  Only three groups of accesses are taken as one step: an indexer's test
 that an index key is absent with the write that follows, the manager's update of the
 epoch with the block counter of that epoch, and the two writes that file a witness.

 SHA-256 is perfect here: the hash of a datum is represented by the datum itself, and a
 datum is the term that says how it was computed.
 */
module Pipeline {

  import opened Common

  /** A datum, as the computation that yields it. */
  datatype Data =
    | Block(id: nat)                          // a downloaded block
    | Posts(blocks: seq<Data>)                // crawler output: the posts of a batch of blocks
    | Index(posts: seq<Data>)                 // indexer output over a batch of posts
    | Merged(prior: Data, newer: Data)        // reducer output

  /** The inputs that the witness of `d` lists. */
  function Inputs(d: Data): seq<Data>
  {
    match d
    case Block(_) => []
    case Posts(blocks) => blocks
    case Index(posts) => posts
    case Merged(prior, newer) => [prior, newer]
  }

  /** The part `#EPOCH[e]-v[i]` of a Kanban key. */
  datatype Slot = Slot(e: nat, i: nat)

  datatype Kanban = Kanban(
    epoch: nat,                               // 0 before the first epoch is published
    blockId: nat,
    items: map<Slot, Data>,
    index: map<Slot, Data>,
    globals: map<Slot, Data>,
    witnessed: set<Data>,                     // outputs that have a witness
    keys: map<nat, set<Data>>,                // WITNESS-#EPOCH[e]
    root: map<nat, set<Data>>                 // ROOT-HASH-#EPOCH[e]
  )

  function KeysAt(k: Kanban, e: nat): set<Data>
  {
    if e in k.keys then k.keys[e] else {}
  }

  /** Put the witness of `d` in the witness folder, then its key in the epoch's set. */
  function AppendWitness(k: Kanban, e: nat, d: Data): Kanban
  {
    k.(witnessed := k.witnessed + {d}, keys := k.keys[e := KeysAt(k, e) + {d}])
  }

  // ----- what the tasks compute -----

  function BlockRange(after: nat, n: nat): seq<Data>
  {
    seq(n, j requires 0 <= j < n => Block(after + j + 1))
  }

  function Crawl(blockId: nat, i: nat): Data
    requires i >= 1
  {
    Posts(BlockRange(blockId + (i - 1) * ITEMS_BULK_MAX, ITEMS_BULK_MAX))
  }

  predicate BatchReady(items: map<Slot, Data>, e: nat, pos: nat)
  {
    forall j :: pos <= j < pos + INDEX_BULK_MAX ==> Slot(e, j) in items
  }

  function BuildIndex(items: map<Slot, Data>, e: nat, pos: nat): Data
    requires BatchReady(items, e, pos)
  {
    Index(seq(INDEX_BULK_MAX, j requires 0 <= j < INDEX_BULK_MAX => items[Slot(e, pos + j)]))
  }

  // ----- processes -----

  datatype CrawlPhase = CCheck | CPut | CAppend
  datatype IndexPhase = ICheckPut | IAppend(d: Data) | ICopy(d: Data)
  datatype ReducePhase = RCheck | RReadGlobal | RReadIndex(g: Data) | RPut(g: Data, n: Data) | RAppend(g: Data, n: Data)

  datatype Proc =
    | Crawler(e: nat, blockId: nat, i: nat, cphase: CrawlPhase)
    | Indexer(e: nat, i: nat, pos: nat, skipped: nat, iphase: IndexPhase)
    | Reducer(e: nat, i: nat, rphase: ReducePhase)

  /** The outcome of one step of a process: a new store and the rest of the pass (none
      at its end), or a read that finds no value yet. */
  datatype Moved = Moved(k: Kanban, next: Option<Proc>) | Blocked

  function MoveCrawler(k: Kanban, p: Proc): Moved
    requires p.Crawler? && p.i >= 1
  {
    var later := if p.i < ITEMS_POOL_MAX then Some(p.(i := p.i + 1, cphase := CCheck)) else None;
    match p.cphase
    case CCheck =>
      if Slot(p.e, p.i) in k.items then Moved(k, later) else Moved(k, Some(p.(cphase := CPut)))
    case CPut =>
      Moved(k.(items := k.items[Slot(p.e, p.i) := Crawl(p.blockId, p.i)]), Some(p.(cphase := CAppend)))
    case CAppend =>
      Moved(AppendWitness(k, p.e, Crawl(p.blockId, p.i)), later)
  }

  /** A skipped shard leaves `pos` where it is, so the shards after it get an earlier batch.
      The field `skipped` counts them; no step depends on it. */
  function MoveIndexer(k: Kanban, p: Proc): Moved
    requires p.Indexer? && p.e >= 1
  {
    var past := if p.i < INDEX_POOL_MAX
      then Some(p.(i := p.i + 1, skipped := p.skipped + 1, iphase := ICheckPut)) else None;
    var done := if p.i < INDEX_POOL_MAX
      then Some(p.(i := p.i + 1, pos := p.pos + INDEX_BULK_MAX, iphase := ICheckPut)) else None;
    match p.iphase
    case ICheckPut =>
      if Slot(p.e, p.i) in k.index then Moved(k, past)
      else if BatchReady(k.items, p.e - 1, p.pos) then
        var d := BuildIndex(k.items, p.e - 1, p.pos);
        Moved(k.(index := k.index[Slot(p.e, p.i) := d]), Some(p.(iphase := IAppend(d))))
      else Blocked
    case IAppend(d) =>
      Moved(AppendWitness(k, p.e, d), if p.e == 2 then Some(p.(iphase := ICopy(d))) else done)
    case ICopy(d) =>
      Moved(k.(globals := k.globals[Slot(p.e, p.i) := d]), done)
  }

  function MoveReducer(k: Kanban, p: Proc): Moved
    requires p.Reducer? && p.e >= 1
  {
    var later := if p.i < INDEX_POOL_MAX then Some(p.(i := p.i + 1, rphase := RCheck)) else None;
    match p.rphase
    case RCheck =>
      if Slot(p.e, p.i) in k.globals then Moved(k, later) else Moved(k, Some(p.(rphase := RReadGlobal)))
    case RReadGlobal =>
      if Slot(p.e - 1, p.i) in k.globals
      then Moved(k, Some(p.(rphase := RReadIndex(k.globals[Slot(p.e - 1, p.i)])))) else Blocked
    case RReadIndex(g) =>
      if Slot(p.e, p.i) in k.index
      then Moved(k, Some(p.(rphase := RPut(g, k.index[Slot(p.e, p.i)])))) else Blocked
    case RPut(g, n) =>
      Moved(k.(globals := k.globals[Slot(p.e, p.i) := Merged(g, n)]), Some(p.(rphase := RAppend(g, n))))
    case RAppend(g, n) =>
      Moved(AppendWitness(k, p.e, Merged(g, n)), later)
  }

  predicate Runnable(p: Proc)
  {
    p.e >= 1 && p.i >= 1
  }

  function Move(k: Kanban, p: Proc): Moved
    requires Runnable(p)
  {
    match p
    case Crawler(_, _, _, _) => MoveCrawler(k, p)
    case Indexer(_, _, _, _, _) => MoveIndexer(k, p)
    case Reducer(_, _, _) => MoveReducer(k, p)
  }

  // ----- the manager and whole runs -----

  /** Where the manager is in closing the current epoch. */
  datatype Manager = Waiting | Counted(seen: set<Data>) | Rooted

  function ExpectedKeySize(e: nat): nat
  {
    if e == 1 then ITEMS_POOL_MAX
    else if e == 2 then ITEMS_POOL_MAX + INDEX_POOL_MAX
    else ITEMS_POOL_MAX + INDEX_POOL_MAX * 2
  }

  datatype State = State(k: Kanban, procs: map<nat, Proc>, manager: Manager)

  datatype Event =
    | InitEpoch
    | CountKeys                               // the manager reads a large enough key set
    | WriteRoot                               // the manager writes the root hash
    | PublishEpoch                            // the manager publishes the next epoch
    | StartCrawler(p: nat)
    | StartIndexer(p: nat)
    | StartReducer(p: nat)
    | Advance(p: nat)

  const InitialKanban := Kanban(0, START_STEEM_BLOCK_ID, map[], map[], map[], {}, map[], map[])
  const Initial := State(InitialKanban, map[], Waiting)

  function Spawn(s: State, p: nat, proc: Proc): State
  {
    if p in s.procs then s else s.(procs := s.procs[p := proc])
  }

  function AdvanceProc(s: State, p: nat): State
  {
    if p !in s.procs || !Runnable(s.procs[p]) then s
    else match Move(s.k, s.procs[p])
      case Blocked => s
      case Moved(k, Some(q)) => s.(k := k, procs := s.procs[p := q])
      case Moved(k, None) => s.(k := k, procs := s.procs - {p})
  }

  /** One event; an event that is not enabled leaves the state as it is. */
  function Step(s: State, ev: Event): State
  {
    match ev
    case InitEpoch => if s.k.epoch == 0 then s.(k := s.k.(epoch := 1)) else s
    case CountKeys =>
      if s.manager == Waiting && s.k.epoch >= 1 && |KeysAt(s.k, s.k.epoch)| >= ExpectedKeySize(s.k.epoch)
      then s.(manager := Counted(KeysAt(s.k, s.k.epoch))) else s
    case WriteRoot =>
      if s.manager.Counted?
      then s.(k := s.k.(root := s.k.root[s.k.epoch := s.manager.seen]), manager := Rooted) else s
    case PublishEpoch =>
      if s.manager == Rooted
      then s.(k := s.k.(epoch := s.k.epoch + 1, blockId := s.k.blockId + ITEMS_BULK_MAX * ITEMS_POOL_MAX),
              manager := Waiting) else s
    case StartCrawler(p) => if s.k.epoch < 1 then s else Spawn(s, p, Crawler(s.k.epoch, s.k.blockId, 1, CCheck))
    case StartIndexer(p) => if s.k.epoch < 2 then s else Spawn(s, p, Indexer(s.k.epoch, 1, 1, 0, ICheckPut))
    case StartReducer(p) => if s.k.epoch < 3 then s else Spawn(s, p, Reducer(s.k.epoch, 1, RCheck))
    case Advance(p) => AdvanceProc(s, p)
  }

  function Run(events: seq<Event>): State
  {
    if events == [] then Initial else Step(Run(events[..|events| - 1]), events[|events| - 1])
  }

  // ----- the values a closed epoch must hold -----

  function BlockIdAt(e: nat): nat
    requires e >= 1
  {
    START_STEEM_BLOCK_ID + (e - 1) * (ITEMS_BULK_MAX * ITEMS_POOL_MAX)
  }

  function ItemsVal(e: nat, i: nat): Data
    requires e >= 1 && i >= 1
  {
    Crawl(BlockIdAt(e), i)
  }

  /** The index over the `b`-th batch of items of the epoch before `e`. */
  function IndexVal(e: nat, b: nat): Data
    requires e >= 2 && b >= 1
  {
    Index(seq(INDEX_BULK_MAX, j requires 0 <= j < INDEX_BULK_MAX => ItemsVal(e - 1, FirstItem(b) + j)))
  }

  function FirstItem(b: nat): nat
    requires b >= 1
  {
    (b - 1) * INDEX_BULK_MAX + 1
  }

  function GlobalVal(e: nat, i: nat): Data
    requires e >= 2 && i >= 1
  {
    if e == 2 then IndexVal(2, i) else Merged(GlobalVal(e - 1, i), IndexVal(e, i))
  }

  ghost function ItemKeys(e: nat): set<Data>
    requires e >= 1
  {
    set i: nat | 1 <= i <= ITEMS_POOL_MAX :: ItemsVal(e, i)
  }

  ghost function IndexKeys(e: nat): set<Data>
    requires e >= 1
  {
    if e < 2 then {} else set b: nat | 1 <= b <= INDEX_POOL_MAX :: IndexVal(e, b)
  }

  ghost function GlobalKeys(e: nat): set<Data>
    requires e >= 1
  {
    if e < 3 then {} else set i: nat | 1 <= i <= INDEX_POOL_MAX :: GlobalVal(e, i)
  }

  ghost function ExpectedKeys(e: nat): set<Data>
    requires e >= 1
  {
    ItemKeys(e) + IndexKeys(e) + GlobalKeys(e)
  }
}
