# DeSearch, verified

DeSearch is a decentralized search engine. Executors (crawlers, indexers, reducers, queriers)
communicate only through a key-value store called Kanban; each writes its output and a signed
witness of what it read and wrote; a manager closes an epoch when enough witnesses are there;
and a client audits a query by walking the witnesses back to the crawled blocks. This project
models that protocol and the algorithms and encodings it stands on, and proves what they are
meant to guarantee.

`dafny verify dfyconfig.toml` checks the whole project.

## What is proved

**The epoch pipeline and its auditor** (`Pipeline`, `PipelineSafety`, `Duties`, `Progress`,
`Auditor`, `AuditTheorem`, `Queriers`, `RootHash`). A run is an interleaving of the steps of any
number of processes, which may hold stale epochs and stop anywhere; a step is one store access, but
for the three groups of accesses named under Hypotheses. In every run nothing written is ever
overwritten with another value; when the manager's count reaches the threshold, a pigeonhole
argument shows that every task of the epoch is done and the key set is exactly the expected one; and
an audit at epoch E passes if and only if the audited indexes include every shard of epoch E - 1.
The stack traversal of the auditor, which has no visited set, terminates on every acyclic graph with
exactly the reachable unwitnessed hashes.

From every state of every run, wherever the processes stand, the open epoch can still be closed if
and only if no shard written in it has a wrong batch. Every written output that lacks its key has a
process that is about to append it, and while all written shards have their own batches one indexer
wrote them all and can write the next. So every epoch is reached by some run, and every epoch from
the second on is also reached by a run that gets stuck there.

**The accesses that a step joins** (`TestAndWrite`, `Overwritten`, `LateCounter`). With an indexer's
test and write of a shard key as two accesses, the runs in which every index write finds its key
free are exactly the runs above, and everything proved of these holds for them. In every run at all,
written indexes stay if and only if each write finds its key free or holding the same batch. Every
epoch from the second on has a run that replaces the batch of a shard and closes the epoch all the
same, and the audit of all its shards then fails. With the manager's new epoch and its block counter
as two writes, the runs in which no crawler starts between them are exactly the runs above; a
crawler that does start there crawls the blocks of the epoch before once more.

**The inverted index** (`InvertedIndex`, `Marshal`, `ShardLife`, `Query`). Building the indexes
of batches, marshalling, merging, storing and reading them back over any number of epochs gives
the index of all documents at once; the pages of a query, put together, are the texts of the matching
documents, cut after 256 bytes, in order, followed by dummies.

**From blocks to results** (`EndToEnd`, `ItemText`). What the executors compute for a stored global
index, from the text of the items through the enclave's buffers and any number of merges, holds the
index of the posts of its blocks. In every run without a clash of index writes, at every epoch E from
3 on, the pages of a querier that was set up with it are complete, sound and in order over the posts
of the shard's blocks of epochs 1 to E - 2, for every query of one or two words: the blocks that the
audit covers.

**JSON and witnesses** (`Json`, `JsonGrammar`, `JsonRoundTrip`, `JsonParser`, `WitnessText`). The
texts of RFC 8259 are given as syntax trees. The parser reads every such text as its value, with any
white space; printing gives such a text of the value; so parsing undoes printing, exactly on the
values named by a condition. The parser that advances an offset computes the same on every text. Every
produced witness is accepted after a round trip through text, and one that was altered after signing
is rejected.

**The library algorithms** (`SortSpec`, `HeapSort`, `IntroSort`, `OpenHash`, `OrderedHash`,
`TopQueue`, `AttrIndex`, `Vlb`). Introsort with explicit stacks, open addressing with tombstones,
the insertion-ordered hash with an iterator that survives deletion, the bounded heap, the block
min/max index and the variable-length byte coder, as they work in place.

## Hypotheses

- In the pipeline SHA-256 is perfect: a hash is represented by the term of the datum it is taken
  of, so that different data have different hashes. In `RootHash` only the two strings that are
  compared are assumed not to collide.
- Signing is abstract: a signature is 64 bytes and verifies for the text that was signed; in
  `AlteredIsRejected` it verifies for no other text.
- Task outputs are determined by their inputs, and the blocks with different numbers differ.
- Three groups of store accesses are one step each in `Pipeline`: an indexer's test that an index key
  is absent and the write of that key, which `TestAndWrite` separates; the manager's new epoch and the
  block counter that belongs to it, which `LateCounter` separates; and the two writes that file a
  witness. A process reads the epoch, and a crawler its block counter, in the step that starts it. All
  other accesses are separate steps.
- The auditor reads a snapshot of the store. The test whether a witness is a crawler's looks at
  its FUNC field, while the code searches the whole witness text for the tag's hash.
- The tokenizer is a function from text to word numbers, given with each document.
- `int` and `size_t` are unbounded, except where a width is part of a statement (DWORD deltas,
  32- and 64-bit words, `long` in JSON, sort counts below 2^31).

## Where the code and its own comments or intentions part

- An indexer that skips a shard someone else did does not advance its item position
  (executor/App/indexer.cpp:27-29). The shard it writes next holds the batch that lies as many
  places before as it skipped shards: its own batch if and only if it skipped none (`WrittenShard`).
  Every epoch from the second on has a run in which that happens, and that epoch can then never be
  closed (`EpochCanStall`, `CanStillClose`).
- Nothing keeps two indexers from testing the same shard key before either writes it. In every epoch
  from the second on some run replaces the batch of a shard that way (`ShardIsOverwritten`), and some
  run closes the epoch with it (`SpoiledEpochCloses`). `UndisturbedIsRun` and `IndexesStayExactly` give
  the exact conditions under which nothing goes wrong.
- The manager publishes an epoch before it writes the block counter of that epoch
  (manager/main.cpp:29-40). A crawler that starts in between crawls the blocks of the epoch before
  (`CrawlsOwnBlocks`); some run fills all items of an epoch that way (`BlocksCrawledTwice`).
- The manager may publish epoch 3 before the last index of epoch 2 is copied to the global indexes.
  A reducer then finds it missing (`LastSeedCanBeMissing`); `WhoWaits` shows that this and an index of
  the open epoch are the only values a process can find missing.
- The audit cache counts repeated inputs. It agrees with the full audit on every graph if and only
  if the list has no repeats (`CacheIsExact`). In every run, with all shards of the last closed epoch
  cached, one shard named four times passes (`OneShardFourTimes`).
- Results that read like the dummy, 256 times the letter X, cannot be told from the padding of a
  page; the client sees all results if and only if there are none (`ClientSees`).
- A query of three or more words intersects only the last two lists. `AnswerIsExact` gives the
  exact condition under which the answer is right on every index.
- Object keys are stored in escaped form but printed as they are, and a bare number is not
  parsed back: `LoadUndoesDump` gives the exact set of values that survive.
- A second output of a witness replaces the first once the stage has moved on from output; the
  comment says that it fails.
- `CSphHash::GetLength` is documented as the number of pairs. It is that number if and only if
  nothing was ever deleted (`Hash.GetLength`). `Acquire` is documented to add a default value, but a
  reused tombstone shows the value deleted there (`DeletedValueReturns`).
- The block index starts every maximum at 0, so the maximum of a block of negative values is 0:
  a bound, but taken by no row (`EntryTight`).
- The delta coder drops leading zeros and its reader stops at the first 0 (`LoadThenDump`). A copy of
  a coder that was already read starts over but adds to the value read last (`Dump`).

## Model

| member | source | states |
|---|---|---|
| Auditor.Traverse | client/local_auditor.cpp:66-80 | on every acyclic witness graph the stack loop without a visited set terminates, and the collected leaves are exactly the hashes reachable from the start list that have no genuine witness |
| Auditor.ReachesUnfold | client/local_auditor.cpp:68-80 | reachability unfolds one witness at a time, which is what one turn of the loop does |
| Auditor.WellKeys | client/local_auditor.cpp:82-90 | the collected keys are exactly those of epochs 1 to E - 2 whose root hash checks |
| Auditor.CrawledItems | client/local_auditor.cpp:92-110 | the expected items are exactly the inputs of crawler witnesses among the well keys |
| Auditor.CountHits | client/local_auditor.cpp:40-44 | counts the inputs that are in the cache, repeats included |
| Auditor.FastPathCovers | client/local_auditor.cpp:45-48 | for inputs without repeats a cache hit means that every cached key is among the inputs |
| Auditor.CompleteMonotone | client/local_auditor.cpp:112-126 | an audit that passes still passes from a larger start list |
| Auditor.FastPathAgrees | client/local_auditor.cpp:34-52 | for inputs without repeats a fast pass implies that the full audit passes |
| Auditor.RepeatsDefeatTheCache | client/local_auditor.cpp:40-48 | for every list with a repeat, of keys of any type, there is an acyclic graph and a list that passes the full audit after which the fast path passes the list and the full audit does not |
| Auditor.CacheIsExact | client/local_auditor.cpp:34-52 | for every list of hashes: the fast path agrees with the full audit on every acyclic graph, after every list that passed, if and only if the list has no repeats |
| Auditor.LocalAuditor.Verify | client/local_auditor.cpp:27-133 | below epoch 3 nothing is reported; otherwise the verdict is the full audit's, for inputs without repeats and whatever the cache held; the cache afterwards holds only a list that passed |
| AuditTheorem.GraphAcyclic | executor/App/reducer.cpp:22-55 | the witness graph of every reachable store is acyclic |
| AuditTheorem.LeafOfItems | executor/App/crawler.cpp:85-120 | below an item batch of a closed epoch lie exactly its 64 blocks |
| AuditTheorem.LeafOfIndex | executor/App/indexer.cpp:22-65 | below the index of a shard lie exactly the blocks of its four batches of the epoch before |
| AuditTheorem.LeafOfGlobal | executor/App/reducer.cpp:22-55 | by induction over epochs, below the global index of epoch e lie exactly the blocks of its shard of all epochs before e |
| AuditTheorem.ItemsAreBlocks | client/local_auditor.cpp:82-110 | the auditor expects exactly the blocks of epochs 1 to E - 2 |
| AuditTheorem.MissingShardFails | client/local_auditor.cpp:112-126 | an audit that lacks a shard of the last closed epoch fails |
| AuditTheorem.AllShardsPass | client/local_auditor.cpp:112-126 | an audit with every shard of the last closed epoch passes |
| AuditTheorem.AuditIsExact | client/local_auditor.cpp:66-126 | in every run, at every epoch from 3 on, the witness graph is acyclic and auditing any list of served global indexes passes if and only if it names every shard of the last closed epoch |
| AuditTheorem.ServedIsStored | executor/App/querier.cpp:42-48 | a global index of a closed epoch that is found on Kanban is the one the audit theorem speaks of |
| AuditTheorem.AuditIsStable | client/local_auditor.cpp:34-52 | in every run, a list of served hashes passes the full audit of one store if and only if it passes in every later store of the same epoch |
| AuditTheorem.SoundStays | client/local_auditor.cpp:34-52 | a cached list that was right when it was filled is right for the rest of the run, whatever the processes do |
| AuditTheorem.CacheErrsOnRepeats | client/local_auditor.cpp:40-48 | in every run, with all shards of the last closed epoch cached, the fast path passes a list of them that the full audit fails if and only if it has as many entries as shards and names one twice |
| AuditTheorem.OneShardFourTimes | client/local_auditor.cpp:40-48 | in every run and for every shard, the shard named four times passes the fast path and fails the full audit |
| Queriers.Querier.constructor | executor/App/querier.cpp:35-73 | a fresh querier serves nothing and has seen no epoch |
| Queriers.Querier.SetUp | executor/App/querier.cpp:36-44 | at a new epoch, and only then, one number is drawn and the wanted key is the shard's global index of the epoch before |
| Queriers.Querier.Read | executor/App/querier.cpp:46-58 | what is served is the merged index of exactly the drawn shard and the epoch before; a missing key changes nothing |
| Queriers.RoundRobinCovers | executor/App/querier.cpp:29-42 | consecutive draws cover all shards if and only if there are at least as many as shards |
| Queriers.QueriersPassAudit | executor/App/querier.cpp:36-59 | in every run, the queriers of consecutive draws pass the audit together if and only if there is one for every shard |
| Queriers.EveryIndexIsThere | executor/App/querier.cpp:36-59 | every epoch from 3 on is reached by a run in which the global indexes of all shards of the epoch before are there |
| Queriers.EveryEpochIsServed | executor/App/querier.cpp:36-59 | every epoch from 3 on is reached by a run whose four queriers find their indexes and pass the audit |
| PipelineSafety.StepKeepsInv | executor/App/crawler.cpp:74-127 | every step of every process and of the manager keeps the invariant of the store, the processes and the manager, and all data |
| PipelineSafety.CrawlerStep | executor/App/crawler.cpp:85-126 | the steps of a crawler keep the store invariant, also when another crawler wrote the same slot or the epoch was closed meanwhile |
| PipelineSafety.IndexerStep | executor/App/indexer.cpp:22-78 | the steps of an indexer, test and write as one, never wait and keep the store invariant, skipped shards included |
| PipelineSafety.ReducerStep | executor/App/reducer.cpp:22-61 | the steps of a reducer keep the store invariant |
| PipelineSafety.Pigeonhole | manager/manager.cpp:104-126 | a key set as large as the threshold uses every slot of every task |
| PipelineSafety.OwnBatch | executor/App/indexer.cpp:19-77 | if the key set is large enough, every shard was built from its own batch |
| PipelineSafety.CountedIsFinished | manager/manager.cpp:104-126 | if the key set is large enough, the epoch has all its items, indexes and global indexes, with the expected values, and its key set is the expected one |
| PipelineSafety.RunInv | manager/main.cpp:23-41 | the invariant holds after every run |
| PipelineSafety.NothingIsOverwritten | executor/App/common.hpp:77-81 | in every run with single steps no written item, index or global index ever changes and no key or witness disappears |
| PipelineSafety.ClosedEpochs | manager/manager.cpp:94-158 | in every run with single steps every closed epoch holds exactly the expected data; its key set is the expected one, is what was rooted, and never grows again |
| PipelineSafety.IndexerBuilds | executor/App/indexer.cpp:27-77 | an indexer that finds its shard missing writes the batch that lies as many places before the shard as it skipped shards |
| PipelineSafety.MisassignedShardStalls | executor/App/indexer.cpp:27-29 | once a shard got the batch of another shard, no continuation of the run closes that epoch |
| Duties.StepKeepsDuties | executor/App/common.hpp:99-114 | over every step, each written item, index and global index has its key, or a process that is about to append it; each index of epoch 2 is copied, or a process is about to copy it |
| Duties.MoveKeepsDuty | executor/App/indexer.cpp:63-73 | a duty that a step makes due, or that the process had, is done by that step or is still the process's own |
| Duties.WriterLeads | executor/App/indexer.cpp:22-78 | who writes a shard from its own batch skipped none, and writes the shard after all those written |
| Duties.RunIsDeep | executor/App/indexer.cpp:22-78 | the duties, the leading indexer and the order of copies hold after every run |
| Duties.WrittenShard | executor/App/indexer.cpp:22-77 | in every run, the shard that an indexer writes holds the batch that lies as many places before it as the indexer skipped shards; its own batch if and only if it skipped none |
| Duties.OneIndexerLeads | executor/App/indexer.cpp:22-78 | in every run, while the written shards of an epoch have their own batches they are the first ones, and if some but not all are written, one indexer wrote them all and stands before the next |
| Duties.WhoWaits | executor/App/common.hpp:83-97 | in every run a process waits if and only if it is a reducer that finds missing an index of its own, still open epoch or, in epoch 3, the last global index of epoch 2; in the second case some indexer is about to copy it |
| Progress.ThresholdIsExact | manager/manager.cpp:110-116 | the threshold of every epoch is exactly the number of different keys that its tasks produce |
| Progress.Pay | executor/App/common.hpp:99-114 | whatever a process owes can be done in at most two steps that change no other data |
| Progress.Crawls | executor/App/crawler.cpp:85-126 | from every open state a crawler's pass over whatever is there, and the pending appends, supply all items and their keys |
| Progress.Indexes | executor/App/indexer.cpp:22-78 | from every open state without a wrong batch the leading indexer, or a new one, supplies all indexes, each from its own batch, and their keys, without copying the last |
| Progress.Reduces | executor/App/reducer.cpp:22-61 | from every open state with all indexes a reducer's pass, after the pending copy, supplies all global indexes and their keys |
| Progress.Closes | manager/manager.cpp:94-158 | from every state without a wrong batch, wherever the processes and the manager stand, there are steps that close the epoch and leave the next one untouched |
| Progress.CanStillClose | manager/manager.cpp:94-158 | in every state of every run, some continuation closes the open epoch if and only if no shard that is written in it has a wrong batch |
| Progress.EveryEpochIsReached | manager/main.cpp:23-41 | every epoch is reached by some run, with nothing of it done |
| TestAndWrite.UndisturbedIsRun | executor/App/indexer.cpp:22-64 | with an indexer's test and write as two accesses: a run in which every index write finds its key free ends in a state that a run with single steps reaches |
| TestAndWrite.RunIsUndisturbed | executor/App/indexer.cpp:22-64 | every run with single steps is such a run |
| TestAndWrite.UndisturbedGoesOn | executor/App/indexer.cpp:22-64 | a continuation of such a run is a continuation of the run with single steps, whichever run reached the same state |
| TestAndWrite.IndexesStayExactly | executor/App/indexer.cpp:27-64 | for every run with separate accesses: no written index ever changes if and only if every index write finds its key free or holding the same batch |
| TestAndWrite.NothingChanges | executor/App/common.hpp:77-81 | in every run in which each index write finds its key free, no written item, index or global index changes and no key or witness disappears |
| TestAndWrite.ClosedForGood | manager/manager.cpp:94-158 | in every such run every closed epoch holds exactly the expected data, key set and root hash, now and later |
| TestAndWrite.AuditsExactly | client/local_auditor.cpp:66-126 | in every such run, at every epoch from 3 on, auditing any list of served global indexes passes if and only if it names every shard of the last closed epoch |
| TestAndWrite.WaitsExactly | executor/App/common.hpp:83-97 | in every such run a process waits if and only if it misses one of the two values that a reducer may miss |
| TestAndWrite.CanStillCloseCalmly | manager/manager.cpp:94-158 | in every such run some continuation without a clash closes the open epoch if and only if no shard written in it has a wrong batch |
| Overwritten.TestIsOutdated | executor/App/indexer.cpp:27-64 | in every epoch from the second on some run without any clash comes to an indexer that found the key of the second shard free and will write the first batch there, while the second is stored |
| Overwritten.ShardIsOverwritten | executor/App/indexer.cpp:27-64 | in every epoch from the second on some run replaces the second batch in the second shard by the first |
| Overwritten.SpoiledAuditFails | client/local_auditor.cpp:66-126 | over a store that was closed after such a write, a block of the lost batch is expected and lies below none of the stored global indexes, so the audit of all shards fails |
| Overwritten.SpoiledEpochCloses | manager/manager.cpp:94-158 | in every epoch from the second on some run closes the epoch after such a write: the index is not the expected one, all global indexes are there, and the audit of all shards at the next epoch fails |
| LateCounter.PromptIsRun | manager/main.cpp:23-41 | with the new epoch and its block counter as two writes: a run in which no crawler starts between them ends, but for the counter, in a state that a run with single steps reaches |
| LateCounter.RunIsPrompt | manager/main.cpp:23-41 | every run with single steps is such a run |
| LateCounter.ItemsArePaired | executor/App/crawler.cpp:74-120 | in every run with the two writes separate, each item holds the blocks of its own epoch or those of the epoch before |
| LateCounter.CrawlsOwnBlocks | executor/App/crawler.cpp:74-103 | in every such run a crawler that starts will write the blocks of its own epoch if and only if the counter is not late, and otherwise those of the epoch before |
| LateCounter.BlocksCrawledTwice | executor/App/crawler.cpp:74-120 | in every epoch from the second on some run fills all items with the blocks of the epoch before and files them |
| Progress.EpochCanStall | executor/App/indexer.cpp:27-29 | in every epoch from the second on some run gives the second shard the first batch, and no continuation of it closes that epoch |
| Progress.LastSeedCanBeMissing | executor/App/indexer.cpp:69-73 | some run closes epoch 2 before its last index is copied, and a reducer of epoch 3 is then blocked |
| RootHash.RootHash | manager/manager.cpp:128-139 | the hash is that of the keys joined in the order in which the set is sorted, whatever that order is |
| RootHash.CheckRootHash | client/utility.hpp:144-168 | the check compares with the hash of the keys now in the store |
| RootHash.ConcatUnique | client/utility.hpp:152-159 | a concatenation of 64-character keys splits in one way only |
| RootHash.ConcatAppend | client/utility.hpp:152-162 | the hashed text is the listed keys, one after the other, in their order |
| RootHash.SameFirst64Means | client/utility.hpp:167-167 | two texts compare equal exactly if their first 64 characters do, the NUL that ends a shorter text included |
| RootHash.CheckIsExact | client/utility.hpp:144-168 | the check holds if and only if the key set is the one that the manager hashed |
| Json.JsonEscape | client/json.hpp:30-44 | the loop computes the escape of every character in turn |
| JsonRoundTrip.EscapeTable | client/json.hpp:33-42 | quote, backslash and the five control characters print as a backslash and their letter, every other character as itself |
| JsonRoundTrip.EscapeAppend | client/json.hpp:30-44 | the escape of a text is that of its parts, put together |
| JsonRoundTrip.DumpIsText | client/json.hpp:339-380 | the print of every value with escaped keys is a text of the grammar that stands for that value |
| JsonGrammar.EscapeIsRead | client/json.hpp:502-529 | after a backslash each of the eight letters of section 7 of RFC 8259 is read as the character it stands for, any other character but u as a backslash |
| JsonGrammar.TextIsRead | client/json.hpp:434-627 | every text of the grammar, with any white space, escapes and nesting, is parsed as its value, and the rest of the text is left; a number needs a character after it that ends it |
| JsonGrammar.LoadsText | client/json.cpp:25-28 | loading such a text gives its value, whatever follows it |
| JsonGrammar.BrokenArray | client/json.hpp:481-494 | an array that goes on with neither a comma nor a bracket, or just ends, is read as an empty one |
| JsonGrammar.BrokenObject | client/json.hpp:454-464 | an object that goes on with neither a comma nor a brace, or just ends, keeps its members |
| JsonGrammar.MissingColon | client/json.hpp:444-450 | a key without a colon ends the object, which keeps the members before it |
| JsonGrammar.BrokenUnicode | client/json.hpp:514-526 | a Unicode escape without four hexadecimal digits gives an empty string, and the text goes on after the backslash |
| JsonGrammar.UnclosedString | client/json.hpp:499-535 | a string without a closing quote has no result |
| JsonGrammar.BrokenNumber | client/json.hpp:569-572 | a number that another character ends is null, and that character is lost |
| JsonRoundTrip.RoundTrip | client/json.hpp:339-380 | a printed value followed by any text that may follow it is parsed back to the value and that text, at every depth and for every string content |
| JsonRoundTrip.ParsedNext | client/json.hpp:611-627 | whatever is parsed has sorted objects with escaped keys, so that it can be printed and parsed again |
| JsonRoundTrip.PutSorted | client/json.hpp:237-239 | assignment to a member keeps the object a sorted map |
| JsonRoundTrip.PutGet | client/json.hpp:237-239 | a member reads as the value assigned last, and assigning changes no other member |
| JsonRoundTrip.BareNumberIsLost | client/json.hpp:537-585 | a bare number, printed and loaded, gives null |
| JsonRoundTrip.LoadUndoesDump | client/json.cpp:25-28 | loading a printed value gives it back if and only if integers fit, objects are sorted, all keys at all depths are in escape form and the value is not a bare integer |
| JsonParser.ConsumeWs | client/json.hpp:430-432 | the loop stops at the first character that is not white space |
| JsonParser.ParseObjectAt | client/json.hpp:434-468 | reads an object as the grammar function does, and leaves the offset where the rest begins |
| JsonParser.ParseArrayAt | client/json.hpp:470-497 | the same for arrays |
| JsonParser.ParseStringAt | client/json.hpp:499-535 | the same for strings, with all escapes, incomplete ones and a missing quote |
| JsonParser.ParseNumberAt | client/json.hpp:537-585 | the same for numbers, the step past an unexpected character included |
| JsonParser.ParseBoolAt | client/json.hpp:587-599 | the same for true and false |
| JsonParser.ParseNullAt | client/json.hpp:601-609 | the same for null |
| JsonParser.ParseNextAt | client/json.hpp:611-627 | the parser with an offset refines the grammar function on every text |
| JsonParser.LoadText | client/json.cpp:25-28 | loading is parsing from the start |
| WitnessText.SigToString | client/utility.hpp:18-25 | prints each byte as its high and its low hexadecimal digit, in lower case |
| WitnessText.StringToSig | client/utility.hpp:28-36 | reads two characters per byte |
| WitnessText.UnhexAt | client/utility.hpp:28-36 | two digits of either case give 16 times the first plus the second; a lone digit, a space or sign before one, and no digit are read as strtol reads them |
| WitnessText.UnhexHex | client/utility.hpp:18-36 | a printed signature decodes to itself and needs no escapes |
| WitnessText.WitnessContext.Init | executor/Enclave/enclave_witness.cpp:13-17 | sets the tag, keeps the rest |
| WitnessText.WitnessContext.Input | executor/Enclave/enclave_witness.cpp:20-26 | appends the hash of one more input |
| WitnessText.WitnessContext.Output | executor/Enclave/enclave_witness.cpp:29-37 | sets the output hash unless the stage is still that of an output |
| WitnessText.WitnessContext.Func | executor/Enclave/enclave_witness.cpp:39-47 | sets the function hash unless the stage is still that of a function |
| WitnessText.WitnessContext.Finalize | executor/Enclave/enclave_witness.cpp:49-75 | prints the signed witness of the collected fields, once |
| WitnessText.ProducedIsAccepted | client/utility.hpp:83-98 | every produced witness, stored as text, is accepted, for every tag, any number of inputs and every string content |
| WitnessText.CheckMeans | client/utility.hpp:83-98 | for every text the answer is that of the signature check over the print of the four loaded fields with the decoded SIG; there is none exactly if the text does not load or SIG is too short |
| WitnessText.StoredIsChecked | client/utility.hpp:83-98 | of a stored witness with any four fields and any 64-byte signature, that signature is checked over the print of these fields |
| WitnessText.AlteredIsRejected | client/local_auditor.cpp:58-62 | with the signature of one witness, a witness with other fields is rejected: it is accepted if and only if tag, inputs, output and function are those that were signed |
| WitnessText.ProducedFields | executor/Enclave/enclave_witness.cpp:49-75 | the stored text loads to an object with the tag, the inputs, the output and the function hash as they were collected |
| WitnessText.ProducedIsReadable | executor/App/common.hpp:101-113 | the stored text gives back the input hashes and the key under which it is filed |
| InvertedIndex.DocsWithMeans | executor/Enclave/enclave_indexer.cpp:54-87 | the posting list of a word is strictly increasing and holds exactly the numbers, from 1, of the documents with the word |
| InvertedIndex.PushDeduplicated | executor/Enclave/enclave_indexer.cpp:41-48 | appends a document number unless it is the last one already |
| InvertedIndex.Indexer.YieldIndex | executor/Enclave/enclave_indexer.cpp:32-52 | enters the document into the list of each of its words, once |
| InvertedIndex.Indexer.BuildIndex | executor/Enclave/enclave_indexer.cpp:55-87 | leaves the index of the documents without stop words, and for each document its text, cut after 256 bytes |
| InvertedIndex.MergeTables | executor/Enclave/enclave_reducer.cpp:46-61 | in whatever order the second table is walked, each list is that of the first followed by that of the second moved up, and the digests are joined |
| InvertedIndex.MergeIndexes | executor/Enclave/enclave_reducer.cpp:52-61 | merging the indexes of two document lists gives the index of their concatenation |
| InvertedIndex.IndexesUnique | executor/Enclave/enclave_indexer.cpp:55-87 | a document list has one index only |
| ItemText.ReadUndoesWrite | executor/Enclave/enclave_indexer.cpp:57-63 | whatever the posts hold, the printed array of posts is loaded back and each element, printed and trimmed, is the escaped post |
| ItemText.LegibleExactly | executor/Enclave/enclave_crawler.cpp:54-74 | the text of an item reads back as the posts of its blocks if and only if it passes the enclave's buffer and some block has a post; without any post a stand-in is written |
| ItemText.ItemsAreLegible | executor/Enclave/enclave_crawler.cpp:54-74 | the same for every item that a crawler of the pipeline writes |
| EndToEnd.ComputeIndex | executor/Enclave/enclave_indexer.cpp:90-122 | the item texts of a batch that read back as posts, sent through the enclave's 64 KiB buffer, give the stored index of these posts |
| EndToEnd.Compute | executor/Enclave/enclave_reducer.cpp:22-79 | what the executors store for a datum, built by an indexer and merged any number of times from stored bytes, holds the index of all posts in the datum |
| EndToEnd.DocsOfGlobal | executor/App/reducer.cpp:22-55 | the documents of the global index of epoch e are those of the shard's blocks of all epochs before e, oldest first |
| EndToEnd.QueryShard | executor/Enclave/enclave_querier.cpp:33-128 | from a stored buffer to a page: for one or two words that are not stop words the page of the digests of the documents with all of them; for other lists the page of the answer to the first 32 words, with all accesses in range; no result for page numbers below 1 |
| EndToEnd.BlockHasShard | executor/App/crawler.cpp:85-103 | a block is in shard i of some epoch that is at least two behind if and only if its number says so |
| EndToEnd.TableIsComplete | executor/Enclave/enclave_querier.cpp:96-128 | every post with all words, of every searched block of the shard, is on some page under its digest |
| EndToEnd.TableIsSound | executor/Enclave/enclave_querier.cpp:96-128 | every result on every page is the digest of a post with all words, of a searched block of the shard |
| EndToEnd.SearchIsExact | executor/Enclave/enclave_querier.cpp:33-128 | in every run in which each index write finds its key free, for every shard and every query of one or two words that are not stop words, the pages over the stored buffer of the last closed epoch are complete, sound and, put together, the digests of the matching posts in the order of their blocks, then dummies |
| EndToEnd.SearchShard | executor/Enclave/enclave_querier.cpp:33-128 | in every such run, what a querier of the last closed epoch returns is the page of the posts of the shard's blocks that hold all words, in the order of their blocks |
| Marshal.WordsRoundTrip | executor/Utility.hpp:64-68 | words written as bytes are read back |
| Marshal.LittleEndian | executor/Utility.hpp:64-68 | a word is written as four bytes, the lowest first |
| Marshal.Index2Words | executor/Utility.hpp:51-62 | the entries one after the other, each the key, its list and a 0, at the places given by the lengths before them, in the order in which the table is walked, and nothing else |
| Marshal.Words2Index | executor/Utility.hpp:85-94 | the decoder loop with its flag and key refines the word-by-word scan |
| Marshal.EntriesAreDecoded | executor/Utility.hpp:85-94 | of any list of entries the decoder joins those with the same key, in their order, and drops keys without any document |
| Marshal.IndexRoundTrip | executor/Utility.hpp:51-95 | in every walking order the index comes back if and only if no list is empty or holds 0 |
| Marshal.Digest2Binary | executor/Utility.hpp:5-23 | the digests one after the other, each cut at a NUL, padded with NULs to its length and ended by one more |
| Marshal.Binary2Digest | executor/Utility.hpp:26-47 | the decoder with its fixed buffer; it overflows exactly on digests that do not fit |
| Marshal.DigestsRoundTrip | executor/Utility.hpp:5-47 | the digests come back if and only if all are free of NUL and fit the buffer |
| Marshal.UnmarshalSplits | executor/Enclave/enclave_querier.cpp:39-48 | the size prefix splits the buffer exactly where the encoder joined it |
| Marshal.MarshalledLayout | executor/Utility.hpp:98-119 | a buffer is the size of the index in bytes, the words of the index and the digests |
| Marshal.MarshalRoundTrip | executor/Utility.hpp:98-119 | a table comes back if and only if its index and digests do, for every walking order |
| ShardLife.Merge2Binary | executor/Utility.hpp:98-119 | the combined buffer of a table, in some walking order |
| ShardLife.Setup | executor/Enclave/enclave_querier.cpp:33-48 | of a buffer that holds the index of some documents a querier recovers exactly their index and digests; it fails on exactly the buffers that cannot be unmarshalled |
| ShardLife.BuildShard | executor/Enclave/enclave_indexer.cpp:55-87 | the stored output of an indexer holds the index and digests of its documents |
| ShardLife.IndexBatch | executor/Enclave/enclave_indexer.cpp:90-122 | the enclave recovers the item texts if and only if all are free of NUL and fit its buffer; it stores the index of the documents it recovered, and fails exactly when the buffer overflows |
| ShardLife.DoMerge | executor/Enclave/enclave_reducer.cpp:22-79 | merging two stored shards stores the shard of all their documents |
| ShardLife.RunShard | executor/App/reducer.cpp:22-55 | folding the merge over any number of epochs stores the index of all documents of the shard, as if built at once |
| ShardLife.ConcatAppend | executor/App/reducer.cpp:22-55 | the documents of a shard are those of its batches in the order of their epochs |
| ShardLife.CutsAgree | executor/Enclave/enclave_reducer.cpp:22-65 | however the documents are divided among epochs, the stored tables are the same |
| Query.SetIntersection | executor/Enclave/enclave_common.hpp:82-90 | the two-pointer loop keeps of the first list what is in the second |
| Query.AnswerQuery | executor/Enclave/enclave_querier.cpp:96-111 | one list as it is; of more lists, the intersection of the last two |
| Query.AnswerIsExact | executor/Enclave/enclave_querier.cpp:104-111 | the answer is right on every index if and only if every word is one of the last two |
| Query.AnswersDocuments | executor/Enclave/enclave_querier.cpp:96-111 | over the index of a document list, one or two words that are not stop words give, in order, exactly the documents with all of them |
| Query.AnswerIsMatches | executor/Enclave/enclave_querier.cpp:96-111 | for one or two words that are not stop words the answer is the list of the numbers of the matching documents |
| Query.AnswerInRange | executor/Enclave/enclave_querier.cpp:113-121 | for every list of words over the table of some documents, every digest that is looked up is there |
| Query.AnswerPage | executor/Enclave/enclave_querier.cpp:113-128 | the loops compute ten entries, the results of the page as far as there are any and then dummies; no result for page numbers below 1, with which the source reads before its list |
| Query.DoQuery | executor/Enclave/enclave_querier.cpp:90-128 | over the table of some documents: for one or two words that are not stop words the page of the digests of the documents with all of them; for up to 32 words the page of the answer to these, for more that of the first 32; none below page 1 |
| Query.PageOfTable | executor/Enclave/enclave_querier.cpp:113-128 | page p of the answer holds the entries from 10(p - 1) on of the digests of the matching documents, then dummies |
| Query.PagesAreTheAnswer | executor/Enclave/enclave_querier.cpp:113-128 | the pages 1 to n, put together, are the first 10n results in order, without gap or repeat, then dummies |
| Query.PagesOfTable | executor/Enclave/enclave_querier.cpp:96-128 | over the table of some documents, the pages 1 to n, put together, are the digests of the documents with all words, in order, cut after n pages, then dummies |
| Query.ClientSees | executor/Enclave/enclave_querier.cpp:123-128 | what is left of the pages without dummies is what was found if and only if no digest among it reads like a dummy |
| Query.ClientPages | client/web_server.cpp:152-184 | client pages correspond one to one to pairs of shard and page of the shard |
| SortSpec.PermMultiset | executor/include/sphinxstd.h:540-626 | entries that are only exchanged are the same entries |
| HeapSort.SiftDown | executor/include/sphinxstd.h:498-516 | restores the heap below one entry, by exchanges only |
| HeapSort.BuildHeap | executor/include/sphinxstd.h:526-528 | makes a heap of the range |
| HeapSort.PopGreatest | executor/include/sphinxstd.h:530-535 | puts the greatest entry behind the heap |
| HeapSort.SphHeapSort | executor/include/sphinxstd.h:520-536 | sorts the range for every strict weak order, by exchanges only |
| IntroSort.InsertionSort | executor/include/sphinxstd.h:576-592 | sorts a small part |
| IntroSort.Partition | executor/include/sphinxstd.h:596-611 | the scans stay inside the part, and both sides are shorter and separated by the pivot |
| IntroSort.StackSuffices | executor/include/sphinxstd.h:547-549 | for every count below 2^31 the stacks never hold more than 30 parts |
| IntroSort.PushSides | executor/include/sphinxstd.h:597-624 | pushes the longer side first, so that each part on the stack is at most half of what is below it |
| IntroSort.SortTop | executor/include/sphinxstd.h:560-625 | one turn of the loop takes the part on top and leaves less to do, all other parts and their order kept |
| IntroSort.SphSort | executor/include/sphinxstd.h:540-626 | the first n entries end up sorted for every strict weak order, the same entries as before, the others untouched, and the loop terminates within its stacks |
| OpenHash.Probe | executor/include/sphinxstd.h:3574-3616 | every probe terminates: it finds the key, or a free slot that proves the key absent; and it has the last of the tombstones on its way, if there is one |
| OpenHash.Rehash | executor/include/sphinxstd.h:3690-3707 | the doubled table has the same contents and no tombstones |
| OpenHash.MaxLoadGrows | executor/include/sphinxstd.h:3684-3687 | the load limit is below the size and grows with it |
| OpenHash.MaxLoadIs | executor/include/sphinxstd.h:3684-3687 | for every size that is a power of two up to 2^24 the load limit is 95 percent of it, rounded down |
| OpenHash.ProbesAreMasked | executor/include/sphinxstd.h:3574-3616 | in every table, whose size is a power of two, probes start at the hash masked with the size less one and go on with the next slot, masked |
| OpenHash.Hash.constructor | executor/include/sphinxstd.h:3539-3560 | an empty map of a power of two of slots, at least as many as asked for and less than twice as many; no slots if the size is not positive |
| OpenHash.Hash.Grow | executor/include/sphinxstd.h:3690-3707 | growing changes neither the map nor the count and makes room |
| OpenHash.Hash.FindEntry | executor/include/sphinxstd.h:3710-3724 | finds the slot of the key, if the map has it |
| OpenHash.Hash.Find | executor/include/sphinxstd.h:3619-3623 | the value of the key in the map |
| OpenHash.Hash.Acquire | executor/include/sphinxstd.h:3574-3616 | the slot of the key, added if missing; exactly when its value is the default, and when it is the value deleted at the last tombstone on the way to a free slot |
| OpenHash.Hash.Add | executor/include/sphinxstd.h:3626-3634 | adds the pair if and only if the key was missing |
| OpenHash.Hash.FindOrAdd | executor/include/sphinxstd.h:3637-3644 | the value of the key, or the given value, which is then added |
| OpenHash.Hash.Delete | executor/include/sphinxstd.h:3647-3653 | removes the key from the map by turning its slot into a tombstone |
| OpenHash.Hash.GetLength | executor/include/sphinxstd.h:3656-3659 | the number of pairs plus the number of deletions, so the number of pairs if and only if nothing was deleted |
| OpenHash.DeletedValueReturns | executor/include/sphinxstd.h:3573-3616 | a key deleted and acquired again shows its old value in every table with room in which no tombstone lies behind its slot |
| OrderedHash.Walk | executor/include/sphinxstd.h:1398-1410 | the walk along a chain finds the entry with the key and the one before it, or the end |
| OrderedHash.OrderedHash.constructor | executor/include/sphinxstd.h:1458-1466 | an empty hash with empty buckets |
| OrderedHash.OwnChain | executor/include/sphinxstd.h:1398-1450 | every entry is in the chain that its hash modulo the number of buckets selects |
| OrderedHash.OrderedHash.FindByKey | executor/include/sphinxstd.h:1398-1410 | finds the entry with the key if and only if there is one |
| OrderedHash.OrderedHash.AddImpl | executor/include/sphinxstd.h:1412-1454 | keeps chains and order list consistent, and appends one entry if and only if the key is missing |
| OrderedHash.OrderedHash.Add | executor/include/sphinxstd.h:1498-1516 | the pairs in order are the old ones and the new pair, or the old ones if the key was there; what is left to visit grows likewise |
| OrderedHash.OrderedHash.AddUnique | executor/include/sphinxstd.h:1520-1562 | the entry of the key, appended if missing |
| OrderedHash.OrderedHash.Find | executor/include/sphinxstd.h:1619-1623 | the value of the key, if it is there |
| OrderedHash.OrderedHash.Delete | executor/include/sphinxstd.h:1565-1610 | the pairs in order without the key; what the iteration has left to visit is what it was without the key, the current entry's deletion included |
| OrderedHash.OrderedHash.IterateStart | executor/include/sphinxstd.h:1675-1678 | everything is left to visit |
| OrderedHash.OrderedHash.IterateStartAt | executor/include/sphinxstd.h:1681-1685 | the iteration stands at the entry of the key, or at the start |
| OrderedHash.OrderedHash.IterateNext | executor/include/sphinxstd.h:1688-1692 | takes the first pair that is left to visit; at the end it starts over |
| OrderedHash.Sweep | executor/include/sphinxstd.h:1602-1692 | a loop that deletes entries as it visits them visits every entry once, in order, and keeps exactly those it did not delete |
| TopQueue.Queue.constructor | executor/include/sphinxstd.h:3747-3768 | an empty queue of the given capacity, ready for pushes if the capacity is not 0 |
| TopQueue.Queue.Pop | executor/include/sphinxstd.h:3803-3836 | removes the root and restores the heap |
| TopQueue.Queue.Add | executor/include/sphinxstd.h:3783-3799 | adds an entry and lets it rise |
| TopQueue.Queue.Push | executor/include/sphinxstd.h:3771-3800 | after any pushes the queue is a heap of the top k of everything pushed |
| TopQueue.RejectKeepsTop | executor/include/sphinxstd.h:3776-3778 | an entry less than the root of a full queue does not belong to the top k |
| TopQueue.EvictKeepsTop | executor/include/sphinxstd.h:3774-3781 | replacing the root by an entry that is not less than it gives the top k of one more entry |
| AttrIndex.EntryBounds | executor/include/sphinxint.h:834-859 | an entry bounds every attribute of every row of its range |
| AttrIndex.EntryTight | executor/include/sphinxint.h:670-689 | the minimum is taken by a row; the maximum is taken by a row if and only if some row is not negative, and is 0 otherwise |
| AttrIndex.EntryIds | executor/include/sphinxint.h:735-743 | an entry carries the first document id of its range that is not 0, or 0 if there is none, and the id of the last row |
| AttrIndex.MinsJoin | executor/include/sphinxint.h:692-733 | the index minima of flushed blocks are those of all their rows |
| AttrIndex.Builder.Prepare | executor/include/sphinxint.h:807-831 | fills the buffer with zeros and starts with no rows |
| AttrIndex.Builder.FlushComputed | executor/include/sphinxint.h:692-733 | writes the entry of the rows since the last flush behind the earlier entries, which stay, and counts it into the index entry |
| AttrIndex.Builder.CollectWithoutMvas | executor/include/sphinxint.h:834-859 | flushes after exactly 128 rows and counts the row into the current block |
| AttrIndex.Builder.FinishCollect | executor/include/sphinxint.h:928-962 | writes the last block, if one was started, and the entry of all rows; the used size is the expected size |
| AttrIndex.IndexIds | executor/include/sphinxint.h:928-962 | in a finished buffer the two id cells of a block, and those written last, are the first id that is not 0 and the last id, of the block and of all rows |
| AttrIndex.IndexBoundsIds | executor/include/sphinxint.h:928-962 | for rows in the order of their ids these cells bound the id of every row of the block, and of all rows |
| AttrIndex.IndexBounds | executor/include/sphinxint.h:928-962 | in a finished buffer the entry of a row's block and the last entry bound each of its attributes |
| AttrIndex.BuildIndex | executor/include/sphinxint.h:639-650 | any number n of rows fills exactly ceil(n/128) + 1 entries of a buffer of the expected size, all writes in range |
| Vlb.ZipDword | executor/Enclave/enclave_common.hpp:96-106 | appends the seven-bit groups of the number |
| Vlb.UnzipWord | executor/Enclave/enclave_common.hpp:109-124 | reads one number, modulo the word size, and stops behind it; has no result if and only if the bytes end before the number does |
| Vlb.GroupsMean | executor/Enclave/enclave_common.hpp:96-106 | byte k holds the k-th digit to the base 128, the lowest first; the top bit is set on all bytes but the last, and no byte is there in vain |
| Vlb.ValueMeans | executor/Enclave/enclave_common.hpp:109-124 | any bytes are read up to the first without the top bit, and their low seven bits are the digits of the number to the base 128, the lowest first |
| Vlb.GroupsRead | executor/Enclave/enclave_common.hpp:96-124 | wherever the groups of a number stand, they are read back as the number |
| Vlb.Coder.Zip | executor/Enclave/enclave_common.hpp:155-170 | adds the value unless it equals the last one |
| Vlb.Coder.Copy | executor/Enclave/enclave_common.hpp:144-153 | a copy has as many values left as the original, but reads from the first byte and adds to the value read last |
| Vlb.Coder.Unzip | executor/Enclave/enclave_common.hpp:172-188 | takes the next of the values still to be read, or gives 0 when none is left |
| Vlb.Dump | executor/Enclave/enclave_common.hpp:201-208 | the coded values up to the first 0; of a coder already read, as many of the first values as it has left, each moved by the value it read last |
| Vlb.Load | executor/Enclave/enclave_common.hpp:210-215 | adds the values that differ from the one before them |
| Vlb.LoadThenDump | executor/Enclave/enclave_common.hpp:201-215 | for every list, increasing or not, the result is the list without adjacent repeats if and only if no 0 follows another value |
| Vlb.ChangesOfIncreasing | executor/Enclave/enclave_common.hpp:201-215 | strictly increasing lists of positive numbers come back whole |
| Vlb.GroupsFit | executor/include/sphinxint.h:1123-1138 | a 32-bit number takes at most 5 bytes, a 64-bit number at most 10 |
| Vlb.EncodeVlb8 | executor/include/sphinxint.h:1123-1138 | writes the groups of the number into the buffer and nothing else |
| Vlb.EncodeThenDecode | executor/include/sphinxint.h:1123-1154 | what was written is read back, added to what the variable held |

## Left out

- Redis, sockets, HTTP, sleeping, threads and the web server's routes: only the resulting store operations are modelled.
- SHA-256, Ed25519 and AES themselves, remote attestation and ORAM.
- The tokenizer, CRC32, stemmers, rankers, the query parser, agents and the RT index.
- Floating-point JSON numbers and exponents: a text that needs them has no result in the model.
- Float and MVA attributes of the block index, and the packing of attributes into bits: an attribute is one cell, so the truncation of narrow attributes is not modelled.
- Auditor.LocalAuditor.Verify: full audits of witness graphs with a cycle, on which the source's loop does not end; signed witnesses of hashes cannot form one.
- RootHash.RootHash: the sort by last character is a function of the key set that is a parameter, since it leaves the order of other keys open.
- PipelineSafety.IndexerStep: an access of another process between an indexer's test of a shard key and its write of that key; `TestAndWrite` and `Overwritten` are about these runs.
- PipelineSafety.NothingIsOverwritten: runs with such an access in between, in which it fails exactly when `TestAndWrite.IndexesStayExactly` says so; it holds for the others (`TestAndWrite.NothingChanges`).
- PipelineSafety.ClosedEpochs: runs with such an access in between, in which it can fail (`Overwritten.SpoiledEpochCloses`); it holds for the others (`TestAndWrite.ClosedForGood`).
- LateCounter.PromptIsRun: accesses of others between a crawler's reads of the epoch and of the counter; if the epoch was closed in between, all its items are there (`PipelineSafety.ClosedEpochs`) and the crawler writes none.
- JsonParser.ParseNumberAt: numbers with a fraction or an exponent, which have no result in the model.
- AttrIndex.Builder.FlushComputed: float attributes, sets of values and attributes packed into bits; an attribute is one cell.
- TopQueue.Queue.Push: a queue of capacity 0, on which the source reads outside its buffer.
- Vlb.UnzipWord: what the source reads beyond bytes that have no end, and shifts of more than 31 bits.
- Vlb.Coder.Copy: the read pointer and its flag, which the source's copy leaves unset and which the model sets to the first byte.
- Overflow of `int` sizes and counters, and allocation failure.
- Iteration over CSphHash, Reset and copying of the two hashes: they would add easy members only.
- The live-node registration of queriers and the random choice among live nodes.
- The request parsing and the JSON composition in the querier's answer.
- How the crawler finds the posts in a downloaded block: a block is given with its posts.
- The client's cache is modelled for one client; other clients do not share it.
