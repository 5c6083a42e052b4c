# Verified cores of Byze

Byze is a Bitcoin Core fork written in C++. This project models the algorithmic cores of the node
that can be described without input and output, and proves what they are for. `dafny verify
dfyconfig.toml` checks all of it. Each method follows the code it names, branch by branch, on
arrays and fields that it updates in place; each is proved against a specification, and the
specifications are related to independent definitions.

* **Cluster linearization** (`DepGraph`, `Components`, `Diagram`, `Linearization`, `Chunking`,
  `Merge`, `PostLinearize`, `PostGuarantees`, `Search`, `Finder`, `Linearize`, `Fix`). A
  linearization orders the transactions of a dependency graph. Its quality is its feerate diagram:
  cumulative fee against cumulative size, chunk by chunk. "At least as good" means nowhere lower.
  Proved are the guarantees the header documents: merging is at least as good as both inputs,
  post-linearization is never worse, connected, optimal on trees, and makes up for moving a leaf to
  the end; bounded search is optimal when it stops early, which it does before 2^n steps, and stays
  within its queue; `Linearize` never falls behind the old linearization, tells the truth about
  optimality, and reaches it within a bound.
* **Parallel check queue** (`CheckQueue`). Master and workers as a step system over their critical
  sections: results are right for every session of every run, counters are exact, nobody is left
  asleep, and `Complete` returns under every schedule; without workers it returns what the order of
  the queue determines.
* **Coin caches** (`Coins`, `CoinsCache`, `CoinsLifetime`). Any stack of write-back caches refines
  plain maps, with changes at any level and the exact condition under which they are safe; the
  intrusive list, the flags and the memory count are consistent in every state; a coin created and
  spent above a base never reaches it.
* **Address manager** (`AddrMan`, `AddrManager`, `AddrCheck`, `AddrPolicy`). Every operation keeps the
  indexes, tables and counts in agreement; the code's own consistency check accepts exactly the
  states that its parts describe, and what it does not look at is told; collisions are resolved in
  time.
* **Headers presync** (`HeadersSync`). What is released is what was downloaded, in order, linked, and
  checked against the commitments of the first download, one for every period.
* **Block tree and work** (`Chain`, `Arith`, `BlockProof`). Skip pointers agree with walking back; the
  most steps that finding an ancestor takes are known exactly; limb loops agree with the integers,
  up to the proof of a block.
* **Address codecs** (`Base58`, `Bech32`, `Bech32Field`, `Bech32Code`, `Bech32Vectors`). Round trips
  and buffer bounds; the checksum is the remainder of a polynomial over GF(32), and detects up to
  three errors within 1023 symbols, because its generator has three consecutive roots in GF(1024).

`FeeFrac`, `Sets`, `Integers` and `Options` hold what several of them share.

What the model takes as given: hashes, bucket functions, the difficulty rule and the work of a
header are arbitrary functions of bounded range; the clock, randomness and the answer of a base
view are parameters; `std::sort` is selection of the least element by the same order; finite sets
of indices stand for bit sets. Sizes, fees, ids and counters are unbounded integers unless the code
works with a width, as in `Arith`, `BlockProof`, `Base58` and `Bech32`.

Where the code does not do what its comments say or a reader might expect, the model follows the code:

* `SpendCoin` is documented to have no effect and return false for a coin that is not in the view
  (src/coins.h:431-436). The view is indeed unaffected, but the call returns true for a coin that
  the cache holds as spent. `CoinViews.SpendFinds` says exactly when, `CoinViews.SpendTwiceFinds`
  gives an input.
* Adding to or spending from a cache that has another one on top is possible, but may leave the upper
  one with an entry that does not fit; flushing it then throws. `CoinViews.AllowedExact` says
  exactly when it is safe, `CoinViews.AddedBelowThrows` gives an input.
* `CheckAddrman` rejects a tried entry without a time of success (src/addrman.cpp:1080-1082). `Good`
  and `Attempt` record any time they are given. Each keeps the check satisfied exactly under the
  condition its contract states; `AddrManagers.RejectedTime` and `AddrManagers.RejectedAttempt` give
  inputs outside it. All other parts of the invariant hold for every time, and `ResolveCollisions`
  keeps the check satisfied at every time.
* `CheckAddrman` is no complete check: it accepts, for one, an address that leads to no entry
  (`AddrChecks.StaleAddressAccepted`). `AddrChecks.CheckedExact` says what it lacks.
* The difficulty of the first header of a message in REDOWNLOAD is compared with that of the starting
  block whenever the buffer is empty (src/headerssync.cpp:226-232), which happens after every
  message if the buffer size is zero. With any positive size it is compared with the true
  predecessor. `HeadersSyncs.Setup.MessagePermitted` says exactly when the rule is kept,
  `HeadersSyncs.BrokenRule` gives an input.
* `DecodeBase58` does not compare an empty result with the maximum length: it accepts the empty word
  even for a negative limit (`Base58s.WithinLimit`, `Base58s.EmptyBeyondLimit`).

## Model

| member | source | states |
|---|---|---|
| `Diagram.ChunkingIsChunking` | src/cluster_linearize.h:409-424 | absorbing chunks from the back yields a chunking: the pieces concatenate to the order, every proper prefix of a piece has a strictly lower feerate than the piece, and feerates never increase |
| `Diagram.ChunkingUnique` | src/cluster_linearize.h:409-424 | there is only one chunking of an order, so the chunks do not depend on how they are computed |
| `Diagram.ChunkPeak` | src/cluster_linearize.h:409-424 | at every rate the chunk diagram reaches exactly as high as the best prefix of the order: no prefix lies above the diagram |
| `Diagram.AtLeastIsHeight` | src/cluster_linearize.h:1045-1047 | the comparison used everywhere (highest prefix at every rate) holds if and only if one chunk diagram is at least as high as the other at every real size |
| `Diagram.PeaksGiveHeight` | src/cluster_linearize.h:1142-1146 | the same comparison between orders under different fees, at every real size |
| `FeeFracs.OrdersAreOfRates` | src/util/feefrac.h:163-183 | the orders, computed with cross products, are those of the feerates as fractions; of equal feerates operator> prefers the smaller size |
| `DepGraphs.DepGraph.constructor` | src/cluster_linearize.h:68-73 | an empty graph satisfies the invariant: ancestors are a reflexive, transitive relation and descendants its inverse |
| `DepGraphs.DepGraph.AddTransaction` | src/cluster_linearize.h:134-147 | the first free position is used, the new transaction is unconnected, and no other transaction changes |
| `DepGraphs.DepGraph.RemoveTransactions` | src/cluster_linearize.h:158-172 | what remains keeps its feerates and exactly its ancestors and descendants among what remains, also through removed transactions; trailing positions are dropped |
| `DepGraphs.DepGraph.AddDependencies` | src/cluster_linearize.h:178-199 | the ancestor relation becomes the old one with the ancestors of the parents added to the child and all its descendants; the invariant is kept |
| `DepGraphs.WithDependenciesLeast` | src/cluster_linearize.h:174-199 | that relation is the least reflexive and transitive one that holds the old dependencies and the new |
| `DepGraphs.GetReducedParents` | src/cluster_linearize.h:209-220 | the result is an antichain of proper ancestors that together cover all of them |
| `PostGuarantees.ReducedAreDirect` | src/cluster_linearize.h:201-220 | in an acyclic graph these are exactly the ancestors with nothing in between |
| `DepGraphs.DepGraph.Remap` | src/cluster_linearize.h:90-112 | rebuilding a graph through reduced parents gives an isomorphic graph: same feerates, and the image of every ancestor set |
| `Components.GetConnectedComponent` | src/cluster_linearize.h:264-280 | the result holds tx, is connected, and has no dependency in either direction with the rest of todo |
| `Components.FindConnectedComponent` | src/cluster_linearize.h:289-293 | the same for the first transaction of todo, and the empty set for an empty todo |
| `Linearizations.AppendTopo` | src/cluster_linearize.h:314-324 | appends exactly the selected transactions, without repetition, in a topological order: by ancestor count, and by index where that is equal |
| `Linearizations.MoveToFront` | src/cluster_linearize.h:518-526 | the guarantee behind every improvement: moving a subset to the front lowers the diagram nowhere, if whatever any prefix of chunks leaves of it has at least the feerate of the first chunk |
| `Chunkings.ChunkLinearization` | src/cluster_linearize.h:409-424 | returns the feerates of the chunks of the specification |
| `Chunkings.LinearizationChunking.constructor` | src/cluster_linearize.h:475-483 | the stored chunks are the chunks of the given order |
| `Chunkings.LinearizationChunking.BuildChunks` | src/cluster_linearize.h:446-471 | after dropping finished elements the stored chunks are those of a from-scratch chunking of what remains |
| `Chunkings.LinearizationChunking.MarkDone` | src/cluster_linearize.h:496-516 | over any sequence of calls the stored chunks equal a from-scratch chunking of the remaining order, also on the path that only skips a chunk |
| `Chunkings.LinearizationChunking.SkipFirst` | src/cluster_linearize.h:501-510 | the fast path: the chunks after the first are the chunks of the rest |
| `Chunkings.FirstChunkDone` | src/cluster_linearize.h:501-510 | why it is sound: dropping the first chunk drops the first elements of the order and leaves the other chunks as they are |
| `Chunkings.LinearizationChunking.IntersectPrefixes` | src/cluster_linearize.h:527-551 | the result is the shortest intersection of the subset with a prefix of chunks that has no lower feerate than the subset, or the subset if there is none shorter; it is not empty unless the subset is, and may be moved to the front of the remaining order without lowering its diagram |
| `Merging.MergeLinearizations` | src/cluster_linearize.h:1338-1373 | the result is a topological permutation whose diagram is nowhere below that of either input |
| `PostLinearization.PostLinearize` | src/cluster_linearize.h:1149-1331 | the two linked-list passes compute PostLinearized in place; the result is a topological permutation, its diagram is nowhere lower, and each of its chunks is connected |
| `PostLinearization.RunPass` | src/cluster_linearize.h:1242-1330 | one pass, forward or backward, computes the groups of the specification and writes them back |
| `PostLinearization.Settle` | src/cluster_linearize.h:1265-1306 | the merge/swap cycle over array-held lists computes Settled, keeps the order topological and its diagram nowhere lower, and ends with non-increasing feerates |
| `PostLinearization.InsertGroup` | src/cluster_linearize.h:1252-1263 | a group of one transaction is appended to the list the array holds |
| `PostLinearization.MergeStep` | src/cluster_linearize.h:1279-1292 | merging two adjacent groups in the array is concatenation of the groups in the list it holds |
| `PostLinearization.SwapStep` | src/cluster_linearize.h:1293-1305 | changing three links swaps two adjacent groups in the list the array holds |
| `PostLinearization.WriteBack` | src/cluster_linearize.h:1309-1329 | walking the links writes the groups, or their reversal, over the whole linearization |
| `PostGuarantees.PassImproves` | src/cluster_linearize.h:1132-1136 | either pass turns a topological linearization into one that is nowhere worse |
| `PostGuarantees.PassOptimal` | src/cluster_linearize.h:1140-1141 | a pass over dependencies in which dependents of one transaction form a chain is at least as good as every order that respects them, from whatever order it starts |
| `PostGuarantees.TreeOptimal` | src/cluster_linearize.h:1140-1141 | if every transaction has at most one child, or every one at most one parent, the result is optimal: nowhere below any topological linearization |
| `PostGuarantees.MovedPass` | src/cluster_linearize.h:1142-1146 | a pass that meets a transaction before others that are unrelated to it does at least as well as the order with the transaction after them |
| `PostGuarantees.MovedLeaf` | src/cluster_linearize.h:1142-1146 | moving a leaf to the end, raising its fee or not, and post-linearizing gives a diagram nowhere below the one before, at every size |
| `Searching.FindSorted` | src/cluster_linearize.h:752-1021 | the result is closed, no worse than the given best, and of the highest feerate of all closed subsets if fewer steps were made than allowed; there are always fewer than subsets of what is to be done; the history of the queue starts with one item per connected component, goes on by swaps and by taking one item off and putting at most two on, has more states than there were steps, ends empty in that case, and stays within the capacity reserved for it; the loop terminates |
| `Searching.InitialQueue` | src/cluster_linearize.h:793-812 | one work item per connected component, together all of todo, within the capacity |
| `Searching.AddItem` | src/cluster_linearize.h:832-902 | an item is dropped only if no optimal set is compatible with it and better than best; jumping ahead keeps every optimal set compatible; the item fits the capacity |
| `Searching.SplitItem` | src/cluster_linearize.h:907-979 | both halves of a split together keep every optimal set reachable, and both fit the capacity |
| `Searching.ChooseSplit` | src/cluster_linearize.h:939-963 | the transaction to split on makes 2^I + 2^E least, with the sizes of the undecided set after including and after excluding it, and is the first such |
| `Searching.CountsOrder` | src/cluster_linearize.h:949-953 | comparing the greater of the two sizes first, then the smaller, is comparing these sums |
| `Searching.PotentialBounds` | src/cluster_linearize.h:841-848 | no closed set compatible with an item and better than best has a higher feerate than the potential of the item |
| `Searching.JumpInside` | src/cluster_linearize.h:850-870 | a closed part of the potential lies inside every optimal compatible set |
| `Searching.JumpAhead` | src/cluster_linearize.h:850-870 | the result is closed, between the included set and the potential, and inside every optimal set the included set was inside |
| `Searching.TrimImproving` | src/cluster_linearize.h:818-823 | exactly the transactions above best remain |
| `Searching.PopOk` | src/cluster_linearize.h:999-1014 | taking an item off either end keeps position plus undecided transactions within the capacity |
| `Searching.SwapOk` | src/cluster_linearize.h:994-997 | so does swapping the first two items |
| `Searching.OptimalPart` | src/cluster_linearize.h:797-812 | an optimal set can be taken within one connected component |
| `Finders.SortByFeerate` | src/cluster_linearize.h:709-723 | the order is a permutation of the positions by decreasing feerate, then increasing size, then index |
| `Finders.SearchCandidateFinder.constructor` | src/cluster_linearize.h:704-727 | the sorted copy of the graph is isomorphic to the given one and everything remains |
| `Finders.SearchCandidateFinder.FindCandidateSet` | src/cluster_linearize.h:752-1021 | the search result carried back to the positions of the given graph: closed, no worse than the given best, optimal if it stopped early, and after fewer steps than there are subsets |
| `Finders.SearchCandidateFinder.MarkDone` | src/cluster_linearize.h:1027-1033 | exactly the given subset, in original positions, no longer remains |
| `Finders.AncestorCandidateFinder.constructor` | src/cluster_linearize.h:578-602 | the stored feerates are those of the full ancestor sets |
| `Finders.AncestorCandidateFinder.MarkDone` | src/cluster_linearize.h:610-621 | the stored feerates stay those of the remaining ancestor sets |
| `Finders.AncestorCandidateFinder.FindCandidateSet` | src/cluster_linearize.h:640-653 | the result is the remaining ancestor set of some transaction, and none is better |
| `Linearizing.Linearize` | src/cluster_linearize.h:1055-1130 | the result is a topological linearization, nowhere below the old one if there is one, and nowhere below any topological linearization if it is reported optimal; at most the given number of iterations is used, and never more than a bound in the number of transactions, with which the result is reported optimal; without that report, if the search was started at all, at least half of the allowed iterations were used, less one for every four transactions |
| `Linearizing.EnoughIs` | src/cluster_linearize.h:1052 | that bound, for n transactions, is below 2^(n+2) plus a square |
| `Linearizing.Candidate` | src/cluster_linearize.h:1082-1115 | every candidate is closed, does not let the result fall behind the old linearization, and is of highest feerate if claimed optimal; it is, given enough iterations, and otherwise at least half of those left are used |
| `Linearizing.StepOnTrack` | src/cluster_linearize.h:1048-1049 | outputting a closed set of highest feerate loses nothing at any rate |
| `Linearizing.OnTrackIsOptimal` | src/cluster_linearize.h:1048-1049 | an order made of such sets only is optimal |
| `Fixing.FixLinearization` | src/cluster_linearize.h:1377-1405 | any permutation becomes a topological linearization, and a topological one is left as it is |
| `Fixing.FixOne` | src/cluster_linearize.h:1385-1403 | one element moves right behind the last of its ancestors; nothing else changes its relative order |
| `CheckQueues.RunChecks` | src/checkqueue.h:129-134 | the first failure of the batch: no check before it failed; nothing exactly if no check of a non-empty batch fails; an empty batch leaves what the thread had before |
| `CheckQueues.RunIsFirst` | src/checkqueue.h:129-134 | the same of what a step of the system runs |
| `CheckQueues.BatchSize` | src/checkqueue.h:116-121 | at least one check and at most those queued, and no more than the batch limit |
| `CheckQueues.BatchSizeIs` | src/checkqueue.h:116-121 | a batch is the greatest that every thread in the loop, every waiting one once more, and one thread besides could all take from the queue, within the batch limit; but not empty |
| `CheckQueues.StepInv` | src/checkqueue.h:72-137 | every step of master and workers keeps the invariant: counters, results of the session so far, and wake-ups |
| `CheckQueues.RunInv` | src/checkqueue.h:72-198 | so does every run of Add, Complete and the destructor in every interleaving |
| `CheckQueues.CompleteSound` | src/checkqueue.h:23-24 | in every run, every Complete returns nothing if and only if all checks of its session passed, and otherwise what one of that session's checks returned |
| `CheckQueues.AloneComplete` | src/checkqueue.h:72-137 | without workers, whatever went before, Complete returns a function of the queue: batches are taken from its end, and the first failure of the first batch that has one is returned |
| `CheckQueues.AloneFour` | src/checkqueue.h:121-134 | so of four failing checks it is the third |
| `CheckQueues.SessionsPartition` | src/checkqueue.h:166-189 | the sessions answered and the current one divide the checks added among them, as multisets: each Complete answers for exactly the checks added since the last |
| `CheckQueues.TodoExact` | src/checkqueue.h:58-63 | in every reachable state nTodo counts queued checks and unfinished batches, nIdle and nTotal the threads they name, and no subtraction underflows |
| `CheckQueues.PublishedIsCurrent` | src/checkqueue.h:84-96 | what a critical section publishes was returned by a check of the current session in the batch just run: a local result of an earlier session never is |
| `CheckQueues.MasterNotStranded` | src/checkqueue.h:97-115 | a master asleep without a pending notification: some worker holds an unfinished batch and can go on |
| `CheckQueues.SomethingDue` | src/checkqueue.h:97-127 | while Complete is running some thread has a step to take |
| `CheckQueues.StepMeasure` | src/checkqueue.h:72-137 | every such step ends the session or brings its end closer |
| `CheckQueues.CompleteReturns` | src/checkqueue.h:166-169 | under every schedule Complete returns within a bound that is fixed by the state |
| `CheckQueues.JoinEnds` | src/checkqueue.h:191-198 | once the destructor has notified, under every schedule the workers take no more steps than a bound fixed by the state, and when none has a step left all have returned, so that joining them ends |
| `CoinViews.FetchKeeps` | src/coins.cpp:48-70 | fetching through any number of caches changes no view, and afterwards the cache answers with what the view shows |
| `CoinViews.WrittenFits` | src/coins.cpp:186-246 | writing an entry that fits never throws, fits in turn, and makes the parent show what the child shows |
| `CoinViews.CacheWrites` | src/coins.cpp:186-250 | a whole batch into a cache: the parent's view becomes the child's, and FRESH is never found misapplied |
| `CoinViews.StoreWrites` | src/txdb.cpp:119-131 | a whole batch into the database: it then holds the child's view |
| `CoinViews.Forget` | src/coins.cpp:252-276 | after writing back, wiping or cleaning the child keeps every view |
| `CoinViews.RunRefines` | src/coins.cpp:48-291 | over every run of fetch, add, spend, uncache, sync, flush, push and pop on any stack of caches, where additions and spending in a lower cache disturb no entry above, each cache's view behaves as a plain map, no exception is thrown, FRESH implies that the parent lacks the coin, and a clean entry equals the parent's coin |
| `CoinViews.AllowedExact` | src/coins.cpp:72-153 | exactly when adding to or spending from any cache of a stack leaves it consistent: when the nearest entry above, if there is one, fits the coin that the cache is going to show |
| `CoinViews.ReplaceExact` | src/coins.h:108-130 | the same for any change of one entry, whatever the operation |
| `CoinViews.TopAllowed` | src/coins.cpp:72-153 | in the top cache the condition always holds, and no other view changes |
| `CoinViews.AddedBelowThrows` | src/coins.cpp:215-222 | an input that breaks the condition: a coin added to a cache and then to the one below it, after which flushing the upper one throws |
| `CoinViews.GetCoinIsLookup` | src/coins.cpp:66-70 | GetCoin and HaveCoin of any cache answer from that plain map |
| `CoinViews.SpendFinds` | src/coins.cpp:133-153 | when exactly SpendCoin of any cache returns true: for an unspent coin, and for one that this cache, or the database right below it, holds as spent |
| `CoinViews.SpendTwiceFinds` | src/coins.cpp:133-153 | an input on which it returns true for a coin that is spent already |
| `CoinLifetimes.NothingReachesBase` | src/coins.cpp:72-291 | a coin that a base lacks, added, spent, added again, synchronized and flushed through any number of caches above it: once it is not shown any more, the lowest cache has no entry for it, and flushing that leaves the entry of the base as it is |
| `CoinLifetimes.StepKeepsEphemeral` | src/coins.cpp:72-246 | every such call keeps the lowest entry for the coin, if there is one, unspent and FRESH |
| `CoinLifetimes.WriteKeepsEphemeral` | src/coins.cpp:191-244 | writing back does: a FRESH entry of the child stays FRESH in the parent, and a FRESH entry of the parent goes when the child has spent the coin |
| `CoinLifetimes.AddThenSpend` | src/coins.cpp:133-153 | spending a coin that was added where there was none leaves the whole stack as it was before; spending it once more then finds nothing, unless the database returns a spent coin |
| `CoinLifetimes.SpendLeaves` | src/coins.cpp:146-151 | spending leaves an entry exactly if one that was not FRESH was found, and then a DIRTY spent one |
| `CoinLifetimes.WritingKeeps` | src/coins.cpp:252-276 | synchronizing keeps exactly the unspent coins cached, without flags; flushing keeps none |
| `CoinLifetimes.UncacheDrops` | src/coins.cpp:278-291 | uncaching drops an entry exactly if it has no flags, and changes nothing else in the stack |
| `CoinCaches.RingAppend` | src/coins.h:132-144 | linking in before the sentinel appends to the circular list, for every list |
| `CoinCaches.RingRemove` | src/coins.h:180-187 | linking the neighbours to each other removes one element, wherever it is |
| `CoinCaches.CoinsViewCache.AddFlags` | src/coins.h:132-144 | flags are added and an entry without flags is appended to the list |
| `CoinCaches.CoinsViewCache.SetClean` | src/coins.h:180-187 | flags are cleared and the entry leaves the list, whose order is kept |
| `CoinCaches.CoinsViewCache.Erase` | src/coins.h:172-175 | the entry leaves the map and the list |
| `CoinCaches.CoinsViewCache.FetchCoin` | src/coins.cpp:48-64 | the map gains the coin of the base, if any, and nothing else changes |
| `CoinCaches.CoinsViewCache.AddCoin` | src/coins.cpp:72-111 | the new entry and the exception are those of the specification; an unspendable coin is ignored |
| `CoinCaches.CoinsViewCache.SpendCoin` | src/coins.cpp:133-153 | the entry fetched becomes a spent one, or is erased if FRESH, and the moved-out coin is the one it held; false and no change without an entry |
| `CoinCaches.CoinsViewCache.Uncache` | src/coins.cpp:278-291 | exactly an entry without flags is removed |
| `CoinCaches.CoinsViewCache.WriteEntry` | src/coins.cpp:188-246 | one entry of the child: the new entry and the exception are those of the specification |
| `CoinCaches.CoinsViewCache.NextAndMaybeErase` | src/coins.h:283-297 | the cursor moves on, and the entry behind it is erased if spent and otherwise cleaned, unless the child will be wiped |
| `CoinCaches.CoinsViewCache.BatchWrite` | src/coins.cpp:186-250 | the flagged entries of the child, in the order of its list, are written as the specification says; the child is left cleaned or untouched |
| `CoinCaches.CoinsViewCache.Flush` | src/coins.cpp:252-263 | the base holds the batch and the cache is empty |
| `CoinCaches.CoinsViewCache.Sync` | src/coins.cpp:265-276 | the base holds the batch, no entry is flagged any more, and spent entries are gone |
| `CoinCaches.CoinsViewCache.SanityCheck` | src/coins.cpp:319-350 | in every valid state all its assertions hold: permitted flags, the list holding exactly the flagged entries once each with consistent links, and the usage total |
| `CoinCaches.CoinsViewCache.CountLinked` | src/coins.cpp:337-347 | walking the list meets every flagged entry once and finds consistent links |
| `AddrManagers.AddrMan.constructor` | src/addrman.cpp:109-125 | an empty manager satisfies the invariant |
| `AddrManagers.AddrMan.Find` | src/addrman.cpp:401-414 | finds exactly the known addresses, and their entry |
| `AddrManagers.AddrMan.Create` | src/addrman.cpp:416-430 | a new id, never used before, enters mapInfo, mapAddr, vRandom and the counts |
| `AddrManagers.AddrMan.SwapRandom` | src/addrman.cpp:432-454 | two places of vRandom change, and the positions in the entries with them |
| `AddrManagers.AddrMan.Delete` | src/addrman.cpp:456-471 | one entry leaves all indexes and counts; the others keep everything but their place in vRandom |
| `AddrManagers.AddrMan.ClearNew` | src/addrman.cpp:473-489 | the slot is empty; its entry has one place less, and is gone if that was its last |
| `AddrManagers.AddrMan.RemoveFromNew` | src/addrman.cpp:495-504 | every place of the entry in the new table is emptied, although the loop may stop early |
| `AddrManagers.AddrMan.MakeSpace` | src/addrman.cpp:515-541 | the evicted entry is back in the new table in the slot for its own source, whose entry loses one place |
| `AddrManagers.AddrMan.MakeTried` | src/addrman.cpp:491-548 | the entry has left the new table and is in its tried slot; the former occupant, if any, is in the new table again; no other entry changes |
| `AddrManagers.AddrMan.AddSingle` | src/addrman.cpp:550-624 | an address is inserted if and only if it is routable, is unknown or passes the tests on a known entry, and its slot for the source is free or yields; then the slot holds it, with one place more than before, and its times, services and source are as computed; otherwise the new table and the known addresses are as before, and the tried table always is |
| `AddrManagers.AddrMan.Prepare` | src/addrman.cpp:550-597 | exactly when the first part goes on to look for a slot, and with which entry: the refreshed one, or a new one with the time less the penalty |
| `AddrManagers.AddrMan.Refresh` | src/addrman.cpp:565-597 | services are added, the time is updated when old enough, and the entry goes on exactly when it brings news, is not tried, has room, and passes the stochastic test |
| `AddrPolicies.RefreshLaws` | src/addrman.cpp:565-576 | hearing of an address again makes it no older, forgets no service, and changes nothing the second time; the time moves by more than an hour or a day only, never past the time heard |
| `AddrPolicies.AnnouncedTime` | src/addrman.cpp:560-563 | a new address has the time it was announced with, less the penalty if another than itself announced it, and no history |
| `AddrManagers.AddrMan.PlaceNew` | src/addrman.cpp:599-623 | exactly when the slot is given to the entry, and what becomes of its occupant, or of an entry left without a place |
| `AddrManagers.AddrMan.Good` | src/addrman.cpp:626-679 | exactly when the entry moves to the tried table and what else changes; a pending collision is recorded up to the limit; from acceptable timestamps they stay acceptable if and only if the time is after the epoch, or at it while the entry is not tried and will not be, which is told from the state before the call |
| `AddrManagers.RejectedTime` | src/addrman.cpp:626-679 | an input outside that condition: an address added and then reported good at the epoch, after which the consistency check fails |
| `AddrManagers.AddrMan.Attempt` | src/addrman.cpp:693-711 | exactly the last try and, if it counts, the attempts change; the timestamps stay acceptable if and only if the time is not before the epoch |
| `AddrManagers.RejectedAttempt` | src/addrman.cpp:693-711 | an input outside that condition: an address added and then attempted before the epoch, after which the consistency check fails |
| `AddrManagers.AddrMan.Connected` | src/addrman.cpp:877-894 | the time is updated exactly when it is more than twenty minutes newer |
| `AddrManagers.AddrMan.SetServices` | src/addrman.cpp:896-910 | exactly the services of a known address change |
| `AddrManagers.AddrMan.ResolveCollisions` | src/addrman.cpp:912-973 | the ids are taken in ascending order, each by one such round; the collisions left are exactly the pending ones whose round says wait; whatever the clock, acceptable timestamps stay acceptable |
| `AddrManagers.AddrMan.ResolveId` | src/addrman.cpp:914-972 | one round: an id that is not pending is passed over, another is resolved, and leaves the set exactly if the verdict is not to wait; acceptable timestamps stay acceptable at any time |
| `AddrManagers.MoveAfterEpoch` | src/addrman.cpp:929-957 | why: a pending entry is moved only after the success of the entry in its slot, which is always there and tried, and so after the epoch |
| `AddrManagers.AddrMan.ResolveOne` | src/addrman.cpp:917-965 | when a collision is dropped, resolved by moving the entry, or kept, what each does, and when the timestamps stay acceptable |
| `AddrPolicies.EvictionLaws` | src/addrman.cpp:929-957 | a tried entry gives way only if it has not succeeded for four hours, and was tried in that time but not within a minute, or the newcomer has waited for forty minutes |
| `AddrPolicies.RipeResolved` | src/addrman.cpp:912-973 | no collision waits for ever: when no entry was tried within a minute and every pending one has waited for forty minutes, one call resolves them all, although each round changes the tables for the next |
| `AddrPolicies.StepTimes` | src/addrman.cpp:917-965 | a round changes the times of no entry but its own |
| `AddrManagers.AddrMan.SelectTriedCollision` | src/addrman.cpp:975-1001 | the entry looked up is always that of an occupied tried slot, never the empty marker |
| `AddrManagers.AddrMan.GetAddr` | src/addrman.cpp:812-851 | distinct, eligible addresses within the limit, and all eligible ones if there are fewer |
| `AddrPolicies.WantedIs` | src/addrman.cpp:817-824 | the number wanted is the greatest within the number known, the limit and the percentage |
| `AddrPolicies.FilterExact` | src/addrman.cpp:69-92 | the filter keeps an address heard of within thirty days, not from the future, without attempts, or with a success and fewer than ten, or with one within a week, and one just tried; it drops, unless just tried, one not heard of in that time, or with three attempts and never a success |
| `AddrManagers.AddrMan.CheckAddrman` | src/addrman.cpp:1063-1166 | in every state whatever, the check returns zero if and only if the key is set, every entry is in time, counted and found by address and by position, both tables hold exactly the entries they should in their own slots, and the counters that exist are right and enough in number |
| `AddrManagers.AddrMan.CheckEntries` | src/addrman.cpp:1077-1108 | the loop over the entries fails exactly if one of them is at fault, and otherwise collects exactly the tried ids, the reference counts and the network counts |
| `AddrManagers.AddrMan.CheckTriedTable` | src/addrman.cpp:1115-1130 | nothing is at fault and nothing left over if and only if the table holds every tried id in its own slot, and no other |
| `AddrManagers.AddrMan.CheckNewTable` | src/addrman.cpp:1132-1145 | nothing is at fault and nothing left over if and only if the table holds every new id as often as its reference count says, each in its own place of the bucket, and no other |
| `AddrChecks.CheckedExact` | src/addrman.cpp:1063-1166 | in every state, what the check accepts together with the facts it does not look at is equivalent to the invariant with acceptable timestamps; those facts are ids in range, addresses that lead back to their entry, and counters for every network |
| `AddrChecks.RandomOnto` | src/addrman.cpp:1074-1101 | although only the way from entries to positions is checked, equal numbers make every position of vRandom that of an entry |
| `AddrChecks.StaleAddressAccepted` | src/addrman.cpp:1096-1099 | a state that the check accepts and the invariant excludes: an address that leads to no entry |
| `AddrChecks.Capacity` | src/addrman.cpp:1074-1075 | nNew and nTried stay within the tables, and vRandom holds every entry once |
| `AddrMans.OnwardColliding` | src/addrman.cpp:975-1001 | as ids are not reused and a filled tried slot stays filled, pending collisions keep pointing at occupied slots |
| `AddrMans.EvictKeeps` | src/addrman.cpp:515-525 | taking an entry out of the tried table keeps all indexes but for that entry, which is in no table and not counted |
| `AddrMans.PromoteKeeps` | src/addrman.cpp:542-547 | putting such an entry into its empty tried slot restores the whole invariant |
| `AddrMans.ClearKeeps` | src/addrman.cpp:473-489 | emptying a slot and taking one reference keeps reference counts equal to occurrences |
| `AddrMans.FillKeeps` | src/addrman.cpp:528-538 | so does filling a slot |
| `AddrPolicies.AnySlot` | src/addrman.cpp:48-67 | every slot of both tables is that of an address, for some hashes |
| `HeadersSyncs.HeadersSyncState.constructor` | src/headerssync.cpp:17-43 | a fresh object is in PRESYNC with nothing received |
| `HeadersSyncs.HeadersSyncState.Finalize` | src/headerssync.cpp:48-60 | buffers are empty and the state is final |
| `HeadersSyncs.HeadersSyncState.ProcessNextHeaders` | src/headerssync.cpp:65-134 | over any run: released headers concatenated are an unchanged prefix of those accepted in REDOWNLOAD, linked by hash from the start of the chain; exactly those with enough headers on top are released, or all once the work suffices; success, request_more and the next state are given exactly, in both phases; the second download obeys the difficulty rule if and only if it did before and the first header of the message obeys it; headers are released before the work suffices only with at least one later committed bit checked for every period of the buffer, all of them equal to those of the first download; in PRESYNC there is one commitment for every period of headers, or one more |
| `HeadersSyncs.Setup.MessagePermitted` | src/headerssync.cpp:226-232 | of an accepted message all headers but the first are sure to obey the difficulty rule, and the first does unless the buffer is empty and it breaks the rule after its true predecessor |
| `HeadersSyncs.Setup.DifficultyExact` | src/headerssync.cpp:226-232 | the same for one header |
| `HeadersSyncs.BrokenRule` | src/headerssync.cpp:226-232 | an input outside that condition: without a buffer, three messages lead to a second download that breaks the rule |
| `HeadersSyncs.HeadersSyncState.ValidateAndStoreHeadersCommitments` | src/headerssync.cpp:136-172 | a message is accepted if and only if it connects and every header in turn is accepted; then it extends the first download, and REDOWNLOAD begins exactly when the work suffices |
| `HeadersSyncs.HeadersSyncState.ValidateAndProcessSingleHeader` | src/headerssync.cpp:174-210 | accepted if and only if the difficulty transition is permitted and the commitments stay within their limit; then the stored bits are those of the headers so far at the heights where one is due |
| `HeadersSyncs.HeadersSyncState.ValidateAndStoreRedownloadedHeader` | src/headerssync.cpp:212-275 | accepted if and only if it connects, keeps to the difficulty rule and, at a height where a commitment is due and before the work suffices, has the bit of the first download |
| `HeadersSyncs.HeadersSyncState.CheckCommitment` | src/headerssync.cpp:247-267 | the bit compared at a height is the one PRESYNC stored for that height |
| `HeadersSyncs.HeadersSyncState.PopHeadersReadyForAcceptance` | src/headerssync.cpp:277-291 | exactly the headers with enough others on top, or all, are released, rebuilt as received |
| `HeadersSyncs.HeadersSyncState.StoreAll` | src/headerssync.cpp:101-109 | a message is accepted if and only if every header in turn is; it extends the second download by what came before a failure, or by all of it |
| `HeadersSyncs.Rebuild` | src/headerssync.h:21-53 | a compressed header and the hash of the one before it give back the header received |
| `HeadersSyncs.Setup.CommitsNext` | src/headerssync.cpp:247-267 | the stored bits and the heights they belong to advance together |
| `HeadersSyncs.Setup.DueExact` | src/headerssync.cpp:192 | a commitment is due at exactly the heights that are the offset plus a multiple of the period |
| `HeadersSyncs.Setup.CommitsCount` | src/headerssync.cpp:192-202 | the number of commitments to consecutive headers is the number of periods they fill, or one more |
| `HeadersSyncs.Setup.LengthRefuses` | src/headerssync.cpp:195-202 | length alone refuses no chain that fills fewer periods than commitments are allowed, and every one that fills more |
| `HeadersSyncs.Setup.OncePerPeriod` | src/headerssync.cpp:253 | among any period of consecutive headers exactly one is committed to |
| `HeadersSyncs.Setup.ComparedOnce` | src/headerssync.cpp:253-267 | so before the work suffices exactly one header in every period of the second download was compared, and its bit is that of the first |
| `HeadersSyncs.Setup.BitsAgree` | src/headerssync.cpp:247-267 | before the work suffices the bits of the second download, from any header on, are the first of those committed to, and there is one for every period |
| `HeadersSyncs.Setup.RuleOf` | src/headerssync.cpp:186-190 | the difficulty rule applied to a header is that of its own height |
| `Chains.InvertsLowestOne` | src/chain.cpp:69-70 | the lowest one of the binary representation becomes a zero and the rest is kept |
| `Chains.GetSkipHeight` | src/chain.cpp:72-81 | the height skipped to is lower |
| `Chains.BlockIndex.GetAncestor` | src/chain.cpp:83-108 | through whatever skip pointers are set, the ancestor at the height, and null out of range; if all are set the blocks visited number exactly Steps |
| `Chains.FewSteps` | src/chain.cpp:77-79 | from a block below height 2^k any ancestor is reached in at most StepBound(k) steps |
| `Chains.StepsWithin` | src/chain.cpp:77-108 | the same between any two heights of an aligned stretch of length 2^m, whatever comes before it |
| `Chains.StepBoundIs` | src/chain.cpp:77-79 | that is a quarter of k^2 + 8k - 28, rounded down, from k = 10 on, and 110 for the 2^18 blocks of the comment |
| `Chains.StepBoundReached` | src/chain.cpp:77-79 | and no bound is better: from height 2^k - 8 to height 2 it takes exactly that many |
| `Chains.Crossing` | src/chain.cpp:89-107 | getting below the middle of an aligned stretch of length 2^(m+1) takes at most the greater of (m + 5) / 2 and m - 2 steps |
| `Chains.WalkIsChain` | src/chain.cpp:83-108 | that is the block reached by following pprev |
| `Chains.BlockIndex.BuildSkip` | src/chain.cpp:115-119 | the skip pointer is the ancestor at the skip height |
| `Chains.BuiltFromParent` | src/chain.cpp:115-119 | a tree built block by block has all its skip pointers |
| `Chains.EqualHeightSkips` | src/chain.cpp:165-168 | blocks of equal height skip to equal heights |
| `Chains.LastCommonAncestor` | src/chain.cpp:153-178 | the highest common ancestor of any two blocks with a common genesis; terminates |
| `Chains.Chain.SetTip` | src/chain.cpp:16-24 | the vector becomes the whole chain of the block, although only what differs is written |
| `Chains.Chain.FindFork` | src/chain.cpp:50-59 | the last block shared with the chain, and null if none is or no block is given |
| `Chains.LocatorEntries` | src/chain.cpp:26-43 | the hashes of the ancestors at distances 0 to 10 and then doubling, down to the lowest block |
| `Chains.StepsBackGrows` | src/chain.cpp:26-43 | the distance of entry i is 9 + 2^(i - 10) from the tenth on |
| `Chains.LocatorLength` | src/chain.cpp:26-43 | a locator of a block below height 2^k has at most k + 12 entries |
| `Ariths.Add` | src/arith_uint256.h:117-127 | for every width, the sum modulo 2^(32 width) |
| `Ariths.ComplementVal` | src/arith_uint256.h:51-57 | complementing the limbs gives 2^(32 width) - 1 minus the number |
| `Ariths.Increment` | src/arith_uint256.h:155-162 | one more, modulo 2^(32 width) |
| `Ariths.Negate` | src/arith_uint256.h:59-66 | the additive inverse modulo 2^(32 width) |
| `Ariths.Subtract` | src/arith_uint256.h:129-133 | the difference modulo 2^(32 width) |
| `Ariths.MultiplySmall` | src/arith_uint256.cpp:47-57 | the product with a limb, modulo 2^(32 width) |
| `Ariths.Multiply` | src/arith_uint256.cpp:59-73 | the product modulo 2^(32 width) |
| `Ariths.AddProduct` | src/arith_uint256.cpp:64-69 | the inner loop adds one limb times the factor, up to multiples of the modulus |
| `Ariths.MulStep` | src/arith_uint256.cpp:66-68 | no intermediate sum exceeds 64 bits |
| `Ariths.ShiftLeft` | src/arith_uint256.cpp:13-28 | multiplication by 2^shift modulo 2^(32 width), for every shift |
| `Ariths.ShiftRight` | src/arith_uint256.cpp:30-45 | floor of division by 2^shift, for every shift |
| `Ariths.CompareTo` | src/arith_uint256.cpp:101-111 | the sign of the comparison of the numbers |
| `Ariths.Bits` | src/arith_uint256.cpp:155-168 | the position of the highest one, counted from one, and zero for zero |
| `Ariths.Divide` | src/arith_uint256.cpp:75-99 | for every width the exact floor of the quotient, and an error exactly for a zero divisor |
| `Ariths.DivideStep` | src/arith_uint256.cpp:89-96 | one round keeps dividend = quotient x divisor + rest with the rest below the shifted divisor |
| `BlockProofs.SetCompact` | src/arith_uint256.cpp:173-193 | the value is the mantissa scaled by the exponent modulo 2^256, overflow tells exactly whether it did not fit, and negative exactly whether the sign bit is set on a non-zero value |
| `BlockProofs.OverflowExact` | src/arith_uint256.cpp:188-191 | the three-case overflow test is exactly that the value is at least 2^256 |
| `BlockProofs.GetCompact` | src/arith_uint256.cpp:195-216 | reading the result back gives the number with only the bytes below the mantissa dropped; its internal assertions hold |
| `BlockProofs.GetBlockProof` | src/chain.cpp:121-134 | floor(2^256 / (target + 1)) for every target that is positive and fits, and zero otherwise; never a division by zero |
| `BlockProofs.ProofIdentity` | src/chain.cpp:129-133 | the identity (2^256 - 1 - t) / (t + 1) + 1 = 2^256 / (t + 1) that avoids the number 2^256 |
| `BlockProofs.TargetRoom` | src/chain.cpp:121-134 | target + 1 does not wrap for any target that fits |
| `Base58s.EncodeBase58` | src/base58.cpp:89-127 | computes the specified encoding: a one for every leading zero byte, then the base 58 digits; the carry assertion holds |
| `Base58s.DecodeBase58` | src/base58.cpp:40-87 | computes the specified decoding, with spaces around one word, the limit on the length, and failure exactly for the inputs specified; the carry assertion holds |
| `Base58s.WithinLimit` | src/base58.cpp:46-73 | a result is within the maximum length if and only if that is not negative or there is something to decode |
| `Base58s.EmptyBeyondLimit` | src/base58.cpp:46-73 | an input outside that condition: nothing to decode and a negative limit |
| `Base58s.DecodeEncode` | src/base58.cpp:40-127 | decoding inverts encoding for every byte string, given room |
| `Base58s.EncodeDecode` | src/base58.cpp:40-127 | encoding inverts decoding for every string without spaces |
| `Base58s.WordBetweenSpaces` | src/base58.cpp:42-77 | spaces before and after a word do not matter |
| `Base58s.EncodeSize` | src/base58.cpp:99 | 138/100 digits for every byte and one more are always enough |
| `Base58s.DecodeSize` | src/base58.cpp:54 | 733/1000 bytes for every character and one more are always enough |
| `Base58s.Accumulate` | src/base58.cpp:106-112 | one digit of input multiplies and adds within the buffer, without a carry left |
| `Base58s.MulAdd` | src/base58.cpp:64-69 | the inner loop: either the number is multiplied and added to, or a carry is left and it does not fit |
| `Base58s.CharValue` | src/base58.cpp:19-38 | the decoding table inverts the alphabet |
| `Base58s.ValueChar` | src/base58.cpp:19-38 | and accepts nothing else |
| `Base58s.Alphabet` | src/base58.cpp:19-38 | the alphabet is that of the digits and letters except zero, capital o, capital i and small l, in character order |
| `Base58s.Spaces` | src/util/strencodings.h:165-167 | the white space skipped is the space and the control characters from tab to carriage return |
| `Bech32s.PolyMod` | src/bech32.cpp:130-216 | the loop computes Run, of which the next rows tell what it is |
| `Bech32Fields.RunIsRemainder` | src/bech32.cpp:130-216 | that is the remainder over GF(32), modulo the generator, of the polynomial whose coefficients are a one and then the symbols, for every list of symbols |
| `Bech32Fields.RemainderUnique` | src/bech32.cpp:130-216 | there is only one such remainder, whatever the quotient |
| `Bech32Fields.StepCoef` | src/bech32.cpp:178-214 | a step multiplies by x, adds the symbol and takes off a multiple of the generator, coefficient by coefficient |
| `Bech32Fields.SymbolReduction` | src/bech32.cpp:192-214 | the five constants, chosen by the bits of the leading coefficient, add up to its multiple of the generator |
| `Bech32Fields.TimesExample` | src/bech32.cpp:144-150 | the product of the field is the one of the worked example |
| `Bech32s.StepLinear` | src/bech32.cpp:178-214 | the step is linear over exclusive or |
| `Bech32s.StepKernel` | src/bech32.cpp:178-214 | and takes nothing but zero to zero |
| `Bech32s.RunLinear` | src/bech32.cpp:130-216 | so the remainder of lists of any length is linear |
| `Bech32s.WindowDetected` | src/bech32.cpp:130-216 | two lists of any length that differ only within six consecutive symbols have different remainders |
| `Bech32s.CorruptionDetected` | src/bech32.cpp:326-339 | a change of up to six consecutive symbols never passes the check of the same encoding |
| `Bech32Codes.ThreeErrorsDetected` | src/bech32.cpp:138-142 | two lists of any length that differ in one to three symbols, anywhere within a window of 1023, have different remainders |
| `Bech32Codes.ErrorsRejected` | src/bech32.cpp:326-339 | so up to three errors in the expanded prefix or the data never pass the check of the same encoding |
| `Bech32Codes.ChangesRejected` | src/bech32.cpp:373-400 | changing up to three characters behind the separator of a string that decodes, or one in front of it and at most one behind, in more than case and so that the separator stays the last, makes it no longer decode under that encoding, whatever the limits |
| `Bech32Codes.ChangesAreErrors` | src/bech32.cpp:311-324 | such changes are one to three errors in the symbols that enter the checksum: a character of the prefix is two symbols, one of the data is one |
| `Bech32Codes.RootValue` | src/bech32.cpp:158-175 | the generator is zero at three consecutive powers of the element e of GF(1024) |
| `Bech32Codes.NoPeriod` | src/bech32.cpp:167-175 | no power of e below the 1023rd fixes anything but zero, so that these powers differ |
| `Bech32Codes.FixedBy1023` | src/bech32.cpp:167-175 | and the 1023rd fixes everything |
| `Bech32Codes.RunValue` | src/bech32.cpp:152-156 | at each of these powers the remainder, whatever it starts from, has the value of the polynomial of the symbols |
| `Bech32Codes.ThreeVanish` | src/bech32.cpp:172-175 | three terms that vanish with three consecutive powers are zero |
| `Bech32Codes.ElementRoot` | src/bech32.cpp:164-166 | e is a root of the polynomial that defines the extension |
| `Bech32Codes.EmbeddedTimes` | src/bech32.cpp:161-166 | the field of the coefficients is a part of the extension: products agree |
| `Bech32s.PreparePolynomialCoefficients` | src/bech32.cpp:311-324 | the list has two symbols for each character of the prefix, a zero between the first and the second ones, and then the values; the two symbols make up the character |
| `Bech32s.ExpandInjective` | src/bech32.cpp:311-324 | different prefixes enter the checksum differently |
| `Bech32s.CreateChecksum` | src/bech32.cpp:341-353 | computes the specified checksum |
| `Bech32s.ChecksumVerifies` | src/bech32.cpp:341-353 | appended, it verifies |
| `Bech32s.ChecksumUnique` | src/bech32.cpp:341-353 | and no other does |
| `Bech32s.VerifyChecksum` | src/bech32.cpp:326-339 | tells the encoding whose constant the remainder is, or none |
| `Bech32s.CheckCharacters` | src/bech32.cpp:286-309 | the positions at fault, in ascending order: exactly the characters that are not printable and the letters whose case is not that of the first letter; none exactly for printable characters of one case |
| `Bech32s.FindSeparator` | src/bech32.cpp:377 | the last separator |
| `Bech32s.Encode` | src/bech32.cpp:357-371 | the prefix, the separator, and the characters of the values and of the checksum |
| `Bech32s.Decode` | src/bech32.cpp:373-400 | computes the specified decoding, failure included |
| `Bech32s.DecodeEncode` | src/bech32.cpp:357-400 | decoding inverts encoding for every non-empty lower-case prefix and payload within the limit, under both encodings |
| `Bech32s.EncodeDecode` | src/bech32.cpp:357-400 | encoding what was decoded gives the string back in lower case |
| `Bech32s.CharValue` | src/bech32.cpp:22-35 | the decoding table inverts the character set |
| `Bech32s.ValueChar` | src/bech32.cpp:22-35 | and accepts nothing but its characters in either case |
| `Bech32s.CharsetLow` | src/bech32.cpp:22-23 | the first sixteen characters of the character set |
| `Bech32s.CharsetHigh` | src/bech32.cpp:22-23 | and the others |
| `Bech32s.CaseIgnored` | src/bech32.cpp:280-284 | a string of capital letters decodes as the one of small letters does |
| `Bech32Vectors.ShortestBech32` | src/test/bech32_tests.cpp:15-33 | the shortest Bech32 string of the tests decodes as Bech32, to its prefix and no data, and is what these are encoded as |
| `Bech32Vectors.ShortestBech32m` | src/test/bech32_tests.cpp:35-53 | so does the shortest Bech32m string, as Bech32m |

## Left out

- RPC, command line, HTTP, storage, networking, wallet and script code: input and output, or thin layers over code that is not here.
- Elliptic curves, hash functions, RandomX and the post-quantum signatures: taken as functions without known properties.
- Compact blocks (matching short ids to a pool), the cuckoo cache (a set that may forget), block filters (Golomb coding) and amount compression (a bijection on integers): each stands apart from the parts modelled here.
- The wrap-around of 32-bit and 64-bit counters (nTodo, nIdCount, step numbers) and the 128-bit product of feerate comparison: unbounded integers instead.
- Real memory usage of a coin, best-block hashes, EmplaceCoinInternalDANGER and the contents of a moved-from coin: usage is an arbitrary function, the rest does not bear on the coins a view shows.
- AddCoin without overwrite where the view has an unspent coin: the code asks its callers not to, and so does the run theorem; the exception on the entries at hand is modelled.
- Serialization of the address manager, Select and GetChance: format history, doubles and the termination of random choice.
- The two-dimensional bucket tables: one flat sequence each, reassigned instead of updated in place.
- The probability of the choices in search, address selection and addition: any choice is allowed.
- CheckQueues: the model steps between critical sections; the memory model of the machine and the order in which a mutex is granted are not part of it.
- The wrap-around of accumulated work at 2^256, and how max_commitments follows from the clock: the limit is a parameter.
- LocateErrors of bech32 with its logarithm tables, DecodeBase58Check and EncodeBase58Check: table computations and a hash.
- Bech32Codes.ChangesRejected: does not speak of a change that moves the last separator, the border between prefix and data, so that other symbols are checked.
- Bech32Codes.ThreeErrorsDetected: does not cover four errors within 89 characters, which the generator was selected for by a search and not by its roots.
- AddrManagers.AddrMan.CheckAddrman: does not say which error code is returned; of several faults it depends on the order of a hash table.
- Searching.FindSorted: does not show the square root of the number of subsets that the source names as a possible bound, only that number; how good the result is when the limit is reached depends on random choices.
