# PathAware-libp2p: a verified model

PathAware-libp2p is a content network over libp2p. A node splits a file into blocks named by their SHA-256 hash
(CIDs), serves and pushes blocks, caches what passes by, measures the paths to its peers and chooses among them with
bandit policies, and spreads popular blocks over its peers. This project models that logic in Dafny 4.11 and proves
what it keeps. `dafny verify dfyconfig.toml` checks everything.

Code that updates fields, arrays or maps is modelled by classes and methods with loops, each proved against a
function of its inputs or of the old state; the properties are lemmas about those functions. Concurrency (nodes on a
network, racing fetches, concurrent counters) is modelled as step systems, and its properties are invariants over
every run of every interleaving.

| files | what they model |
|---|---|
| `Bytes`, `Seqs`, `Arithmetic` | byte strings, fixed-width fields, positions of sequences, products and quotients |
| `Content`, `Store` | CIDs, chunking, manifests, the block store |
| `Cache`, `CacheRuns`, `CacheCounts`, `Lru` | the cache as a sequence of entries, all its histories, what they leave cached and how often fetched, and the map, list and counter that refine it |
| `Protocol`, `Handlers`, `Network` | the fetch and push conversations, the stream handlers, any number of nodes whose lock sections interleave |
| `Ucb`, `LinAlg`, `LinUcb` | UCB1 and LinUCB path selection |
| `PathMetrics`, `Probing`, `Ranking`, `Disjoint` | probe histories, pruning, crediting, scores, relay-disjoint selection and when it is optimal |
| `Providers`, `Race`, `Bloom` | provider order, the multipath race, cache summaries |
| `Replication`, `Placement`, `Statistics` | replication triggers, fragment placement, signed ranks and fairness |

Conventions. SHA-256 and FNV-1a are parameters: nothing is assumed of them, and a result about hashes reads "equal,
or these two named strings collide". Floats are reals; the natural logarithm is any function that is nonnegative and
nondecreasing from 1 on and not positive below, the square root any nonnegative root, matrix inversion any function that inverts what is
invertible. Map iteration order and unstable sorting are arbitrary. Times are integers given by the caller.

Where the code and its comments disagree, or a property one would expect fails, the model follows the code:

- Pruning is documented as removing paths with no successful probe for half an hour
  (`internal/pathpolicy/policy.go:170-173`, `manager.go:227-234`). Two things keep such paths. `LastProbed` is also set
  by failed probes (`internal/pathpolicy/path.go:47`), so a path that is probed and fails stays
  (`PathMetrics.FailingPathStays`); and the success rate must have fallen below 0.1, so a path that answered once and
  was not probed again stays too (`PathMetrics.SilentPathStays`). `PathMetrics.PrunedAsDocumentedExactlyWhen` gives
  the exact condition. As the manager prunes right after probing, no path of that round can go
  (`Probing.CreditedPathStays`).
- Path names keep eight characters of a peer ID (`manager.go:266`, `279`), so relays can share a name and then share
  one path: `Probing.RelaysShareAPath`, `Probing.DistinctRelaysOneName`. `Probing.CreditedOwnResultExactlyWhen` says
  exactly when a relay's path is its own.
- The multipath fetch claims to use disjoint paths (`internal/node/api.go:597`) but asks every provider. The race is
  modelled over all providers, and disjoint selection separately.
- `Put` on a cached CID never evicts, whatever the new length (`internal/cache/lru.go:98-107`), so the byte budget can
  be exceeded. `CacheRuns.TwoLengthsBreakBound` gives the calls, `CacheRuns.UpdateKeepsBoundExactlyWhen` the condition.
- `Put` loops for ever when pinned entries leave no room (`lru.go:110-112`): `CacheModel.LoopEndsExactlyWhen` gives the
  exact condition, `CacheRuns.PutNeverReturns` a history that leads there.
- A received cache summary is kept whatever its header says (`internal/node/node.go:104-110`). Looking up a filter of
  size 0 divides by zero (`internal/cache/bloom.go:99`), and a lookup makes a list with one index for each round the
  header asks for, up to 2³² - 1 of them (`bloom.go:94`). `Bloom.UnfitSummary` and `Bloom.OverlongSummary` give such
  summaries; `Bloom.SafeAfterReceiptExactlyWhen` says exactly which bytes leave lookups safe, given the longest list
  that fits in memory.
- A call of `RecordFetch` adds before it returns (`internal/content/replication.go:37-38`), so a block can be popular,
  and replication triggered, while calls that count towards the threshold have yet to return:
  `Replication.TriggersBeforeOthersReturn`.
- Context features are documented as scaled to [0,1] (`internal/pathpolicy/policy.go:489-490`) but are not clamped: 101
  peers make a feature above 1 (`LinUcb.FeatureAboveOne`). `LinUcb.FeaturesScaledExactlyWhen` gives the exact ranges.
  No other result needs them.
- Greedy path selection can miss the best total score. It finds it whatever the scores exactly when sharing a relay is
  transitive on the probed paths (`Disjoint.OptimalExactlyWhen`), as it is for the chains of at most one relay that
  probing builds. With at most L relays in a chain it never loses more than a factor L (`Disjoint.SelectionWithin`).
- `AdaptiveChunkSize` returns 0 for an empty file, which `Chunk` refuses, and can exceed the configured maximum:
  `Chunker.AdaptiveSizeUsable`.

## Model

| member | source | states |
|---|---|---|
| Hashing.EqualCIDs | internal/content/chunker.go:16-19 | Contents with one CID are equal, or are a SHA-256 collision; hex encoding adds no ambiguity |
| Hashing.HexCharacters | internal/content/chunker.go:16-19 | A CID is written in the digits 0-9 and a-f, the upper half of each hash byte first |
| Chunker.Chunk | internal/content/chunker.go:22-49 | A nonpositive size is refused before anything is read and a failing reader is an error; else the blocks concatenate to the input, each is named by its hash, none is empty, and all but the last have the chunk size |
| Chunker.ChunkingUnique | internal/content/chunker.go:22-49 | A file and a chunk size have exactly one chunking |
| Chunker.BuildManifest | internal/content/chunker.go:100-119 | The manifest has the given name and size, the CIDs of the blocks in order, and as root the hex hash of their concatenation |
| Chunker.SameRootSameBlocks | internal/content/chunker.go:100-119 | Equal roots mean equal block lists, or a collision between the two CID lists or between two blocks at one position |
| Chunker.RootIdentifiesContent | internal/content/chunker.go:22-49 | Two publications of any chunk sizes with one root have the same file content, or a named collision |
| Chunker.AdaptiveSizeUsable | internal/content/chunker.go:65-97 | The adaptive size is usable exactly for nonempty files, and above the maximum exactly for files between a maximum and a larger minimum |
| Chunker.AdaptiveSizeUnclamped | internal/content/chunker.go:80-88 | Where the bounds allow it the size is a quarter of the file above 50 ms, a sixteenth below 5 ms, and an eighth between |
| Chunker.AdaptiveSizeClamped | internal/content/chunker.go:74-96 | A file within the minimum is one chunk; otherwise the maximum is kept, and the minimum unless the maximum is below it |
| Chunker.AdaptiveSizeGrowsWithRTT | internal/content/chunker.go:80-96 | A slower path never makes the chunks smaller |
| Stores.Store.Put | internal/content/store.go:36-46 | Stores the data under the CID and leaves all other blocks alone |
| Stores.Store.Delete | internal/content/store.go:74-79 | Removes that block only, and fails exactly when it is not there |
| Stores.Store.Pin | internal/content/store.go:168-173 | The pinned set gains exactly that CID |
| Stores.Store.Unpin | internal/content/store.go:176-181 | The pinned set loses exactly that CID |
| CacheModel.EvictOldestEffect | internal/cache/lru.go:136-177 | One eviction removes nothing if all is pinned, else exactly one entry: the back-most unpinned one below the popularity threshold in the back half, else the back-most unpinned one; survivors keep order and data, and exactly the unpinned popular entries passed over have their counts halved once |
| CacheModel.VictimExists | internal/cache/lru.go:165-176 | There is no victim exactly when every entry is pinned |
| CacheModel.EvictOldestBytes | internal/cache/lru.go:136-183 | An eviction frees exactly the victim's bytes and no pinned byte |
| CacheModel.EvictOldestEntries | internal/cache/lru.go:136-183 | An eviction takes the victim's CID and no other, and raises no count |
| CacheModel.GetEffect | internal/cache/lru.go:69-89 | A hit raises the count of its own entry by one, changes no other, loses none, and comes to the front |
| CacheModel.PutAgainEffect | internal/cache/lru.go:98-107 | Putting a cached CID replaces its data, keeps its count, changes no other entry, and comes to the front |
| CacheModel.PutNewEffect | internal/cache/lru.go:109-117 | A new block comes in front with count zero, before what the least number of eviction passes that makes it fit has left |
| CacheModel.EvictEffect | internal/cache/lru.go:121-128 | Evict removes the entry of that CID and it alone |
| CacheModel.EvictKeepsOrder | internal/cache/lru.go:121-128 | Of two entries that stay, the one in front stays in front |
| CacheModel.LoopEndsExactlyWhen | internal/cache/lru.go:109-112 | Some number of passes ends the room-making loop if and only if the pinned bytes and the new block fit together or nothing cached is pinned |
| CacheModel.MakeRoom | internal/cache/lru.go:109-112 | Where the loop ends, the block fits or the cache is empty |
| CacheRuns.HistoryAgrees | internal/cache/lru.go:69-128 | After any history of Get, Put and Evict the entries stand strictly by last access, newest first, and each holds the block last put under its CID |
| CacheRuns.HitReturnsLatestPut | internal/cache/lru.go:69-89 | Every hit returns the latest block put under that CID |
| CacheRuns.LastAccessIs | internal/cache/lru.go:73-107 | The last access of a CID is its last Get or Put in the history |
| CacheRuns.LastPutIs | internal/cache/lru.go:92-118 | The latest block of a CID is that of its last Put in the history |
| CacheCounts.HitExactlyWhen | internal/cache/lru.go:69-128 | After any history a CID is a hit if and only if it was put and since then neither evicted nor chosen as a victim |
| CacheCounts.CountAtMostGets | internal/cache/lru.go:73-77 | After any history a count is at most the Gets of that CID since it was put |
| CacheCounts.CountIsGets | internal/cache/lru.go:73-77 | While no Put had to evict, it is exactly that number |
| CacheCounts.PopularNotVictim | internal/cache/lru.go:149-158 | So a block fetched three times since it was put is not the next victim while an unpinned block fetched less often lies in the back half; the victim is one of those |
| CacheRuns.HistoryBounded | internal/cache/lru.go:92-118 | With a nonnegative budget and one length per CID, every reachable cache is within the budget or holds a single entry |
| CacheRuns.UpdateKeepsBoundExactlyWhen | internal/cache/lru.go:98-107 | Putting a cached CID again keeps that bound exactly when its growth still fits or it is the only entry |
| CacheRuns.TwoLengthsBreakBound | internal/cache/lru.go:98-107 | Three calls that put two lengths under one CID exceed the budget |
| CacheRuns.PutNeverReturns | internal/cache/lru.go:109-112 | After one Put whose block is then pinned, a Put that does not fit beside it passes its loop for ever and evicts nothing |
| CacheRuns.MakeRoomKeepsPinned | internal/cache/lru.go:109-112 | Making room leaves every pinned entry in place, count included |
| CacheRuns.PutKeepsPinned | internal/cache/lru.go:92-118 | No Put removes a pinned entry; a Put of another CID leaves it as it was |
| Lru.LRUCache.Get | internal/cache/lru.go:69-89 | Index, list and byte counter refine the sequence model; a hit returns the modelled block, moves it to the front and counts one fetch; hit and miss counters follow |
| Lru.LRUCache.Put | internal/cache/lru.go:92-118 | Called where it can end, refines the model's Put: overwrite in place and move to front, or make room and push in front; index, list and counter keep agreeing |
| Lru.LRUCache.EvictUntilRoom | internal/cache/lru.go:109-112 | The loop ends under the condition above and reaches the model's state |
| Lru.LRUCache.EvictOldest | internal/cache/lru.go:136-177 | The two scans over the linked list do what the model's eviction does |
| Lru.LRUCache.FindUnpopular | internal/cache/lru.go:139-163 | The second-chance scan finds the model's victim, or none, and has halved exactly the counts the model halves |
| Lru.LRUCache.RemoveElement | internal/cache/lru.go:179-183 | The entry leaves list, index and byte counter together |
| Lru.LRUCache.Evict | internal/cache/lru.go:121-128 | Removes the entry of that CID if there is one, else changes nothing |
| Lru.LRUCache.CIDs | internal/cache/lru.go:218-226 | Lists every cached CID once, in any order |
| Wire.FetchedBlockMatches | internal/protocol/blocktransfer.go:221-253 | Whatever bytes a peer answers, a fetch that succeeds yields a block whose hash is the CID asked for |
| Wire.DecodeEncodedReply | internal/protocol/blocktransfer.go:66-71 | A found reply decodes to the data truncated as its 32-bit length field truncates it, then checked against the CID |
| Wire.FetchConversation | internal/protocol/blocktransfer.go:30-94 | With a server whose block under the CID asked for matches it, a fetch yields that block if it is under 4 GiB, a mismatch or a named collision if it is larger, and an error if there is none, for CIDs of any length |
| Wire.SentMatches | internal/protocol/blocktransfer.go:69-70 | What the 32-bit length field lets through matches the CID exactly when it is the whole block or collides with it |
| Wire.CidReadExactlyWhen | internal/protocol/blocktransfer.go:33-50 | A CID is read exactly when its two length bytes, the upper first, say at most 1024 and that many bytes follow, and it is those bytes |
| Wire.RequestBytes | internal/protocol/blocktransfer.go:210-217 | A request is two bytes of length and the CID |
| Wire.FoundBytes | internal/protocol/blocktransfer.go:67-73 | A found block is answered by 1, four bytes of length, the highest first, and the data |
| Wire.MissingBytes | internal/protocol/blocktransfer.go:54-61 | A missing block is answered by 0, two bytes of length and a message of 17 characters before the CID |
| Wire.OtherStatusIsFound | internal/protocol/blocktransfer.go:223-232 | Any first byte but 0 counts as found |
| Wire.PushBytes | internal/protocol/blocktransfer.go:169-198 | A push is CID, four bytes of length and data; an accepted one is answered by 1, a rejected one by 0, an ignored one not at all, and only the first acknowledges it |
| Wire.DecodeEncodedPush | internal/protocol/blocktransfer.go:161-199 | What the receiver makes of any pushed block: with a CID within 1024 bytes ignored, rejected or accepted by its possibly truncated data; with a longer one ignored, or cut short and the rest read as the body, and then accepted only under a 64-byte prefix that is its hash |
| Wire.PushConversation | internal/protocol/blocktransfer.go:111-158 | A pushed block that matches its CID and is at most 16 MiB is accepted as it is; an acknowledgement for a longer one needs 4 GiB and a named collision |
| Wire.PushAcknowledgedExactlyWhen | internal/protocol/blocktransfer.go:131-198 | A push under 4 GiB that matches its CID is acknowledged exactly up to 16777216 bytes |
| Wire.AcceptedBlockMatches | internal/protocol/blocktransfer.go:131-154 | Whatever bytes arrive, an accepted block hashes to its CID and keeps within 16 MiB |
| Handlers.BlockTransferHandler.LookupBlock | internal/protocol/blocktransfer.go:79-94 | Answers from the cache first, then from disk, and touches the cache as Get does |
| Handlers.CacheBeforeDisk | internal/protocol/blocktransfer.go:79-94 | A cached block is served from the cache whatever the disk holds, another from disk |
| Handlers.ServedIsCached | internal/protocol/blocktransfer.go:54-68 | What was served is then in front of the cache, counted once more if it was cached; a miss changes nothing |
| Handlers.BlockTransferHandler.HandleStream | internal/protocol/blocktransfer.go:30-76 | The bytes written are the encoded answer to the decoded request, a malformed request gets none, and the served block ends up in the cache |
| Handlers.BlockPushHandler.HandleStream | internal/protocol/blocktransfer.go:111-158 | The reply is the outcome's acknowledgement; store and cache gain the block exactly when it is accepted |
| Handlers.PushedIsStored | internal/protocol/blocktransfer.go:149-156 | An accepted push is then on disk and in front of the cache with all other stored blocks as they were; any other outcome changes nothing |
| Network.NodeStepHonest | internal/node/api.go:297-305 | Publishing, evicting, deleting and pinning keep every stored and cached block equal to its name |
| Network.HandlerStepHonest | internal/protocol/blocktransfer.go:54-94 | So does every single lock section of serving a request or accepting a push, and what the handler carries to its next section matches its CID |
| Network.FetchStepHonest | internal/node/api.go:391-452 | Every step of a fetch keeps that too, and every chunk it holds matches the manifest |
| Network.RunHonest | internal/protocol/blocktransfer.go:141-154 | In every world of every run, whatever the nodes, the interleaving of lock sections and the network bytes, each block stored, cached or carried by a handler hashes to its CID |
| Network.FetchWritesPublishedFile | internal/node/api.go:391-463 | In every run, a completed fetch writes exactly the bytes of any file published under its root, or a named collision |
| Network.ServedExactlyWhenAvailable | internal/protocol/blocktransfer.go:54-94 | In every run, a node left undisturbed answers a fetch with the block exactly when it has it, if the block is under 4 GiB; a larger one arrives only with a named collision |
| Network.ReplyRead | internal/protocol/blocktransfer.go:54-94 | In every run, what a handler that found a block writes is read by the asker as that block under its CID, and "not found" as not found |
| Network.AbsentOnlyWhenMissing | internal/protocol/blocktransfer.go:79-94 | In every run, a handler answers "not found" only if the cache lacked the block at one moment and the disk at a later one |
| Network.ServeUndisturbed | internal/protocol/blocktransfer.go:30-76 | The lock sections of a request, run back to back, have the effect and the reply of the whole handler |
| Network.PushUndisturbed | internal/protocol/blocktransfer.go:111-158 | The same for the sections of an accepted push |
| Ucb.UCB1Policy.SelectPath | internal/pathpolicy/policy.go:323-369 | Every branch of a selection: nothing offered, nothing viable, first untried viable path, else the first path of highest bound above -1; and the counters afterwards |
| Ucb.UCB1Policy.FindBest | internal/pathpolicy/policy.go:348-363 | The scan finds the first path of highest bound, or none exactly when no bound exceeds -1 |
| Ucb.BoundShape | internal/pathpolicy/policy.go:353-356 | A bound is the path's score plus C times a nonnegative root of ln N over the path's count |
| Ucb.UntriedFirst | internal/pathpolicy/policy.go:342-348 | While some offered probed path was never selected, the first such path is, and is counted once |
| Ucb.HighestSelected | internal/pathpolicy/policy.go:350-368 | Once all were, with nonnegative scores, the first offered probed path of highest bound is selected |
| Ucb.BestScoreSelected | internal/pathpolicy/policy.go:350-368 | Of the offered probed paths selected equally often, that path has the highest score, and is the first that has it |
| Ucb.NothingProbed | internal/pathpolicy/policy.go:324-338 | With nothing probed the first path is returned, or none, and nothing is counted |
| Ucb.ViablePositions | internal/pathpolicy/policy.go:328-335 | The viable paths are exactly the probed ones, in the order offered |
| Ucb.CountsAccountForTotal | internal/pathpolicy/policy.go:340-367 | Over every run the per-path counts and the selections that returned nothing add up to the total |
| Ucb.NothingLost | internal/pathpolicy/policy.go:351-368 | With nonnegative scores no selection returns nothing, so the counts alone add up |
| Ucb.FewerSelectionsWin | internal/pathpolicy/policy.go:353-357 | Once C² ln N exceeds 4c, a path selected c times has a higher bound than any selected 4c times or more, for scores in [0,1] |
| Ucb.PassedOver | internal/pathpolicy/policy.go:323-369 | A selection that passes over such a path goes to one still below four times its count, and uses up one unit of that room |
| Ucb.NoStarvation | internal/pathpolicy/policy.go:323-369 | No path starves: among k viable tried paths with scores in [0,1] that may change, a path with C² ln N above 4c is chosen within (k-1)(4c-1)+1 calls |
| Ucb.SelectedForEver | internal/pathpolicy/policy.go:323-369 | With an unbounded logarithm, for every K there is a number of calls, the same for all runs from any state in which the paths were tried, after which a path has at least K selections |
| LinAlg.PositiveDefinite | internal/pathpolicy/policy.go:602-610 | yᵀAy ≥ yᵀy for A = I + Σxxᵀ, any contexts and any y |
| LinAlg.SolutionUnique | internal/pathpolicy/policy.go:569-576 | A is nonsingular: no linear system in it has two solutions |
| LinAlg.Solve | internal/pathpolicy/policy.go:569-580 | Every system in A has a solution, built by rank-one updates |
| LinAlg.WidthNeverGrows | internal/pathpolicy/policy.go:586-590 | Whatever solves Az = y before and A'z' = y after an update, yᵀz' ≤ yᵀz |
| LinAlg.WidthAtUpdate | internal/pathpolicy/policy.go:602-610 | At the context just added, u = xᵀA⁻¹x becomes exactly u/(1+u) |
| LinAlg.WidthBounds | internal/pathpolicy/policy.go:586-588 | 0 ≤ yᵀA⁻¹y ≤ yᵀy, so the absolute value is a no-op |
| LinUcb.MatrixActs | internal/pathpolicy/policy.go:605-610 | The matrix kept by its entries acts on vectors as I + Σxxᵀ does |
| LinUcb.FeaturesAre | internal/pathpolicy/policy.go:491-499 | The features are peers per hundred, size per 1024, hour per 24, RTT per 1000, and a bias of 1 |
| LinUcb.FeaturesScaledExactlyWhen | internal/pathpolicy/policy.go:489-499 | All features lie in [0,1] if and only if peers, content size, hour and RTT keep within 100, 1024, 24 and 1000 and are not negative |
| LinUcb.FeatureAboveOne | internal/pathpolicy/policy.go:491-494 | With 101 peers they do not |
| LinUcb.DesignMatrixInvertible | internal/pathpolicy/policy.go:569-576 | Every reachable A has an inverse, given by its entries, so the singular fallback is unreachable |
| LinUcb.ThetaIsRidgeOptimum | internal/pathpolicy/policy.go:578-584 | θ = A⁻¹b is the only minimiser of the ridge-regression loss over the path's own rewards; any other weights lose by at least their squared distance |
| LinUcb.BoundComputed | internal/pathpolicy/policy.go:578-590 | Any inverse gives one and the same bound, with a nonnegative radicand |
| LinUcb.BoundByAnySolution | internal/pathpolicy/policy.go:578-590 | Whatever solves Aθ = b and Az = x, the bound is θᵀx + α√(xᵀz) |
| LinUcb.OneSampleBound | internal/pathpolicy/policy.go:546-615 | After one reward r at any context, the bound there is r·u/(1+u) + α√(u/(1+u)) with u = xᵀx at least 1 |
| LinUcb.SelectedHasHighestBound | internal/pathpolicy/policy.go:562-598 | The path selected is the first offered probed path whose bound is highest |
| LinUcb.ContextualBanditPolicy.InitPath | internal/pathpolicy/policy.go:534-542 | A path without state starts from the identity and zero; one with state keeps it |
| LinUcb.ContextualBanditPolicy.UpdateContext | internal/pathpolicy/policy.go:602-615 | Keeps, over every run: each path's A is I + Σxxᵀ and its b is Σr·x, over exactly its own updates |
| LinUcb.ContextualBanditPolicy.Score | internal/pathpolicy/policy.go:569-590 | The code's arithmetic yields θᵀx + α√(xᵀA⁻¹x) of the path's own history |
| LinUcb.ContextualBanditPolicy.SelectPathWithContext | internal/pathpolicy/policy.go:546-599 | Returns the first viable path whose bound, by its own history, is highest; the first path if none is viable; nothing for no paths |
| PathMetrics.Metrics.RecordProbe | internal/pathpolicy/path.go:46-101 | After any history the fields are its count, last probe time, weighted success rate and throughput estimate, and the average, maximum and deviation of its last twenty successful round trips |
| PathMetrics.JitterWithinSpread | internal/pathpolicy/path.go:72-81 | The jitter is never negative, nor more than largest minus smallest sample of the window, although it is taken about a truncated average |
| PathMetrics.HistoryGrows | internal/pathpolicy/path.go:52-55 | Appending and dropping the oldest sample keeps exactly the last twenty successes |
| PathMetrics.RttsOrdered | internal/pathpolicy/path.go:57-70 | Smallest sample ≤ AvgRTT ≤ P95RTT, which is the largest sample, over the window |
| PathMetrics.AverageIsMean | internal/pathpolicy/path.go:57-62 | AvgRTT is the mean of the window rounded toward zero |
| PathMetrics.AverageReordered | internal/pathpolicy/path.go:57-62 | Reordering the window does not change it |
| PathMetrics.JitterIsDeviation | internal/pathpolicy/path.go:72-81 | The jitter of two or more samples is the root of their mean squared distance from AvgRTT, rounded down |
| PathMetrics.EstimateIs | internal/pathpolicy/path.go:83-87 | A throughput estimate times the round trip is 106 bytes per second |
| PathMetrics.ThroughputOfLast | internal/pathpolicy/path.go:83-87 | The estimate is that of the last success that took any time, or zero |
| PathMetrics.WindowIsLastSuccesses | internal/pathpolicy/path.go:50-55 | The window is the round trips of the last twenty successful probes, or all, in order |
| PathMetrics.RateInUnit | internal/pathpolicy/path.go:90-100 | The success rate stays in [0,1] over every history |
| PathMetrics.RateIsShares | internal/pathpolicy/path.go:90-100 | The success rate weighs a success j probes back by 0.3·0.7ʲ, and the first of n probes by 0.7ⁿ⁻¹ |
| PathMetrics.SuccessLingers | internal/pathpolicy/path.go:90-100 | A success j probes ago keeps the rate at 0.3·0.7ʲ or above |
| PathMetrics.FailuresDecay | internal/pathpolicy/path.go:90-100 | n failures in a row bring the rate to 0.7ⁿ or below |
| PathMetrics.PrunedOnlyWhenDead | internal/pathpolicy/manager.go:246-252 | A pruned path failed its last four probes, or all it ever had, and was not probed at all for half an hour |
| PathMetrics.DeadPathPrunedExactlyWhen | internal/pathpolicy/manager.go:246-252 | After seven or more failures in a row a path is pruned exactly when half an hour passes without a probe |
| PathMetrics.PrunedAfterHalfAnHour | internal/pathpolicy/policy.go:173 | After eight failures a path goes one nanosecond after 1800 seconds without a probe, and not before |
| PathMetrics.PrunedHadNoSuccessLately | internal/pathpolicy/manager.go:246-252 | A pruned path had no success for half an hour, as documented |
| PathMetrics.PrunedAsDocumentedExactlyWhen | internal/pathpolicy/policy.go:170-173 | For every history, pruning and its documentation agree if and only if the path was probed and, with no probe for half an hour, its rate is below 0.1 or, with one, it succeeded within that time |
| PathMetrics.SilentPathStays | internal/pathpolicy/manager.go:246-252 | A path that answered its only probe stays, however long ago that was |
| PathMetrics.FailingPathStays | internal/pathpolicy/path.go:46-48 | Seven failures five minutes apart, no success ever, and the path is not pruned five minutes later |
| PathMetrics.ProbedLatelyStays | internal/pathpolicy/path.go:46-48 | Whatever its history, a path probed within the last half hour is not pruned |
| PathMetrics.PathSet.PruneStale | internal/pathpolicy/manager.go:244-256 | Of a path set exactly the stale paths go, in any iteration order |
| PathMetrics.PathSet.Best | internal/pathpolicy/path.go:151-167 | In any order of the map, a path of the highest score is returned, or none exactly when no score exceeds -1 |
| Probing.ProbedNames | internal/pathpolicy/manager.go:265-288 | One direct path without relays and, for each relay other than the target and the node itself, one path by truncated names over that relay |
| Probing.NamesWritten | internal/pathpolicy/manager.go:266-279 | Two names, written out |
| Probing.CandidatePositions | internal/pathpolicy/manager.go:275-278 | The relays probed are all but the target and the node itself, in their order |
| Probing.ProbedPaths.CreditAll | internal/pathpolicy/manager.go:308-348 | Each path's history grows by the results at the positions that carry its name, in order; a path keeps its chain, a new one gets that of the first position with its name; chains keep at most one relay and hop counts are those of the last success |
| Probing.HopsOfLast | internal/pathpolicy/manager.go:315-317 | The hop count is that of the last successful result, or zero |
| Probing.ProbedPaths.ProbeTarget | internal/pathpolicy/manager.go:260-350 | A probing round credits the direct and relay results that arrived, however many are missing |
| Probing.CreditedOwnResultExactlyWhen | internal/pathpolicy/manager.go:279-284 | A relay path is credited its own result and nothing else exactly when no other probed relay shares its first eight characters |
| Probing.RelaysShareAPath | internal/pathpolicy/manager.go:279-348 | A round with two relays that share eight characters makes one path for both, over the first relay, with both results |
| Probing.DistinctRelaysOneName | internal/pathpolicy/manager.go:279 | There are two different relay IDs with one path name |
| Probing.CreditedPathStays | internal/pathpolicy/manager.go:214-258 | No path credited in a probing round is pruned within half an hour of its probes, however dead it is |
| Probing.DefaultScoreInUnit | internal/pathpolicy/policy.go:78-103 | The default score of a path lies in [0,1] for every probe history, as UCB1's guarantee needs |
| Probing.ScoreParts | internal/pathpolicy/policy.go:67-103 | The default score is 0.35, 0.25, 0.25 and 0.15 times the terms for latency, success rate, hops and jitter, each pinned by its reciprocal |
| Probing.ScoreImproves | internal/pathpolicy/policy.go:78-103 | For nonnegative weights no better metric lowers the score, and a better success rate raises it |
| Probing.UnprobedScoresNothing | internal/pathpolicy/policy.go:79-81 | A path never probed scores zero |
| Ranking.InsertionSort | internal/pathpolicy/manager.go:159-164 | The in-place sort computes the specified order of the old array |
| Ranking.SortSorts | internal/pathpolicy/manager.go:159-164 | That order descends by score and is a permutation of the input |
| Ranking.SortStable | internal/node/api.go:560-565 | Equal scores keep their original order |
| Disjoint.SelectDisjoint | internal/pathpolicy/manager.go:135-195 | Filtering, sorting and the loop over used relays return the greedy choice over the sorted probed paths |
| Disjoint.SelectionJustified | internal/pathpolicy/manager.go:166-194 | For chains of any length the choice is pairwise relay-disjoint, at most n, in descending score, drawn from the probed paths, and every omitted probed path shares a relay with a chosen one scored at least as high, or n paths scored at least as high were chosen |
| Disjoint.MeetsExactlyWhen | internal/pathpolicy/manager.go:176-182 | Two paths share a relay exactly when some relay is in both chains |
| Disjoint.NoRelayTwice | internal/pathpolicy/manager.go:176-191 | No relay is in the chains of two chosen paths |
| Disjoint.SelectionOptimal | internal/pathpolicy/manager.go:135-195 | In particular it is with at most one relay per chain, as probing builds them |
| Disjoint.SelectionWithin | internal/pathpolicy/manager.go:135-195 | With at most L relays in a chain and nonnegative scores, no other relay-disjoint choice of at most n probed paths scores more than max(1, L) times as much |
| Disjoint.TransitiveOptimal | internal/pathpolicy/manager.go:135-195 | Where sharing a relay is transitive on the probed paths and scores are nonnegative, no other relay-disjoint choice of at most n probed paths has a higher total score |
| Disjoint.IntransitiveNotOptimal | internal/pathpolicy/manager.go:166-194 | Wherever one path meets two that do not meet each other, the scores 3, 2 and 2 make the choice lose 3 to 4 |
| Disjoint.OptimalExactlyWhen | internal/pathpolicy/manager.go:135-195 | The choice is optimal for all nonnegative scores and every n if and only if sharing a relay is transitive on the probed paths |
| Providers.SortByPathQuality | internal/node/api.go:540-573 | The providers end up permuted as the sort permutes their positions |
| Providers.QualityIs | internal/node/api.go:547-558 | A provider's score times the RTT in seconds is its success rate; without an RTT it is that rate, without a path -1 |
| Providers.QualityOrders | internal/node/api.go:547-558 | Any path beats none; of two with one RTT the more reliable wins, of two equally reliable the faster |
| Providers.BoostCached | internal/node/api.go:646-659 | Completes exactly if every provider can be looked up; the in-place partition then puts the hinted providers first and keeps the order inside both parts |
| Providers.RankProviders | internal/node/api.go:490-498 | Sorting, then boosting, completes exactly if every provider can be looked up, and then rearranges the array into the final order below |
| Providers.FinalOrderRanked | internal/node/api.go:490-498 | The final order has every position once and is lexicographic by hint first, score descending, original position |
| Providers.HintedComeFirst | internal/node/api.go:646-659 | No provider without a hint precedes one with a hint |
| Race.RunConsistent | internal/node/api.go:594-623 | Over every schedule everything sent is in the channel or was received, once, and the receiver stopped at the first block; each step uses up part of a budget of two per provider |
| Race.SendersNeverBlock | internal/node/api.go:594-612 | In every world of every schedule, at most one receive per provider was made, and the channel has room for all senders that have yet to send, also after an early return |
| Race.RacesEnd | internal/node/api.go:585-623 | Every schedule ends after at most two steps per provider |
| Race.RaceDecided | internal/node/api.go:614-623 | A schedule that can go no further has returned: a delivered block matching the CID exactly when some provider delivered one, an error exactly when all failed |
| Bloom.ParseSerialized | internal/cache/bloom.go:72-90 | Parsing gives back the filter exactly when its size and round count fit in 32 bits |
| Bloom.SummaryBytes | internal/cache/bloom.go:72-78 | A summary is the size and the rounds in four bytes each, the lowest first, and the bits |
| Bloom.BitIs | internal/cache/bloom.go:55 | Bit i is the one of value 2 to the i mod 8 in byte i / 8 |
| Bloom.BloomFilter.Add | internal/cache/bloom.go:53-57 | Keeps: a bit is set exactly when some added key hashes to it |
| Bloom.BloomFilter.SetBits | internal/cache/bloom.go:53-57 | Exactly the listed bits are added |
| Bloom.LookupFailsExactlyWhen | internal/cache/bloom.go:61-102 | A lookup in any filter fails exactly when its indices do not fit in memory, for a size of zero with at least one round, or when a round lands outside the bits and no earlier one found a zero bit |
| Bloom.LookupsSafeExactlyWhen | internal/cache/bloom.go:61-102 | No hash and no key make a lookup fail if and only if the filter has no rounds, or rounds that fit in memory and a positive size within its bits |
| Bloom.BloomFilter.Contains | internal/cache/bloom.go:61-68 | In a filter built by adding keys, whose indices fit in memory, it never fails and is true exactly when all the key's bits are set, hence for every added key; in any filter it is the lookup above |
| Bloom.BloomFilter.ContainedExactlyWhen | internal/cache/bloom.go:53-68 | A key may be contained exactly when each of its hashes mod the size equals one of an added key |
| Bloom.BloomFilter.constructor | internal/cache/bloom.go:23-50 | A new filter is empty, has the size and rounds below, its size fits its bits, and it has at least one round and no more rounds than bits, whatever the arguments |
| Bloom.SizeIsLeast | internal/cache/bloom.go:31-37 | The size is the least from eight on with size·(ln 2)² at least -n·ln p |
| Bloom.RoundsAreLeast | internal/cache/bloom.go:39-43 | The rounds are the least from one on with rounds·n at least size·ln 2 |
| Bloom.DefaultArguments | internal/cache/bloom.go:24-29 | Arguments out of range stand for 100 items and a rate of one in a hundred |
| Bloom.BloomFilter.FromBytes | internal/cache/bloom.go:81-90 | A received filter has the header and bits that parsing reads |
| Bloom.BloomFilter.Hashes | internal/cache/bloom.go:92-102 | One index per round, inside the filter |
| Bloom.PeerBloomStore.OnReceive | internal/node/node.go:104-110 | A summary of at least eight bytes replaces the sender's filter, whatever its header; a shorter one changes nothing |
| Bloom.UnknownPeerNotHinted | internal/cache/bloom.go:132-140 | A peer without a summary is not hinted |
| Bloom.SafeAfterReceiptExactlyWhen | internal/node/node.go:104-110 | Receiving arbitrary bytes leaves all lookups safe exactly when the other filters are safe and the bytes are a fitting summary whose rounds fit in memory, or are too short and leave a safe filter |
| Bloom.UnfitSummary | internal/cache/bloom.go:81-102 | Eight bytes with size 0 and one round are accepted, and from then on every lookup of their sender fails |
| Bloom.OverlongSummary | internal/cache/bloom.go:92-102 | Nine bytes with 2³² - 1 rounds make a well-formed filter in which lookups fail unless that many indices fit in memory |
| Bloom.BroadcastCacheSummary | internal/node/node.go:332-346 | An empty cache sends nothing; else the summary, sized for the cached CIDs but at least 100 at one in a hundred, is well-formed and contains every CID the cache holds then |
| Bloom.SummaryPutsSenderFirst | internal/cache/bloom.go:132-140 | A delivered summary makes its sender a hinted provider of every CID in it; ranking then completes exactly when the lookups of the other listed providers do, and puts the sender before every provider without a hint, whatever the path scores |
| Replication.ReplicationTracker.Lookup | internal/content/replication.go:29-35 | Finds the counter of a CID or makes one, and changes no count |
| Replication.ReplicationTracker.Add | internal/content/replication.go:37 | Adds one to that counter and returns what it became |
| Replication.ReplicationTracker.RecordFetch | internal/content/replication.go:28-39 | A call on its own raises the count of its CID only, and returns true exactly on reaching the threshold |
| Replication.ReplicationTracker.PopularBlocks | internal/content/replication.go:42-53 | Lists each CID at or past the threshold once, in any order |
| Replication.RunInvariant | internal/content/replication.go:28-39 | Over every interleaving of lookups, additions and returns each counter counts the additions for its CID, exactly one call has reached the threshold once they are that many, and calls hold the one counter of their CID |
| Replication.TriggersExactlyOnce | internal/content/replication.go:28-53 | For a threshold of at least 1, at most one call returns true, none before that many additions, and exactly one has, once no call for the CID is under way, if and only if that many were made; the popular blocks are exactly those with that many additions |
| Replication.TriggersBeforeOthersReturn | internal/content/replication.go:37-38 | With threshold 2, a block is popular when no call has returned, and one call returns true as the only one that has returned |
| Replication.PopularGrows | internal/content/replication.go:42-53 | A popular block stays popular over every run, so a listing taken during a run lies between its first and last moments |
| Replication.OneCounterPerCid | internal/content/replication.go:29-35 | Calls hold the same counter exactly when they are for the same CID |
| Placement.Place | internal/node/node.go:284-308 | Fragments go round-robin to the peers other than the node, none to the node itself; without a peer nothing is placed |
| Placement.EligiblePositions | internal/node/node.go:284-289 | Eligible are all connected peers but the node itself, in their order |
| Placement.LostIsCount | internal/node/node.go:294-308 | A loss is the number of fragments that sat on lost peers |
| Placement.LostFragments | internal/node/node.go:294-308 | Losing peers costs a full share each and one more for each of them among the first n mod p |
| Placement.Balanced | internal/node/node.go:294-308 | Each of p distinct peers holds the floor of n/p fragments, the first n mod p of them one more |
| Placement.LossAtMostWorst | internal/node/node.go:294-308 | No f peers hold more than f·⌊n/p⌋ + min(f, n mod p) fragments |
| Placement.SurvivesExactlyWhen | internal/node/node.go:281-308 | k fragments of k+m survive the loss of any f peers if and only if f·⌊(k+m)/p⌋ + min(f, (k+m) mod p) ≤ m |
| Statistics.TiesShareMidRank | internal/bench/bench.go:1489-1493 | The average rank given to a group of ties is its order-free midrank |
| Statistics.RankSums | internal/bench/bench.go:1486-1503 | The rank loop computes W+ and W- as sums of midranks |
| Statistics.SignedRanks | internal/bench/bench.go:1453-1503 | For any sort by size, stable or not, the result is the order-free W+ and W-; zero for fewer than five pairs |
| Statistics.DiffPositions | internal/bench/bench.go:1464-1478 | The differences are those of exactly the positions at which the samples differ, in order, each as large as they are apart and positive exactly when the first is greater |
| Statistics.GreaterThroughout | internal/bench/bench.go:1464-1503 | If the first sample is greater throughout, W+ is n(n+1)/2 and W- is 0 |
| Statistics.WPermutes | internal/bench/bench.go:1480-1483 | W+ and W- do not depend on the order of the differences |
| Statistics.WsComplement | internal/bench/bench.go:1485-1503 | W+ + W- = m(m+1)/2 for m nonzero differences |
| Statistics.SamplesSwap | internal/bench/bench.go:1453-1503 | Swapping the two samples swaps W+ and W- |
| Statistics.JainFairness | internal/bench/bench.go:644-658 | The loop computes (Σv)²/(nΣv²), with 0 for no values and 1 for zeros only |
| Statistics.JainOfTwo | internal/bench/bench.go:644-658 | For two values, the index times twice the sum of squares is the squared sum |
| Statistics.SpreadNonnegative | internal/bench/bench.go:642-658 | n·Σv² ≥ (Σv)², with equality exactly for equal values |
| Statistics.JainBounds | internal/bench/bench.go:642-658 | For nonnegative values, not all zero, the index lies in [1/n, 1]; it is 1 exactly when all are equal and 1/n exactly when only one is not zero |

## Left out

- Lru.LRUCache.Put: the call is modelled under the condition in which it returns, which `CacheModel.LoopEndsExactlyWhen` shows to be exact; the endless loop itself is not a state.
- The choice of the best path to a provider: `PathSet.Best` is modelled, the policies too; which of them the manager asks is configuration.
- Probing.ProbedPaths.ProbeTarget: the probing itself is a parameter (its results), and peer IDs have at least eight characters, as the slicing in the code demands.
- Bloom.BloomFilter.Add: the indices of one key are taken to fit in memory, as those of a filter the node sizes itself do.
- Bloom.BroadcastCacheSummary: the sizing is exact over the reals, with a logarithm that is not positive below 1 and ln 2 in (0,1]; sending is not modelled.
- Bloom.SummaryPutsSenderFirst: assumes the summary within the 1 MB limit of `internal/protocol/cachesummary.go`.
- LinUcb.ContextualBanditPolicy.UpdateContext: matrices are values in a map, so aliasing of matrix objects is not captured; inversion and square root are exact.
- LinUcb.ContextualBanditPolicy.SelectPathWithContext: the search starts at the first viable path where the code starts at minus infinity.
- Ucb.UCB1Policy.SelectPath: each call is one atomic step, as the policies hold no lock; counters do not wrap around.
- Placement.Place: where fragments are sent; pushes that fail are not modelled, nor the choice of popular blocks to encode.
- Handlers.BlockPushHandler.HandleStream: disk writes succeed, as in `Network`; the code acknowledges a push even when one fails.
- Network.RunHonest: publishing stores the manifest and each block in separate steps of any order, which covers the code's order; the pins do not change during the eviction loop of one `Put`.
- Replication.ReplicationTracker.PopularBlocks: lists the counts of one moment; `Replication.PopularGrows` bounds a listing that others add beside.
- Statistics.SignedRanks: the p-value, the normal distribution function, percentiles and confidence intervals are numerical approximations and not modelled.
- Integer widths other than the wire fields: sizes, counters and times do not wrap around.
- A node without a cache (the handlers' nil checks): nodes always install one.
- Disk errors, JSON encoding, file names and the pin file of the store.
- Erasure coding: the algebra lies in a library, and counting fragments is all that placement needs.
- Manifest signatures, keys, and everything else that only calls a cryptographic library.
- Transport, DHT routing, metrics and the ping, probe and cache-summary streams: wrappers over libraries or fixed-size echoes.
- Epsilon-greedy, decaying-epsilon, random and Thompson selection: sampling quality is statistical.
- The automatic reward of `ContextualBanditPolicy.SelectPath`, which reads the clock and feeds delegate scores to `UpdateContext`.
- That popular blocks get replicated in a running node: nothing in the production code calls `RecordFetch`.
- The command line, HTTP plumbing, test clusters, dashboards and plots.
