# Verification of the distributed inference coordinator

This project models the hard parts of a system that serves one 28-layer language model over many GPU
nodes, and proves what those parts promise. Objects that the program updates in place are classes with
`modifies` clauses, whose methods are proved against functions on their state; the laws are lemmas
about those functions. `dafny verify dfyconfig.toml` checks everything.

**Inference pipeline.**

- `CausalModel`, `NodeForward`, `MaskNecessity`: the model as one causal pass, the node that evaluates a
  range of layers from per-request caches, and the theorem that a chain of such nodes, fed chunk by
  chunk, computes the causal pass. The mask test under which this holds is shown to be exact: models
  that count what they see give a different result whenever one chunk fails it.
- `SharedStores`: the same theorem for requests that interleave on nodes whose stores they share, with
  evictions, clears and reaper rounds in between.
- `LegacyForward`, `ForgottenCache`: the pass that a node makes when its library has no caches, and the pass
  of a request whose cache the node has lost, each with its own exact condition.
- `NodeService`: one request to a node process, done by the node object as the protocol's node step says.
- `KvCache`: the node's ordered dictionary with LRU eviction and idle reaper, and the candle server's
  timestamp map that plays the same part.
- `ServingClusters`, `ClusterEffects`, `ClusterRouting`, `ClusterManagement`: generations of layer slots
  (forming, active, draining), what each operation does to them, routing over the ready slots, and the manager
  as a class whose in-flight counters are heap objects that outlive the slot of their generation.
- `Coordinator`, `WsStates`, `Handlers`: the critical sections of the request handlers, the shared maps as
  a class that performs them, and all interleavings of the handlers as runs of steps.
- `Conservation`, `SocketSafety`, `ClientHandlers`, `FallbackRun`: over all those runs, every generation's counter equals the
  guards still held, and nothing gives back a guard that is not held; a request waits on an open socket or
  somebody is attending to it; and every stored request has one handler that waits for it. The steps that break
  these laws have exact conditions, and `FallbackRun` gives runs from the idle coordinator that take them.
- `HopProtocol`: one request driven hop by hop and token by token refines decoding on one machine,
  terminates, and is answered at all exactly for chains of at least two nodes.
- `RequestRuns`: the coordinator's record of a request is the protocol's in every interleaving of the handlers,
  so what is delivered in any of those runs is the one-machine result.
- `SharedDecode`: the same refinement on nodes whose stores the request shares with others.

**Index and work stores.** `Bm25`, `Bm25Scores` and `Rag` (incremental index against brute-force scoring, what a
score means, table and index in step), `LayerPlan`, `LayerTraining`, `TrainingEffects` and `LayerStore` (training
rounds in memory and in the database), `Tasks` (the rotating task queue).

**Algorithms.** `Sampling`, `FilterAgreement` and `Distributions` (top-k and nucleus filtering in two
implementations, when they agree, and what each draws from), `Chunker` and `ChunkerPieces` (overlapping UTF-8
chunks, UTF-8 as in section 3 of RFC 3629), `Framing` and `LayerPath` (length-prefixed frames, the request-id
prefix, the layer range in a directory name), `Picks` (what a filter keeps, in order).

Where the code does not do what one would expect, the code is modelled and the exact condition is proved:

- a sliding window that has filled up is not respected by the single-token step, nor by any pass when there
  is no mask builder for sliding layers (`MaskGuardIsExact`, `CountingRunIsOnePassIffGuarded`);
- without caches only the first chunk of a request gets the causal values (`LegacyExactIff`), and a node that
  has lost a request's cache does not notice and starts it again at position 0 (`ForgottenPassIff`);
- a chain of one node never yields a token (`DeliversIffTwoHops`);
- when the start message cannot be sent and clean-up was faster, a guard is released twice
  (`FallbackExactly`, `FallbackLosesAGuard`);
- a handler that vanishes with its client between admission and storing its request never returns its guard
  (`VanishedHandlerExactly`, `VanishedHandlerLosesAGuard`), one that vanishes later leaves its request without
  anybody to give it up (`StepServedIff`), and if it had yet to send to a node that has gone, the request stays
  stored for ever (`StepSafeIff`, `VanishedHandlerStrandsARequest`);
- the two reapers disagree on entries idle for exactly the timeout (`ReapersDifferAtTheTimeout`);
- a submission for a round that has left Active counts the round again and takes a merged round back to
  merging (`CounterExact`, `MergedIsLeftIff`, with a run in `LateSubmissionsCount`), and a round created
  without layers keeps every later round from starting by itself (`EmptyRoundBlocks`);
- an upsert whose table write and index write run among the steps of a source removal can leave table and
  index out of step, and so can two upserts of one chunk (`RacingUpsert`, `RacingUpserts`);
- hard splitting stops making progress for some text of characters up to w bytes unless the chunk size
  exceeds the overlap by 2w - 1, or there is no overlap and the size is at least w (`ProgressIff`); on a
  given text it ends exactly when every turn it reaches moves on (`EndsIff`);
- the two samplers differ at ties across the top-k boundary that the nucleus does not cut away, for k = 0 and
  for a top-p that is not positive (`FiltersAgreeIff`).

## Model

| member | source | states |
|---|---|---|
| CausalModel.HiddenCausal | inference/node_forward.py:611-628 | what the first n positions get at any layer does not depend on later positions |
| CausalModel.VisibleIs | inference/node_forward.py:567-606 | what a mask row leaves visible is the cached entries of its columns, all of them and in column order |
| NodeForward.Node.constructor | inference/node_forward.py:443-449 | a node starts without caches and keeps at least one |
| NodeForward.Node.RunLayers | inference/node_forward.py:611-628 | the layer loop appends every layer's keys to its cache and returns the values after the last layer |
| NodeForward.Node.RunForwardKv | inference/node_forward.py:537-636 | one pass starts from the request's cache, or from an empty one after a reset or a miss, and stores the grown cache under the request |
| NodeForward.Node.RunForward | inference/node_forward.py:626-641 | position by position the layers' value, normalised after a generate pass; without a cache library, and on a node without layers, the legacy pass runs and the store is left alone; the store never exceeds its capacity |
| NodeForward.AnswerExact | inference/node_forward.py:537-636 | on a guarded chunk from an exact cache, position i of the answer is the causal value at the node's last layer, normalised after a generate pass |
| NodeService.Serve | inference/node_forward.py:657-800 | prefill resets, a decode step without a cache is refused, and otherwise the node answers and stores what the protocol's node step says: hidden values, or on the node with the last layer a token drawn from the normalised last position; other requests' caches stay |
| NodeForward.Node.RunForwardLegacy | inference/node_forward.py:508-535 | the loop gives every position, counted from 0, what a plain causal mask over this chunk alone shows |
| NodeForward.Node.ClearCache | inference/node_forward.py:762-766 | the request starts from nothing again; every other request keeps its entry with its cache, and the order stays |
| NodeForward.ForwardKvStores | inference/node_forward.py:551-558 | after a pass the store holds the grown cache under the request; every other request keeps its cache, or was the front of a full store that lacked this one |
| NodeForward.MaskGuardIsExact | inference/node_forward.py:567-606 | the rows the code builds for a chunk show exactly the causal columns if and only if the layer is full, its window has not filled up, or the chunk is masked with a sliding builder |
| NodeForward.LayersExact | inference/node_forward.py:551-628 | a node's layers on a guarded chunk give the values of the causal pass at the new positions and leave the keys of all positions in every layer's cache |
| NodeForward.NodeExact | inference/node_forward.py:559-566 | the position offset a node reads off its first layer's cache is the number of positions seen before |
| NodeForward.ChainExact | inference/node_forward.py:537-636 | a chunk through nodes with contiguous ranges comes out as the causal pass over all the layers |
| NodeForward.ShardedRunIsOnePass | inference/node_forward.py:537-636 | for any contiguous split of the layers and any split of the positions into guarded chunks, the outputs are those of one causal pass, and every layer cache has one entry per position |
| NodeForward.FullLayersAreGuarded | inference/node_forward.py:603-606 | a model without sliding windows passes the mask test for every chunking |
| SharedStores.EntryIsOwn | inference/node_forward.py:551-558 | on a node shared with other requests, a request that always comes back before max others were used is answered as if it had the node to itself |
| SharedStores.SharedRunIsOnePass | inference/node_forward.py:537-636 | however requests interleave on every node, with evictions, clears and reaper rounds, such a request gets from the last node the values of one causal pass over all its chunks |
| SharedDecode.SharedTokensAreDecode | server/coordinator/src/ws_handler.rs:529-705 | on nodes shared with other requests in any interleaving: as long as the request is served in time and its passes are masked exactly, the tokens drawn from the last node's answers are those of decoding on one machine |
| SharedDecode.SharedRequestIsResult | server/coordinator/src/ws_handler.rs:629-640 | a request on shared nodes that stops where the coordinator completes it has the one result that decoding on one machine gives |
| LegacyForward.LegacyExact | inference/node_forward.py:508-535 | without caches a pass gives the causal values when nothing came before and no window is shorter than the chunk |
| LegacyForward.LegacyExactIff | inference/node_forward.py:508-535 | for models that notice every difference it does so if and only if that holds, so it serves no later chunk |
| LegacyForward.TermModelLegacyIff | inference/node_forward.py:508-535 | models that notice every difference exist for any kinds of layers, so no weaker condition would do |
| ForgottenCache.ForgottenPassIff | inference/node_forward.py:551-566 | on a node whose store lacks the request, a pass of such a model gives the causal values if and only if nothing came before and the mask test holds from position 0 (or there is nothing to compute) |
| MaskNecessity.CountingRunIsOnePassIffGuarded | inference/node_forward.py:567-606 | for models that count what they see, the run equals the causal pass if and only if every chunk passes the mask test at every layer |
| MaskNecessity.UnguardedRunDiffers | inference/node_forward.py:567-606 | one chunk that fails the test at one layer is enough for a different result |
| MaskNecessity.CountModelRunIffGuarded | inference/node_forward.py:567-606 | counting models exist for any kinds of layers, so no weaker test would do |
| KvCache.LruEvict | inference/node_forward.py:46-64 | popping the front until the size fits keeps exactly the last max entries |
| KvCache.ReapIdle | inference/node_forward.py:465-481 | exactly the entries idle for longer than the timeout go, if a timeout is set |
| KvCache.ReapedIs | inference/node_forward.py:465-481 | what is left is just the entries idle for no longer than the timeout, unchanged and in order, or everything if the timeout is zero |
| KvCache.RunInUseOrder | inference/node_forward.py:453-463 | after any log of uses, clears and reaps the dictionary has distinct ids in order of last use, stamped with it, and fits the capacity |
| KvCache.EvictedWasLeastRecent | inference/node_forward.py:46-64 | a use keeps its own entry; another one is lost only from the front and only after at least max distinct other ids were used since it was |
| KvCache.ReaperTakesPrefix | inference/node_forward.py:465-481 | with a clock that does not go back the reaper removes exactly a prefix |
| KvCache.EnterFinds | inference/node_forward.py:551-558 | the entry just entered is there, with its old cache unless it was reset or missing |
| KvCache.KvStore.Insert | client/candle-server/src/model.rs:386-396 | a full store without the id drops the entry with the least timestamp, the smallest id among several, then the entry is stored with the present time |
| KvCache.InsertedUnique | client/candle-server/src/model.rs:386-396 | that leaves exactly one possible store |
| KvCache.KvStore.Touch | client/candle-server/src/model.rs:398-402 | ids, caches and all other stamps stay, and a touched entry is not the next to be dropped while some entry is older |
| KvCache.TwinTouch | inference/node_forward.py:453-456 | touching an entry in both stores keeps them at the same ids and times |
| KvCache.KvStore.EvictIdle | client/candle-server/src/model.rs:404-410 | exactly the entries idle for the timeout or longer go, they are counted, and no idle one is left |
| KvCache.TwinStores | client/candle-server/src/model.rs:386-396 | with strictly increasing times and capacity evictions only, the two stores always hold the same ids with the same times |
| KvCache.ReapersDifferAtTheTimeout | client/candle-server/src/model.rs:404-410 | the two reapers keep the same ids if and only if no entry has been idle for exactly the timeout |
| ServingClusters.SplitTilesEvenly | server/coordinator/src/serving_clusters.rs:145-162 | the split covers layers 0 to 28 in node order, with sizes that differ by at most one |
| ServingClusters.ApplyKeepsInv | server/coordinator/src/serving_clusters.rs:123-404 | every operation keeps: slots of the right state, draining before active before pending by number, even tilings of distinct nodes, a pending generation is not all ready, one counter for every generation ever made |
| ServingClusters.EveryRunKeepsInv | server/coordinator/src/serving_clusters.rs:123-404 | so does every run from the empty manager |
| ClusterEffects.DrainsExactly | server/coordinator/src/serving_clusters.rs:419-433 | whatever the operation: a generation that loses the active slot drains if its count is above zero and is forgotten otherwise; nothing else fills the draining slot, and only a retirement at count zero empties it |
| ClusterEffects.UnseatedDrainsInEveryRun | server/coordinator/src/serving_clusters.rs:123-245 | so it is after every run of the manager |
| ClusterEffects.RebalanceExactly | server/coordinator/src/serving_clusters.rs:123-245 | without nodes, active and pending are cleared; with nodes, one generation with the next number and a zero count over an even tiling in node order, whose slots are ready where the node serves that range already; it is active at once if all are, else pending while the active one stays; every node is told its range and whether to skip the download |
| ClusterEffects.ReadyExactly | server/coordinator/src/serving_clusters.rs:250-290 | the node's slot, and no other, becomes ready; the generation is promoted if and only if all the others were |
| ClusterEffects.ReadyElsewhere | server/coordinator/src/serving_clusters.rs:250-260 | reports from nodes outside the pending generation change nothing |
| ClusterEffects.ReinitExactly | server/coordinator/src/serving_clusters.rs:381-404 | the node's slot in the pending generation, or if it is not there in the active one, is no longer ready, and nothing else changes |
| ClusterEffects.ReinitElsewhere | server/coordinator/src/serving_clusters.rs:381-404 | reports from nodes of neither generation change nothing |
| ClusterEffects.StartExactly | server/coordinator/src/serving_clusters.rs:320-329 | admission is refused if and only if there is no active generation; otherwise only that generation's count goes up, modulo 2^32 |
| ClusterEffects.EndExactly | server/coordinator/src/serving_clusters.rs:331-339 | only the named generation's count goes down, and zero stays zero |
| ClusterRouting.OperationalExactly | server/coordinator/src/serving_clusters.rs:353-369 | the cursor scan says yes if and only if an active generation exists and all its slots with layers are in the cluster; then the routed slots tile the layers |
| ClusterRouting.OnlyFinalHopIsLast | server/coordinator/src/ws_handler.rs:171-207 | exactly the final hop is marked last if and only if no routed slot starts past the layers, and so for up to 28 nodes |
| ClusterRouting.ActiveSlotsAreReady | server/coordinator/src/serving_clusters.rs:294-316 | the sorted ready slots of the active generation are its ready slots in generation order |
| ClusterRouting.SubsetThatTilesIsWhole | server/coordinator/src/serving_clusters.rs:164-242 | a tiling made of slots of another tiling is all of it, up to slots without layers |
| ClusterRouting.RebalanceKeepsRoutes | server/coordinator/src/serving_clusters.rs:164-242 | a rebalance that cannot promote at once leaves the active generation alone; one that promotes at once routes the same ranges over the same nodes |
| ClusterManagement.ClusterManager.constructor | server/coordinator/src/serving_clusters.rs:105-116 | a new manager has no generation and numbers from 1 |
| ClusterManagement.ClusterManager.RetireOrDrainOld | server/coordinator/src/serving_clusters.rs:419-433 | a generation whose own counter object is above zero takes the draining slot; with a count of zero the slot stays as it was |
| ClusterManagement.ClusterManager.Install | server/coordinator/src/serving_clusters.rs:192-245 | the new generation gets a fresh counter object and becomes active or pending; older counter objects keep their identity and value |
| ClusterManagement.ClusterManager.Promote | server/coordinator/src/serving_clusters.rs:275-290 | the promoted generation takes the active slot, nothing is pending, and the old active one drains if requests hold its counter and is dropped otherwise |
| ClusterManagement.ClusterManager.Rebalance | server/coordinator/src/serving_clusters.rs:123-245 | the object's state after a rebalance is that of the value-level operation, and the assignments tell which node may skip its download |
| ClusterManagement.SplitLayers | server/coordinator/src/serving_clusters.rs:145-162 | the loop over a moving layer cursor yields the split |
| ClusterManagement.MarkKept | server/coordinator/src/serving_clusters.rs:164-200 | slots that already serve their range are in the cluster from the start |
| ClusterManagement.ClusterManager.NodeReady | server/coordinator/src/serving_clusters.rs:250-290 | a ready report sets the node's first slot in the pending generation and promotes it when that was the last one |
| ClusterManagement.ClusterManager.NodeReinitializing | server/coordinator/src/serving_clusters.rs:381-404 | the report reaches the pending generation if the node is in it, else the active one |
| ClusterManagement.ClusterManager.RequestStart | server/coordinator/src/serving_clusters.rs:320-329 | admission increments the active generation's own counter object, modulo 2^32, and hands that object out |
| ClusterManagement.ClusterManager.RequestEnd | server/coordinator/src/serving_clusters.rs:331-339 | the object that was handed out is decremented, wherever its generation is by now; zero stays zero |
| ClusterManagement.ClusterManager.MaybeRetireDraining | server/coordinator/src/serving_clusters.rs:341-351 | the draining slot is emptied exactly if its counter is zero |
| Coordinator.BuiltChainTiles | server/coordinator/src/ws_handler.rs:171-207 | a chain that is not refused runs over registered ready GPU nodes, tiles the layers and, up to 28 nodes, has only nonempty hops with exactly the final one marked last |
| Coordinator.BuildsIff | server/coordinator/src/ws_handler.rs:171-207 | a chain is built if and only if there is an active generation, its slots with layers are all in the cluster, and every node in the cluster is registered, ready and has a GPU |
| Coordinator.HopsAreReadySlots | server/coordinator/src/ws_handler.rs:171-207 | its hops are exactly the slots in the cluster with their ranges, marked last where the range ends the layers |
| WsStates.WsState.BuildInferenceChain | server/coordinator/src/ws_handler.rs:171-207 | the loop with early exits returns the chain that the specification builds |
| WsStates.WsState.InsertPending | server/coordinator/src/http_api.rs:1338-1355 | the request is stored at hop 0 with the guard taken at admission |
| WsStates.WsState.RouteForwardResult | server/coordinator/src/ws_handler.rs:529-576 | the step moves on by one, and the node at the new step is returned while there is one |
| WsStates.WsState.HandleGeneratedToken | server/coordinator/src/ws_handler.rs:629-705 | the token is appended; at the end all tokens with it are delivered, the entry goes and its guard is released; else the request restarts at its first node, which is returned; other requests and deliveries stay |
| WsStates.WsState.DropPending | server/coordinator/src/ws_handler.rs:503-527 | the entry goes together with one count of its guard, or nothing happens |
| WsStates.WsState.AbortStart | server/coordinator/src/http_api.rs:1370-1377 | the entry and its guard go, or, if the entry was gone already, the guard all the same |
| WsStates.WsState.FailWaitingOn | server/coordinator/src/ws_handler.rs:337-369 | the requests whose current hop is inside the chain and on the lost node go, each once, with their guards, and no others |
| WsStates.WsState.RegisterNode | server/coordinator/src/ws_handler.rs:386-418 | afterwards no other id carries the name, the node is listed as not ready, and entries with other names stay |
| WsStates.WsState.UpdateState | server/coordinator/src/ws_handler.rs:438-448 | the state of a registered node, and of no other, is set; an unknown node changes nothing |
| Conservation.StepConserves | server/coordinator/src/http_api.rs:1302-1440 | every handler step keeps the accounts of every generation ever made, unless it takes the fallback, loses a guard with its client, or overflows the 32-bit counter |
| Conservation.GuardsConserved | server/coordinator/src/serving_clusters.rs:320-350 | in every run without these three, the counter of every generation ever made, in a slot or not, equals the requests and admitted handlers that hold its guard |
| Conservation.ReleasedIsAll | server/coordinator/src/serving_clusters.rs:331-339 | apart from admissions and the cluster's own operations, a step changes the manager exactly by giving back the guards listed for it, one after the other |
| Conservation.ReleaseFindsGuard | server/coordinator/src/serving_clusters.rs:331-339 | every one of these finds a positive counter, also those that the disconnect clean-up gives back in a row, unless the step is the fallback |
| Conservation.UnderflowUnreachable | server/coordinator/src/serving_clusters.rs:331-339 | so no step of any regular run reaches the underflow branch |
| Conservation.FallbackExactly | server/coordinator/src/http_api.rs:1370-1377 | after the fallback the accounts are right if and only if nobody else holds a guard of that generation |
| Conservation.AdmissionExactly | server/coordinator/src/serving_clusters.rs:320-329 | an admission keeps the accounts if and only if the 32-bit counter has room |
| Conservation.VanishedHandlerExactly | server/coordinator/src/http_api.rs:1302-1377 | a handler dropped with its client, wherever it waits, leaves the accounts right if and only if it was not between admission and storing its request |
| FallbackRun.FallbackLosesAGuard | server/coordinator/src/http_api.rs:1370-1377 | a run of 14 steps from the idle coordinator that ends with a request under way and a counter of zero |
| FallbackRun.VanishedHandlerLosesAGuard | server/coordinator/src/http_api.rs:1304-1340 | a run from the idle coordinator after which the counter of a generation stays at 1 and nobody holds its guard |
| FallbackRun.VanishedHandlerStrandsARequest | server/coordinator/src/http_api.rs:1338-1377 | a run from the idle coordinator after which a stored request waits on a closed socket and nobody attends to it |
| SocketSafety.StepSafeIff | server/coordinator/src/ws_handler.rs:337-369 | a step keeps every stored request attended to or on an open socket if and only if it is not a handler vanishing that was the last to attend to a request on a closed socket |
| SocketSafety.PendingWaitsOnOpenSocket | server/coordinator/src/ws_handler.rs:337-369 | in every state reached without such a step a request inside its chain waits on an open socket, unless a handler is about to send to that node, to remove the request, or to clean up after that node |
| ClientHandlers.StepServedIff | server/coordinator/src/http_api.rs:1338-1440 | a step keeps a waiting handler for every stored request if and only if it is not a handler vanishing whose request is stored |
| ClientHandlers.EveryRequestIsServed | server/coordinator/src/http_api.rs:1338-1440 | in every run without such a step each stored request has exactly one handler that starts it, aborts it or waits for it |
| HopProtocol.NodeReplies | server/coordinator/src/ws_handler.rs:529-609 | every node but the last passes on the causal pass at its last layer, and the last one draws the next token of the one-machine decode |
| HopProtocol.NextKeepsGood | server/coordinator/src/ws_handler.rs:529-705 | each step of node or coordinator keeps the caches, the message under way and the tokens in agreement with the one-machine decode |
| HopProtocol.RunRefinesDecode | server/coordinator/src/ws_handler.rs:529-705 | where every pass the request makes is masked exactly: at every moment of every run the tokens so far are a prefix of the one-machine decode, and a delivered result ends at the first end-of-sequence token or at max(1, max_tokens) tokens |
| HopProtocol.FullLayersAreExact | server/coordinator/src/ws_handler.rs:529-705 | for a model without sliding windows every pass is masked exactly |
| HopProtocol.ResultUnique | server/coordinator/src/ws_handler.rs:629-640 | there is only one such result, so all runs that deliver agree |
| HopProtocol.StepComesCloser | server/coordinator/src/ws_handler.rs:529-705 | tokens left, then hops left: every step makes this measure smaller, until the request is delivered |
| HopProtocol.UndisturbedRunDelivers | server/coordinator/src/ws_handler.rs:529-705 | a request that is left alone is answered within two steps per hop and token, whatever the masks show, and with the one-machine result where they are exact |
| HopProtocol.DeliversIffTwoHops | server/coordinator/src/ws_handler.rs:544-571 | some run delivers if and only if the chain has at least two nodes |
| HopProtocol.BuiltChainCovers | server/coordinator/src/ws_handler.rs:171-207 | up to 28 nodes, the chains the coordinator builds are the ones these theorems are about |
| RequestRuns.RouteMirrors | server/coordinator/src/ws_handler.rs:529-576 | taking hidden values in does to the shared state what the protocol does to the request, and the node returned is the one the protocol asks next |
| RequestRuns.TokenMirrors | server/coordinator/src/ws_handler.rs:629-705 | the same for a token: what is delivered or kept, and which node is asked next |
| RequestRuns.StepMirrors | server/coordinator/src/ws_handler.rs:337-705 | so does every step of the coordinator, of this request's handlers or of others |
| RequestRuns.LeavesIff | server/coordinator/src/ws_handler.rs:337-369 | a stored request leaves if and only if its last token comes in, its own handler or send gives it up, or the node that its current hop waits on is cleaned up |
| RequestRuns.EveryRunDeliversDecode | server/coordinator/src/ws_handler.rs:529-705 | in every run of the coordinator, with any other requests, nodes and clients: if the replies for a request are its nodes', its tokens so far are those of the one-machine decode, and what is delivered for it is the one result |
| Sampling.Cutoff | client/candle-server/src/sampling.rs:54-61 | the loop finds the first prefix of the ranking that reaches top_p, or everything |
| Sampling.KeepFirst | client/candle-server/src/sampling.rs:43-49 | zeroing in place from rank k on, then dividing by the sum, renormalises the first k ranks |
| Sampling.FilterInPlace | client/candle-server/src/sampling.rs:39-64 | the probability vector after top-k and top-p |
| Sampling.RankedIsRanking | client/candle-server/src/sampling.rs:45-46 | the stable sort lists every index once, largest value first |
| Sampling.TopIsHeaviest | client/candle-server/src/sampling.rs:52-64 | no set of m tokens weighs more than the first m of a ranking, whatever the ties |
| Sampling.NucleusIsSmallest | client/candle-server/src/sampling.rs:52-64 | for 0 < top_p up to the whole mass, the kept tokens reach top_p and no smaller set of tokens does |
| Sampling.MaskKeepsCutoff | inference/node_forward.py:86-92 | the client's cutoff and the node's "cumulative before me is under top_p" select the same ranks |
| Sampling.FiltersAgree | inference/node_forward.py:82-103 | in particular, with no tie at the top-k boundary and positive k and top_p the two sides sample from the same distribution |
| FilterAgreement.NucleusIsFirst | client/candle-server/src/sampling.rs:52-64 | the nucleus of a renormalised prefix of the ranking is a shorter prefix, up to the first that reaches its share |
| FilterAgreement.FiltersAgreeIff | inference/node_forward.py:82-103 | for all weights and all parameters, together or alone: the same distribution if and only if a test on the sorted weights holds (equally many ranks without top-p; a tie is forgiven when the client's ranks reach the share of the node's weight) |
| Sampling.TopKAgreesExactly | inference/node_forward.py:82-84 | top-k alone: the same distribution if and only if k is positive and the k-th weight is above the next |
| Sampling.NucleusAgreesExactly | inference/node_forward.py:86-100 | top-p alone: the same distribution if and only if top_p is positive or there is one token |
| Distributions.ClientDraws | client/candle-server/src/sampling.rs:39-64 | for positive weights and any top-k but zero, the client's probabilities sum to one and are proportional to the weights on the first c ranks and zero behind, where c is the fewest of the k that hold the part top_p of their weight |
| Distributions.NodeDraws | inference/node_forward.py:82-103 | the same for the node, whose k ranks include those that tie with the k-th and whose top_p only cuts between 0 and 1 |
| Bm25.BM25Index.constructor | server/rag/src/index.rs:29-37 | an empty index mirrors no documents |
| Bm25.BM25Index.AddDocument | server/rag/src/index.rs:40-70 | if the tables mirror a set of documents, they mirror it with this one added or replaced |
| Bm25.BM25Index.RemoveDocument | server/rag/src/index.rs:72-88 | if the tables mirror a set of documents, they mirror it without this one |
| Bm25.CountTerms | server/rag/src/index.rs:48-51 | the frequency map of the loop |
| Bm25.FreqCounts | server/rag/src/index.rs:48-51 | that map counts every term of the text and has no other |
| Bm25.BM25Index.ScoreTerm | server/rag/src/index.rs:99-116 | the posting loop adds to each document exactly what a scan of all documents would, and never divides by a zero average |
| Bm25.BM25Index.Search | server/rag/src/index.rs:91-122 | the answer is a top-k, best first, of the matching documents with exactly the brute-force scores |
| Bm25Scores.TermScoreIs | server/rag/src/index.rs:103-114 | a term that occurs f times scores s with s * (f + 0.375 + 1.125 r) = rarity * 2.5 f, where r is the length against the average and the rarity is ln((n + 1) / (df + 0.5)) |
| Bm25Scores.AbsentScoresNothing | server/rag/src/index.rs:98-114 | a term that is not in the document scores zero |
| Bm25Scores.TotalIs | server/rag/src/index.rs:68-70 | the average is taken over all tokens of all documents |
| Bm25Scores.ScoreAdds | server/rag/src/index.rs:98-114 | the score of a query is the sum over its terms, repeated ones repeatedly |
| Bm25Scores.RarerScoresMore | server/rag/src/index.rs:103-105 | at equal frequency and length, a term that fewer documents hold scores strictly more, for every increasing logarithm |
| Bm25Scores.MoreOftenScoresMore | server/rag/src/index.rs:108-114 | at equal length, the document that holds the term more often scores strictly more |
| Bm25Scores.ShorterScoresMore | server/rag/src/index.rs:108-114 | at equal frequency, the shorter document scores strictly more |
| Bm25Scores.TermScoreBounded | server/rag/src/index.rs:108-114 | however often a term occurs, it scores less than 2.5 times its rarity |
| Bm25Scores.RarerComesFirst | server/rag/src/index.rs:91-122 | asked for a rare and a common term, a search lists the document with the rare one before an equally long one with the common one as often |
| Bm25.DfBounded | server/rag/src/index.rs:103-105 | a term occurs in at most as many documents as there are |
| Bm25.MatchingIsPositive | server/rag/src/index.rs:91-122 | with a logarithm positive above 1, matching documents are exactly those with a positive brute-force score |
| Bm25.MirrorsAgree | server/rag/src/store.rs:171-187 | an index maintained over any history equals the rebuilt one up to posting order, empty postings and the average of no documents |
| Bm25.AnswersAgree | server/rag/src/index.rs:118-121 | two answers to a query have the same scores in the same places |
| Rag.RagStore.constructor | server/rag/src/store.rs:18-33 | opening rebuilds an index that mirrors the table |
| Rag.RagStore.UpsertChunk | server/rag/src/store.rs:36-59 | the row is stored or replaced, and the index mirrors the new table |
| Rag.RagStore.RemoveSource | server/rag/src/store.rs:62-79 | exactly the source's rows go, and the index mirrors the rest |
| Rag.RagStore.Search | server/rag/src/store.rs:99-116 | the results are a top-k over the whole table, each with its row; the join loses no hit |
| Rag.FindsIff | server/rag/src/store.rs:36-116 | with room for all, and a tokenizer that splits at spaces, the chunks found are exactly those with a token of the query in title or content |
| Rag.RacingUpsert | server/rag/src/store.rs:36-79 | for every interleaving of an upsert's two sections with a removal's three: the index mirrors the table afterwards if and only if a condition on the two timings, the chunk's source and its old source holds |
| Rag.RacingUpserts | server/rag/src/store.rs:36-59 | when two upserts of one chunk race and a different one wins the row and the index, the index mirrors the table if and only if both texts have the same tokens as often |
| LayerPlan.Split | server/coordinator/src/layer_training.rs:137-153 | the loop makes ceil(total / per) assignments; the i-th starts at layer i * per and at example i * examples modulo the dataset |
| LayerPlan.PlanCovers | server/coordinator/src/layer_training.rs:137-153 | assignments tile the layers in order, and every data shard lies inside the dataset, nonempty when both sizes are positive |
| LayerTraining.StepKeeps | server/coordinator/src/layer_training.rs:131-370 | each operation keeps a round Active exactly while an assignment is incomplete or it has none, and moves the counter by the rounds it completes plus one if it is late |
| LayerTraining.CounterExact | server/coordinator/src/layer_training.rs:202-247 | over every run, restarts included, the counter is the number of rounds that left Active plus the number of late submissions |
| LayerTraining.EmptyRoundBlocks | server/coordinator/src/layer_training.rs:348-370 | once a round without layers was created, no round starts by itself |
| LayerTraining.MergedIsLeftIff | server/coordinator/src/layer_training.rs:202-237 | a merged round is left if and only if a submission for one of its assignments comes in |
| LateSubmission.LateSubmissionsCount | server/coordinator/src/layer_training.rs:202-237 | a run from the empty store whose one finished round is counted twice, and after it was merged a third time and is merging again |
| LayerTraining.CompleteStays | server/coordinator/src/layer_training.rs:179-277 | nothing takes back a completed assignment |
| LayerTraining.ClaimTakes | server/coordinator/src/layer_training.rs:179-200 | what a claim returns was available before and is assigned after |
| LayerTraining.ClaimedTwice | server/coordinator/src/layer_training.rs:250-277 | between two claims of the same assignment a reassignment found it stale |
| TrainingEffects.AdvanceExactly | server/coordinator/src/layer_training.rs:348-370 | the same for every state, and then exactly the merging rounds are merged and the new round is active over layers 0 to 28 in 14 pieces of two, whose shards of up to 500 examples follow each other from example 0, modulo the dataset |
| TrainingEffects.ClaimExactly | server/coordinator/src/layer_training.rs:179-200 | a claim takes the first free piece of the active rounds, for the one who asks, and changes nothing else |
| TrainingEffects.ClaimSucceedsIff | server/coordinator/src/layer_training.rs:179-200 | it succeeds if and only if an active round has a free piece |
| TrainingEffects.SubmitExactly | server/coordinator/src/layer_training.rs:202-237 | a submission completes its piece; exactly if the round's pieces are then all complete it is merging and counted |
| TrainingEffects.SubmitElsewhere | server/coordinator/src/layer_training.rs:202-247 | a submission for an unknown piece changes nothing |
| TrainingEffects.ReassignExactly | server/coordinator/src/layer_training.rs:250-277 | in active rounds exactly the claims older than the timeout are free again |
| LayerStore.LayerTrainingStore.constructor | server/coordinator/src/layer_training.rs:92-129 | opening the database an earlier store left gives its rounds by id, its counter and its first time, and a store in step with the database |
| LayerStore.LayerTrainingStore.CreateRound | server/coordinator/src/layer_training.rs:131-177 | the round, with or without layers, is in memory and in its row, and the first time is set once in both |
| LayerStore.LayerTrainingStore.ClaimAssignment | server/coordinator/src/layer_training.rs:179-200 | the first available assignment of the first active round that has one is taken and persisted |
| LayerStore.LayerTrainingStore.SubmitAdapter | server/coordinator/src/layer_training.rs:202-247 | memory, row, adapter and counter row after a submission; unknown ids change nothing |
| LayerStore.LayerTrainingStore.ReassignStale | server/coordinator/src/layer_training.rs:250-277 | exactly the stale assignments of active rounds are free again, and every changed round is persisted |
| LayerStore.LayerTrainingStore.AutoAdvance | server/coordinator/src/layer_training.rs:348-370 | a round is added if and only if some round is merging, none is active and the dataset is not empty; all of it is persisted |
| LayerStore.RestartRestores | server/coordinator/src/layer_training.rs:92-129 | reopening gives the same rounds by id, the same counter and first time, and an adapter for every complete assignment |
| Tasks.TaskStore.CreateTask | server/coordinator/src/task_store.rs:55-78 | run in one go: a pending task at the end of the queue, its token limit as asked up to 8192 and never above |
| Tasks.TaskStore.InsertTask | server/coordinator/src/task_store.rs:74 | the first section: the task is in the table and in no queue, and the invariant allows for it |
| Tasks.TaskStore.EnqueueTask | server/coordinator/src/task_store.rs:75 | the second section, after anything else in between: the task is queued once |
| Tasks.Rotate | server/coordinator/src/task_store.rs:86-116 | one turn through the queue: the first match goes and what was passed over moves behind the rest, or all pending ids stay in order |
| Tasks.TaskStore.AssignPendingTask | server/coordinator/src/task_store.rs:81-117 | succeeds if and only if some pending task matches the models and is not just being created, takes the earliest match, and keeps every pending id queued exactly once and every assigned one not at all |
| Tasks.SucceedsIff | server/coordinator/src/task_store.rs:81-117 | with that invariant, the queue has a match exactly when the table has one that is not just being created |
| Tasks.AttemptKeeps | server/coordinator/src/task_store.rs:81-117 | both outcomes of an attempt keep the invariant |
| Tasks.AttemptExactly | server/coordinator/src/task_store.rs:81-117 | a node is given the first queue entry that is pending and for one of its models; pending entries passed over go behind the rest in their order, stale ones go; without a match the pending ones stay in order |
| Tasks.TaskStore.CompleteTask | server/coordinator/src/task_store.rs:119-137 | a known task is completed whatever its state, and the invariant holds although its queue entry may stay |
| Tasks.TaskStore.FailTask | server/coordinator/src/task_store.rs:139-149 | the same for failure |
| Tasks.TaskStore.ReassignStaleTasks | server/coordinator/src/task_store.rs:156-168 | exactly the stale tasks are pending again, each queued once behind the old queue |
| Tasks.TaskStore.CleanupOldTasks | server/coordinator/src/task_store.rs:171-184 | only finished tasks past their time go |
| Chunker.SnapToCharBoundary | server/rag/src/chunker.rs:95-100 | the loop stops at the boundary its specification names |
| Chunker.SnapNearby | server/rag/src/chunker.rs:95-100 | in UTF-8 text that boundary is less than the longest character back |
| Chunker.ProgressIff | server/rag/src/chunker.rs:76-93 | for each character width w from 1 to 4: the loop moves on from every boundary of every text of such characters if and only if the size is at least overlap + 2w - 1, or at least w without overlap |
| Chunker.EndsIff | server/rag/src/chunker.rs:76-93 | the loop ends on a text if and only if every turn it reaches starts the next one further on |
| Chunker.SafeEnds | server/rag/src/chunker.rs:76-93 | with sizes safe for the text's widest character it ends |
| Chunker.HardSplit | server/rag/src/chunker.rs:76-93 | on every text on which the loop ends: nonempty chunks from 0 to the end, each up to the last boundary within the size, each starting at the last boundary that leaves the overlap, which is less than a character more |
| Chunker.TightIsUnique | server/rag/src/chunker.rs:76-93 | there is only one such list of chunks |
| Chunker.WindowsCover | server/rag/src/chunker.rs:76-93 | every byte is in some chunk, and that chunk is UTF-8 text |
| Chunker.SplitAtPattern | server/rag/src/chunker.rs:45-74 | the chunks for the given match positions, or the panic at a cut inside a character |
| Chunker.PiecesGlue | server/rag/src/chunker.rs:45-74 | chunks with their overlaps dropped give back the text, for every UTF-8 text that is not cut inside a character and every overlap up to the size |
| ChunkerPieces.PieceSizes | server/rag/src/chunker.rs:45-74 | there are as many chunks of exactly the chunk size as matches that lie a whole chunk behind the current start, and at most a tail behind them |
| ChunkerPieces.PanicsIff | server/rag/src/chunker.rs:45-74 | the split panics if and only if one of these chunks starts or ends inside a character, or the tail starts inside one |
| Chunker.AsciiNeverPanics | server/rag/src/chunker.rs:45-74 | ASCII text is never cut inside a character |
| Framing.BuildFrame | client/node/src/ws_worker.rs:560-567 | two lengths, lowest byte first, then JSON and data; whatever follows on the stream, the receiver reads just this message off it if and only if its payload is shorter than 2^32 bytes, and nothing before all of it is there |
| Framing.ServeStream | inference/node_forward.py:918-960 | the loop yields the messages of the stream until it ends or stops inside one |
| Framing.DecodeIff | client/node/src/ws_worker.rs:568-581 | for every stream: a message is taken off if and only if the eight bytes of lengths and the longer of the two are there; a JSON length above the total makes the data empty |
| Framing.RoundTripIff | client/node/src/ws_worker.rs:560-581 | a frame is read back, and the rest of the stream left, if and only if its payload is shorter than 2^32 bytes |
| Framing.StreamRoundTrip | client/node/src/ws_worker.rs:560-581 | any list of such messages survives being sent as one stream |
| Framing.CutStreamIsPrefix | inference/node_forward.py:921-928 | a connection that breaks at any byte has delivered the first few messages whole and nothing else |
| Framing.PrefixRoundTripIff | client/node/src/ws_worker.rs:604-609 | request id and data come back if and only if the id has at most 36 bytes and does not end in a zero byte |
| LayerPath.LayerRangeRoundTrip | client/node/src/ws_worker.rs:711-726 | under any directory the formatted layer range is read back, so worker and coordinator agree on the last hop |

## Left out

- Tensor numerics: layers are two functions on abstract values, probabilities and scores are exact reals; fp16 conversion, NaN cleaning, devices and compilation are library matters.
- The candle attention layers apply no mask, so the refinement theorems are about the Python nodes; of the candle server only `KvStore` and the sampler are modelled.
- KvCache.KvStore.Insert: ids are numbers in key order, standing for the strings that the source's map sorts by.
- KvCache.KvStore.EvictIdle: clock readings are integers; a clock that goes back is not ruled out but its durations would be negative.
- NodeForward.Node.RunForward: one pass is one step; the reaper or a clear that removes the entry during the pass is not modelled.
- NodeForward.MaskGuardIsExact: a layer kind without an entry in the mask mapping falls back to the full mask, and an absent mask is taken to show every cached column; what attention kernels do with an absent mask beyond that is not modelled.
- HopProtocol.RunRefinesDecode: gives the request nodes of its own, with caches (`SharedDecode` lifts the former to shared nodes); the prompt is not empty and the passes show the causal rows; sampling is a function of the number of the draw and the hidden value; nodes answer once per hop and only when asked, which the coordinator does not check.
- The last hop over TCP: the client wants the token in the response header and the server puts it in the body for that mode; the last node is modelled as one token per hop.
- SocketSafety.PendingWaitsOnOpenSocket: a message in a socket's outgoing queue counts as sent; whether the peer reads it is not modelled. A handler is dropped only where it waits, between two sections.
- RequestRuns.EveryRunDeliversDecode: replies for a request are taken to come from its nodes, over a chain of two hops or more; the coordinator does not check who answers.
- Conservation.GuardsConserved: request ids are fresh, each critical section under a lock is one step, and building a chain is one step; the steps it leaves out have their exact conditions in `FallbackExactly`, `VanishedHandlerExactly` and `AdmissionExactly`.
- ServingClusters.EveryRunKeepsInv: generation numbers are unbounded; node names, timestamps and the status report's text are omitted.
- That a promoted generation's nodes have loaded its ranges: state updates carry no generation number.
- That a request's chain belongs to the generation whose guard it holds: admission and chain building are separate reads in the source.
- HTTP and gRPC handlers other than the inference request, SQLite, JSON and logging: tables are maps, encoding is lossless, and statements do not fail.
- Sampling.FiltersAgree: tokens with equal weights are ranked in index order on both sides; greedy decoding and the random draw itself are left out.
- Bm25.BM25Index.Search: the order of equal scores and the rounding of float sums are left open; tokenization and the logarithm are parameters.
- Rag.RacingUpsert: one upsert and one removal; three or more operations in flight at once are not modelled.
- LayerPlan.Split: with no layers per assignment the source's loop does not end, so that input is excluded unless there is nothing to assign.
- LayerTraining.CounterExact: random identifiers are modelled as distinct, operations run one at a time, and losses, versions and the merging of adapter files are omitted.
- LayerStore.LayerTrainingStore.constructor: the listing it is given is any that the query may return, rows ordered by creation time; rows whose JSON does not decode are not modelled.
- LayerStore.LayerTrainingStore.ReassignStale: time differences are integers; an assignment stamped later than the present is not stale, where the source's unsigned subtraction would wrap or panic.
- Tasks.TaskStore.CreateTask: states the two sections run one after the other; what may come in between is covered by InsertTask and EnqueueTask.
- Tasks.TaskStore.AssignPendingTask: order within one model is not first in, first out, because the rotation breaks it, and nothing is claimed about deadlock.
- Chunker.SplitAtPattern: the regular expressions are given by their match positions; the tail has no size bound, since a boundary emits at most one chunk.
- Chunker.HardSplit: texts on which the source's loop does not end are excluded; `EndsIff` says which, and `SafeEnds` and `ProgressIff` say it in sizes.
- Framing.ServeStream: JSON is opaque and timeouts are the end of the stream.
- Other stores, federated averaging, batching, the dashboard and the desktop client: easier twins of what is modelled, or outside it.
