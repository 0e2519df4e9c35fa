# The discv4 discovery engine, modelled and proved in Dafny

The crawler finds Ethereum nodes with the Node Discovery Protocol v4. This project models the
engine that does it and proves what its parts promise each other: the Kademlia node table
(buckets, replacements, two layers of address counters, the background loop), the bounded list
of nearest nodes, the iterative lookup, the awaiter that matches replies to requests, the v4
packet handlers with their endpoint proof, and three companions (the cached record of the local
node, the ledger of nodes a peer told us about, the public key codec). `dafny verify
dfyconfig.toml` checks all of it.

## How the files fit together

Code that changes things in place is a class or a method with loops; its contract equates the new
state with a function of the old one. What the source promises is then proved about those
functions. Code that several goroutines run together is a system of small steps; the theorems
speak of every reachable state, whatever the order of the steps.

| file | what it holds |
|---|---|
| `Distance.dfy` | identifiers as 256 bits, the XOR metric, the logarithmic distance |
| `Nodes.dfy` | nodes, addresses, Go's `copy`, first-of-each-id |
| `NearestNodes.dfy` | the bounded list against "stable sort by distance, keep the first k" |
| `TableModel.dfy` | the table on values, its invariant, and that every operation keeps it |
| `TableProperties.dfy` | what the table operations mean: lookups, exact counters, effects |
| `TableEffects.dfy` | what each operation does to the whole table, said without the operation |
| `NodeTable.dfy` | the table as objects updated in place, proved against `TableModel` |
| `TableLoop.dfy` | the background loop, refresh and revalidation jobs and outside calls, interleaved |
| `Lookup.dfy` | the sequential parts of a lookup: buffer, asked and seen nodes, merge |
| `LookupProtocol.dfy` | main loop and workers with the token channel, interleaved |
| `TableLookup.dfy` | a lookup seeded from the table, and that the cap on the seeds loses nothing |
| `LookupCoverage.dfy` | which nodes a lookup gets to query, and which it loses |
| `Awaiter.dfy` | the queue of pending requests: values, whole runs, objects |
| `ReplyFate.dfy` | what becomes of one request in a run of the awaiter, whatever else goes on |
| `Neighbors.dfy` | cutting an answer into packets and collecting them again |
| `Bond.dfy` | the bond protocol: packets, own requests and deadline sweeps, interleaved |
| `EndpointProof.dfy` | what a bond is worth: when its endpoint has answered a ping of ours |
| `BondEffects.dfy` | what responses, sweeps and own calls do to the pending requests |
| `Handler.dfy` | the packet handlers step by step, proved against `Bond` |
| `EnrRequest.dfy` | asking for a record, and what the answer does to the revalidated entry |
| `Peer.dfy`, `Identity.dfy`, `Pubkey.dfy` | ledger, cached record, key codec |

## What turned out differently from what one would expect

* A caller of `refresh()` can be released by a refresh that finished before it asked: the loop
  accepts the request after the job is done but before it has seen so. `WaitersReleasedOnce`
  gives the exact condition, `LateWaiter` a run.
* The deadline sweep looks at the second request first and stops at the first live one. It drops
  every expired request exactly when no expired one stands behind a live one (the first request
  aside); `SweepOutOfOrder` shows one that survives.
* `addVerifiedNode` (which has no caller) must not run between the two halves of a revalidation:
  if it changes the address of the picked node, the counters stop agreeing with the lists.
  `OverlapBreaksAccounting` shows it, `ReplaceExactIff` says exactly when a replacement is safe.
* The store records a pong before it is matched to a ping, so "bonded" means "an unexpired pong
  of this id from this address was received", not "our ping was answered". `UnsolicitedPong` is a
  run in which somebody we never pinged gets Neighbors and enters the table. `PongIsBackedIff` and
  `RunIsBackedIff` say exactly which pongs make for a bond that is backed by an answered ping, now
  and at all later times; `UnprovenAnswerIff` says who is answered without one.
* A pong consumes the earliest pending ping to its sender, whatever its token. With two pings in
  flight the right answer to the second one fails the first and adds nobody (`WrongPingFirst`);
  `PongCallsBackIff` has the exact condition.
* A round of a lookup that has enough productive answers stops at a node it has already marked as
  asked. That node is never queried, in no continuation (`NeverQueried`); `LostAtCheckIff` and
  `LostIffSkipped` say which nodes these are, at most one a round, and `SecondSeedLost` is a run.
* An ENR response consumes the earliest pending request to its sender, whatever its token
  (`ResponseConsumes`). A request is matched exactly if the first response offered to it is in
  time and carries its token (`FirstResponseDecides`); two requests whose right responses come in
  the other order both fail (`CrossedResponses`).

## Model

| member | source | states |
|---|---|---|
| Distance.DistCmpIsNumeric | crawler/net/discovery/common/node.go:97-99 | comparing XOR-ed ids from the left orders ids by their numeric XOR distance, and only equal ids are equally far |
| Distance.LogDistIsBitLength | crawler/net/discovery/table/table.go:485-488 | the logarithmic distance is the bit length of the XOR distance, and 0 exactly for equal ids |
| Distance.LogDistAgreesWithDistCmp | crawler/net/discovery/table/table.go:485-495 | a smaller logarithmic distance is a smaller distance, so lower buckets hold closer nodes |
| Nodes.FreshKeeps | crawler/net/discovery/query.go:139-159 | first-of-each-new-id keeps one node of every id not known before and nothing else |
| Nodes.FreshConcat | crawler/net/discovery/query.go:139-159 | filtering in two portions is filtering once |
| Nodes.FreshIsFirstOfEach | crawler/net/discovery/query.go:139-159 | what it keeps stands at strictly increasing positions, exactly those that are the first with an id not known before |
| NearestNodes.StableSortCharacterized | crawler/net/discovery/common/node.go:77-81 | the reference order: sorted by distance, a permutation, ties in arrival order; exactly one list is that |
| NearestNodes.TakeInsert | crawler/net/discovery/common/node.go:101-110 | what the cap dropped can never come back |
| NearestNodes.PushAllIsNearest | crawler/net/discovery/common/node.go:95-111 | any pushes with a fixed cap into an empty list leave the first k of the stable sort, for every cap, also none or negative |
| NearestNodes.NearestExtends | crawler/net/discovery/common/node.go:95-111 | a list that is the nearest of some nodes becomes the nearest of more by pushing the rest |
| NearestNodes.NearestMeaning | crawler/net/discovery/common/node.go:77-81 | the right number, in distance order, and nothing left out is closer than anything kept |
| NearestNodes.NearestImproves | crawler/net/discovery/common/node.go:95-111 | more candidates never push a position of the result farther away |
| NearestNodes.NearestDistinct | crawler/net/discovery/common/node.go:77-81 | distinct candidates give a result with distinct ids |
| NearestNodes.PermutationDistinct | crawler/net/discovery/table/table.go:161-181 | a permutation keeps ids distinct |
| NearestNodes.SlideInserts | crawler/net/discovery/common/node.go:101-110 | appending, sliding by one and overwriting inserts; without the append the last element falls off |
| NearestNodes.NodesByDistance.Search | crawler/net/discovery/common/node.go:97-99 | the binary search finds the first entry that is farther than the node |
| NearestNodes.NodesByDistance.Push | crawler/net/discovery/common/node.go:95-111 | search, append and slide insert the node behind everything not farther and keep the cap, and the list sorted |
| TableModel.BucketIndex | crawler/net/discovery/table/table.go:485-495 | the index is in range for every id; `BucketMeaning` says which one it is |
| TableModel.Rollback | crawler/net/discovery/table/table.go:647-654 | after a release and a refused new address, taking the old one back succeeds and restores both counters; the new one is refused again |
| TableModel.ChargesCount | crawler/net/discovery/table/table.go:579-604 | a counter's multiplicity is the number of nodes with a limited address of the subnet |
| TableModel.AddReplacementOk | crawler/net/discovery/table/table.go:606-620 | adding a replacement keeps lists, ids and both counters in order, also when one falls off |
| TableModel.AddSeenOk | crawler/net/discovery/table/table.go:502-529 | so does adding a seen node, in all branches |
| TableModel.BumpOk | crawler/net/discovery/table/table.go:642-663 | so does moving a node to the front, with any new address |
| TableModel.AddVerifiedOk | crawler/net/discovery/table/table.go:540-569 | so does adding a verified node; a known one whose address does not fit changes nothing |
| TableModel.DeleteOk | crawler/net/discovery/table/table.go:665-668 | so does deleting an entry when there are no replacements |
| TableModel.ReplaceOk | crawler/net/discovery/table/table.go:622-640 | so does replacing a dead last entry whose address is the picked one, for every random choice |
| TableModel.RefusedBump | crawler/net/discovery/table/table.go:642-663 | a refused endpoint change leaves the cell as it was, the old address was taken back, the new one does not fit |
| TableModel.EmptyTableInv | crawler/net/discovery/table/table.go:117-146 | a new table is in order |
| TableModel.AddSeenKeepsInv | crawler/net/discovery/table/table.go:497-529 | the invariant of the whole table survives AddSeenNode |
| TableModel.AddVerifiedKeepsInv | crawler/net/discovery/table/table.go:531-569 | and addVerifiedNode, before and after initialisation |
| TableModel.RefusedEndpointChange | crawler/net/discovery/table/table.go:540-569 | a refused endpoint change and the fall-through behind it leave the whole table as it was, bucket full or not |
| TableModel.RevalidatedKeepsInv | crawler/net/discovery/table/table.go:366-394 | and the second half of a revalidation, as long as the picked entry is still in its bucket with its address |
| TableProperties.TableEntriesDistinct | crawler/net/discovery/table/table.go:161-181 | no id occurs twice among all entries |
| TableProperties.ReplacementOccursOnce | crawler/net/discovery/table/table.go:606-620 | a replacement's id occurs nowhere else in the table |
| TableProperties.GetNodeAgreesWithTable | crawler/net/discovery/table/table.go:184-197 | the one-bucket lookup returns a node iff it is an entry anywhere with that id, and none iff there is none |
| TableProperties.CountersAreExact | crawler/net/discovery/table/table.go:579-604 | every counter equals the number of limited nodes of the subnet, per bucket and for the table, within the limits |
| TableProperties.AcceptedAddresses | crawler/net/discovery/table/table.go:579-596 | an address is accepted iff it is there and is a LAN one or one more use fits both limits |
| TableProperties.AddSeenEffect | crawler/net/discovery/table/table.go:502-529 | a seen node never alters, moves or drops an entry; exactly when it is appended |
| TableProperties.AddSeenReplacement | crawler/net/discovery/table/table.go:515-519 | behind full entries the newest unknown fitting node is the first of at most ten replacements |
| TableProperties.OnlyOwnBucketChanges | crawler/net/discovery/table/table.go:502-569 | other buckets never notice an added node |
| TableProperties.AddVerifiedEffect | crawler/net/discovery/table/table.go:531-569 | a verified node ends up in front, the others in their order |
| TableProperties.AliveEffect | crawler/net/discovery/table/table.go:369-375 | an answering last entry moves to the front unless its new endpoint does not fit |
| TableProperties.DeadEffect | crawler/net/discovery/table/table.go:622-640 | a silent last entry is exchanged for the chosen replacement or removed; one that is no longer last stays |
| TableProperties.ReplaceExactIff | crawler/net/discovery/table/table.go:622-640 | a replacement keeps the counters exact iff the picked address charges like the entry's present one, or the entry charges nothing and the picked one is counted nowhere |
| TableEffects.BucketMeaning | crawler/net/discovery/table/table.go:485-495 | bucket 0 is exactly for distances below 2^240, bucket k for those of 240 + k bits |
| TableEffects.SeenNodeEffect | crawler/net/discovery/table/table.go:497-529 | on the whole table: the node is found afterwards, with the time of adding, iff it is not the local node, its id was unknown, its bucket had fewer than 16 entries and its address fits the stored uses; every other id is found as before; behind full entries it heads at most ten replacements; no other bucket changes |
| TableEffects.VerifiedNodeEffect | crawler/net/discovery/table/table.go:531-569 | on the whole table: a known node goes to the front with the new record iff its endpoint fits, an unknown one iff there is room and its address fits, behind full entries it heads the replacements; nothing else changes |
| TableEffects.BumpEffect | crawler/net/discovery/table/table.go:642-663 | a record goes to the front iff its id is known and its endpoint is the old one or fits once the old one is released; else the cell stays |
| TableEffects.RevalidationEffect | crawler/net/discovery/table/table.go:350-394 | the second half from the answer and the fetched record: without a pong a picked entry that is still last is no entry any more and the chosen replacement or nothing stands there; with a pong it is first with one more check whenever its endpoint fits; the record is the fetched one iff its number is higher and the fetch succeeded |
| NodeTable.Contains | crawler/net/discovery/table/table.go:670-677 | tells whether an id is in a list |
| NodeTable.PushNode | crawler/net/discovery/table/table.go:679-688 | grow, shift and overwrite put the node in front; the last one falls off a full list and is returned |
| NodeTable.DeleteNode | crawler/net/discovery/table/table.go:690-698 | removes the first node with the id and nothing else |
| NodeTable.Table.constructor | crawler/net/discovery/table/table.go:117-146 | seventeen separate empty buckets |
| NodeTable.Table.AddIP | crawler/net/discovery/table/table.go:579-596 | both counters or none, with the table counter rolled back when the bucket refuses |
| NodeTable.Table.RemoveIP | crawler/net/discovery/table/table.go:598-604 | releases the address in both counters |
| NodeTable.Table.AddReplacement | crawler/net/discovery/table/table.go:606-620 | refines the operation on values |
| NodeTable.Table.DeleteInBucket | crawler/net/discovery/table/table.go:665-668 | refines the operation on values |
| NodeTable.Table.Replace | crawler/net/discovery/table/table.go:622-640 | refines the operation on values and returns the chosen replacement, if one was used |
| NodeTable.Table.Readdress | crawler/net/discovery/table/table.go:647-655 | the new address counts instead of the old one, or everything is as before |
| NodeTable.Table.BumpInBucket | crawler/net/discovery/table/table.go:642-663 | refines the operation on values: search, address change, shift and overwrite |
| NodeTable.Table.AddSeenNode | crawler/net/discovery/table/table.go:497-529 | refines the operation on the whole table; on a table in order it has the effect of `SeenNodeEffect` |
| NodeTable.Table.AddVerifiedNode | crawler/net/discovery/table/table.go:531-569 | refines the operation on the whole table, with the effect of `VerifiedNodeEffect`; nothing before initialisation |
| NodeTable.Table.NodeToRevalidate | crawler/net/discovery/table/table.go:396-409 | for every random order of the buckets: the last entry of a non-empty bucket, none iff the table has no entries |
| NodeTable.Table.FinishRevalidate | crawler/net/discovery/table/table.go:350-394 | the second half of a revalidation refines the operation on the whole table, for every outcome of ping and record fetch; on a table in order it has the effect of `RevalidationEffect` |
| NodeTable.Table.GetNode | crawler/net/discovery/table/table.go:184-197 | refines the lookup on values |
| NodeTable.Table.FindnodeByID | crawler/net/discovery/table/table.go:434-463 | collect all entries, sort by distance, take n; over the checked ones if preferred and there is one |
| NodeTable.SearchedMeaning | crawler/net/discovery/table/table.go:441-462 | a search looks at the entries that were ever checked, in order, if they are preferred and there is one, and at all entries otherwise |
| NodeTable.SearchResult | crawler/net/discovery/table/table.go:434-463 | such a result has no id twice, only entries, and only checked ones if preferred and there is one |
| NodeTable.CheckedMeaning | crawler/net/discovery/table/table.go:450-457 | which nodes count as live |
| NodeTable.Table.ReadRandomNodes | crawler/net/discovery/table/table.go:161-182 | for all random draws a prefix of a permutation of all entries, no id twice, nothing before initialisation, the rest of the buffer untouched |
| NodeTable.Shuffle | crawler/net/discovery/table/table.go:176-180 | for all random draws a permutation |
| TableLoop.TableAlwaysInOrder | crawler/net/discovery/table/table.go:238-409 | in every reachable state of loop, jobs and callers the table invariant holds |
| TableLoop.OneJobOfEachKind | crawler/net/discovery/table/table.go:239-298 | at most one refresh and one revalidation in flight; who waits has a refresh to wait for; the revalidation timer runs iff no revalidation does; closed only with no job left |
| TableLoop.StepsOfTheTable | crawler/net/discovery/table/table.go:238-409 | in every run each call and each revalidation has the effect stated for the whole table, a job picks the last entry of its bucket, and nothing else touches the table |
| TableLoop.RecordsAreTrue | crawler/net/discovery/table/table.go:258-274 | the accepted waiters are `initDone` and the run's requests with their times; a refresh counts as finished iff the run has its end, at that time; the loop has an end to take note of iff one came since it last did |
| TableLoop.WaitersReleasedOnce | crawler/net/discovery/table/table.go:264-274 | every accepted waiter is released exactly once or still waits, in order; after a refresh that finished after it joined iff that refresh had not finished when it was accepted; initDone always so |
| TableLoop.LateWaiter | crawler/net/discovery/table/table.go:264-274 | a run in which a waiter is released by a refresh that finished before it joined |
| TableLoop.NothingStuck | crawler/net/discovery/table/table.go:255-298 | who waits will be released once refresh and loop go on; after a close request some part can step until the table is closed |
| TableLoop.RefreshFollows | crawler/net/discovery/table/table.go:258-274 | every tick and every accepted request is followed by a refresh the loop listens to until it has finished, in every continuation; it finishes afterwards unless it was over when the tick or request came |
| TableLoop.RevalidationFollows | crawler/net/discovery/table/table.go:275-280 | each firing of the timer starts a job of its own; in every continuation it is there until the loop takes note of its end, the timer resting meanwhile; it has ended iff its last step was taken, and can go on until then |
| TableLoop.CloseFollows | crawler/net/discovery/table/table.go:283-298 | after a close request no continuation has a new job or waiter; the loop waits for the refresh, then for the revalidation, and is closed exactly after that |
| TableLoop.OverlapBreaksAccounting | crawler/net/discovery/table/table.go:540-569 | an address change between the halves of a revalidation, then no answer: the counters are wrong |
| Lookup.QueryBuffer.Append | crawler/net/discovery/query.go:137-159 | appends the first node of each id not in the buffer and returns how many |
| Lookup.QueryBuffer.Slide | crawler/net/discovery/query.go:170-176 | empties the buffer |
| Lookup.LookupState.constructor | crawler/net/discovery/query.go:13-30 | the result starts as the nearest seeds, which all count as seen |
| Lookup.LookupState.CanAsk | crawler/net/discovery/query.go:122-130 | true once per id |
| Lookup.LookupState.MergeRound | crawler/net/discovery/query.go:53-66 | every buffered node not seen before is pushed, and seen from then on |
| LookupProtocol.TokensConserved | crawler/net/discovery/query.go:72-120 | in every interleaving free tokens, the held one, running queries and the done counter add up to alpha; at most alpha queries run; nobody sends on or closes the closed channel, and no send blocks |
| LookupProtocol.NoDeadlock | crawler/net/discovery/query.go:85-119 | when the main loop waits for a token or for the workers, some worker can step; otherwise the main loop can |
| LookupProtocol.AnswersAreDelivered | crawler/net/discovery/query.go:102-113 | in every interleaving the answers are, in order, exactly the nodes the workers were given and later appended; those of completed rounds the ones appended before the last join |
| LookupProtocol.CountsIffNew | crawler/net/discovery/query.go:107-117 | a worker counts iff its answer has an id the buffer does not have; afterwards the buffer has all ids of the answer |
| LookupProtocol.StopsWithoutNews | crawler/net/discovery/query.go:85-120 | the done counter is the number of the round's productive answers, as read from the actions; a round ends the lookup iff there was none, and starts no further query iff alpha of them are counted |
| LookupProtocol.QueriesAreWorkers | crawler/net/discovery/query.go:96-102 | the record of queries is what the workers do, and grows exactly when one is started |
| LookupProtocol.ResultIsNearest | crawler/net/discovery/query.go:53-68 | in every interleaving the result is exactly the nearest of the seeds and everything completed rounds returned, one node per id, where the returned nodes are read from the actions of the run; an uncancelled stop leaves no answer over |
| TableLookup.CapLosesNothing | crawler/net/discovery/handler.go:202-207 | starting from the nearest n of some nodes finds the same as starting from all of them, whatever is answered |
| TableLookup.LookupFromTable | crawler/net/discovery/handler.go:191-213 | a lookup seeded with a search of the table finds, in every interleaving, the nearest of everything the search looked at and all completed answers, as read from the actions of the run |
| LookupProtocol.RoundsImprove | crawler/net/discovery/query.go:53-68 | from round to round the list never gets shorter and no position gets farther |
| LookupProtocol.WorkBound | crawler/net/discovery/query.go:72-130 | at most depth rounds and depth * wants queries, no id queried twice, only nodes of the list the round began with |
| LookupProtocol.EveryRunEnds | crawler/net/discovery/query.go:53-130 | every run has at most depth * (10 * wants + 5) + 1 steps |
| LookupCoverage.LostAtCheckIff | crawler/net/discovery/query.go:85-98 | a node that was just marked as asked is lost at the check iff alpha productive answers are in |
| LookupCoverage.LostIffSkipped | crawler/net/discovery/query.go:85-98 | in every run the asked ids that are neither queried nor at hand are exactly those a check or a cancellation stopped at, at most one a round, from the list of that round |
| LookupCoverage.NeverQueried | crawler/net/discovery/query.go:122-130 | a lost id is in no query of any continuation |
| LookupCoverage.SecondSeedLost | crawler/net/discovery/query.go:85-98 | with one worker and two distinct seeds a run loses a node of the result |
| LookupCoverage.FinishedLookup | crawler/net/discovery/query.go:70-120 | a lookup that ends by itself with depth to spare has asked every node of its result: each was queried or is the one an earlier round stopped at, fewer than there were rounds |
| Awaiter.FirstMatch | crawler/net/discovery/responseAwaiter.go:101-109 | the earliest request with the id, kind and address of the reply |
| Awaiter.Adapted | crawler/net/discovery/responseAwaiter.go:133-146 | an idle sweep doubles the period up to 5 s, a useful one takes a third off down to 100 ms; never the other way, and always within the bounds |
| Awaiter.SweepIsSafe | crawler/net/discovery/responseAwaiter.go:156-189 | on any queue a sweep drops expired requests only and loses none |
| Awaiter.SweepIsCompleteIff | crawler/net/discovery/responseAwaiter.go:156-189 | it drops all expired ones iff, behind the first, none stands behind a live one |
| Awaiter.SweepOfOrdered | crawler/net/discovery/responseAwaiter.go:156-189 | on a queue in order of expiration it drops exactly the expired ones |
| Awaiter.SweepOutOfOrder | crawler/net/discovery/responseAwaiter.go:164-178 | an expired request that survives behind a live one |
| Awaiter.RequestsConserved | crawler/net/discovery/responseAwaiter.go:97-189 | in every run accepted = queue in order of arrival plus marked, disjointly; nothing is marked twice; matched iff the checker said (true, true), invalid iff (false, false); timed out only at or after the expiration, resolved by a reply only up to it |
| Awaiter.EverybodyAccepted | crawler/net/discovery/responseAwaiter.go:131-132 | the accepted requests are exactly those that came in the run, in order |
| Awaiter.PeriodInBounds | crawler/net/discovery/responseAwaiter.go:93-95 | in every run the ticker period is between 100 ms and 5 s |
| Awaiter.BoundedLateness | crawler/net/discovery/responseAwaiter.go:133-189 | in every run no request stays more than 5 s past its arrival or the latest expiration accepted up to it |
| Awaiter.BoundedLatenessOrdered | crawler/net/discovery/responseAwaiter.go:133-189 | with requests in order of expiration, no more than 5 s past the later of its own expiration and arrival |
| Awaiter.ReplyTouchesOne | crawler/net/discovery/responseAwaiter.go:100-130 | a reply concerns the earliest matching request only; that one leaves iff it is resolved |
| Awaiter.AwaitableRequest.Mark | crawler/net/discovery/responseAwaiter.go:39-42 | records the outcome and closes the channel, which must be open |
| Awaiter.Awaiter.constructor | crawler/net/discovery/responseAwaiter.go:56-95 | an empty queue, a period of half the upper bound |
| Awaiter.Awaiter.HandleRequest | crawler/net/discovery/responseAwaiter.go:131-132 | a request goes to the end of the queue |
| Awaiter.Awaiter.HandleReply | crawler/net/discovery/responseAwaiter.go:100-130 | the loop over the queue refines the reply on values; marked exactly when it leaves, with the outcome of its checker |
| Awaiter.Awaiter.SweepBehindFront | crawler/net/discovery/responseAwaiter.go:164-178 | drops and marks the expired requests from the second one up to the first live one |
| Awaiter.Awaiter.CheckDeadlines | crawler/net/discovery/responseAwaiter.go:156-189 | refines the sweep on values, returns how many were dropped; marked exactly when dropped |
| Awaiter.Awaiter.HandleTick | crawler/net/discovery/responseAwaiter.go:133-146 | a tick sweeps and adapts the period by what the sweep dropped |
| Neighbors.PacketsMeaning | crawler/net/discovery/v4/findNode.go:49-72 | the packets carry the nodes in order, none over the limit, max(1, ceil(n / limit)) of them, all but the last full |
| Neighbors.RelayedPicks | crawler/net/discovery/v4/findNode.go:53-59 | what is sent is the encoding of exactly the relayable nodes, at strictly increasing positions |
| Neighbors.MakeFindNodesResponse | crawler/net/discovery/v4/findNode.go:41-73 | what is sent is the relayable nodes cut into those packets; a failed send ends it with a proper prefix sent |
| Neighbors.DecodedPicks | crawler/net/discovery/v4/findNode.go:115-127 | what is kept is the decoded form of exactly the nodes that decode, at strictly increasing positions |
| Neighbors.Collector.Verify | crawler/net/discovery/v4/findNode.go:112-127 | counts every received node, keeps exactly those that decode, in order, done from sixteen received on |
| ReplyFate.FateOfRequest | crawler/net/discovery/responseAwaiter.go:97-189 | in every run, whatever else is pending and comes in, a request fares as if it were alone with the replies offered to it, until it is swept |
| ReplyFate.FirstWaiting | crawler/net/discovery/responseAwaiter.go:101-109 | a reply is offered to the first of the requests that wait for it |
| ReplyFate.EarliestGetsAll | crawler/net/discovery/responseAwaiter.go:100-130 | the earliest request to its endpoint is offered every matching reply of the run until it is settled |
| ReplyFate.SweptLate | crawler/net/discovery/responseAwaiter.go:156-189 | nobody is swept before the deadline |
| Neighbors.CompletesOnTheRightPacket | crawler/net/discovery/v4/findNode.go:112-136 | in every run of the awaiter, at whatever times packets come up to the expiration, the request completes exactly on the one that lifts the raw count of those offered to it to sixteen, with the valid nodes in order of arrival; no later packet is offered to it |
| Neighbors.EarliestCollectsAll | crawler/net/discovery/v4/findNode.go:112-136 | before its deadline the earliest request to an endpoint is pending with everything received from there so far, or matched, exactly from sixteen received nodes on |
| Neighbors.FullAnswerInAnyOrder | crawler/net/discovery/v4/findNode.go:43-136 | among any other traffic a full answer offered in any order and at any times up to the expiration matches the request, by its last packet, with exactly the valid nodes that were sent |
| Neighbors.SentIsReceived | crawler/net/discovery/v4/findNode.go:43-136 | end to end: if the packets of a full answer come before the deadline, in any order and among any other traffic, the earliest request to that endpoint gets exactly the valid nodes that were sent |
| Neighbors.ShortAnswer | crawler/net/discovery/v4/findNode.go:129-135 | in every run a shorter answer never completes the request; once swept, the caller still gets all of it and no error |
| Neighbors.NoAnswer | crawler/net/discovery/v4/findNode.go:129-135 | without any packet the request can only be swept, and the caller then gets no node and the error |
| Bond.EverythingIsJustified | crawler/net/discovery/v4/handler.go:75-172 | in every run Neighbors and ENR answers need a pong of the endpoint less than 24 h old, a node added from a ping one at most 24 h old, own requests a bond seen before and a ping less than 24 h old |
| Bond.AnsweredIff | crawler/net/discovery/v4/handler.go:146-148 | Neighbors and ENR answers go out iff the service is on, the request is not expired and the last pong is less than a day old; a ping adds its sender at once iff that was sent its pong and the last pong is at most a day old |
| Bond.BondedCall | crawler/net/discovery/v4/handler.go:156-172 | a call to a bonded endpoint goes out without another ping; if the endpoint did not ping us within the day it waits two seconds and sends iff a ping came |
| EndpointProof.ProvenIff | crawler/net/discovery/v4/pingpong.go:92-121 | in every reachable state an endpoint has answered a ping of ours within the day iff the last pong that answered one is recent; then it counts as bonded |
| EndpointProof.PongIsBackedIff | crawler/net/discovery/v4/pingpong.go:92-121 | in every run, after a pong its sender's bond is backed by an answered ping of ours, now and at all later times, iff the pong carries the token of our earliest pending ping to it, in time, or came at the same moment as one that did |
| EndpointProof.RunIsBackedIff | crawler/net/discovery/v4/handler.go:96-148 | over a whole run every bond is backed in every state and at all later times iff every unexpired pong of the run was such an answer |
| EndpointProof.UnprovenAnswerIff | crawler/net/discovery/v4/findNode.go:16-39 | who is answered or added without proof: exactly those whose last pong is recent while the last one that answered a ping of ours is not |
| EndpointProof.UnsolicitedPong | crawler/net/discovery/v4/pingpong.go:92-104 | a run in which a pong nobody asked for gets its sender Neighbors and a place in the table |
| EndpointProof.PongCallsBackIff | crawler/net/discovery/v4/pingpong.go:106-171 | a pong consumes the earliest pending ping to its sender; it adds the node exactly when it carries the token of that ping, in time, and the ping has a callback; otherwise it fails that ping |
| EndpointProof.PingStartsBond | crawler/net/discovery/v4/pingpong.go:44-85 | so a ping from an unknown endpoint and the right pong in time add the node if no earlier ping to it was pending |
| EndpointProof.WrongPingFirst | crawler/net/discovery/v4/pingpong.go:158-171 | a run in which the right pong fails an earlier ping and the node is not added |
| Bond.ReplyingInv | crawler/net/discovery/v4/pingpong.go:158-171 | a resolved ping implies a pong of its endpoint recorded at that moment |
| Bond.SendingInv | crawler/net/discovery/v4/handler.go:156-172 | a request goes out only behind the ping check of the bond attempt |
| BondEffects.ResponseEffect | crawler/net/discovery/v4/findNode.go:84-100 | a Neighbors or ENR response goes to the earliest pending request of its kind to its sender: matched iff in time with (true, true), invalid iff in time with (false, false), timed out iff late, else kept; all other requests and the log stay |
| BondEffects.SweepEffect | crawler/net/discovery/responseAwaiter.go:156-189 | a sweep times out expired requests only, keeps every other one and, unless one hides behind a live one, leaves no expired one |
| BondEffects.CallGoesOnIff | crawler/net/discovery/v4/handler.go:156-172 | once its ping is settled a call goes on iff the ping was answered; it then sends at once if the endpoint pinged us within the day and waits two seconds otherwise |
| BondEffects.UnbondedCall | crawler/net/discovery/v4/handler.go:156-172 | a call to an endpoint that is not bonded pings it and, if the right pong comes in time and no earlier ping was pending, goes out |
| BondEffects.SleeperSendsIff | crawler/net/discovery/v4/handler.go:170-172 | a call that waited sends its request iff the endpoint pinged us within the day by then, and is over either way |
| BondEffects.PingedIff | crawler/net/discovery/v4/handler.go:156-163 | an endpoint is pinged iff its ping or its request for our record finds no recent pong (and it may be answered, or has faults left), or we ping it ourselves, or a call to it finds no bond or many failures; the ping waits at the end of the queue and calls back only if it answers a ping |
| BondEffects.CallsAreOpened | crawler/net/discovery/v4/handler.go:156-172 | in every run the calls are exactly those that were opened, in order, and start at the beginning |
| Handler.V4Handler.CheckBond | crawler/net/discovery/v4/handler.go:146-148 | whether the last pong is less than a day old |
| Handler.V4Handler.MakePingRequest | crawler/net/discovery/v4/pingpong.go:123-186 | a ping with its own token and callback is queued |
| Handler.V4Handler.Match | crawler/net/discovery/v4/pingpong.go:106-121 | the reply goes to the awaiter, a matched ping calls back |
| Handler.V4Handler.VerifyPing | crawler/net/discovery/v4/pingpong.go:17-42 | an unexpired ping is recorded, an expired one changes nothing |
| Handler.V4Handler.HandlePing | crawler/net/discovery/v4/pingpong.go:44-85 | the sender is added at once if bonded, after a ping otherwise, not at all if the pong could not be sent |
| Handler.V4Handler.VerifyPong | crawler/net/discovery/v4/pingpong.go:87-104 | an unexpired pong is recorded, an expired one changes nothing |
| Handler.V4Handler.VerifyEnrRequest | crawler/net/discovery/v4/enr.go:15-40 | the same, and an unknown sender with faults left is pinged |
| Handler.V4Handler.HandlePacket | crawler/net/discovery/v4/handler.go:96-144 | a packet has exactly the effect of its protocol action, and fails with exactly the error its kind calls for |
| EnrRequest.ResponseConsumes | crawler/net/discovery/v4/enr.go:74-82 | in any queue a response consumes the earliest pending request for a record of its sender; it completes it iff it carries its token, in time, and fails it otherwise; the rest stays as it is |
| EnrRequest.FirstResponseDecides | crawler/net/discovery/v4/enr.go:74-100 | in every run a request is offered at most one response, and is matched iff that one carries its token and is in time |
| EnrRequest.CrossedResponses | crawler/net/discovery/v4/enr.go:74-82 | a run in which two requests to one node both fail although both right responses come in time |
| EnrRequest.ConcludedMeaning | crawler/net/discovery/v4/enr.go:98-117 | the caller gets a node iff the request is matched and the record is valid, of the node that was asked, and older or with an address that may be relayed; it is the known node iff the record is older |
| EnrRequest.RecordTakenIff | crawler/net/discovery/table/table.go:351-364 | a revalidation goes on with the fetched record iff the pong's number is higher, the request matched, and the record is valid, of the same node, not older and relayable; age and checks go on |
| EnrRequest.RevalidationKeepsIds | crawler/net/discovery/table/table.go:347-375 | an answered revalidation keeps the ids of the bucket and refreshes the entry with a record of the same node that is not older, keeping its age |
| Peer.PeerLedger.MarkPeerNode | crawler/crawler/peer.go:99-109 | stores and lists an unknown id, changes nothing for a known one |
| Peer.PeerLedger.NewEntries | crawler/crawler/peer.go:135-146 | hands out the fresh ids and forgets them |
| Peer.PeerLedger.GetPeerNodes | crawler/crawler/peer.go:121-133 | the stored nodes of the ids in order, unknown ones skipped |
| Peer.ReportedExactlyOnce | crawler/crawler/peer.go:99-146 | in every interleaving each stored id is drained, fresh or on its way exactly once, and every drained id resolves for good |
| Peer.LedgerIsTrue | crawler/crawler/peer.go:99-146 | in every interleaving an id is stored iff some caller brought a node with it, with the first such node; what was handed out and is still fresh is, in order, what the callers listed |
| Identity.LocalIdentity.constructor | crawler/net/discovery/identity.go:23-39 | a new identity is signed with number 1 |
| Identity.LocalIdentity.SetEntry | crawler/net/discovery/identity.go:84-93 | the entry is set; dirty iff it was or the entry changed |
| Identity.LocalIdentity.GetNode | crawler/net/discovery/identity.go:77-82 | the record of the current entries; a new number iff the flag was dirty |
| Identity.LocalIdentity.Sign | crawler/net/discovery/identity.go:95-122 | the same behind the lock |
| Identity.CacheIsCurrent | crawler/net/discovery/identity.go:77-122 | in every interleaving a returned record was current at some moment of the call; numbers count the signings, equal numbers mean the same record; a clean flag means a current cache |
| Identity.CallsTakeEffect | crawler/net/discovery/identity.go:77-122 | in every interleaving the entries are what the calls wrote in lock order, a call to get the node returns once, and nobody else returns one |
| Identity.SignedForChanges | crawler/net/discovery/identity.go:95-122 | in every interleaving the flag says whether a change was marked since the last signing was done, and a record is signed exactly by a recheck that finds it so |
| Pubkey.DecodeEncode | crawler/net/discovery/common/encPubkey.go:16-35 | decoding the encoding gives the point back iff both coordinates fit into 32 bytes |
| Pubkey.EncodeDecode | crawler/net/discovery/common/encPubkey.go:16-35 | encoding what was decoded gives the same bytes |
| Pubkey.DecodeInjective | crawler/net/discovery/common/encPubkey.go:23-35 | different bytes never decode to the same key |
| Pubkey.DecodeIff | crawler/net/discovery/common/encPubkey.go:23-35 | decoding gives a point iff there are 64 bytes that encode it with both coordinates in range and it is on the curve; the wrong size and a point off the curve have their own errors |

## Left out

- TableLoop.WaitersReleasedOnce: the code does not keep "released only after a refresh that finished after joining" for late waiters; the contract states exactly when it does.
- TableLoop.TableAlwaysInOrder: calls of `addVerifiedNode` come only while no revalidation is between its two halves; the code has no such call at all, and the invariant would fail otherwise.
- Awaiter.BoundedLateness: the ticker is taken to fire on time and the awaiter not to be kept waiting by a checker; a late ticker delays the sweep by as much.
- Handler.V4Handler.MakePingRequest: the call does not wait for the pong and returns no record number; what the pong does is a step of its own.
- Handler.V4Handler.HandlePing: the error of the ping it waits for is not part of its result; the reply is handled when it comes.
- Handler.V4Handler.HandlePacket: likewise leaves out the error of a ping the handler waits for.
- Handler.V4Handler.VerifyEnrRequest: whether the sender has faults left is an input; the counter behind it is not modelled.
- Bond.EverythingIsJustified: the clock starts after the first day of the epoch, because a missing record reads as time 0 there.
- LookupProtocol.TokensConserved: `alpha` is at least 1, as in its caller; with 0 the first receive would block for ever.
- LookupProtocol.WorkBound: a negative depth never reaches 0, so the bounds by depth are for depths from 0 on.
- Nodes are values: `Bump` and `SetTimestamp` write to a node other lists may share. The model replaces the entry instead, so the age set on a caller's own pointer is not captured.
- The distinct-net sets are multisets of subnets with a limit; their two prefix lengths, which are the same in the source, are one subnet of the address. The `ignoreLimits` setting is a pair of limits like any other.
- Machine widths: sequence numbers, liveness checks and the done counter are unbounded.
- Random choices, clocks and network results are parameters. A packet handler reads the clock once.
- Whether an address is a LAN one or may be relayed, curve membership, how nodes are encoded, and token hashes are given from outside.
- `Table.delete` has no caller and would break "replacements only behind full entries".
- Calls of `refresh` that meet a closed table close their own channel and never reach the loop.
- Table event hooks, copying live nodes to the database, and the choice of seed nodes, which enter as added nodes like any other.
- Shutdown of the awaiter, which nothing signals, and the per-id fault counter, whose verdict is an input.
- The cancellation of a lookup ends the model's run at once; workers that are still busy then are not joined in the code either, and may take their last steps.
- Sockets, RLP and signatures, worker pools, rate limiters, event feeds, the port scanner and the storage services.
