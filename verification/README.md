# Verification of the exposrd relay's core

exposrd is a cluster of nodes that relay HTTP and TCP requests into reverse tunnels. The nodes
tell each other over an unreliable bus which tunnels they hold; accounts and tunnels are kept in a
key-value store that is shared by concurrent requests. This project models that core in Dafny and
proves what the rest of the server relies on, over every input, every interleaving and every run.

| part | files | main results |
|---|---|---|
| anti-replay window of the bus | `Bits`, `SlidingWindow`, `WindowSafety`, `BusDelivery`, `Membership`, `ClusterManager` | `RunValid`, `JumpIsExact`, `VerdictIsExact`, `OnceExactly`, `DeliveredAtMostTwice`, `PublishedArriveOnce`, `TimersPerPeer`, `RecentPeersExactly` |
| replicated connection table | `ConnectionTable`, `SliceReplacement`, `SenderOrder`, `Expiry`, `Gossip`, `Summaries`, `Removal`, `Convergence`, `ExpiredViews`, `QuietConvergence`, `Provenance`, `Ordering`, `RoundRobin`, `Rotation`, `ConnectionManager` | `LearnReplacesSlice`, `OrderShowsExactly`, `NoFabrication`, `CountersInEveryRun`, `OwnConnectionsExactly`, `ViewAgreesExactly`, `CurrentViewAgreesExactly`, `QuietConverges`, `SilentExpires`, `AnnouncedStaysUp`, `RemoteEntriesWereHeld`, `DeliveryCopiesOwner`, `RequestsAreServedFairly` |
| locks and atomic updates | `Mutex`, `LockRegistry`, `LockProvider`, `AtomicUpdate`, `SerialUpdates`, `UpdateProgress`, `ShutdownCleanUp`, `MemoryStorage` | `OneHolder`, `GrantsFollowArrival`, `UnlockAdvances`, `UpdatesAreSerial`, `NoUpdateLost`, `StuckExactly`, `NoRunLeaksExactly` |
| account index | `AccountIds`, `AccountIndex`, `AccountRest`, `AccountGuard`, `GuardExactness`, `AccountDeletion` | `EveryRestAgreesExactly`, `IndexAgrees`, `GuardIsWeakest`, `CreationGuardExactly`, `DeletionGuardExactly`, `ListIsOwnedSet`, `DeletionRemovesExactly` |
| listing, JSON, request loops, buffering | `Pagination`, `KeyOrder`, `KeyPositions`, `Serializer`, `LoopGuard`, `SocketBuffer` | `FollowConserves`, `PagesAreComplete`, `PagesEnd`, `ReturnedExactly`, `StoredIsRead`, `MergeTwice`, `ForwardsAreBounded`, `LoopIsRefusedExactly`, `BytesArriveInOrder`, `WritesArriveInOrder` |

How it is built. Where the program keeps state in fields, a class has those fields and methods with
the same loops and branches, and each method is proved equal to a function on values. Concurrency
is a state machine over those functions: one event for every stretch of code between two `await`s,
any order of events allowed. Invariants are proved over every run of the machine, and the main
results are read off the invariants. Clocks, random identifiers and the answers of callbacks,
readers and storage providers are parameters.

Where the code does not do what it is meant to do, the model follows the code. A lemma shows a
concrete run on which it fails, and another one states exactly when it does hold:

- A forward jump of 32 or more shifts by the count modulo 32 (`JumpOf32LosesAMessage`); the window
  survives a jump exactly if `SlidingWindow.JumpFits` (`JumpIsExact`).
- The age test admits lag 16 while the mask remembers lags 0 to 15, so a number can be delivered a
  second time there (`EdgeDeliversTwice`), and never a third time (`DeliveredAtMostTwice`). It is
  delivered at most once exactly if no copy arrives at that edge (`OnceExactly`). Both hold over all
  arrivals, whatever the jumps: bits that a wrapped shift leaves behind refuse new numbers and never
  repeat old ones (`RunIsSafe`).
- An update whose stored text does not parse, or whose result cannot be written, ends without giving
  its lock back, and blocks its key for good (`BrokenTextBlocksKey`, `LeakIsForever`). A key stands
  still exactly if that has happened to it (`StuckExactly`), and no run of given callers comes to it
  exactly if their callbacks keep every stored value readable and writable (`NoRunLeaksExactly`).
- With a stale timeout above the removal timeout a peer is forgotten while it still counts as
  recent (`ForgottenEarly`); the two timeouts the other way round are exactly what is needed
  (`RecentPeersExactly`).
- Deleting an account normalises the identifier to find the account but asks to delete its tunnels
  with the identifier as it was written, which the permission check compares literally. A printed
  identifier drops the account and keeps its tunnels (`PrintedIdKeepsTunnels`); a tunnel goes
  exactly if the identifier was passed in normal form (`DeletionRemovesExactly`).
- Assigning a tunnel looks for the account's own identifier in the list, not for the tunnel's, so a
  tunnel can be listed twice (`AssignedTwice`); `AssignedExactly` says when it is listed once.
- A deletion inside a creation can leave a listing behind (`OverlapLeavesListing`). So can a creation
  beside deletions that started in time: one that has removed the old tunnel takes the new one off
  the list (`LateUnlistingHitsNewTunnel`), and one that has not takes away the tunnel that another
  account created meanwhile (`LateRemovalHitsOtherAccount`). Callers have three things to mind. A
  deletion must not start before its tunnel is listed; it does harm exactly then
  (`DeletionGuardExactly`). A creation must not start while a roll-back of the tunnel or a deletion
  that has not removed it is under way, or while more deletions have still to take it off the
  account's list than it is listed there; it does harm exactly then (`CreationGuardExactly`). And no
  tunnel may have the identifier of its account (`OwnNameBlocksListings`). With all three, list and
  store agree whenever nothing is under way on a tunnel (`IndexAgrees`), and no weaker rule will do
  (`GuardIsWeakest`). For callers that only wait with a creation until nothing is under way, and
  delete at any time, they agree at all such moments exactly if no life of the tunnel that is over
  ended listed but not unlisted again (`EveryRestAgreesExactly`).
- Listing by position skips a key when an earlier one is deleted between two pages
  (`DeletionSkipsKey`). A key that is there all the time is returned once, plus once for each time
  it rises past the cursor between two calls, minus once for each time it falls (`ReturnedExactly`);
  where keys are only deleted and appended it is returned exactly if it never falls
  (`ListedIffNeverFalls`). Listing by key has no such gaps (`PagesAreComplete`).
- A page of size 0 ends a listing by key, whatever there is left to list (`EmptyPageEnds`).
- The times of a tunnel depend on the order of two senders' announcements
  (`ConnectedAtDependsOnOrder`, `OtherTimesDependOnOrder`); entries and counters do not
  (`LearnCommutes`). `OrderShowsExactly` says for which tables and announcements they do.

## Model

| member | source | states |
|---|---|---|
| Bits.ShiftLeftBit | src/cluster/cluster-manager.ts:339 | bit i of a 32-bit left shift is bit i - d of the operand, where d is the count modulo 32 |
| Bits.AndBit | src/cluster/cluster-manager.ts:340 | a bit of a conjunction is set iff it is set in both words |
| Bits.OrBit | src/cluster/cluster-manager.ts:347 | a bit of a disjunction is set iff it is set in one of the words |
| Bits.TestReadsBit | src/cluster/cluster-manager.ts:344 | masking with a shifted 1 is non-zero iff that bit of the word is set |
| SlidingWindow.RunValid | src/cluster/cluster-manager.ts:329-347 | over any sequence of arrivals whose jumps fit, bit i (0 to 15) is set iff number top - i was delivered, the top is the highest number delivered, and no number repeats except first within the window and then at lag 16 |
| SlidingWindow.JumpIsExact | src/cluster/cluster-manager.ts:334-341 | after every such run the bits still tell what was delivered after the next number iff its jump is below 32, or shifts everything out, or is the first of the peer |
| SlidingWindow.VerdictIsExact | src/cluster/cluster-manager.ts:329-347 | a number is delivered iff it is wanted: every undelivered one up to lag 16 is, and a message turned down changes neither top nor bits; it is out of the window iff negative or more than 16 behind the top |
| WindowSafety.RunIsSafe | src/cluster/cluster-manager.ts:329-347 | over all arrivals, whatever the jumps, every number delivered within the window has its bit, and no number repeats except first within the window and then at lag 16 |
| WindowSafety.DeliveredAtMostTwice | src/cluster/cluster-manager.ts:329-357 | over all arrivals a number is delivered at most once at lags 0 to 15, at most twice in all, and never beyond lag 16 |
| SlidingWindow.DeliveredExactlyOnce | src/cluster/cluster-manager.ts:329-357 | a number all of whose copies arrive within lag 15 is delivered exactly once if any copy arrives, and not at all otherwise |
| SlidingWindow.JumpOf32LosesAMessage | src/cluster/cluster-manager.ts:339-346 | a jump of exactly 32 after any first message: the number is refused as a repeat although it is new, and the top moves to it |
| SlidingWindow.EdgeDeliversTwice | src/cluster/cluster-manager.ts:329-330 | a number, then that plus 16, then the first one again: it is delivered twice |
| WindowSafety.OnceExactly | src/cluster/cluster-manager.ts:329-347 | over all arrivals a number is delivered at most once iff no copy of it arrives 16 behind the top, delivered already but not since the top moved there |
| BusDelivery.TopIsHighest | src/cluster/cluster-manager.ts:334-341 | the top of a window is the highest number that arrived, delivered or not |
| BusDelivery.PublishedArriveOnce | src/cluster/cluster-manager.ts:329-388 | of every published message that arrives at all the listeners see exactly one copy, if none is overtaken by one published 16 or more after it and no 32 in a row are lost |
| Membership.ReachableInv | src/cluster/cluster-manager.ts:187-253 | in every run with punctual timers each known peer has its removal timer pending at last hearing plus removal timeout, its stale timer iff it is not stale, and no other timer is pending; the node itself is never stale or removed |
| Membership.TimersPerPeer | src/cluster/cluster-manager.ts:222-230 | exactly one removal timer for each known peer, exactly one stale timer until it is stale, none for anybody else |
| Membership.LearntPeersAreVisible | src/cluster/cluster-manager.ts:181-185 | the addresses of the learnt peers are exactly those of the nodes a lookup answers for |
| Membership.RecentPeersExactly | src/cluster/cluster-manager.ts:187-278 | the visible peers are self and those heard within the stale timeout, in every run, iff the stale timeout does not exceed the removal timeout |
| Membership.InvShowsRecentPeers | src/cluster/cluster-manager.ts:265-278 | a node lookup answers for self, for everybody heard less than the stale timeout ago, and for nobody heard longer ago than that |
| Membership.LookupsTellWhatWasSaid | src/cluster/cluster-manager.ts:187-278 | in every run, whatever the timeouts, a lookup that answers for a peer gives identifier, host, address and timestamp of the last message the peer was learnt from, and for the node itself its own configuration |
| Membership.LearntPeersAreSaid | src/cluster/cluster-manager.ts:181-219 | in every run the learnt addresses are those told in these messages by the peers a lookup answers for, and the node's own |
| Membership.ForgottenEarly | src/cluster/cluster-manager.ts:236-242 | with the timeouts the other way round a run removes a peer that was heard recently |
| Membership.WindowsFollowArrivals | src/cluster/cluster-manager.ts:320-347 | a known peer's window is that of the numbers that arrived since it was learnt, so the window results hold for every peer in every run with timers |
| ClusterManager.Manager.constructor | src/cluster/cluster-manager.ts:63-78 | the node knows itself with an empty window and numbers from 0 |
| ClusterManager.Manager.LearnNode | src/cluster/cluster-manager.ts:187-234 | learning takes the whole record from the message and sets both timers anew, in place, as in the runs LookupsTellWhatWasSaid is about; learning oneself changes nothing |
| ClusterManager.Manager.FireTimer | src/cluster/cluster-manager.ts:236-253 | a stale timer marks the peer if it is still known, a removal timer forgets it, and nothing else changes |
| ClusterManager.Manager.ReceiveBus | src/cluster/cluster-manager.ts:320-357 | the shifting, masking and marking in place gives the window and the verdict of the specification, on any message |
| ClusterManager.Manager.Publish | src/cluster/cluster-manager.ts:367-388 | the k-th message published carries number k, after all earlier ones, which is what BusDelivery.PublishedArriveOnce asks of a sender |
| ConnectionTable.UpdateStateRecords | src/tunnel/tunnel-connection-manager.ts:333-353 | alive count and connected flag describe the connections; coming up records the least connection time, going down the greatest disconnection time, now if there is none, and otherwise these times stay; the tunnel is alive now iff it is up |
| ConnectionTable.AliveCounts | src/tunnel/tunnel-connection-manager.ts:333-334 | the alive count is the number of positions with a connected entry |
| ConnectionTable.EarliestIsLeast | src/tunnel/tunnel-connection-manager.ts:337-339 | the recorded time is that of a connected entry with a timestamp and none is earlier |
| ConnectionTable.LatestIsGreatest | src/tunnel/tunnel-connection-manager.ts:341-343 | the recorded time is that of a disconnected entry with a timestamp and none is later |
| ConnectionTable.HandlersSettle | src/tunnel/tunnel-connection-manager.ts:133-150 | adding, ending a removal, learning and refreshing leave the tunnels they touch with exact counters, whatever was left half done before, and learning leaves all others alone |
| Summaries.CountersInEveryRun | src/tunnel/tunnel-connection-manager.ts:118-148 | in every run of the network, at every node and tunnel, the stored count is at least the number of connected entries and positive iff the flag is set; both are exact unless a removal took an entry down since they were last computed |
| Summaries.StepKeepsCounts | src/tunnel/tunnel-connection-manager.ts:244-357 | the same for one event: it never makes the count too low, and every settling event makes it exact |
| Removal.OwnConnectionsExactly | src/tunnel/tunnel-connection-manager.ts:118-136 | in every run, with any events between the turns of removals, a node holds a connection of its own as connected iff it was made there and no turn took it down since |
| SliceReplacement.LearnReplacesSlice | src/tunnel/tunnel-connection-manager.ts:250-277 | the sender's slice of an announced tunnel becomes its announced list, every other node's slice and their order stay, tunnels not mentioned are untouched |
| SliceReplacement.LearnTwice | src/tunnel/tunnel-connection-manager.ts:250-277 | learning the same announcement again at the same time changes nothing |
| SliceReplacement.LearnCommutes | src/tunnel/tunnel-connection-manager.ts:250-277 | announcements of two senders commute in all that is not a time: same tunnels, same entries up to order, same counters |
| SenderOrder.TimesAgreeExactly | src/tunnel/tunnel-connection-manager.ts:336-353 | for two senders at one time, an iff for each of the three times of a tunnel to be the same in both orders, from the flag, the entries left after either announcement and those after both |
| SenderOrder.OrderShowsExactly | src/tunnel/tunnel-connection-manager.ts:250-277 | two announcements give the same table in both orders, up to the order of entries, iff these conditions hold for the tunnels both of them announce |
| SenderOrder.ConnectedAtDependsOnOrder | src/tunnel/tunnel-connection-manager.ts:336-339 | two nodes bring a tunnel up: its connection time is that of whoever is heard first |
| SenderOrder.OtherTimesDependOnOrder | src/tunnel/tunnel-connection-manager.ts:340-353 | a tunnel up through one node that reports it down while another one reports it up or down: the disconnection time, or the time it was last alive, depends on the order |
| Gossip.ReachableInv | src/tunnel/tunnel-connection-manager.ts:202-278 | in every run of any number of nodes over a network that loses, repeats and reorders, entries are local iff owned, and each remote one was told by its owner |
| Gossip.NoFabrication | src/tunnel/tunnel-connection-manager.ts:202-222 | a remote entry held as connected was announced as connected by its owner under the same id and peer, and the owner had accepted it |
| Gossip.AcceptedMeansConnected | src/tunnel/tunnel-service.ts:393-404 | what counts as accepted was connected at that node by an earlier event of the run |
| Convergence.ReachableView | src/tunnel/tunnel-connection-manager.ts:244-278 | a view without expired entries is exactly the connected part of the last record processed from the owner |
| Convergence.ViewAgreesExactly | src/tunnel/tunnel-connection-manager.ts:244-294 | such a view agrees with the owner's own table iff the last record processed is as good as the owner's newest |
| Convergence.Converged | src/tunnel/tunnel-connection-manager.ts:184-278 | once every view of a tunnel is up to date all nodes hold the same connected entries of it, whatever happened before |
| ExpiredViews.HeldWasTold | src/tunnel/tunnel-connection-manager.ts:250-314 | in every run a view holds, counted with repetitions, only connected entries of the last record processed from the owner, and fewer than all of them iff an entry of it has expired since |
| ExpiredViews.CurrentViewAgreesExactly | src/tunnel/tunnel-connection-manager.ts:244-331 | a view whose last record tells what the owner would tell now agrees with the owner's table iff no entry of it has expired since |
| ExpiredViews.NothingToldIsHeld | src/tunnel/tunnel-connection-manager.ts:244-331 | a view whose last record has no connected entry holds none, whatever expired before, and is up to date iff the owner has none |
| QuietConvergence.QuietKeepsNewest | src/tunnel/tunnel-connection-manager.ts:202-222 | while no connection of a tunnel comes or goes at its owner, no event changes what the owner would announce as connected |
| QuietConvergence.HeardIsNewest | src/tunnel/tunnel-connection-manager.ts:257-275 | a view whose last record was built in the course of a quiet run holds what its owner would announce |
| QuietConvergence.NeverConnectedIsUpToDate | src/tunnel/tunnel-connection-manager.ts:188-193 | in every run, all views of a node that never had a connection of the tunnel, and so never announces it, are up to date |
| QuietConvergence.InformedIsNewest | src/tunnel/tunnel-connection-manager.ts:244-294 | in a quiet run a view is up to date if its last record was built in the course of it, or if it heard none and was up to date before |
| QuietConvergence.QuietConverges | src/tunnel/tunnel-connection-manager.ts:184-278 | after any run, once no connection of a tunnel comes, goes or expires any more and each view is informed in this sense or its owner never had a connection of the tunnel, all nodes hold the connected entries their owners hold |
| Provenance.LearntAsAnnounced | src/tunnel/tunnel-connection-manager.ts:205-217 | learning what was announced of a connection gives the connection itself, each time in its own place, but for being remote and alive now |
| Provenance.RecordIsSlice | src/tunnel/tunnel-connection-manager.ts:202-222 | the record of a node has all of its own entries, up or down, once each in their order |
| Provenance.DeliveryCopiesOwner | src/tunnel/tunnel-connection-manager.ts:202-278 | in every run a delivery leaves the receiver with a copy of all entries the sender had of its own when it built the announcement, times and all |
| Provenance.RemoteEntriesWereHeld | src/tunnel/tunnel-connection-manager.ts:202-294 | in every run a remote entry has identifier, peer, state and both times of its owner's entry at an earlier announcement, and is alive since its delivery; or it expired more than 15000 ms after that and is down since then |
| Provenance.OwnEntriesWereMade | src/tunnel/tunnel-connection-manager.ts:118-150 | in every run an entry of a node's own was connected there at its connection time, and is down since the last removal of it after that, if there was one |
| Expiry.SilentExpires | src/tunnel/tunnel-connection-manager.ts:47-53 | with refreshes at most 10000 ms apart an entry announced at t by an owner then silent is not connected after t + 25000 and gone after t + 95000 |
| Expiry.AnnouncedStaysUp | src/tunnel/tunnel-connection-manager.ts:286-294 | an entry announced again within every 15000 ms stays held and connected through every run |
| Expiry.RefreshFate | src/tunnel/tunnel-connection-manager.ts:286-310 | at a refresh a disconnected entry stays iff it went down less than 60000 ms ago, a connected remote one is taken down iff it was told more than 15000 ms ago, all others stay as they are |
| Expiry.DroppedExactly | src/tunnel/tunnel-connection-manager.ts:312-320 | a tunnel is dropped iff no entry is left, it was down before, and it has been so for more than 300000 ms or without a time |
| Expiry.RefreshSparesLocal | src/tunnel/tunnel-connection-manager.ts:289-303 | a refresh never marks or removes a connected local entry |
| ConnectionManager.Manager.UpdateTunnelState | src/tunnel/tunnel-connection-manager.ts:324-357 | recomputes the summary of one tunnel in place and tells whether flag or count changed |
| ConnectionManager.Manager.AddTunnelConnection | src/tunnel/tunnel-connection-manager.ts:138-148 | the entry is appended, in a new tunnel if need be, and the summary follows |
| ConnectionManager.Manager.MarkDisconnected | src/tunnel/tunnel-connection-manager.ts:124-132 | one turn takes down the local entry with the id and nothing else |
| ConnectionManager.Manager.RemoveTunnelConnection | src/tunnel/tunnel-connection-manager.ts:118-136 | after the loop exactly the local entries asked for are down, each since the last turn about its id, all others and the order are as before, and the counters are right again |
| ConnectionManager.Manager.LearnRemoteTunnels | src/tunnel/tunnel-connection-manager.ts:244-278 | the loop over an announcement computes the specified table; one's own announcement is ignored |
| ConnectionManager.Manager.RefreshTunnelConnections | src/tunnel/tunnel-connection-manager.ts:286-313 | marking and filtering entry by entry computes the specified refresh of one tunnel |
| ConnectionManager.Manager.RefreshOne | src/tunnel/tunnel-connection-manager.ts:312-320 | a tunnel that is down, empty and old is dropped with its round-robin memory, any other one stays |
| ConnectionManager.Manager.RefreshConnectionState | src/tunnel/tunnel-connection-manager.ts:280-322 | the loop refreshes every tunnel once, whatever the order, and forgets the memory of exactly the dropped ones |
| ConnectionManager.Manager.LocalTunnels | src/tunnel/tunnel-connection-manager.ts:188-193 | the tunnels announced by default are those with a local entry, each once |
| ConnectionManager.Manager.AnnounceLocalTunnels | src/tunnel/tunnel-connection-manager.ts:195-242 | batches of 50, the last one of 1 to 50, that take the tunnels once, in order, each with the local entries of the table at its own turn; all of them, unless the manager stops before |
| ConnectionManager.Manager.GetNextConnection | src/tunnel/tunnel-connection-manager.ts:359-400 | the index loop serves the request as Rotation.ServesSuccessor says: a connected entry, whose id alone is remembered for the tunnel, and none iff none is connected |
| Rotation.RequestsAreServedFairly | src/tunnel/tunnel-connection-manager.ts:359-400 | for requests that each read what the ones before remembered, on any tunnels in any order: while a tunnel keeps its connections, n requests for it are served once by each of n candidates, and k requests k/n times rounded down or up |
| Rotation.ServesSuccessor | src/tunnel/tunnel-connection-manager.ts:365-399 | one request is served by the successor of the remembered candidate in id order, after the last one by the first, also if none is remembered; its id is remembered |
| Rotation.OthersAreUndisturbed | src/tunnel/tunnel-connection-manager.ts:365-399 | a request for one tunnel leaves the next selection on every other tunnel unchanged |
| RoundRobin.CandidatesExactly | src/tunnel/tunnel-connection-manager.ts:367-385 | candidates are the connected local entries, and connected remote ones only when there is no local one |
| RoundRobin.SelectsCandidate | src/tunnel/tunnel-connection-manager.ts:370-399 | the selection is a candidate, and there is none only if no entry is connected |
| RoundRobin.SortedIsSort | src/tunnel/tunnel-connection-manager.ts:369 | sorting by id orders the candidates and neither drops nor invents any |
| RoundRobin.SelectsInCyclicOrder | src/tunnel/tunnel-connection-manager.ts:371-380 | after an entry its successor in strict id order is selected, after the last one the first |
| RoundRobin.RoundRobinIsFair | src/tunnel/tunnel-connection-manager.ts:359-400 | from any remembered id, n selections choose each of n candidates once, and k selections each k/n times rounded down or up |
| Mutex.Lock.Take | src/utils/mutex.ts:12-47 | refused after an abort, granted if free, queued last otherwise; each call gets a new index |
| Mutex.Lock.Give | src/utils/mutex.ts:49-56 | the first waiter is served and the mutex stays locked, or it becomes free |
| Mutex.Lock.Cancel | src/utils/mutex.ts:26-30 | the abort handlers, each filtering out its own index, together refuse every waiter in order and leave the holder |
| Mutex.ServedInTurn | src/utils/mutex.ts:49-56 | the waiter at position k is served by release number k, and the mutex stays locked until then |
| LockProvider.MemoryLockProvider.MutexOf | src/lock/memory-lock-provider.ts:14-15 | the mutex of a resource is found, or made and registered |
| LockProvider.MemoryLockProvider.LockResource | src/lock/memory-lock-provider.ts:13-21 | the object takes the lock step of LockRegistry: the call goes to the mutex of its resource and is granted, queued or refused as there |
| LockProvider.MemoryLockProvider.Unlock | src/lock/memory-lock-provider.ts:24-29 | the object takes the unlock step of LockRegistry: release, then removal from the dictionary when left unlocked |
| LockProvider.MemoryLockProvider.CleanUp | src/lock/memory-lock-provider.ts:31-34 | the object takes the clean-up step of LockRegistry; as after every call, its registry is one that a run of calls leads to |
| LockProvider.MemoryLockProvider.Destroy | src/lock/memory-lock-provider.ts:37-40 | the object takes the destroy step of LockRegistry: every waiter of every mutex ever made is refused and the dictionary is emptied |
| LockProvider.OneHolderOfObject | src/lock/memory-lock-provider.ts:13-40 | every resource of the object has at most one holder, across all mutexes it ever made |
| LockProvider.GrantsOfObjectFollowArrival | src/lock/memory-lock-provider.ts:13-40 | the object grants each resource in the order of the calls and passes nobody over |
| LockRegistry.ReachableInv | src/lock/memory-lock-provider.ts:13-40 | the registry invariant holds over every interleaving of lock, unlock, destroy and clean-up |
| LockRegistry.OneHolder | src/lock/memory-lock-provider.ts:13-40 | a resource has at most one holder, across all mutexes ever created for it |
| LockRegistry.LockAnswersExactly | src/utils/mutex.ts:12-47 | in every run a call is refused iff the provider was destroyed, holds the lock at once iff nobody holds the resource, and waits otherwise |
| LockRegistry.RegisteredExactly | src/lock/memory-lock-provider.ts:13-29 | until a destroy the dictionary has a mutex for exactly the resources that are held |
| LockRegistry.WaitingHasHolder | src/utils/mutex.ts:21-45 | a call waits only while another one holds its resource, and not after an abort |
| LockRegistry.GrantsFollowArrival | src/utils/mutex.ts:40-56 | grants of a resource follow the order of the calls and pass nobody over |
| LockRegistry.NothingAfterDestroy | src/lock/memory-lock-provider.ts:37-40 | after destroy nobody waits, and no event grants anything any more |
| LockRegistry.UnlockAdvances | src/utils/mutex.ts:49-56 | each unlock of a resource serves a waiting call or brings it exactly one place forward |
| AtomicUpdate.ReachableInv | src/storage/storage.ts:58-98 | in every interleaving a running callback's snapshot is the stored value, and every value is its serial meaning |
| SerialUpdates.UpdatesAreSerial | src/storage/memory-storage-provider.ts:93-119 | each stored value is its initial value under the callbacks of the finished updates of its key, one after another in grant order; a callback that says no or throws contributes nothing |
| SerialUpdates.NoUpdateLost | src/storage/storage.ts:58-98 | that order is the order of the calls, and every finished update is counted exactly once |
| AtomicUpdate.FinishAppends | src/storage/memory-storage-provider.ts:110-117 | storing before unlocking appends the holder's callback to the meaning of its key and of no other |
| UpdateProgress.LeakHasCause | src/storage/storage.ts:62-95 | whenever an update ended with its lock held, what the finished updates of its key made of the initial value does not parse, or its own callback makes of that what cannot be serialised |
| ShutdownCleanUp.NothingStaysRegistered | src/lock/memory-lock-provider.ts:13-40 | in every run, after a shutdown, no mutex is in the dictionary once every update that was refused has ended |
| UpdateProgress.StuckExactly | src/storage/storage.ts:58-98 | in every run a key with an unfinished update stands still iff an update of it has leaked its lock |
| UpdateProgress.LeakIsForever | src/storage/storage.ts:69-72 | however a run goes on after that, every other unfinished or later update of the key only ever asks, or is refused at shutdown |
| UpdateProgress.NoRunLeaksExactly | src/storage/storage.ts:58-98 | no run of given callers leaks a lock iff every stored value stays readable, and is never turned into what cannot be written, under any sequence of their callbacks |
| UpdateProgress.NeverStuck | src/storage/storage.ts:58-98 | under that condition every unfinished update was refused, or some update of its key can go on |
| UpdateProgress.BrokenTextBlocksKey | src/storage/storage.ts:67-72 | a stored brace: the first update of its key keeps the lock, and the next one is never served in any continuation |
| MemoryStorage.MemoryStorageProvider.Init | src/storage/memory-storage-provider.ts:47-49 | afterwards no key of the namespace is found, and every key of another one is found as before |
| MemoryStorage.MemoryStorageProvider.Add | src/storage/memory-storage-provider.ts:51-62 | stores, arms the key's timer and says so iff the key is absent or holds the empty string, touches nothing else, fails without a namespace |
| MemoryStorage.MemoryStorageProvider.Put | src/storage/memory-storage-provider.ts:64-72 | stores under the key and nowhere else, and replaces the key's timer |
| MemoryStorage.MemoryStorageProvider.UpdateTTL | src/storage/memory-storage-provider.ts:32-41 | the key's old timer is gone, and a new one is due after the time to live, if there is one |
| MemoryStorage.MemoryStorageProvider.Expire | src/storage/memory-storage-provider.ts:38-40 | a timer removes its key, whatever it holds by then, and nothing else |
| MemoryStorage.MemoryStorageProvider.Delete | src/storage/memory-storage-provider.ts:121-130 | fails on an absent key or namespace, and removes nothing else |
| MemoryStorage.MemoryStorageProvider.ReadLocked | src/storage/memory-storage-provider.ts:98-108 | the object takes the read step of AtomicUpdate: the lock is kept iff there is a value, and given up before failing |
| MemoryStorage.MemoryStorageProvider.Release | src/storage/memory-storage-provider.ts:110-117 | the object takes the last step of AtomicUpdate: the new value, if there is one, is stored and then the mutex released; the key's timer is replaced in any case |
| AccountIds.NormalFormsAreFixed | src/account/account-service.ts:29-36 | exactly the well-formed identifiers are their own normal form |
| AccountIds.NormalizeTwice | src/account/account-service.ts:29-36 | normalising is idempotent |
| AccountIds.FormatRoundTrip | src/account/account-service.ts:38-40 | the printed form normalises to the identifier and differs from it |
| AccountIds.NormalizesExactly | src/account/account-service.ts:29-36 | a text is normalised to an identifier iff it spells it, separators aside and letters in either case |
| AccountIds.FormatInFours | src/account/account-service.ts:38-40 | the printed form is the four groups of four with dashes between them |
| AccountIndex.Account.Assign | src/account/account-tunnel-service.ts:25-31 | pushes the tunnel unless the account's own identifier is in the list |
| AccountIndex.Account.Unassign | src/account/account-tunnel-service.ts:41-48 | removes the first occurrence and keeps the rest in order |
| AccountIndex.UnassignTakesOne | src/account/account-tunnel-service.ts:42-45 | exactly one occurrence goes, if there is one |
| AccountIndex.AssignedTwice | src/account/account-tunnel-service.ts:26-28 | assigning a tunnel that is listed already lists it twice |
| AccountIndex.AssignedExactly | src/account/account-tunnel-service.ts:26-28 | after assigning a tunnel is listed exactly once iff neither it nor the account's identifier was listed, or that identifier was and the tunnel was listed once |
| AccountIndex.OrderAlwaysTells | src/tunnel/tunnel-service.ts:110-192 | in every run, overlapping or not, an account that was not dropped lists a tunnel as often as the order of the steps leaves listings unanswered, and the tunnel is stored for whoever stored it last and was not removed since |
| AccountIndex.IndexAgreesExactly | src/tunnel/tunnel-service.ts:110-192 | in every run and at every moment, list and store agree on a tunnel iff the unanswered listings are one for a tunnel that is kept for the account and none for any other |
| AccountIndex.AllAnsweredExactly | src/account/account-tunnel-service.ts:41-48 | every listing is answered iff from every point of the order on there are at least as many unlistings as listings |
| AccountRest.RestAgreesExactly | src/tunnel/tunnel-service.ts:110-192 | for callers that create a tunnel only while nothing is under way on it, deletions starting at any time: when nothing is under way on it, list and store agree iff its present life went in order, the former ones having done so |
| AccountRest.UnassignIsLostExactly | src/account/account-tunnel-service.ts:41-48 | for the same callers an unassignment finds nothing on the list iff the creation of the tunnel has not listed it yet or another deletion unlisted it since |
| AccountRest.EveryRestAgreesExactly | src/tunnel/tunnel-service.ts:110-192 | for the same callers they agree at every such moment of the run iff every life of the tunnel that was listed and removed was unlisted after it was listed |
| AccountGuard.IndexAgrees | src/tunnel/tunnel-service.ts:110-192 | in every run in which a permitted deletion starts once its tunnel is listed, and a creation of a tunnel named otherwise than its account starts while neither a roll-back of it nor a deletion that has not removed it is under way and no more deletions have to take it off the account's list than it is listed there, all else overlapping freely: a tunnel at rest is listed exactly once by its owner and by no other account |
| AccountGuard.ReachableGuard | src/tunnel/tunnel-service.ts:110-192 | in every such run, at every moment: the owner of a tunnel that nothing under way will remove lists it once more often than deletions have still to unlist it, or just as often while its creation has still to list it; in all other cases an account lists a tunnel at most as often as that |
| AccountGuard.ListIsOwnedSet | src/account/account-tunnel-service.ts:19-50 | in the same runs, once all operations are finished the list is duplicate-free and is the set of stored tunnels owned by the account |
| AccountGuard.RestIsSafe | src/tunnel/tunnel-service.ts:110-192 | a creation that starts while nothing is under way on its tunnel is always within the guard |
| GuardExactness.DeletionGuardExactly | src/tunnel/tunnel-service.ts:137-174 | after any run that keeps to both guards, starting a permitted deletion lets list and store come to disagree on the tunnel at rest iff its creation has still to list it |
| GuardExactness.CreationGuardExactly | src/tunnel/tunnel-service.ts:110-125 | after any such run, starting a creation of a tunnel that is not stored and not named after its account lets them come to disagree on it iff a roll-back of it or a deletion that has not removed it is under way, or more deletions have still to take it off the account's list than it is listed there |
| GuardExactness.OwnNameBlocksListings | src/account/account-tunnel-service.ts:26-28 | after any such run, creating a tunnel under the identifier of its account lets them come to disagree on some other tunnel |
| GuardExactness.GuardIsWeakest | src/tunnel/tunnel-service.ts:110-192 | after any such run, the guards forbid an event of an account that was never dropped iff list and store may come to disagree on some tunnel after it |
| GuardExactness.LateUnlistingHitsNewTunnel | src/tunnel/tunnel-service.ts:160-170 | a run with both deletions started in time: the second one removes the tunnel, it is created again and listed, and the second deletion takes the new listing away; the tunnel stays stored |
| GuardExactness.LateRemovalHitsOtherAccount | src/tunnel/tunnel-service.ts:160-170 | a run with both deletions started in time: another account creates and lists the tunnel between them, and the second one removes it; that account lists a tunnel that is not stored |
| GuardExactness.EarlyDeletionLeavesListing | src/tunnel/tunnel-service.ts:116-122 | from any state with one creation that has still to list its tunnel, whatever else is under way on it: a deletion that starts then can leave the tunnel listed but not stored |
| AccountIndex.OverlapLeavesListing | src/tunnel/tunnel-service.ts:116-122 | a deletion between the storing and the listing of a creation leaves a listed tunnel that is not stored |
| AccountDeletion.DeletionRemovesExactly | src/account/account-service.ts:88-108 | after an account deletion, its requests interleaved with anything, a tunnel listed at its start is gone iff the identifier was passed in normal form |
| AccountDeletion.PrintedIdKeepsTunnels | src/account/account-service.ts:96-100 | deletion by the printed identifier drops the account and keeps all its tunnels |
| AccountDeletion.DeniedStays | src/tunnel/tunnel-service.ts:106-141 | a tunnel stays while no request to delete it names its owner exactly |
| AccountDeletion.RequestDooms | src/tunnel/tunnel-service.ts:137-174 | once its owner has requested it, a tunnel is gone or an operation under way will still remove it |
| Pagination.Storage.ListPage | src/storage/storage.ts:172-215 | queue, end and fetching loop compute the specified page and queue, for every provider that makes progress and every page size, 0 included |
| Pagination.Storage.ListWithPending | src/account/account-service.ts:124-133 | draining the pending keys returns everything that was fetched, with the cursor to go on from |
| Pagination.ListConserves | src/storage/storage.ts:177-214 | what was queued and what is fetched is what is returned and what stays queued, with at most count keys in a page, and fewer only from a queue or at the end; each provider call asks for what is missing |
| Pagination.FollowConserves | src/storage/storage.ts:172-215 | over any number of pages nothing is lost, doubled or moved between provider and caller |
| Pagination.PendingListLosesNothing | src/account/account-service.ts:129-133 | one account listing returns all keys of its chain of provider calls, each of which asks for what is missing, and their last cursor |
| Pagination.AccountListingsLoseNothing | src/account/account-service.ts:124-141 | account listings one after another, each with the cursor of the one before, together return all keys of their provider calls, in order |
| KeyOrder.AfterIsSelection | src/storage/sqlite-storage-provider.ts:266-274 | the selection is in order and contains exactly the keys after the cursor |
| KeyOrder.FetchIsSegment | src/storage/sqlite-storage-provider.ts:260-283 | one answer lies between its cursors, in order, and misses no key there; it has at most as many keys as asked for, and fewer only if there are no more |
| KeyOrder.PagesAreComplete | src/storage/storage.ts:172-215 | with inserts and deletes between any two calls a finished listing is strictly in order, contains every key present throughout, and nothing that never was there |
| KeyOrder.FixedStoreIsListed | src/storage/storage.ts:172-215 | over a fixed store the pages are all keys, once each and in order |
| KeyOrder.PagesEnd | src/storage/storage.ts:200-205 | over a fixed store the listing has ended after any number of pages that its keys cannot fill |
| KeyOrder.EmptyPageEnds | src/storage/storage.ts:200-209 | a page of size 0 returns nothing and ends the listing |
| KeyPositions.ReturnedExactly | src/storage/memory-storage-provider.ts:132-144 | however the store changes between calls, a finished listing by position returns a key that is there all the time 1 + rises - falls times, past the cursor between two calls, and at all iff the falls do not outnumber the rises |
| KeyPositions.ListedIffNeverFalls | src/storage/memory-storage-provider.ts:132-144 | where keys are only deleted and appended, it is returned iff it never falls past the cursor, and at most once |
| KeyPositions.FixedMemoryIsListed | src/storage/memory-storage-provider.ts:132-144 | the in-memory listing by position returns all keys of a fixed store, once each and in their order |
| KeyPositions.DeletionSkipsKey | src/storage/memory-storage-provider.ts:137-143 | a deletion between two pages makes the in-memory listing skip a key that is there all the time |
| Serializer.TextIsClean | src/storage/serializer.ts:5-12 | what a text stands for has nothing hidden or undefined in it |
| Serializer.VisiblePathsStay | src/storage/serializer.ts:5-12 | what is found along a path without hidden keys is found in the text as well, undefined array items as null |
| Serializer.CleanIsStable | src/storage/serializer.ts:5-12 | a tree is what its JSON text stands for iff it has no hidden key and nothing undefined in it |
| Serializer.RoundTrip | src/storage/serializer.ts:5-36 | serialising and merging gives the tree back iff it conforms to the template |
| Serializer.StoredIsRead | src/storage/serializer.ts:14-36 | the same through reading the text |
| Serializer.TemplateKeysStay | src/storage/serializer.ts:17-29 | wherever objects meet, or an array an object, at any depth, the result has exactly the template's keys, the default for a missing value, and the source's value whole unless both values are objects of which one is no array |
| Serializer.ArrayMeetsObject | src/storage/serializer.ts:17-29 | where an array of the template meets an object it stays an array of the same length, and only its positions among the object's keys change |
| Serializer.ObjectMeetsArray | src/storage/serializer.ts:17-29 | where an object of the template meets an array it keeps its keys, and only those that are positions of the array change |
| Serializer.MergeTwice | src/storage/serializer.ts:17-29 | merging the same source again changes nothing, for every template and source |
| Serializer.NothingIsDefault | src/storage/serializer.ts:15 | a text that holds nothing gives the defaults |
| Serializer.MergeInto | src/storage/serializer.ts:17-29 | the loop over the keys that assigns fields one by one computes the merge |
| Serializer.MergeFieldInto | src/storage/serializer.ts:19-25 | the three branches for one field, with arrays replaced and objects merged |
| Serializer.PositionIsExact | src/storage/serializer.ts:19-24 | a key names an array position iff it is that position's decimal number |
| LoopGuard.RequestHeaders | src/ingress/http-ingress.ts:223-256 | every header of the forwarded request: via goes on with this node in front, the client's address is told, and only a node that holds the tunnel itself tells the base URL, drops connection and rewrites host, referer and origin |
| LoopGuard.LocalHeaders | src/ingress/http-ingress.ts:236-250 | the values of the forwarded host, port, protocol and forwarded headers, and no other change |
| LoopGuard.RewriteHeaders | src/ingress/http-ingress.ts:258-296 | without a web target nothing changes; with one a URL of the requested host is led to the target, another URL stays and a bare host is replaced, in host, referer and origin only |
| LoopGuard.RewritingLeadsToTarget | src/ingress/http-ingress.ts:281-293 | a URL of the requested host, if the parser reads back what is printed for it, leads to the target's host with its own path; any other URL is unchanged |
| LoopGuard.AddViaLists | src/ingress/http-ingress.ts:230-234 | adding an identifier lists it and beside it exactly what was listed before |
| LoopGuard.GuardSeesOwnMark | src/ingress/http-ingress.ts:298-301 | a node recognises its own mark in every header iff its identifier has no comma and no surrounding space |
| LoopGuard.HeaderIsTheWay | src/ingress/http-ingress.ts:230-234 | after any way the header lists exactly what it listed at first and the nodes on the way |
| LoopGuard.HeaderIsWayBack | src/ingress/http-ingress.ts:230-234 | the parts of the header are the nodes on the way, the last one first, and then those it had at first |
| LoopGuard.TrimTakesSpace | src/ingress/http-ingress.ts:298-301 | trimming takes the white space off both ends and no more |
| LoopGuard.ForwardedOnce | src/ingress/http-ingress.ts:335-348 | a request is forwarded by each node at most once, for any initial header |
| LoopGuard.ForwardsAreBounded | src/ingress/http-ingress.ts:303-385 | the number of forwards is at most the number of nodes that the first header does not list |
| LoopGuard.LoopIsRefusedExactly | src/ingress/http-ingress.ts:311-340 | the checks in their order: no host, unknown, not connected and disabled are answered without regard to the header; a ready tunnel's request gets 508 iff it passed the node before or the first header named it, and goes on otherwise |
| SocketBuffer.SSHTransportSocket.FlushReadBuffer | src/transport/ssh/ssh-transport.ts:426-443 | chunks go to the reader from the front until the buffer is empty or the reader says no |
| SocketBuffer.SSHTransportSocket.OnData | src/transport/ssh/ssh-transport.ts:318-324 | a chunk is buffered and counted, and flushed if the reader wants data |
| SocketBuffer.SSHTransportSocket.OnRead | src/transport/ssh/ssh-transport.ts:445-452 | the reader wants data; a buffer that holds bytes is flushed; the channel is asked to read in any case |
| SocketBuffer.SSHTransportSocket.OnOpen | src/transport/ssh/ssh-transport.ts:338-344 | everything written before goes to the channel in order before the writer is switched |
| SocketBuffer.SSHTransportSocket.Writer | src/transport/ssh/ssh-transport.ts:395-398 | a write is queued before the opening and handed on after it |
| SocketBuffer.SSHTransportSocket.WriteVector | src/transport/ssh/ssh-transport.ts:416-424 | one write for each chunk, in order, with its encoding, the callback with the last one alone, to the channel or to the queue |
| SocketBuffer.FlushMoves | src/transport/ssh/ssh-transport.ts:426-443 | flushing conserves the chunks and the recorded size, and stops short only if the reader says so |
| SocketBuffer.ReachableInv | src/transport/ssh/ssh-transport.ts:318-452 | after every handler: given plus buffered is received, the size is that of the buffer and zero while data is wanted, channel plus queue is what was written |
| SocketBuffer.BytesArriveInOrder | src/transport/ssh/ssh-transport.ts:318-324 | no byte is lost, doubled or moved, and a reader that wants data has all bytes received so far |
| SocketBuffer.WritesArriveInOrder | src/transport/ssh/ssh-transport.ts:400-424 | once open the channel was given every write before and after the opening, once each, in order, with its callback |
| SocketBuffer.WrittenBytesArriveInOrder | src/transport/ssh/ssh-transport.ts:395-424 | in every run the bytes the channel was given, and those that wait for it, are those of the writes and of the chunks of the vectors, in order |
| SocketBuffer.DemandEndsWithRefusal | src/transport/ssh/ssh-transport.ts:445-449 | asking for data sets the demand, and no handler ends it without the reader saying no |
| SocketBuffer.ReadDrains | src/transport/ssh/ssh-transport.ts:445-449 | a reader that never says no empties the buffer |
| SocketBuffer.WishesAreForwarded | src/transport/ssh/ssh-transport.ts:445-452 | in every run the channel is asked for exactly the sizes the reader asked for, in order |

## Left out

- The message authentication code, the JSON wire text, the UDP and Redis buses, DNS and multicast
  discovery. A received message is an authentic record with an integer sequence number.
- The Redis, PostgreSQL and SQLite engines and redlock. A strictly ordered list of keys for each
  call stands for an ordered database; cursors are taken to be encoded injectively.
- SQLite's atomic read of a missing key, which unlocks and then hands out a release that unlocks
  again (src/storage/sqlite-storage-provider.ts:218-236). The lock results assume one unlock for
  each grant.
- SerialUpdates.UpdatesAreSerial: says nothing about plain set, put and delete on a key that is being
  updated, nor about timers that go off meanwhile, because the code does not lock those writers. A
  missing key makes an update fail, as in the in-memory provider. Whether a text parses is part of a
  stored value; the grammar of JSON is not part of this model.
- AtomicUpdate.ReachableInv: has one namespace. The code locks by key alone, so that updates of one
  key in two namespaces also wait for each other, and a lock leaked in one blocks the other.
- AccountIndex.OrderAlwaysTells: each update of an account's list is one step, which AtomicUpdate
  justifies; the unlocked deletion of the account record between the read and the write of an
  update is not modelled. Accounts are created with well-formed identifiers. Writes do not fail.
- AccountRest.EveryRestAgreesExactly: a tunnel is created while nothing is under way on it and under
  another identifier than its account's, since the assignment looks for the latter. AccountGuard has
  the weakest rule for callers, and IndexAgreesExactly says when list and store agree without any.
- The assignment that a connecting client's authorisation may add
  (src/account/account-tunnel-service.ts:52-66), the alternative-name registry, timestamps of
  accounts, and the disconnect request before a tunnel's deletion.
- KeyOrder.PagesAreComplete: keys are not empty strings, as a listing starts after the empty string.
  Keys are compared in dictionary order of characters; the database's collation is not modelled.
- KeyPositions.FixedMemoryIsListed: the order of the keys of an object is taken as given.
- Pagination.Storage.ListPage: a provider does not return empty answers with a cursor forever.
- Serializer.RoundTrip: members that objects inherit (such as constructor or length), values with
  their own JSON conversion, and numbers that JSON cannot write are not modelled.
- LoopGuard.ForwardedOnce: holds for plain requests; an upgrade request is rebuilt from the received
  headers and does not carry the via header on (src/ingress/http-ingress.ts:489-493).
- LoopGuard.RequestHeaders: the client address, the base URL, and the parser and printer of URLs are
  parameters.
- RoundRobin.SortedIsSort: identifiers are compared in dictionary order instead of by locale; only
  the order being total matters.
- Connections' transports, and the limit on connections, which the code checks against the local
  view only (src/tunnel/tunnel-service.ts:381).
- ConnectionManager.Manager.RemoveTunnelConnection: runs without interruption; what holds when other
  handlers run between its turns is in Removal and Summaries, where each turn is an event of its own.
- MemoryStorage.MemoryStorageProvider.Expire: namespaces and keys are taken as pairs, while the code
  joins them to one name for the timer.
- SocketBuffer.ReachableInv: pushing to the reader neither throws nor calls back into the socket,
  and destroying the socket ends the run.
- Membership.ReachableInv: timers go off when they are due, and timers of one duration in the order
  they were set.
- Identifiers are unbounded integers where the code uses doubles; sequence numbers beyond 2^53 are
  not modelled.
- Controllers, configuration, logging, TLS and SNI, agent caching, SSH and WebSocket session set-up.
- tools/migrate: it calls provider functions that do not exist any more.
