# Verified model of the load balancer

A Dafny model of an L4 load balancer that encapsulates packets in GRE, and proofs about
it. The data plane pins flows to backends in Robin Hood hash tables, picks backends from
Maglev tables, clamps the TCP MSS, answers oversized packets and moves frames through a
zero-copy pipeline. The control plane rebuilds the tables, debounced, when health or
configuration change, and keeps the routers of the BGP peers informed of the VIPs that can
be served.

`dafny verify dfyconfig.toml` verifies the whole project.

## How it is built

What the program changes step by step is a method, on arrays or on the fields of a class,
whose contract equates the new state with a function of the old one. The theorems are
lemmas about those functions. Protocols between threads and tasks are machines whose steps
interleave in any order.

| files | what they model |
|---|---|
| `RobinHood`, `RobinHoodOrder`, `RobinHoodView` | the probing, displacing, reclaiming table that both flow tables are |
| `Entries`, `ConnTable`, `ConnRuns`, `BackendCopies`, `FlowTimes`, `FragmentTable` | the two tables as classes, whole runs of them, the copies of one flow and its time-outs |
| `Permutation`, `Maglev`, `PoolTables` | preference lists, the weighted table build, and what a table is in the terms of its pool |
| `VipProtocol`, `VipProgress` | controller, event pump, one session per peer, its queue and its router; that they can always finish |
| `Applier`, `Controller`, `ControlRuns` | table building, the debounced control-plane state, and runs of both together with the protocol |
| `Checksum`, `Gre`, `MssClamp`, `TcpChecksum`, `Icmp`, `RateLimiter` | packet rewriting |
| `Forwarding`, `ForwardingOutcomes`, `ForwardingRuns`, `ForwardingAffinity`, `ForwardingTimes`, `Rewriter` | one packet, what becomes of it from its bytes, runs of packets, affinity and memory over runs, and the batch compacted in place |
| `Pipeline`, `PipelineOrder`, `PipelinePool`, `PipelineProgress`, `PacketPool` | frame ownership, order and content, the size of the pool, and that everything comes home |
| `BgpMessages`, `BgpFraming` | the codec, and framing over an arbitrarily cut byte stream |

## Conventions

- Times are integers in nanoseconds. A slot index is reduced modulo the capacity where the
  program masks with a power of two. xxh3 is a function of which nothing is assumed.
- A byte is a number below 256; sums and lengths that the program holds in 16 bits are
  reduced modulo 65536 where they can exceed it. Other counters are unbounded.
- The free list and the queues between threads are bounded sequences whose pushes can fail.
- A definition that a method is tied to is pinned by a theorem that says the same from the
  outside: from bytes, numbers, health entries or the operations of a run.
- Theorems speak of all inputs, all runs or all reachable states of a machine. Where the
  program falls short of a promise, as listed next, a witness shows it and the condition
  under which the promise holds is proved.

## Where the code and its own words differ

- The pool is said to cover all frames in flight (`.docs/lb-spec-v2.md:395`,
  `crates/lb-forwarder/src/threading.rs:97-98`). With traffic for every rewriter it does so
  exactly when the batch size exceeds 64 times the number of rewriters, which the default
  of 64 never does (`PipelinePool.PoolRunsOutExactly`, `PipelinePool.BatchDecides`).
- A full connection table is described as not taking the new flow
  (`crates/lb-forwarder/src/conn_table.rs:210`). It may take it and lose an older one.
- The early exit is meant to lose nothing. After a reclaim it can: the reclaim branch comes
  before the comparison of distances, so the probe order can break behind it.
- Resynchronising after garbage is called self-healing
  (`crates/lb-bgp/src/speaker.rs:663-666`). A call drops one byte and the loop ends, so
  complete messages can wait for a further read and the outcome depends on how the stream
  was cut: exactly when a read of the whole drops a byte where it could still go on.
- The limiter is called a token bucket (`crates/lb-forwarder/src/icmp.rs:106`). It is a
  fixed window: the whole allowance comes back at once, when a request finds the window a
  second old, and none of it before. What a second holds follows from the one such request
  after a grant in it, if there is one (`RateLimiter.RestartedSecond`).
- The size test adds in 16 bits (`crates/lb-forwarder/src/icmp.rs:38`); a length field of
  65512 or more wraps around and passes. A build with overflow checks would stop there.
- The incremental TCP checksum is wrong after an odd option offset, such as after a single
  NOP, unless 257 divides the change.
- A flow is said to stay with its backend. An insert that reclaims an expired slot can leave
  an older copy of the same flow behind, with another backend, and that one can come back
  (`ConnRuns.StaleBackendResurfaces`). Reclaims for other flows can hide a flow but bring in
  no other backend: while it is found it stays, as long as its own inserts leave no such
  copy, and `BackendCopies.InsertClearsExactly`,
  `BackendCopies.AlwaysLatestExactly` and `ForwardingAffinity.FlowSticksExactly` say
  exactly when that is.

## Model

| member | source | states |
|---|---|---|
| `RobinHood.FindIsFullScan` | crates/lb-forwarder/src/conn_table.rs:111-132 | On every table in probe order with distinct hashes, the early-exit lookup answers a slot if and only if that slot holds the hash, and nothing if and only if no slot does. |
| `RobinHood.FindStops` | crates/lb-forwarder/src/conn_table.rs:120-122 | The exact cost of the early exit on any table: a lookup never returns an entry at or beyond a slot that is nearer its own home than the probe is. |
| `RobinHood.InsertThenFind` | crates/lb-forwarder/src/conn_table.rs:139-212 | Read your write for every table content, expired slots and duplicates included: the new entry is found right after, with its own or its merged value, unless every slot on its path blocks it; then nothing changes, the answer is `DroppedFull` and the new entry is the one lost. |
| `RobinHoodOrder.InsertKeepsOrderExactly` | crates/lb-forwarder/src/conn_table.rs:174-199 | On an ordered table every insert that reclaims nothing keeps the probe order; one that reclaims keeps it if and only if the slot behind is empty or at most one further from home than the entry that moved in. |
| `RobinHoodOrder.BrokenOrderHidesNext` | crates/lb-forwarder/src/conn_table.rs:174-179 | The other half: where that condition fails, the entry behind the reclaimed slot is still stored, unchanged, and no lookup finds it there. |
| `RobinHoodOrder.ReclaimKeepsKeyExactly` | crates/lb-forwarder/src/conn_table.rs:174-179 | Key by key: after a reclaim at a slot, another stored key is still found where it is if and only if its probe does not cross that slot further from home than the new entry sits. |
| `RobinHoodView.FindIsView` | crates/lb-forwarder/src/conn_table.rs:111-132 | Looking a hash up in the map that a well-formed table represents is probing for it. |
| `RobinHoodView.InsertConserves` | crates/lb-forwarder/src/conn_table.rs:161-212 | Inserting a hash that is not stored invents nothing: table and lost entry together are the old entries and the new one, whatever was displaced and with expired slots. |
| `RobinHoodView.InsertOfStored` | crates/lb-forwarder/src/conn_table.rs:181-191 | A stored hash is reached before anything is displaced unless an expired slot lies on the way; it is then updated in place. |
| `RobinHoodView.ReclaimDuplicatesExactly` | crates/lb-forwarder/src/conn_table.rs:174-179 | A reclaim leaves a hash stored twice if and only if that hash was stored in a slot other than the reclaimed one. |
| `RobinHoodView.InsertOccupied` | crates/lb-forwarder/src/conn_table.rs:161-212 | The number of occupied slots grows by one on `Inserted` and by none otherwise, and `DroppedFull` is answered only by a full table. |
| `RobinHoodView.InsertRefinesMap` | crates/lb-forwarder/src/conn_table.rs:139-212 | Without a reclaim an insert refines a map of bounded size: update or add, or, on a full table, lose exactly one entry of the old ones and the new one. |
| `RobinHoodView.InsertKeepsWellFormedExactly` | crates/lb-forwarder/src/conn_table.rs:139-212 | An insert into a well-formed table, reclaim or not, keeps probe order and distinct hashes if and only if, when it reclaims, the entry behind is at most one further from home than the new one and the hash is stored in no other slot. |
| `RobinHoodView.InsertKeepsKeyExactly` | crates/lb-forwarder/src/conn_table.rs:139-212 | Key by key, for every insert into a well-formed table, displacements before a reclaim included: another key is gone if and only if its entry is the one lost, and where it is stored it is found if and only if its probe does not cross the reclaimed slot further from home than the entry that moved in. |
| `RobinHoodView.ReclaimRefinesMap` | crates/lb-forwarder/src/conn_table.rs:174-179 | What such a reclaim does to the map: one expired entry gives way to the new one, and nothing else changes. |
| `RobinHoodView.DroppedLosesNewExactly` | crates/lb-forwarder/src/conn_table.rs:210-212 | `DroppedFull` loses the new entry if and only if every slot blocks it; otherwise it loses an older one. |
| `Entries.PromoteState` | crates/lb-forwarder/src/conn_table.rs:299-307 | Merging two TCP states gives one of them and never less than either in the order Handshake, NotTcp, Established, Closing. |
| `ConnTables.Amend` | crates/lb-forwarder/src/conn_table.rs:238-256 | A refresh or mark never changes backend or protocol and never lowers the TCP state. |
| `ConnTables.ConnTable.constructor` | crates/lb-forwarder/src/conn_table.rs:56-73 | A new table of power-of-two capacity is empty. |
| `ConnTables.ConnTable.Get` | crates/lb-forwarder/src/conn_table.rs:111-132 | The probing loop returns what the specified lookup does on the value of the array. |
| `ConnTables.ConnTable.Insert` | crates/lb-forwarder/src/conn_table.rs:139-212 | The displacement loop leaves exactly the array and the answer of the specified insert, and `size` equal to the number of occupied slots. |
| `ConnTables.ConnTable.Land` | crates/lb-forwarder/src/conn_table.rs:164-191 | The three ways an insert ends in a slot, with expiry tested before the hash, and what they do to `size`. |
| `ConnTables.ConnTable.Carry` | crates/lb-forwarder/src/conn_table.rs:193-202 | One round of displacement: the entry nearer its home gives way and is carried on with its own distance. |
| `ConnTables.ConnTable.Touch` | crates/lb-forwarder/src/conn_table.rs:215-233 | Refreshes the time stamp of the entry that a lookup would meet, expired or not, and nothing else. |
| `ConnTables.ConnTable.MarkEstablished` | crates/lb-forwarder/src/conn_table.rs:238-245 | Establishes the found TCP flow unless it is closing; nothing else changes. |
| `ConnTables.ConnTable.MarkClosing` | crates/lb-forwarder/src/conn_table.rs:249-256 | Closes the found TCP flow; nothing else changes. |
| `ConnTables.ConnTable.WithMatchingEntry` | crates/lb-forwarder/src/conn_table.rs:258-278 | Applies the caller's change to exactly the entry that a lookup would meet. |
| `ConnTables.HomeIsMasked` | crates/lb-forwarder/src/conn_table.rs:101-107 | The home slot has exactly the bits of the hash below the capacity, which is what masking with a power of two less one gives. |
| `ConnTables.FirstInsertLands` | crates/lb-forwarder/src/conn_table.rs:149-172 | The first entry of an empty table stands in its home slot. |
| `ConnRuns.ReadYourWrite` | crates/lb-forwarder/src/conn_table.rs:111-212 | `get` right after `insert` returns the backend inserted if and only if some slot gave way, in particular whenever the answer is not `DroppedFull`. |
| `ConnRuns.AmendRefinesMap` | crates/lb-forwarder/src/conn_table.rs:215-278 | Touching and marking keep a table well formed and amend exactly that key of the map it represents. |
| `ConnRuns.TidyExactly` | crates/lb-forwarder/src/conn_table.rs:101-278 | The table has been in probe order with distinct hashes at every moment of a run if and only if every reclaim of the run met the condition of the exact lemma for one insert. |
| `ConnRuns.TidyPinsLatest` | crates/lb-forwarder/src/conn_table.rs:139-212 | Over every such run, reclaims included, a flow still stored is pinned to the backend of the latest insert for it. |
| `ConnRuns.QuietWellFormed` | crates/lb-forwarder/src/conn_table.rs:101-278 | Over every run in which no insert reclaims, the table stays in probe order with distinct hashes. |
| `ConnRuns.QuietLookupIsFullScan` | crates/lb-forwarder/src/conn_table.rs:111-132 | After every such run a lookup answers the backend of the one live entry for the hash, and nothing if and only if there is none. |
| `ConnRuns.QuietClimbs` | crates/lb-forwarder/src/conn_table.rs:181-256 | Over such a run the TCP state of a flow never falls while the flow stays stored. |
| `ConnRuns.QuietPinsLatest` | crates/lb-forwarder/src/conn_table.rs:139-212 | Over a run without a reclaim a flow still stored is pinned to the backend of the latest insert for it. |
| `BackendCopies.InsertStrays` | crates/lb-forwarder/src/conn_table.rs:139-212 | Conservation on any table, for every flow: the copies that name a backend other than a given one are those before the insert and the new entry, less the entry lost. |
| `BackendCopies.InsertClearsExactly` | crates/lb-forwarder/src/conn_table.rs:139-212 | On any table, all copies of a flow name its new backend after an insert if and only if no copy with another backend was stored but the one lost. |
| `BackendCopies.InsertLeavesStrayExactly` | crates/lb-forwarder/src/conn_table.rs:174-179 | On a well-formed table an insert leaves a copy with another backend if and only if it reclaims a slot while the flow is stored with another backend in another slot. |
| `BackendCopies.AlwaysLatestExactly` | crates/lb-forwarder/src/conn_table.rs:139-212 | Over every run, reclaims of any kind and full tables included: at every moment all copies of a flow name its latest backend if and only if every insert for that flow left no copy with another one. |
| `BackendCopies.ClearAnswersLatest` | crates/lb-forwarder/src/conn_table.rs:111-132 | After such a run a lookup answers the backend of the latest insert, or nothing. |
| `BackendCopies.TidyIsClear` | crates/lb-forwarder/src/conn_table.rs:101-278 | A run that keeps the table well formed is such a run for every flow. |
| `ConnRuns.PlayBacked` | crates/lb-forwarder/src/conn_table.rs:139-278 | Over all runs, reclaims included, every stored entry was made by an insert for its own hash and stamped by a call for that hash not before it. |
| `ConnRuns.LookupIsSound` | crates/lb-forwarder/src/conn_table.rs:94-132 | Over all runs, a backend returned was recorded by an insert for that hash, and the entry was refreshed within the time to live of its state. |
| `FlowTimes.AnswersExactly` | crates/lb-forwarder/src/conn_table.rs:83-97 | Over the life of a flow, from its first insert on with any other traffic, a lookup answers if and only if the flow was last seen within the closing time-out once a FIN or RST was noted, else the established one once the handshake was over, else the handshake one; for UDP and others their own. |
| `FlowTimes.LifeIsTold` | crates/lb-forwarder/src/conn_table.rs:215-278 | Protocol, state and time stamp of the stored record are those that the inserts and marks of that flow tell. |
| `ConnRuns.DroppedFullLosesOlderFlow` | crates/lb-forwarder/src/conn_table.rs:193-212 | Witness: `DroppedFull` can store the new flow and lose an older one. |
| `ConnRuns.ReclaimHidesLiveFlow` | crates/lb-forwarder/src/conn_table.rs:174-179 | Witness: a reclaim on a well-formed table makes a live flow unfindable. |
| `ConnRuns.StaleBackendResurfaces` | crates/lb-forwarder/src/conn_table.rs:174-179 | Witness run: a reclaim leaves an old copy behind, and a later lookup returns a backend that is not the latest inserted. |
| `FragmentTables.FragmentTable.constructor` | crates/lb-forwarder/src/fragment_table.rs:24-38 | A new fragment table is empty. |
| `FragmentTables.FragmentTable.Get` | crates/lb-forwarder/src/fragment_table.rs:49-70 | The probing loop returns what the specified lookup does. |
| `FragmentTables.FragmentTable.Insert` | crates/lb-forwarder/src/fragment_table.rs:75-122 | The loop with carried hash, address and time leaves the array of the specified insert. |
| `FragmentTables.ReadYourWrite` | crates/lb-forwarder/src/fragment_table.rs:75-122 | A mapping just inserted is found in the same batch if and only if some slot gave way. |
| `FragmentTables.LookupIsSound` | crates/lb-forwarder/src/fragment_table.rs:49-122 | Over all runs, a backend returned was inserted for that very hash at most the time to live ago. |
| `FragmentTables.TidyPinsLatest` | crates/lb-forwarder/src/fragment_table.rs:75-122 | Over every run whose reclaims keep the table well formed, a stored mapping is the latest one for its hash, and the latest one is stored while within its time to live, unless the table was full once. |
| `FragmentTables.QuietPinsLatest` | crates/lb-forwarder/src/fragment_table.rs:75-122 | Over every run without a reclaim a stored mapping is the latest one for its hash, and every mapping stays stored unless the table was full once. |
| `FragmentTables.FragmentReclaim` | crates/lb-forwarder/src/fragment_table.rs:87-98 | The exact account of a reclaim for fragments: when the order breaks, and that the entry behind is then lost to lookups. |
| `Permutation.OrderOf` | crates/lb-hashing/src/permutation.rs:5-13 | Whatever the hash values, the offset is below the table size and the skip in 1 up to size minus 1. |
| `Permutation.NoZeroProduct` | crates/lb-hashing/src/permutation.rs:17-21 | Euclid's lemma for this case: a prime divides no product of two positive numbers below it. |
| `Permutation.PrefInjective` | crates/lb-hashing/src/permutation.rs:17-21 | For prime size no slot occurs twice among the first `m` preferences. |
| `Permutation.VisitedExactly` | crates/lb-hashing/src/permutation.rs:17-21 | The first `n` preferences visit exactly `n` slots. |
| `Permutation.PrefBijective` | crates/lb-hashing/src/permutation.rs:17-21 | For prime size the preference list is a bijection on the slots. |
| `Permutation.CompositeSizeMissesSlots` | crates/lb-hashing/src/permutation.rs:17-21 | Primality is needed: every composite size has a skip for which, at every offset, the preference list misses a slot for ever. |
| `Maglev.FreeSlotAhead` | crates/lb-hashing/src/lookup_table.rs:68-72 | While a slot is free every backend has one within its first `m` preferences: the inner search ends. |
| `Maglev.Search` | crates/lb-hashing/src/lookup_table.rs:65-73 | The inner search goes on from where the backend stopped and ends on a free slot of its order. |
| `Maglev.Claim` | crates/lb-hashing/src/lookup_table.rs:65-75 | One chance: search on from where the backend stopped, claim the slot found, step past it; the next pick of the draft. |
| `Maglev.TakeChances` | crates/lb-hashing/src/lookup_table.rs:62-79 | The chances of one backend in a pass, cut short when the table is full. |
| `Maglev.Fill` | crates/lb-hashing/src/lookup_table.rs:59-81 | The passes end with every slot claimed. |
| `Maglev.Build` | crates/lb-hashing/src/lookup_table.rs:31-88 | The build with remembered search positions terminates and gives the table of the draft in which each turn takes the first free slot; an error if and only if no backend has a weight. |
| `Maglev.PickIsFirstFree` | crates/lb-hashing/src/lookup_table.rs:65-75 | Each claimed slot is the first one still free in its owner's preference order, and keeps its owner. |
| `Maglev.ExactShare` | crates/lb-hashing/src/lookup_table.rs:59-81 | Backend i owns exactly q*w_i + min(w_i, max(0, r - P_i)) slots, with W the total weight, q = m div W, r = m mod W and P_i the weight before it, whatever the hashes are. |
| `Maglev.EqualWeightsEvenShares` | crates/lb-hashing/src/lookup_table.rs:59-81 | With unit weights any two shares differ by at most one slot. |
| `Maglev.TableShares` | crates/lb-hashing/src/lookup_table.rs:31-88 | The exact shares of the table that `build` returns. |
| `Maglev.TableIsUsable` | crates/lb-hashing/src/lookup_table.rs:83-95 | Every flow hash finds a backend of the pool with positive weight in a built table of full size. |
| `PoolTables.TableKeeps` | crates/lb-hashing/src/lookup_table.rs:32-39 | A table keeps exactly the backends of positive weight, as often as the caller lists them and in that order. |
| `PoolTables.PoolShare` | crates/lb-hashing/src/lookup_table.rs:31-88 | The exact share over the caller's list, backends of weight zero included in it: (m div W) * w + min(w, max(0, m mod W - P)), with W and P summed over that list. |
| `PoolTables.FairShareInNumbers` | crates/lb-hashing/src/lookup_table.rs:31-88 | That share in numbers: whole passes give the weight each, the pass begun last what is left to the backend. |
| `PoolTables.OwnsSlotExactly` | crates/lb-hashing/src/lookup_table.rs:31-88 | A backend of positive weight owns a slot if and only if the weights before it do not fill the table; with a table as large as all weights together every one does. |
| `PoolTables.TableByTurns` | crates/lb-hashing/src/lookup_table.rs:44-88 | What a table is, without the build: turn after turn, as many running as its weight, each backend claims the first unclaimed slot of its own order (hash 0 mod m + j * (hash 1 mod (m - 1) + 1)) mod m, and the table says who claimed which. |
| `PoolTables.EverySlotIsRead` | crates/lb-hashing/src/lookup_table.rs:91-95 | Any m consecutive hashes from a multiple of m read every slot once, in order. |
| `VipProtocol.OutForFanOut` | crates/lb-bgp/src/speaker.rs:203-234 | A fan-out gives every enabled peer exactly the updates of its command. |
| `VipProtocol.HeadDropped` | crates/lb-bgp/src/speaker.rs:256-266 | Dropping the oldest queued command can only lose routes for a session that starts later, never add any. |
| `VipProtocol.StepKeepsInv` | crates/lb-bgp/src/speaker.rs:249-314 | Every step of controller, event pump, speaker, session or network keeps: an established session will end up with a subset of the announced VIPs, and with all of them once its connect event is handled. |
| `VipProtocol.RunKeepsInv` | crates/lb-bgp/src/speaker.rs:249-314 | The same for every interleaving of steps. |
| `VipProtocol.ConvergenceSafety` | crates/lb-controller/src/orchestrator.rs:90-117 | From the initial state, in every interleaving: applying all pending updates to an established peer's routes gives a subset of `vips_announced`, and exactly that set once the PeerConnected event of that session is handled; with nothing pending the router holds exactly the announced VIPs. |
| `VipProtocol.UnhandledSessionMayLag` | crates/lb-node/src/main.rs:196-208 | Witness run that the event is needed: a command dropped while down leaves a connected, idle peer without an announced VIP. |
| `VipProtocol.SessionSettles` | crates/lb-bgp/src/speaker.rs:417-440 | Left alone, an established session empties everything pending in a number of its own steps fixed in advance, and the router then holds the promised outcome. |
| `VipProgress.AlwaysCanConverge` | crates/lb-bgp/src/speaker.rs:249-314 | From every reachable state a peer that is neither disabled nor shut down can be brought to hold exactly the announced VIPs: the operation in progress finishes, the session connects, the event pump catches up, the session sends. |
| `VipProgress.CanStop` | crates/lb-bgp/src/speaker.rs:186-200 | From every state that keeps the invariant a shutdown ends the task of a running peer, whatever its session is doing, and leaves its router without routes. |
| `Applier.BuildLookupTablesForPools` | crates/lb-config-manager/src/applier.rs:23-66 | The loop over pools gives each id the table of the last pool with that id that builds. |
| `Applier.BuildPool` | crates/lb-config-manager/src/applier.rs:36-62 | Drained and unhealthy backends are left out unless none would remain. |
| `Applier.BuildBackendPoolIndex` | crates/lb-config-manager/src/applier.rs:72-80 | The index maps exactly the backend addresses, each to exactly the ids of the pools that contain it. |
| `Applier.TablesForKeys` | crates/lb-config-manager/src/applier.rs:51-62 | A pool id has a table if and only if some pool with it has a backend of positive weight among those it would use. |
| `Applier.HealthChangeIsLocal` | crates/lb-config-manager/src/applier.rs:23-66 | A health change of one address changes no table of a pool without it. |
| `Applier.SelectedAgree` | crates/lb-config-manager/src/applier.rs:23-66 | Building only some pools gives each of their ids the table of a full build. |
| `Applier.SelectedOnly` | crates/lb-config-manager/src/applier.rs:23-66 | And enters nothing for any other id. |
| `PoolTables.PoolTableKeeps` | crates/lb-config-manager/src/applier.rs:36-62 | The backends in a pool's table: those of positive weight that are neither drained nor known to be unhealthy, or, when none is, all of positive weight; each as often as the pool lists it. |
| `Controllers.Controller.constructor` | crates/lb-controller/src/orchestrator.rs:54-71 | A new controller has nothing configured, pending or announced. |
| `Controllers.Controller.DesiredAnnouncedVips` | crates/lb-controller/src/orchestrator.rs:162-195 | The two loops give the IPv4 VIPs with a service whose pool has a backend that is not unhealthy. |
| `Controllers.DesiredExactly` | crates/lb-controller/src/orchestrator.rs:162-195 | A VIP is to be announced if and only if it is configured as IPv4 with a service whose pool, the last of that id, has a backend without a health entry or with one that does not say unhealthy. |
| `Controllers.Controller.SyncBgpAnnouncements` | crates/lb-controller/src/orchestrator.rs:200-222 | The announcer is told exactly the two differences and the announced set becomes the desired one; nothing happens without an announcer. |
| `Controllers.Controller.TellDifference` | crates/lb-controller/src/orchestrator.rs:207-219 | Each difference is told in ascending order, and only when it is not empty. |
| `Controllers.Controller.ReannounceAll` | crates/lb-controller/src/orchestrator.rs:90-97 | The whole announced set is told again, and changes nothing in what has been told in sum. |
| `Controllers.Controller.WithdrawAll` | crates/lb-controller/src/orchestrator.rs:106-117 | Everything announced is withdrawn and the announced set is empty. |
| `Controllers.Controller.ApplyConfig` | crates/lb-controller/src/orchestrator.rs:122-158 | Everything is rebuilt on current health, whatever was pending is dropped, announcements are reconciled. |
| `Controllers.Controller.OnHealthChange` | crates/lb-controller/src/orchestrator.rs:237-259 | Health is recorded, the pools with that backend become pending, announcements are reconciled, and the window is checked. |
| `Controllers.Controller.Note` | crates/lb-controller/src/orchestrator.rs:241-249 | Exactly the pools of the index entry become pending; the window starts with the first. |
| `Controllers.Controller.Tick` | crates/lb-controller/src/orchestrator.rs:264-266 | Flushes if and only if the window is over. |
| `Controllers.Controller.MaybeFlush` | crates/lb-controller/src/orchestrator.rs:285-291 | Flushes if and only if the window is over. |
| `Controllers.Controller.Flush` | crates/lb-controller/src/orchestrator.rs:293-341 | Only pending pools are rebuilt, merged into the shared map, and nothing is pending afterwards. |
| `Controllers.SyncTells` | crates/lb-controller/src/orchestrator.rs:200-222 | The commands told so far always amount to the announced set: a reconciliation keeps this. |
| `Controllers.NoteChangeGood` | crates/lb-controller/src/orchestrator.rs:237-249 | A health change keeps the invariant: every pool outside the pending ones has the table a fresh build would give. |
| `Controllers.PendingExactly` | crates/lb-controller/src/orchestrator.rs:237-249 | A health change makes pending exactly the pools that contain a backend of that address. |
| `Controllers.FlushesExactly` | crates/lb-controller/src/orchestrator.rs:285-291 | A tick or a health change flushes if and only if some pending change is 50 ms old. |
| `Controllers.RunRemembers` | crates/lb-controller/src/orchestrator.rs:122-259 | Over every run the controller goes by the latest configuration and the latest word on each backend. |
| `Controllers.FlushedGood` | crates/lb-controller/src/orchestrator.rs:293-341 | So does a flush, after which nothing is pending. |
| `Controllers.FlushIsRebuildExactly` | crates/lb-controller/src/orchestrator.rs:308-340 | After a flush the whole shared map equals a fresh build if and only if it held no table of a pool whose fresh build fails; with positive weights it always does. |
| `Controllers.NothingPendingTooLong` | crates/lb-controller/src/orchestrator.rs:285-291 | Just after a tick or a health change no pending change is 50 ms old. |
| `Controllers.RunGood` | crates/lb-controller/src/orchestrator.rs:122-341 | In every reachable state of a controller with a clock that never runs backwards the invariant holds, and the window is open if and only if pools are pending. |
| `Controllers.LeftoverSurvivesFlush` | crates/lb-config-manager/src/applier.rs:94-99 | Where positive weights fail: a pool that can no longer be built keeps its old table in the shared map. |
| `Controllers.LopsidedPoolCanLoseItsTable` | crates/lb-config-manager/src/applier.rs:36-62 | Such a pool exists. |
| `Controllers.AscendingInOrder` | crates/lb-controller/src/orchestrator.rs:207-210 | The lists told are in strictly ascending order, as an ordered set gives them. |
| `Controllers.SyncIsProtocolStep` | crates/lb-controller/src/orchestrator.rs:200-222 | A reconciliation is a step of the announcement protocol: every enabled peer is sent the updates of the commands told. |
| `ControlRuns.ReannounceIsProtocolStep` | crates/lb-controller/src/orchestrator.rs:90-97 | So is a re-announcement after a connect event. |
| `ControlRuns.WithdrawIsProtocolStep` | crates/lb-controller/src/orchestrator.rs:106-117 | And withdrawing everything, as a reconciliation with the empty set. |
| `ControlRuns.MakeMove` | crates/lb-controller/src/orchestrator.rs:122-341 | The methods of the controller make exactly the moves of a joint run: same tables, same announced set. |
| `ControlRuns.IsProtocolRun` | crates/lb-controller/src/orchestrator.rs:90-341 | Every run of a controller, interleaved with whatever sessions, routers and the network do, is a run of the announcement protocol. |
| `ControlRuns.RunKeepsAnnounced` | crates/lb-controller/src/orchestrator.rs:162-222 | In every such run the announced set is the one that current configuration and health call for, or empty after a withdrawal of everything. |
| `ControlRuns.DueRemembers` | crates/lb-controller/src/orchestrator.rs:122-259 | In joint runs, too, what is called for goes by the latest configuration and the latest word on each backend. |
| `ControlRuns.RoutersFollowHealth` | crates/lb-controller/src/orchestrator.rs:122-259 | End to end: an established peer whose connect event is handled and for which nothing is pending holds exactly the VIPs that configuration and health call for; before that, it is on its way to a subset of them. |
| `ControlRuns.RoutersCanFollow` | crates/lb-bgp/src/speaker.rs:249-314 | From every reachable state of controller and network, whatever has failed before, a peer that is neither disabled nor shut down can come to hold exactly the VIPs due, without another operation of the controller. |
| `ControlRuns.OperationCanBegin` | crates/lb-controller/src/orchestrator.rs:90-117 | And every operation of the controller can begin: what the last one has still to send can always be sent. |
| `ControlRuns.TablesAreSound` | crates/lb-controller/src/orchestrator.rs:122-341 | In every reachable state of the controller, leftovers included, every slot of every shared table names a backend of positive weight, which is what the rewriters rely on. |
| `Checksums.FoldStep` | crates/lb-forwarder/src/gre.rs:98-100 | Folding a carry keeps the remainder that the checksum stands for. |
| `Checksums.FoldedComplement` | crates/lb-forwarder/src/mss_clamp.rs:139-143 | The carry-fold loop computes the complement of the remainder modulo 65535. |
| `Checksums.IpChecksum` | crates/lb-forwarder/src/gre.rs:88-102 | The loop over words with an odd last byte computes the checksum of RFC 1071. |
| `Checksums.WordSumBound` | crates/lb-forwarder/src/gre.rs:88-102 | The 32-bit accumulator does not overflow for up to 131070 bytes. |
| `Checksums.SealedVerifies` | crates/lb-forwarder/src/icmp.rs:68-70 | Any buffer with its checksum written into a zero field at an even offset checksums to zero, of odd or even length. |
| `Checksums.ExampleChecksum` | crates/lb-forwarder/src/gre.rs:88-102 | The example of section 3 of RFC 1071 in numbers: these eight bytes checksum to 0x220D. |
| `Gre.EncapsulateIpv4Buf` | crates/lb-forwarder/src/gre.rs:35-85 | In place: the buffer starts with the encapsulation of the packet and is otherwise untouched, or nothing changes when it does not fit. |
| `Gre.HeaderFields` | crates/lb-forwarder/src/gre.rs:60-76 | The outer header checksums to zero and carries don't-fragment, TTL 64, protocol 47, both addresses and the length truncated to 16 bits. |
| `Gre.DecapEncap` | crates/lb-forwarder/src/gre.rs:35-102 | Round trip: up to 65535 bytes the far end accepts the outer header and recovers addresses, protocol and every byte of the packet. |
| `Gre.TooLongIsRefused` | crates/lb-forwarder/src/gre.rs:60-65 | Beyond that the truncated length field makes the far end refuse it. |
| `MssClamp.ClampMss` | crates/lb-forwarder/src/mss_clamp.rs:28-108 | The method leaves the bytes and the answer of the specified clamp for every byte string, without leaving its bounds. |
| `MssClamp.WalkOptions` | crates/lb-forwarder/src/mss_clamp.rs:61-107 | The walk over the options terminates and ends where the specified walk does. |
| `MssClamp.RewriteMss` | crates/lb-forwarder/src/mss_clamp.rs:87-101 | Rewrites two bytes of MSS and two of checksum if and only if the MSS exceeds the limit. |
| `MssClamp.FindMssExactly` | crates/lb-forwarder/src/mss_clamp.rs:65-105 | The walk finds an offset if and only if a well-formed MSS option lies there within the options and only other options can be read before it. |
| `MssClamp.ClampExactly` | crates/lb-forwarder/src/mss_clamp.rs:28-108 | Every answer from the bytes alone: not TCP, not a SYN, no MSS standing in the options, one within the limit, or one above it; the packet changes only in the last case. |
| `MssClamp.ClampChangesLittle` | crates/lb-forwarder/src/mss_clamp.rs:83-99 | No byte but the two of the MSS and the two of the checksum ever changes. |
| `MssClamp.ClampBounds` | crates/lb-forwarder/src/mss_clamp.rs:83-105 | Afterwards the first well-formed MSS is the smaller of the old one and the limit, at the same place, and a second call finds nothing to do. |
| `TcpChecksum.FullTcpChecksum` | crates/lb-forwarder/src/mss_clamp.rs:150-186 | The recomputation loop kept for tests computes the checksum of pseudo-header and segment with the checksum field zeroed, for segments of every length, those without a checksum field included. |
| `TcpChecksum.AddSegment` | crates/lb-forwarder/src/mss_clamp.rs:167-180 | The loop adds the words of the segment but its checksum field, and an odd last byte. |
| `TcpChecksum.VerifiesExactly` | crates/lb-forwarder/src/mss_clamp.rs:150-186 | The recomputed checksum is the stored one if and only if the sum over pseudo-header and segment verifies at a receiver as section 3.1 of RFC 9293 has it, and is not stored as 65535. |
| `TcpChecksum.IncrementalIs` | crates/lb-forwarder/src/mss_clamp.rs:128-146 | The incremental update gives the checksum of the changed sum if and only if the sums differ by the change modulo 65535 (equation 3 in section 3 of RFC 1624). |
| `TcpChecksum.ClampChecksumExactly` | crates/lb-forwarder/src/mss_clamp.rs:83-99 | For every packet of any length with a correct checksum: after clamping the stored checksum equals full recomputation if and only if the option starts at an even offset or 257 divides the change of the MSS; with a header length of zero, if and only if the MSS goes from 65535 to 0. |
| `TcpChecksum.FilledIsCorrect` | crates/lb-forwarder/src/mss_clamp.rs:150-186 | A packet with the recomputed checksum filled in recomputes to it. |
| `TcpChecksum.OddOffsetBreaksChecksum` | crates/lb-forwarder/src/mss_clamp.rs:71-97 | Witness: a SYN with valid checksums, one NOP and MSS 1460 has an incorrect checksum after clamping to 1436. |
| `Icmp.MtuConfigExactly` | crates/lb-types/src/mtu.rs:33-55 | Exactly the MTUs from 1280 on are accepted, the second test never fails, and a full segment fills the link to the byte. |
| `Icmp.ShouldGenerateExactly` | crates/lb-forwarder/src/icmp.rs:25-39 | The error is sent exactly for IPv4 packets with the don't-fragment flag whose length field does not fit, except those for which the 16-bit sum wraps around. |
| `Icmp.WrapLetsPacketPass` | crates/lb-forwarder/src/icmp.rs:34-38 | Witness: a packet of 28 bytes that must not be fragmented and claims 65512 passes the size test for every configurable MTU. |
| `Icmp.GenerateIcmpFragNeeded` | crates/lb-forwarder/src/icmp.rs:47-104 | The buffer filled step by step holds the specified packet. |
| `Icmp.ReceiveGenerated` | crates/lb-forwarder/src/icmp.rs:47-104 | For every original, of any length: both checksums verify, and the receiver gets VIP, sender, next-hop MTU and the first 28 bytes. |
| `RateLimiter.IcmpRateLimiter.constructor` | crates/lb-forwarder/src/icmp.rs:114-120 | A fresh limiter has granted nothing. |
| `RateLimiter.IcmpRateLimiter.Allow` | crates/lb-forwarder/src/icmp.rs:123-137 | Answer and new state are those of the specified limiter. |
| `RateLimiter.RateBound` | crates/lb-forwarder/src/icmp.rs:107-138 | In every run with monotone time stamps any half-open second holds at most twice the limit of grants. |
| `RateLimiter.RateBoundIsTight` | crates/lb-forwarder/src/icmp.rs:107-138 | For every positive limit the factor two is reached. |
| `RateLimiter.OneWindowBound` | crates/lb-forwarder/src/icmp.rs:127-130 | A span in which no window starts after a grant inside it holds at most the limit. |
| `RateLimiter.RestartedSecond` | crates/lb-forwarder/src/icmp.rs:127-130 | A second in which a window starts after a grant holds the grants before that and the requests from it to the end of the second, as far as the limit goes. |
| `RateLimiter.SecondWithinLimitExactly` | crates/lb-forwarder/src/icmp.rs:127-130 | A second holds at most the limit if and only if any such start leaves room for itself and all requests of the second that follow. |
| `RateLimiter.WindowBound` | crates/lb-forwarder/src/icmp.rs:127-133 | Each window grants at most the limit, and the counter says how many the current one has granted. |
| `RateLimiter.RefusalIsEarned` | crates/lb-forwarder/src/icmp.rs:131-136 | A refused request comes within a second of the start of a span in which the whole limit was granted. |
| `Rewriters.RewriterThread.constructor` | crates/lb-forwarder/src/rewriter.rs:38-66 | Empty tables, a fresh limiter and zero counters. |
| `Rewriters.RewriterThread.ProcessBatch` | crates/lb-forwarder/src/rewriter.rs:71-118 | Compacting the batch in place gives exactly the packets that processing the originals in order into a fresh list gives, with the same final state; the rest of the slice is untouched. |
| `Rewriters.RewriterThread.ProcessOne` | crates/lb-forwarder/src/rewriter.rs:120-270 | One packet: outcome, both tables and the limiter are those of the specified step. |
| `Rewriters.RewriterThread.Handle` | crates/lb-forwarder/src/rewriter.rs:83-107 | One packet with its counters. |
| `Rewriters.RewriterThread.FollowFirst` | crates/lb-forwarder/src/rewriter.rs:135-151 | A later fragment goes to the mapped backend or is dropped, and changes nothing. |
| `Rewriters.RewriterThread.ForwardRouted` | crates/lb-forwarder/src/rewriter.rs:186-269 | Selection, tracking, fragment mapping and delivery of a routed packet, in this order. |
| `Rewriters.RewriterThread.SelectBackend` | crates/lb-forwarder/src/rewriter.rs:190-216 | A cached backend that is not unhealthy is refreshed and kept; otherwise the lookup table decides and the flow is pinned again. |
| `Rewriters.RewriterThread.ApplyTcpTransitions` | crates/lb-forwarder/src/rewriter.rs:321-343 | RST and FIN close, ACK without SYN establishes. |
| `Rewriters.RewriterThread.RecordFirstFragment` | crates/lb-forwarder/src/rewriter.rs:230-236 | A first fragment leaves its backend in the fragment table. |
| `Rewriters.RewriterThread.Finish` | crates/lb-forwarder/src/rewriter.rs:239-269 | Error, rate-limited drop, or encapsulation. |
| `Rewriters.Encapsulate` | crates/lb-forwarder/src/rewriter.rs:277-292 | Encapsulated when both addresses are IPv4 and it fits, dropped otherwise. |
| `Forwarding.RunConserves` | crates/lb-forwarder/src/rewriter.rs:71-118 | Over every run: received = forwarded + errors sent + dropped; packets sent = forwarded + errors sent; oversized = errors sent + rate-limited. |
| `Forwarding.ForwardedFits` | crates/lb-forwarder/src/rewriter.rs:239-269 | In every state, no forwarded packet with the don't-fragment flag that is not a later fragment and whose length field is its length exceeds the network MTU. |
| `ForwardingOutcomes.MetaExactly` | crates/lb-types/src/packet.rs:87-130 | The 5-tuple and flags of a packet, byte by byte, and exactly which packets have one. |
| `ForwardingOutcomes.FragmentIdExactly` | crates/lb-types/src/packet.rs:222-244 | What a fragment is identified by, byte by byte. |
| `ForwardingOutcomes.RoutedExactly` | crates/lb-forwarder/src/rewriter.rs:153-188 | A packet reaches backend selection if and only if it has ports, is no later fragment, and its destination, protocol and port are a VIP whose pool has a table. |
| `ForwardingOutcomes.ChosenExactly` | crates/lb-forwarder/src/rewriter.rs:190-216 | It is given the backend its flow is found with unless expired or unhealthy, and otherwise the one in the slot that its hash leaves as remainder. |
| `ForwardingOutcomes.ForwardedExactly` | crates/lb-forwarder/src/rewriter.rs:120-292 | In every state a packet is forwarded if and only if the source address is IPv4, it fits 2048 bytes with 24 more, and it is a later fragment with a mapping to an IPv4 backend within the time to live, or a routed packet that is not too long for the link and whose backend is IPv4. |
| `ForwardingOutcomes.RoutedOutcome` | crates/lb-forwarder/src/rewriter.rs:239-269 | What else becomes of a routed packet: an error if the limiter grants it, a rate-limited drop, or a drop. |
| `ForwardingOutcomes.WithinMtuIsForwarded` | crates/lb-types/src/mtu.rs:33-55 | With an MTU up to 2048 every routed packet whose length field is its length and within the inner MTU is forwarded to its IPv4 backend. |
| `ForwardingOutcomes.LeadsExactly` | crates/lb-forwarder/src/rewriter.rs:230-236 | A mapping is left by exactly the routed first fragments, for their datagram, to the backend they are given. |
| `ForwardingOutcomes.SentExactly` | crates/lb-forwarder/src/rewriter.rs:71-118 | What a run hands back to be sent is, in order, the packet of every forwarded or answered outcome and nothing else. |
| `ForwardingOutcomes.CountersExactly` | crates/lb-forwarder/src/rewriter.rs:81-114 | Each counter grows by exactly the number of packets it is named after. |
| `ForwardingTimes.RememberedExactly` | crates/lb-forwarder/src/rewriter.rs:190-228 | From a flow's first packet on, while it stays stored, a lookup finds it if and only if its last packet is within the closing time-out if one of its packets had FIN or RST, else the established one if one had an ACK that tells the handshake is over, else the handshake one. |
| `ForwardingTimes.FlagsExactly` | crates/lb-forwarder/src/rewriter.rs:321-361 | What the bits FIN, SYN, RST and ACK mean for the state of a new flow and for a stored one. |
| `ForwardingRuns.NextPacketSticks` | crates/lb-forwarder/src/rewriter.rs:190-224 | On any table content: once a packet of a flow has found room, a packet of the same 5-tuple handled directly after it goes to the same backend, as long as the entry is live and the backend not unhealthy. |
| `ForwardingRuns.NextFragmentFollows` | crates/lb-forwarder/src/rewriter.rs:135-151 | On any table content: directly after a first fragment that found a slot, a later one goes to its backend while the mapping is not older than its time to live. |
| `ForwardingAffinity.FlowSticksExactly` | crates/lb-forwarder/src/rewriter.rs:190-224 | A flow stays with its backend: from any state in which its copies name one backend, with reclaims, losses, tables, configurations and time-outs of any kind, all its packets go there if and only if each of them finds the flow stored, live and its backend not unhealthy, or has the same backend picked for it again. |
| `ForwardingAffinity.FlowSticks` | crates/lb-forwarder/src/rewriter.rs:190-224 | Two packets of a flow go to the same backend, whatever comes in between, as long as every packet of the flow after the first finds it and the first left no copy with another backend. |
| `ForwardingAffinity.SettledExactly` | crates/lb-forwarder/src/rewriter.rs:190-224 | A packet leaves all copies of its flow with its own backend if and only if, when it found the flow, they named that backend before, and when it did not, its insert lost the only copy with another one or there was none. |
| `ForwardingAffinity.NewFlowSettles` | crates/lb-forwarder/src/rewriter.rs:190-224 | The first packet of a flow that is not stored always does. |
| `ForwardingAffinity.TidySettles` | crates/lb-forwarder/src/rewriter.rs:190-224 | So does every packet of a run from an empty table that has kept the table well formed. |
| `ForwardingAffinity.AlwaysSettledExactly` | crates/lb-forwarder/src/rewriter.rs:190-224 | From any state in which the copies of a flow agree, every packet of the flow leaves all of them with its own backend if and only if every insert for the flow leaves no copy with another one. |
| `ForwardingAffinity.LookupIsLatest` | crates/lb-forwarder/src/rewriter.rs:190-216 | Over every run of a fresh rewriter in which no insert for the flow left a copy with another backend, a live entry answers the backend of its latest insert. |
| `ForwardingAffinity.FindsFlowExactly` | crates/lb-forwarder/src/rewriter.rs:190-200 | While the table has stayed well formed, a packet finds its flow if and only if the flow is stored, live and its backend not unhealthy. |
| `ForwardingAffinity.LaterFragmentExactly` | crates/lb-forwarder/src/rewriter.rs:135-151 | Over every run whose fragment table stays well formed, a later fragment goes to the backend of the latest first fragment with its hash while that mapping is stored and within its time to live, and is dropped otherwise. |
| `ForwardingAffinity.LeadSettlesExactly` | crates/lb-forwarder/src/rewriter.rs:218-224 | A first fragment leaves only its own backend stored for its hash if and only if there was no mapping to another one but the entry lost. |
| `ForwardingAffinity.FragmentGoesNowhereElse` | crates/lb-forwarder/src/rewriter.rs:135-151 | From any state, reclaims, losses, full tables and time-outs included, a later fragment goes to the backend of such a first fragment or is dropped, as long as no later first fragment of the same hash went elsewhere. |
| `ForwardingAffinity.FragmentFollowsFirst` | crates/lb-forwarder/src/rewriter.rs:135-151 | Fragments follow the first one over whole runs, whatever packets and other datagrams come in between, while the mapping is within its time to live and the table has stayed well formed and never been full. |
| `ForwardingRuns.BackendGetsThePacket` | crates/lb-forwarder/src/rewriter.rs:255-269 | End to end: the chosen backend takes the packet out of the tunnel as it was sent, up to the clamped MSS, from the forwarder's address. |
| `ForwardingRuns.BackendGetsTheFragment` | crates/lb-forwarder/src/rewriter.rs:277-292 | A later fragment arrives exactly as it was sent, at the mapped backend. |
| `ForwardingRuns.SenderGetsTheError` | crates/lb-forwarder/src/rewriter.rs:239-251 | The sender of an oversized packet gets an error that verifies, from the VIP it sent to, with the inner MTU and the front of the packet as it would have been forwarded. |
| `ForwardingRuns.RunIsPlay` | crates/lb-forwarder/src/rewriter.rs:186-224 | Whatever the packets, the connection table is the product of a run of inserts and marks, so every theorem on such runs holds for it. |
| `ForwardingRuns.BackendWasPicked` | crates/lb-forwarder/src/rewriter.rs:190-216 | Over every run of a fresh rewriter, a packet is only sent to a backend that the lookup table picks for its flow hash now or picked for an earlier packet with that hash. |
| `ForwardingRuns.LaterFragmentWasLed` | crates/lb-forwarder/src/rewriter.rs:135-151 | Over every run, a later fragment is only sent to the backend a first fragment with the same hash was given, at most the time to live ago. |
| `ForwardingRuns.ErrorsAreGrants` | crates/lb-forwarder/src/rewriter.rs:239-253 | The errors sent in a span are exactly the grants of the limiter at the times of the oversized packets. |
| `ForwardingRuns.ErrorRateBound` | crates/lb-forwarder/src/rewriter.rs:239-253 | Whatever arrives, a rewriter sends at most twice its configured number of errors in any second. |
| `PacketPools.PacketPool.constructor` | crates/lb-forwarder/src/packet_pool.rs:75-88 | All frames start on the free list, in order. |
| `PacketPools.PacketPool.Alloc` | crates/lb-forwarder/src/packet_pool.rs:93-95 | Takes the oldest free index, if there is one. |
| `PacketPools.PacketPool.Free` | crates/lb-forwarder/src/packet_pool.rs:99-102 | Returns an index; on a full list the push fails silently. |
| `PacketPools.PacketPool.WriteFrom` | crates/lb-forwarder/src/packet_pool.rs:42-46 | Copies the packet into the frame, cut to its size. |
| `PacketPools.ReceiveIsAlloc` | crates/lb-forwarder/src/threading.rs:315-319 | Allocation is what a receive step does to the free list of the machine. |
| `PacketPools.WriteIsWriteFrom` | crates/lb-forwarder/src/threading.rs:321-323 | Writing a frame is what a write step does to the frames of the machine. |
| `PacketPools.TakeIn` | crates/lb-forwarder/src/threading.rs:313-323 | Steering on the pool object, allocate and write or drop, makes exactly these steps of the machine. |
| `Pipeline.StepKeepsOwned` | crates/lb-forwarder/src/threading.rs:296-336 | No step of steering, rewriters or muxer loses, duplicates or invents a frame index. |
| `Pipeline.FreeNeverFails` | crates/lb-forwarder/src/packet_pool.rs:99-102 | Whenever a thread returns an index the free list has room: the ignored push never fails. |
| `Pipeline.OnlyReturnsGrow` | crates/lb-forwarder/src/packet_pool.rs:99-102 | No other step puts anything on the free list. |
| `Pipeline.HandIsApart` | crates/lb-forwarder/src/packet_pool.rs:104-114 | An index in steering's hand is in no queue or batch. |
| `Pipeline.LaneIsApart` | crates/lb-forwarder/src/packet_pool.rs:104-114 | An index in one lane is there once and in no other lane. |
| `Pipeline.InitialOwned` | crates/lb-forwarder/src/packet_pool.rs:75-88 | At the start every index is free, once. |
| `PipelineOrder.StepKeepsInv` | crates/lb-forwarder/src/threading.rs:355-558 | Every step keeps ownership, order and content of every lane. |
| `PipelineOrder.EveryFrameHasOneOwner` | crates/lb-forwarder/src/packet_pool.rs:57-114 | In every reachable state of every interleaving each index is in exactly one place. |
| `PipelineOrder.SentInOrder` | crates/lb-forwarder/src/threading.rs:660-714 | What the muxer has sent from a queue is, in the order of arrival, packets steered to it, each encapsulated exactly as received. |
| `PipelineOrder.SameFlowNeverSwaps` | crates/lb-forwarder/src/threading.rs:313-334 | Two packets of one 5-tuple leave through one queue and in the order they arrived. |
| `PipelineOrder.OnlyOwnerWrites` | crates/lb-forwarder/src/packet_pool.rs:104-114 | The bytes of a frame change only in the hands of its one owner. |
| `PipelineProgress.AlwaysComesHome` | crates/lb-forwarder/src/threading.rs:296-714 | From every reachable state the pipeline can run empty: no frame is stuck and no thread waits for another for ever; in the end every frame is free. |
| `PipelineProgress.PacketGoesThrough` | crates/lb-forwarder/src/threading.rs:296-714 | When nothing else is on its way, a packet that fits can be received, steered, encapsulated for any backend and sent as the next of its queue, and its frame is free again. |
| `PipelineProgress.SteeredExactly` | crates/lb-forwarder/src/steering.rs:6-8 | IPv4 packets with ports and IPv6 packets with ports behind the fixed header go to the queue that their hash leaves as remainder, all others to the first. |
| `PipelinePool.FramesAddUp` | crates/lb-forwarder/src/threading.rs:97-108 | Free list, hand, lanes and muxer always add up to the pool. |
| `PipelinePool.PoolNeverRunsOut` | crates/lb-forwarder/src/threading.rs:97-108 | If two queues and a rewriter batch for every lane that packets are steered to, with the muxer batch, fall short of the pool, steering always finds a free frame. |
| `PipelinePool.PoolRunsOutExactly` | crates/lb-forwarder/src/threading.rs:97-108 | For every number of rewriters and every hash the pool can run out if and only if they do not. |
| `PipelinePool.BatchDecides` | crates/lb-forwarder/src/threading.rs:97-108 | With a hash that reaches every lane, that is if and only if the muxer batch is at most 64 times the number of rewriters; with the default of 64 it always can. |
| `BgpMessages.BuildOpen` | crates/lb-bgp/src/messages.rs:17-39 | Appending and patching the length gives the OPEN message. |
| `BgpMessages.BuildUpdateAnnounce` | crates/lb-bgp/src/messages.rs:99-155 | Appending and patching both lengths gives the announcing UPDATE, for every prefix length. |
| `BgpMessages.BuildAttributes` | crates/lb-bgp/src/messages.rs:117-143 | The path attributes with their patched length. |
| `BgpMessages.BuildUpdateWithdraw` | crates/lb-bgp/src/messages.rs:158-184 | Appending and patching the length gives the withdrawing UPDATE. |
| `BgpMessages.HeaderIsParsed` | crates/lb-bgp/src/messages.rs:187-206 | The type and length parsers read what the encoders wrote, for every body. |
| `BgpMessages.ParsersExactly` | crates/lb-bgp/src/messages.rs:69-221 | Exactly which bytes the four parsers accept and what they read. |
| `BgpMessages.HeaderLayout` | crates/lb-bgp/src/messages.rs:17-66 | Every message byte by byte: sixteen ones, the total length, the type number, the body. |
| `BgpMessages.OpenLayout` | crates/lb-bgp/src/messages.rs:17-39 | An OPEN byte by byte. |
| `BgpMessages.AttributesAreRead` | crates/lb-bgp/src/messages.rs:117-143 | A reader of path attributes finds ORIGIN 0, an AS path of the one AS number, and the next hop. |
| `BgpMessages.AnnouncementCarriesRoute` | crates/lb-bgp/src/messages.rs:99-155 | Every announcement, of any prefix, carries these attributes. |
| `BgpMessages.PrefixIsRead` | crates/lb-bgp/src/messages.rs:145-152 | The octets written for a prefix of any length give its address back up to whole octets behind it. |
| `BgpMessages.NotificationRoundTrip` | crates/lb-bgp/src/messages.rs:56-77 | Parsing an encoded NOTIFICATION gives its two codes. |
| `BgpMessages.OpenRoundTrip` | crates/lb-bgp/src/messages.rs:213-221 | Parsing an encoded OPEN gives its hold time. |
| `BgpMessages.UpdateRoundTrip` | crates/lb-bgp/tests/common/mod.rs:348-384 | The router reads exactly the one announced or withdrawn host route out of an encoded UPDATE. |
| `BgpFraming.Incoming.constructor` | crates/lb-bgp/src/speaker.rs:408-410 | The accumulator starts empty. |
| `BgpFraming.Incoming.TakeMessage` | crates/lb-bgp/src/speaker.rs:671-690 | Pops a whole message, waits for a part, or drops one byte of a stream that is out of step. |
| `BgpFraming.Incoming.Read` | crates/lb-bgp/src/speaker.rs:447-482 | The loop after a read pops message after message until there is none or a NOTIFICATION ends the session. |
| `BgpFraming.TakenExactly` | crates/lb-bgp/src/speaker.rs:671-690 | One call pops the well-formed message at the front, drops a byte if and only if none can start there, and otherwise waits. |
| `BgpFraming.CutsDoNotMatterExactly` | crates/lb-bgp/src/speaker.rs:447-482 | For every byte stream: the reader ends up alike for every cut into reads if and only if one read of it all never drops a byte where it could still go on; otherwise some cut into two non-empty reads makes a difference. |
| `BgpFraming.DrainInTwo` | crates/lb-bgp/src/speaker.rs:671-690 | For such a stream reading in two goes is reading in one. |
| `BgpFraming.OutOfStepCut` | crates/lb-bgp/src/speaker.rs:675-686 | For any other stream, a cut into two reads after which the reader is not where one read leaves it. |
| `BgpFraming.ChunkingDoesNotMatter` | crates/lb-bgp/src/speaker.rs:447-482 | However a stream of well-formed messages, or a part of it, is cut into reads, the reader ends up as after a single read. |
| `BgpFraming.WholeMessagesPopped` | crates/lb-bgp/src/speaker.rs:671-690 | Between reads exactly the whole messages have been popped and a strict prefix of the next one is left. |
| `BgpFraming.AnyCutPopsAll` | crates/lb-bgp/src/speaker.rs:447-482 | Any list of well-formed messages, cut anywhere, is popped as exactly that list, up to the NOTIFICATION that ends it. |
| `BgpFraming.RouterGetsEveryChange` | crates/lb-bgp/src/speaker.rs:508-532 | End to end: any sequence of keepalives, announcements and withdrawals, cut anywhere, is decoded to the same route changes in order. |
| `BgpFraming.GarbageDependsOnCuts` | crates/lb-bgp/src/speaker.rs:675-678 | Witness: behind one stray byte the result depends on the cuts. |

## Left out

- AF_XDP sockets, UMEM, BPF programs and shell scripts: foreign calls and kernel state.
- Tokio sockets, TCP-MD5, the OPEN handshake's reads and the real timers: connecting, failing and waking up are steps that may happen at any time.
- The multi-threaded rewriter loop chooses backends as the batch one does but neither clamps the MSS nor answers oversized packets; the pipeline model allows it any choice.
- All fragments of a datagram reaching one backend across threads: steering reads port bytes from later fragments too, and every rewriter has its own fragment table.
- Fairness: `VipProgress` and `PipelineProgress` show that the steps of the parties can always lead to the end, not that a scheduler takes them.
- Statistical claims: disruption on backend removal, probe lengths, hash quality, latency.
- The health probe state machine, the VIP matcher beyond a map lookup, the config validator and the tracer: nothing proved here depends on how they work, and any health event and any configuration is allowed.
- Metrics other than the packet counters, the ops server, command line, file loading and watching, CPU pinning, the config cache.
- Retransmission after a short `send_batch`: the program drops by design.
- `preference_list` as an iterator: the build never uses it, and its elements are those of the preference function.
- The per-queue mode's receive loop around `process_batch`, and a rewriter configured with an IPv6 source address in the multi-threaded mode, which ends at once.
- Rewriters.RewriterThread.ProcessBatch: takes the health map that each packet finds as a parameter, one per packet, because other threads may change it during a batch.
- Rewriters.RewriterThread.ProcessOne: packets are sequences of at most 2048 bytes; the bytes of a buffer behind its length, which nothing reads, are not modelled. The lookup tables it is given must name a backend in every slot, as all tables of a controller do (`ControlRuns.TablesAreSound`).
- VipProtocol.ConvergenceSafety: assumes that a router starts a session without routes and drops them at its end (section 8.2.2 of RFC 4271), which is outside the program.
- Backoff times, and the order in which a select picks between a command, a read and a timer: any order may happen.
