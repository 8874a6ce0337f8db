# A verified model of the replication engine

This project models six parts of a Byzantine fault tolerant replication engine
and proves what they keep over whole runs. `dafny verify dfyconfig.toml` checks
everything. Hashes are symbolic: a hash is the content it was computed from, or
bytes that are the hash of nothing. That is content addressing without
collisions and it gives every chain walk its termination measure. A signature is
what an id's key makes of a digest, or garbage. Random draws and the iteration
order of hash maps are arbitrary choices.

Where the source updates an object in place, a class has the same fields; its
`Model()` is the object's value, and each method is proved to reach the value
that a function on values gives. The theorems are about those functions.

| part | files |
|---|---|
| Hera data chains and their commit projection | `HeraChain`, `HeraConvergence`, `HeraBridge`, `HeraAttestation`, `HeraEmission`, `HeraSigned`, `HeraExactlyOnce`, `HeraNode`, `HeraPayloads` |
| Leto commit window | `CommitWindow`, `CommitChain`, `CommitAnyInput`, `CommitEffects`, `CommitSignals`, `CommitObject` |
| Leto leader rotation and commit latency | `LeaderRotation`, `CommitLatency` |
| Mempool and round-robin batcher | `TxPool`, `PoolLaws`, `PoolEffects`, `PoolTraces`, `PoolObject`, `Batcher`, `BatcherRun` |
| Zeus block store, prefix lock and epoch change | `BlockStore`, `PrefixLock`, `StoreIndex`, `EpochChange`, `EpochEffects`, `EpochObject` |
| Leto round buffer and blame quorum | `RoundBuffer`, `RoundOrder`, `BlameQuorum`, `QuorumSteps` |

## Properties that hold only under a condition

Each of these is proved as an equivalence. Where a run of the program breaks the
condition, a lemma gives one.

- Convergence of Hera's chains needs that no two authors start with one and the
  same envelope, because a block's hash does not cover its signer. The second of
  them then stays at genesis until its next block arrives: a block brings its
  signer's head along exactly when child links lead from the head to its parent.
- Exactly-once emission needs that every committed head above its author's
  earlier heads lies on top of the author's own block of the head's height.
  Acceptance only looks at whether the named block is stored, so a head may name
  another author's block or claim too great a height. A leader's own attestations
  always meet the condition.
- The commit walk re-reads the element stored under the hash it has just
  inserted, so its element trails its hash by one step. Elements stay under
  their own hashes exactly when the walk ends within one step, and log and queue
  stay one chain exactly when an end of round brings at most one new element: a
  readable later child of the queue's back or any child of the last commit. With
  two, one element can be skipped and another commit twice. Proposer counts stay
  exact exactly when no queued key lies between the head and the queue's back,
  and so always while the queue is a chain. The commit loop still never panics,
  on any input.
- The leader rotation starts as a partition exactly when the start id is
  initially eligible or last in the list of ids. That list holds the keys of a
  hash map (`settings.rs:88-90`), so its order is not fixed. When the start id
  begins inside the history instead, some draws repeat a leader too soon.
- A batch can be undone exactly when its round was unused.
- Two blame quorums share an honest member exactly when n + f is odd, which
  n = 3f + 1 meets. That holds of certificates a node formed; a received one is
  complete only if it happens to have a quorum of signatures by different ids.
- Zeus' lock covers everything committed exactly when the committed blocks are
  pairwise comparable and the locked one is the deepest. Attestations are checked
  when they are validated, not when they are committed, so two incomparable ones
  can both pass and the lower one is then lost.
- A pin whose claimed height is not its block's conflicts with every candidate,
  the start of a new epoch included.
- An accepted equivocation blame proves an equivocation exactly when its two
  blocks carry one epoch.
- A node's own equivocation blame, which it adds without a check, is one that
  others accept exactly when both blocks have one height and were signed by the
  leader of the new one's epoch. The first block of a new epoch next to a block
  of the old one fails this; its blame then keeps the node from ever forming a
  certificate for that epoch.

## Where code and comments disagree

The model follows the code. Paths are relative to `consensus/src/server`.

- `zeus/chain_state/db.rs:239-241` says a disk hit is loaded back into the cache;
  the code returns it without caching.
- `zeus/chain_state/data_chain.rs:321-322` says both equivocating blocks are at
  the same epoch; the code compares heights only.
- `zeus/chain_state/data_chain.rs:148` speaks of a set of committed attestations;
  the lock never holds more than one.
- `leto/phases/commit.rs:177-180` describes the local queue as a chain; with more
  than one new element it is not one.
- `zeus/phases/attestation.rs:57-62` and `zeus/phases/blame.rs:197-204` say that
  attestations of an earlier epoch above the new head are rejected; the check
  lets through every block that descends from the new head.
- `tx_pool.rs:280-283` calls the pool ready when it can fill a batch; the code asks
  for strictly more than the batch size.

## Model

| member | source | states |
|---|---|---|
| `HeraChain.AdmitKeepsValid` | consensus/src/server/hera/chain_state/multi_data_chain.rs:247-368 | For every reachable state and every block, equivocating or cross-linked: the store stays ancestor-closed, every child link is a real parent link, every height is that of its head, only the signer's head moves and only to a descendant, and the block and every parked block is stored or still parked; `Invalid` exactly for a new block of an unknown signer |
| `HeraChain.AdmitResultMeans` | consensus/src/server/hera/chain_state/multi_data_chain.rs:247-314 | What each result says about the block and the state: duplicate and invalid blocks change nothing, a parked one names its missing parent and waits last under it, extension and bridge are told apart by the signer's head |
| `HeraChain.AdvanceReachesTip` | consensus/src/server/hera/chain_state/multi_data_chain.rs:317-337 | The forward walk terminates on the one hash that has no child link, having followed child links only |
| `HeraChain.DrainKeepsValid` | consensus/src/server/hera/chain_state/multi_data_chain.rs:341-368 | Draining loses no parked block, keeps the state valid, moves the head only forward, and ends with nothing parked under it |
| `HeraBridge.BridgeReaches` | consensus/src/server/hera/chain_state/multi_data_chain.rs:286-299 | A bridge moves its signer's head along the child links, the new one included, to the one hash without a link, or on from there to a block parked under it; with nothing parked there, store, link, head and height are all that changes |
| `HeraBridge.HeadPassesIff` | consensus/src/server/hera/chain_state/multi_data_chain.rs:270-299 | A stored block makes its signer's head move to it or past it if and only if child links led from the head to the block's parent; an extension always does |
| `HeraBridge.AdmitAllLinked` | consensus/src/server/hera/chain_state/multi_data_chain.rs:247-368 | After any deliveries every stored block's parent has a child link, which the equivalence needs |
| `HeraBridge.ExtendPasses` | consensus/src/server/hera/chain_state/multi_data_chain.rs:270-285 | An extension moves the head to the block or past it; with nothing parked under it, that is all that changes |
| `HeraBridge.DrainMovesToOwn` | consensus/src/server/hera/chain_state/multi_data_chain.rs:341-368 | A drain moves the head only to a block its author signed, and does move it if one is parked under it |
| `HeraBridge.SecondBlockRecovers` | consensus/src/server/hera/chain_state/multi_data_chain.rs:259-299 | When two authors open with one envelope, the second author's copy is a duplicate, and its second block bridges and brings its head up to date |
| `HeraSigned.DeliveryExact` | consensus/src/server/hera/phases/data.rs:152-159 | A delivered block is admitted exactly when its signature by the known id it names is good |
| `HeraSigned.OnlySignedStored` | consensus/src/server/hera/chain_state/multi_data_chain.rs:247-368 | Over any run every stored block but genesis and every parked one carries the good signature of the known id it names |
| `HeraChain.MultiAuthorDataChain.constructor` | consensus/src/server/hera/chain_state/multi_data_chain.rs:69-94 | Every author starts at genesis with height and watermark 0, and genesis alone is stored |
| `HeraChain.MultiAuthorDataChain.AdmitTyped` | consensus/src/server/hera/chain_state/multi_data_chain.rs:247-314 | The in-place admission reaches the state and result of the admission function |
| `HeraChain.MultiAuthorDataChain.AdvanceHeadViaChildOf` | consensus/src/server/hera/chain_state/multi_data_chain.rs:317-337 | The loop over child links is the recursive advance |
| `HeraChain.MultiAuthorDataChain.DrainPendingForAuthor` | consensus/src/server/hera/chain_state/multi_data_chain.rs:341-368 | The nested drain loops are the recursive drain |
| `HeraChain.MultiAuthorDataChain.WalkRangeFrom` | consensus/src/server/hera/chain_state/multi_data_chain.rs:376-413 | The backward loop, reversal and filter return the range function's blocks |
| `HeraConvergence.Convergence` | consensus/src/server/hera/chain_state/multi_data_chain.rs:247-368 | When authors have linear chains with different first blocks, any interleaving, permutation and duplication of deliveries leaves each head at the tip of the longest contiguous delivered prefix, with everything delivered beyond the gap parked under its parent |
| `HeraConvergence.ConvergedParks` | consensus/src/server/hera/chain_state/multi_data_chain.rs:339-368 | In that state the park map holds exactly the delivered blocks beyond the gaps |
| `HeraConvergence.OrderIrrelevant` | consensus/src/server/hera/chain_state/multi_data_chain.rs:247-368 | Two nodes that received the same blocks in any order agree on heads, heights, stored and parked blocks |
| `HeraConvergence.SharedFirstBlockStalls` | consensus/src/server/hera/chain_state/multi_data_chain.rs:259-314 | The hash does not cover the signer: when two authors start with one and the same envelope, delivering both copies leaves the second author at genesis |
| `HeraConvergence.ConvergesIffFirstBlocksDiffer` | consensus/src/server/hera/chain_state/multi_data_chain.rs:247-368 | Every delivery sequence over linear chains converges if and only if no two authors share their first envelope |
| `HeraAttestation.FirstMissing` | consensus/src/server/hera/phases/attestation.rs:166-184 | An attestation is parked under a head that is not stored, and under none exactly when every non-genesis head is stored |
| `HeraAttestation.VerdictMeans` | consensus/src/server/hera/phases/attestation.rs:140-187 | Rejected exactly for an unknown signer or a bad signature; accepted exactly when signed and every non-genesis head is stored; else parked under the first that is not |
| `HeraAttestation.MadeIsComplete` | consensus/src/server/hera/phases/attestation.rs:54-125 | A made attestation covers every committee member once, as a head exactly when its chain grew since last attested; every head is the stored tip at its true height and epoch; heads and blames ascend; and the maker itself accepts it |
| `HeraNode.Hera.MultiAttestationValid` | consensus/src/server/hera/phases/attestation.rs:140-187 | The verdict is the judging function's and exactly a parked attestation is appended under the missing hash |
| `HeraNode.Hera.MakeMultiAttestation` | consensus/src/server/hera/phases/attestation.rs:54-125 | The loop over sorted ids builds the attestation that the specification describes |
| `HeraNode.Hera.OnCommittedAttestation` | consensus/src/server/hera/phases/commit.rs:266-408 | One committed attestation raises the watermarks and sends the batches of the blocks that the emission function gives |
| `HeraNode.Hera.EmitOneHead` | consensus/src/server/hera/phases/commit.rs:315-407 | One head sends its non-empty blocks in order and raises its author's watermark; a head at or below it does nothing |
| `HeraPayloads.BatchesCarry` | consensus/src/server/hera/phases/commit.rs:350-400 | Each emitted block with transactions is sent as one batch with exactly its transactions and its height, in order; blocks without send nothing |
| `HeraPayloads.EmissionAscends` | consensus/src/server/hera/phases/commit.rs:311-315 | One committed attestation emits its authors' blocks in ascending order of author |
| `HeraEmission.SortByAuthorCorrect` | consensus/src/server/hera/phases/commit.rs:311-313 | Heads are processed in a stable order by author: a permutation, sorted, equal authors in their original order |
| `HeraEmission.WalkRangeIsRangeOf` | consensus/src/server/hera/chain_state/multi_data_chain.rs:376-413 | On an ancestor-closed store the walked range depends on the tip's hash and the heights alone |
| `HeraEmission.EmitHeadsIsProject` | consensus/src/server/hera/phases/commit.rs:315-407 | When every head is stored, emission and watermarks are a function of watermarks and heads alone |
| `HeraEmission.RunIsProjection` | consensus/src/server/hera/phases/commit.rs:266-408 | Over any run that commits only what it accepted before, a node's watermarks and output are a function of its committed attestations alone |
| `HeraEmission.ReplicaAgreement` | consensus/src/server/hera/phases/commit.rs:266-408 | Two nodes that admit blocks in any orders, equivocations included, and commit the same accepted attestations emit identical block sequences and have equal watermarks; if one commits a prefix, its output is a prefix |
| `HeraExactlyOnce.ExactlyOnceStep` | consensus/src/server/hera/phases/commit.rs:315-407 | One head, whatever its hash names, keeps "emitted blocks 1..k" for its author if and only if it is stale, or the author has a block of the head's height and the parent links lead from the head's hash to that block over greater heights only |
| `HeraExactlyOnce.FitsIffAncestor` | consensus/src/server/hera/chain_state/multi_data_chain.rs:376-413 | When the named block lies on a chain of heights 1, 2, ... that is to say: the author's block of the head's height is the named block or an ancestor of it |
| `HeraExactlyOnce.ExactlyOnceEmission` | consensus/src/server/hera/phases/commit.rs:311-407 | Over any run, everything emitted for an author with a linear chain is blocks 1 to its watermark, in order and without repetition, if and only if every committed head above the heights before it meets that condition |
| `HeraExactlyOnce.HonestAllFit` | consensus/src/server/hera/phases/commit.rs:311-407 | Heads that name a block of the author's chain and claim at most its height always do |
| `HeraPayloads.TransactionsOnce` | consensus/src/server/hera/phases/commit.rs:311-407 | Over a run in which every committed head for an author fits, the transactions sent for that author are those of its blocks 1 to its watermark, each block's once and in order |
| `HeraExactlyOnce.ForeignHeadEmitted` | consensus/src/server/hera/phases/attestation.rs:167-184 | A run that accepts and commits a head naming the first block of another author: that block is emitted in place of the attested author's own |
| `HeraExactlyOnce.OverclaimedHeadSkips` | consensus/src/server/hera/phases/attestation.rs:167-184 | A run that accepts and commits a head claiming more than the height of its block: the author's blocks in between are never emitted |
| `HeraExactlyOnce.MadeHeadsAreHonest` | consensus/src/server/hera/phases/attestation.rs:69-95 | A leader whose chains have converged attests only heads that meet the exactly-once condition, each at the end of the delivered prefix |
| `CommitWindow.PopAllExact` | consensus/src/server/leto/phases/commit.rs:216-292 | With exact counts the commit loop never panics, commits the shortest prefix that leaves fewer than `len` distinct proposers, announces each commit in order, and keeps the counts exact |
| `CommitChain.EndRoundSound` | consensus/src/server/leto/phases/commit.rs:126-292 | One end of round with at most one new element keeps log and queue one chain from genesis with exact counts, commits the shortest sufficient prefix and never panics |
| `CommitChain.CommitLogIsChain` | consensus/src/server/leto/phases/commit.rs:133-292 | Over any run with at most one new element per round, chain switches included, committed elements are parent-linked from genesis, rounds strictly rise, nothing repeats, and the queue continues from the last commit |
| `CommitAnyInput.SoundIff` | consensus/src/server/leto/phases/commit.rs:133-292 | From one chain with exact counts an end of round leads to one chain with exact counts, before and after its commits, if and only if the head is not above the last commit, or is the queue's back, or is readable and a later child of it, or is a child of the last commit |
| `CommitAnyInput.RunSoundIff` | consensus/src/server/leto/phases/commit.rs:117-292 | Log and queue are one chain with exact counts after every round of a run if and only if every round met that condition |
| `CommitSignals.LogGrows` | consensus/src/server/leto/phases/commit.rs:216-292 | On every input a longer run only extends the commit log |
| `CommitAnyInput.WalkCollects` | consensus/src/server/leto/phases/commit.rs:138-176 | Whatever it meets, the ancestor walk collects distinct keys, never the key of the queue's back, and counts exactly the proposers it collected |
| `CommitAnyInput.CountsExactIff` | consensus/src/server/leto/phases/commit.rs:155-214 | After the merge the counts equal the queue's proposers if and only if not: the walk connects to the queue's back, and some queued key lies on the path from the head down to it |
| `CommitAnyInput.WalkConnects` | consensus/src/server/leto/phases/commit.rs:138-176 | The walk connects exactly when readable elements above the last commit lead from the head down to the queue's back, and it then collects exactly the keys in between |
| `CommitAnyInput.SoundKeepsCounts` | consensus/src/server/leto/phases/commit.rs:155-214 | From one chain with exact counts the counts stay exact whatever head comes |
| `CommitAnyInput.KeysRightIff` | consensus/src/server/leto/phases/commit.rs:133-214 | After an end of round every queued and committed element sits under its own hash if and only if the head was within one step of the queue's back, the last commit or an unreadable element |
| `CommitAnyInput.NeverPanics` | consensus/src/server/leto/phases/commit.rs:216-229 | Over every run, with arbitrary heads and stores, neither `expect` nor the count `assert` of the commit loop fails, and fewer than `len` proposers stay counted |
| `CommitAnyInput.SkippedElement` | consensus/src/server/leto/phases/commit.rs:133-292 | A concrete run that hands in two new elements at once: the skipped one never commits and a later one commits twice |
| `CommitEffects.StaleHeadDrops` | consensus/src/server/leto/phases/commit.rs:138-202 | A head at or below the last commit drops the whole queue and rolls its rounds back |
| `CommitEffects.SameHeadKeeps` | consensus/src/server/leto/phases/commit.rs:143-151 | A head that is the queue's back brings nothing |
| `CommitEffects.ChildExtends` | consensus/src/server/leto/phases/commit.rs:138-214 | A readable child of the queue's back that is not queued joins at the back under its own hash, counts its proposer once more, and rolls nothing back |
| `CommitEffects.LoneHeadReplaces` | consensus/src/server/leto/phases/commit.rs:138-202 | A head that cannot be read, or is a child of the last commit, replaces the queue and rolls its rounds back |
| `CommitEffects.WalkShape` | consensus/src/server/leto/phases/commit.rs:138-176 | Whatever is stored, the walk collects the head under its own key and every further element under its parent's key |
| `CommitSignals.AnnouncementsAreLog` | consensus/src/server/leto/phases/commit.rs:277-291 | Over every run the batcher has been told, once each and in commit order, of exactly the committed elements, with each one's batch and round |
| `CommitSignals.NothingDropped` | consensus/src/server/leto/phases/commit.rs:181-214 | Over any run with one new element per round, everything ever queued is still queued, or committed, or named in a rollback |
| `CommitSignals.SwitchRollsBackQueue` | consensus/src/server/leto/phases/commit.rs:181-202 | A chain switch rolls back exactly the rounds of the queue it drops, all of them above everything committed |
| `CommitObject.CommitContext.constructor` | consensus/src/server/leto/phases/commit.rs:94-106 | The window starts with genesis queued and counted, its length (n + f + 1) / 2 |
| `CommitObject.CommitContext.EndRound` | consensus/src/server/leto/phases/commit.rs:126-293 | The nested loops reach the state of the specification, panics included |
| `CommitObject.CommitContext.AddCounts` | consensus/src/server/leto/phases/commit.rs:206-213 | The merge loop adds the local counts, in any iteration order |
| `CommitObject.CommitContext.CommitReady` | consensus/src/server/leto/phases/commit.rs:216-292 | The commit loop is the recursive commit |
| `CommitObject.CommitContext.CommitFront` | consensus/src/server/leto/phases/commit.rs:218-291 | One commit pops the front, decrements or removes its proposer, announces and records it |
| `CommitObject.Run` | consensus/src/server/leto/phases/commit.rs:117-297 | The receive loop reaches the run's state and, for every input, without a panic |
| `LeaderRotation.LeaderContext.New` | consensus/src/server/leto/leader_context.rs:65-94 | Construction takes the last (n + f + 1) / 2 ids as history and advances once; it fails exactly when the ids run out, there is no history, or nothing is left to draw |
| `LeaderRotation.LeaderContext.AdvanceRound` | consensus/src/server/leto/leader_context.rs:42-61 | An advance installs the next leader, frees the oldest, and draws the one after it from the eligible ids |
| `LeaderRotation.AdvanceKeepsFair` | consensus/src/server/leto/leader_context.rs:42-61 | Whatever is drawn, history and eligible ids keep partitioning the committee and eligible is never empty |
| `LeaderRotation.NewFairIff` | consensus/src/server/leto/leader_context.rs:65-94 | The rotation starts out as such a partition if and only if the start id is initially eligible or is the last id |
| `LeaderRotation.QuorumLeavesEligible` | consensus/src/server/leto/leader_context.rs:75-82 | With f = (n - 1) / 3 and n >= 2 there are ids enough and construction does not fail |
| `LeaderRotation.LeadersDistinct` | consensus/src/server/leto/leader_context.rs:42-61 | Over any run and any draws from such a partition, any (n + f + 1) / 2 + 1 consecutive leaders are pairwise distinct |
| `LeaderRotation.DistinctLeadersIff` | consensus/src/server/leto/leader_context.rs:42-94 | From a new rotation all runs keep that many consecutive leaders distinct if and only if the start id is not among the ids that begin in the history, the last of them aside; otherwise some draws bring it back too soon |
| `LeaderRotation.EligibleExactly` | consensus/src/server/leto/leader_context.rs:48-60 | Who may lead next are exactly the committee but the last (n + f + 1) / 2 leaders |
| `CommitLatency.LogAfter` | consensus/src/server/leto/phases/commit.rs:95-292 | When every round's leader proposal is accepted, the log after r rounds is genesis and rounds 1 to r - len + 1, or empty, and nothing was rolled back |
| `CommitLatency.ExactLatency` | consensus/src/server/leto/phases/commit.rs:95-292 | The element of round k commits exactly when round k + (n + f + 1) / 2 - 1 ends |
| `CommitLatency.LatencyFromNew` | consensus/src/server/leto/leader_context.rs:42-94 | The same from the rotation's constructor, with rotation and window both sized by n and f |
| `CommitLatency.AcceptedRunExists` | consensus/src/server/leto/leader_context.rs:42-61 | Such runs exist for every length from every fair start: a next leader can always be drawn |
| `PoolTraces.RunRep` | consensus/src/server/tx_pool.rs:85-302 | After every sequence of operations mineable and in-flight keys are disjoint, the byte counter is the exact sum, the round index is the exact inverse of the tags, and no mineable nonce is at or below its client's mark |
| `PoolTraces.ApplyCarries` | consensus/src/server/tx_pool.rs:85-273 | No operation loses a transaction that is still above its client's mark, and only a rollback of its own round takes it out of flight |
| `PoolTraces.NoDoubleProposal` | consensus/src/server/tx_pool.rs:154-273 | Over any trace a (client, nonce) is in two batches only if the earlier batch's round was rolled back in between |
| `PoolTraces.NeverAfterCommit` | consensus/src/server/tx_pool.rs:85-246 | Nothing at or below a committed nonce of its client is in any later batch |
| `PoolLaws.SortedItemsCorrect` | consensus/src/server/tx_pool.rs:31-33 | The mineable map is traversed in strictly ascending (client, nonce) order, each transaction once |
| `PoolLaws.BatchIsShortestPrefix` | consensus/src/server/tx_pool.rs:154-180 | A batch is the shortest ascending prefix that reaches the batch size, or everything; exactly these move into flight under the round |
| `PoolLaws.BatchAscends` | consensus/src/server/tx_pool.rs:31-33 | A batch lists its transactions by client and, for one client, by nonce |
| `PoolLaws.BatchKeys` | consensus/src/server/tx_pool.rs:162-175 | Every batched key was mineable, fresh and not in flight, and is in flight under the round afterwards |
| `PoolLaws.UndoIff` | consensus/src/server/tx_pool.rs:154-273 | `make_batch(r)` then `rollback([r])` restores mineable, bytes and in-flight if and only if nothing was in flight under r before |
| `PoolEffects.LastWriteWins` | consensus/src/server/tx_pool.rs:85-107 | Of two submissions under one key the later decides transaction and bytes; a stale or in-flight key changes nothing |
| `PoolEffects.AdmitExact` | consensus/src/server/tx_pool.rs:115-150 | In-flight keys stay as they were, exactly the fresh keys of the batch enter flight with its first transaction and the mineable size or wire length, the rest does not move |
| `PoolEffects.CommitExact` | consensus/src/server/tx_pool.rs:184-243 | Each mark becomes the greatest nonce committed, the batch's keys are gone, the mineable keys left are exactly the fresh ones, and in flight exactly the batch's keys are missing |
| `PoolEffects.RollbackExact` | consensus/src/server/tx_pool.rs:251-273 | Exactly the keys tagged with one of the rounds leave flight and the fresh ones among them become mineable; order and repetition of rounds do not matter |
| `PoolEffects.HighIsGreatestCommitted` | consensus/src/server/tx_pool.rs:208-211 | After any trace a client's mark is the greatest nonce committed for it |
| `PoolObject.Txpool.constructor` | consensus/src/server/tx_pool.rs:63-76 | A new pool is empty |
| `PoolObject.Txpool.Add` | consensus/src/server/tx_pool.rs:85-107 | Reaches the specified state, byte counter included |
| `PoolObject.Txpool.Admit` | consensus/src/server/tx_pool.rs:115-150 | The loop over the batch reaches the specified state |
| `PoolObject.Txpool.Make` | consensus/src/server/tx_pool.rs:154-180 | The loop reaches the specified state and returns the specified batch |
| `PoolObject.Txpool.Finalize` | consensus/src/server/tx_pool.rs:184-246 | Both passes and the index clean-up reach the specified state, in any order of the touched clients |
| `PoolObject.Txpool.CollectStale` | consensus/src/server/tx_pool.rs:216-230 | Dropping stale keys client by client is the one-step collection |
| `PoolObject.Txpool.Undo` | consensus/src/server/tx_pool.rs:251-273 | The nested loops reach the specified state, in any order of a round's keys |
| `PoolObject.Txpool.IsReady` | consensus/src/server/tx_pool.rs:281-283 | Under the representation invariant the counter test holds exactly when the mineable transactions are larger than the batch size |
| `PoolLaws.ReadyFillsBatch` | consensus/src/server/tx_pool.rs:154-180 | The pool is ready exactly when the mineable transactions exceed the batch size; a batch made then reaches that size, and one made otherwise takes every mineable byte |
| `Batcher.StepSends` | consensus/src/server/rr_batcher.rs:105-182 | A turn sends at most one batch, only as leader, and after an earlier batch only if it starts a round |
| `Batcher.SendsIff` | consensus/src/server/rr_batcher.rs:105-182 | Exactly when a turn sends, and that what it sends is the batch of the pool at that moment |
| `Batcher.FollowsAnnounced` | consensus/src/server/rr_batcher.rs:139-147 | Over any run the batcher's leader and round are those of the last `NewRound`, or those it began with |
| `Batcher.SendsAsLeader` | consensus/src/server/rr_batcher.rs:105-182 | Over any run a turn sends exactly when the leader announced last is this node, nothing was sent since, and the timer fires or the pool is ready on a new transaction or round; it sends the batch of the announced round |
| `Batcher.OneBatchPerRound` | consensus/src/server/rr_batcher.rs:105-182 | Between two batches a round was announced, and the last announced before the second is one that this node leads |
| `Batcher.SentInFlight` | consensus/src/server/rr_batcher.rs:105-182 | What a turn sends is in flight under the round announced last |
| `Batcher.BatcherIsTrace` | consensus/src/server/rr_batcher.rs:105-160 | The batcher's pool is what its trace of pool operations makes of an empty pool |
| `Batcher.NoDoubleBatch` | consensus/src/server/rr_batcher.rs:105-182 | Two batches share a (client, nonce) only if the round announced for the earlier one was rolled back in between |
| `BatcherRun.IncomingExact` | consensus/src/server/rr_batcher.rs:122-137 | A transaction is recorded under its key, the last one given, unless it is stale or in flight, before the turn decides to send |
| `BatcherRun.AdmittedExact` | consensus/src/server/rr_batcher.rs:148-150 | A proposal puts its fresh keys in flight under its round and does nothing else |
| `BatcherRun.CommittedExact` | consensus/src/server/rr_batcher.rs:151-153 | A commit raises marks, takes its keys out of flight and drops what went stale |
| `BatcherRun.RolledBackExact` | consensus/src/server/rr_batcher.rs:154-156 | A rollback makes what its rounds had in flight mineable again if still fresh |
| `BatcherRun.StaleIffCommitted` | consensus/src/server/rr_batcher.rs:105-160 | Over any run a key is stale exactly when its nonce is at most the greatest one reported committed for its client |
| `BatcherRun.SentAboveCommitted` | consensus/src/server/rr_batcher.rs:105-182 | Nothing at or below a committed nonce of its client is ever sent |
| `Batcher.RRBatcher.Turn` | consensus/src/server/rr_batcher.rs:105-160 | One turn of the select loop reaches the state of the step function |
| `Batcher.RRBatcher.Send` | consensus/src/server/rr_batcher.rs:164-172 | Sealing a batch marks the round as proposed and sends it |
| `Batcher.RRBatcher.TryPropose` | consensus/src/server/rr_batcher.rs:175-182 | Proposes exactly as leader, once a round, and when ready |
| `BlockStore.InsertValid` | consensus/src/server/zeus/chain_state/db.rs:275-327 | An insert keeps the refinement invariant and the budget, never shrinks the metadata, and keeps the inserted block cached |
| `BlockStore.EvictFifo` | consensus/src/server/zeus/chain_state/db.rs:311-326 | Blocks leave the cache oldest first, no more than the budget demands, the newest never; only blocks above the watermark are written |
| `BlockStore.SteadyStateWritesNothing` | consensus/src/server/zeus/chain_state/db.rs:311-326 | When everything cached has been emitted, an insert writes nothing to disk |
| `BlockStore.WriteOneValid` | consensus/src/server/zeus/chain_state/db.rs:199-205 | A turn of the background writer keeps the invariant and what the disk will hold |
| `BlockStore.StoreRefinesMap` | consensus/src/server/zeus/chain_state/db.rs:242-329 | Over every run every inserted block above the watermark is cached, queued for writing or on disk, in the version inserted last, and once the queue drains `get` returns exactly it; nothing else is ever found; metadata covers exactly what was inserted |
| `BlockStore.MembershipGrows` | consensus/src/server/zeus/chain_state/db.rs:279-281 | Metadata membership never shrinks |
| `BlockStore.CacheBounded` | consensus/src/server/zeus/chain_state/db.rs:296-327 | The byte counter is exact and within budget unless a single block exceeds it |
| `BlockStore.DrainedDisk` | consensus/src/server/zeus/chain_state/db.rs:201-205 | Draining makes every queued write, in order, and touches nothing else |
| `StoreIndex.StoreIsIndex` | consensus/src/server/zeus/chain_state/db.rs:275-288 | After any run the metadata of a hash are its block's epoch, height and parent, for exactly genesis and what was inserted |
| `StoreIndex.StoreIsClosed` | consensus/src/server/zeus/chain_state/db.rs:275-288 | If every block is inserted after its parent, one height above it, the index is parent-closed, as the conflict check needs it |
| `StoreIndex.GetExact` | consensus/src/server/zeus/chain_state/db.rs:242-271 | A lookup finds genesis always, a never inserted block never, a cached one as inserted last, and any other as the disk has it |
| `StoreIndex.EvictReadsWatermark` | consensus/src/server/zeus/chain_state/db.rs:311-326 | The eviction loop reads the watermark anew for each block it drops |
| `StoreIndex.BudgetAndWatermark` | consensus/src/server/zeus/chain_state/db.rs:182-219 | Over any run the budget is the one given but at least 1, and the watermark is at least every height announced |
| `StoreIndex.CacheWithinBudget` | consensus/src/server/zeus/chain_state/db.rs:296-327 | What is cached is within that budget unless it is a single block |
| `BlockStore.DataBlockDB.constructor` | consensus/src/server/zeus/chain_state/db.rs:182-219 | Starts with genesis metadata, an empty cache and a budget of at least 1 |
| `BlockStore.DataBlockDB.InsertBlock` | consensus/src/server/zeus/chain_state/db.rs:275-288 | Reaches the specified state |
| `BlockStore.DataBlockDB.CachePut` | consensus/src/server/zeus/chain_state/db.rs:296-327 | The eviction loop is the recursive eviction, with the watermark read anew for each block |
| `BlockStore.DataBlockDB.DropOldest` | consensus/src/server/zeus/chain_state/db.rs:312-326 | One eviction spills or drops by the watermark |
| `BlockStore.DataBlockDB.WriterTurn` | consensus/src/server/zeus/chain_state/db.rs:201-205 | Writes the oldest queued payload |
| `BlockStore.DataBlockDB.Fetch` | consensus/src/server/zeus/chain_state/db.rs:242-271 | Looks in genesis, metadata, cache and disk, in this order |
| `PrefixLock.ConflictsDataPrefix` | consensus/src/server/zeus/chain_state/data_chain.rs:160-196 | The loops decide whether some pin fails the ancestor walk |
| `PrefixLock.ConflictsIff` | consensus/src/server/zeus/chain_state/data_chain.rs:160-196 | On a parent-closed index with heights rising by one, a candidate passes if and only if every pin claims its block's own height and that block is the candidate or an ancestor of it |
| `PrefixLock.FalseHeightBlocks` | consensus/src/server/zeus/chain_state/data_chain.rs:170-192 | A pin that claims a height other than its block's conflicts with every candidate |
| `PrefixLock.Latest` | consensus/src/server/zeus/chain_state/data_chain.rs:205-217 | The result is a member of greatest height, and there is one exactly when the lock is not empty |
| `PrefixLock.LockIsFirstHighest` | consensus/src/server/zeus/phases/commit.rs:296-310 | After any commits the lock holds one pin: the first of the greatest height |
| `PrefixLock.CommitCoversIff` | consensus/src/server/zeus/phases/commit.rs:296-310 | A commit is not checked: the lock goes on covering everything committed if and only if the lower of the old and the new pin, by claimed height, is an ancestor of the other |
| `PrefixLock.LockCoversIff` | consensus/src/server/zeus/phases/commit.rs:296-310 | After any commits the lock covers them all if and only if any two of their blocks are comparable and the locked one is the deepest |
| `PrefixLock.GenuineCoversIff` | consensus/src/server/zeus/phases/commit.rs:296-310 | For pins that claim their blocks' own heights comparability decides alone |
| `PrefixLock.ValidatedChainCovers` | consensus/src/server/zeus/phases/attestation.rs:134-217 | If the validated attestations claim their blocks' heights and no two of them name incomparable blocks, the lock covers every commit, however late it comes |
| `PrefixLock.LateCommitLosesPin` | consensus/src/server/zeus/phases/attestation.rs:203-215 | Of any two incomparable stored blocks of different heights the lower one is lost by a run that validates both before it commits both |
| `PrefixLock.ForkedRunLosesPin` | consensus/src/server/zeus/phases/commit.rs:296-310 | A concrete index and such a run |
| `PrefixLock.LockIsLinear` | consensus/src/server/zeus/chain_state/data_chain.rs:160-196 | Commits that were checked against the lock as it was when they were committed lie on one chain: each is an ancestor of every later one |
| `PrefixLock.PromptCovers` | consensus/src/server/zeus/phases/attestation.rs:203-215 | If between the validation and the commit of an attestation no other is committed, and heights are claimed truly, the lock covers everything committed |
| `PrefixLock.StartPassesIff` | consensus/src/server/zeus/core.rs:963-980 | Whatever was committed, the block a new epoch is truncated to passes the conflict check, and has the height recorded with it, if and only if the locked attestation claims its block's own height |
| `PrefixLock.AttestationValidIff` | consensus/src/server/zeus/phases/attestation.rs:167-217 | An attestation of a stored block passes if and only if the locked one claims its block's height and the block descends from the one a new epoch would start from |
| `EpochChange.AcceptedForkProvesIff` | consensus/src/server/zeus/chain_state/data_chain.rs:323-379 | An accepted equivocation blame proves two blocks of one epoch and height if and only if its blocks carry one epoch, which the code does not check |
| `EpochChange.HonestLeaderBlamed` | consensus/src/server/zeus/chain_state/data_chain.rs:342-378 | A concrete accepted blame against a leader that signed one block per epoch and height |
| `EpochChange.EleaderChangeQcValid` | consensus/src/server/zeus/chain_state/data_chain.rs:387-410 | The loop accepts exactly when every blame is of the epoch and accepted and more than `faults` distinct signers appear; the first bad blame decides |
| `EpochChange.FormsExact` | consensus/src/server/zeus/core.rs:871-935 | In any state a certificate is formed, admitted and multicast exactly when the epoch has none, more than f distinct signers are accumulated and every accumulated blame is accepted; otherwise nothing changes |
| `EpochChange.TryFormGood` | consensus/src/server/zeus/core.rs:871-935 | Trying to form after new blames restores the invariant for that epoch |
| `EpochChange.MergeCovers` | consensus/src/server/zeus/phases/blame.rs:134-148 | A merge keeps the local blames first, adds none for a (signer, reason) pair at hand and exactly one for any other pair of the certificate |
| `EpochChange.HandleGood` | consensus/src/server/zeus/phases/blame.rs:44-160 | Every handler keeps the epoch invariant, never lowers the epoch and drops no certificate |
| `EpochChange.RunGood` | consensus/src/server/zeus/core.rs:511-531 | In every reachable state the current epoch is one more than the greatest admitted one, every certificate but the first carries accepted blames of more than f signers, and an epoch with that many blamers waits for its certificate only if it holds a blame that is not accepted |
| `EpochChange.OwnForkAcceptedIff` | consensus/src/server/zeus/phases/data.rs:296-334 | A node adds its own blame for a collision unchecked; it would be accepted if and only if the stored block has the new one's height and the signature of the new one's leader |
| `EpochChange.BlamesGoodIff` | consensus/src/server/zeus/phases/data.rs:296-334 | Over any run every accumulated blame is accepted if and only if every collision met was between two blocks of one height and one leader |
| `EpochChange.NoEpochStuck` | consensus/src/server/zeus/core.rs:871-935 | Over such a run no epoch with more than f blamers waits for its certificate |
| `EpochChange.RefusedBlameStays` | consensus/src/server/zeus/core.rs:903-916 | Once an epoch holds a blame that is not accepted, its node forms no certificate for it, whatever arrives |
| `EpochChange.EpochCanGetStuck` | consensus/src/server/zeus/phases/data.rs:296-334 | A concrete run of four nodes with honest leaders in which three of them blame epoch 2 and its certificate is not formed |
| `EpochEffects.GotQCExact` | consensus/src/server/zeus/phases/blame.rs:102-160 | In any state a certificate of accepted blames by more than f signers for an epoch without one is admitted, its blames are joined in, and the node enters the next epoch unless it is beyond; any other changes nothing |
| `EpochEffects.CertificateTakesEffect` | consensus/src/server/zeus/phases/blame.rs:102-160 | Over any run, once a valid certificate has arrived its epoch has one and lies behind the node for good |
| `EpochEffects.GotBlameExact` | consensus/src/server/zeus/phases/blame.rs:44-93 | An accepted blame joins those of its epoch unless its signer gave that reason before; then the certificate is formed, sent and acted on exactly when due; any other changes nothing |
| `EpochEffects.SilenceExact` | consensus/src/server/zeus/core.rs:806-848 | On silence the node signs and sends a blame of the current epoch with the height it has seen, or 0, disarms the timer and counts itself |
| `EpochEffects.CollidedExact` | consensus/src/server/zeus/phases/data.rs:259-334 | A collision makes the node sign, send and count a blame for the two blocks; a proposal that fails its checks changes nothing |
| `EpochEffects.AcceptedIff` | consensus/src/server/zeus/chain_state/data_chain.rs:323-379 | A blame is accepted exactly when a known signer signed its content and an equivocation's two different blocks of the claimed height carry the leader's signature; the code panics exactly on an equivocation without blocks by a known id |
| `EpochEffects.CertificateVerdict` | consensus/src/server/zeus/chain_state/data_chain.rs:387-410 | A certificate is accepted exactly when all its blames are so and of its epoch and more than f signed; the code panics exactly if the first blame that is not is one without blocks |
| `EpochEffects.AdmittedVouched` | consensus/src/server/zeus/core.rs:871-935 | Over any run every certificate but the sentinel carries blames that more than f known ids signed for its epoch |
| `EpochChange.EpochNeverFalls` | consensus/src/server/zeus/core.rs:928-932 | Over any run the epoch never falls |
| `EpochChange.GateAcceptsCurrent` | consensus/src/server/zeus/chain_state/data_chain.rs:101-119 | With the node's own epoch the gate lets exactly that epoch through |
| `EpochChange.AdvanceTruncates` | consensus/src/server/zeus/core.rs:946-1047 | A new epoch starts clean from the locked block or genesis at the height its attestation claimed, in conflict with nothing locked if and only if the claim was true, and notifies the batcher exactly at the new leader |
| `EpochChange.OldAttestationPassesIff` | consensus/src/server/zeus/phases/attestation.rs:57-62 | After the change an attestation of a stored block, of any epoch and height, passes if and only if the locked claim was true and its block descends from the new head |
| `EpochChange.PurgeExact` | consensus/src/server/zeus/core.rs:988-1030 | A parked block survives exactly when it and its indexed parent are low enough, a parked attestation when its block is |
| `EpochObject.ZeusNode.constructor` | consensus/src/server/zeus/core.rs:510-535 | Epoch 1 with the epoch-0 sentinel admitted and an empty lock |
| `EpochObject.ZeusNode.LockCommitted` | consensus/src/server/zeus/phases/commit.rs:290-310 | Keeps what pins at least the new height and adds the new pin if nothing does |
| `EpochObject.ZeusNode.OnEleaderBlame` | consensus/src/server/zeus/phases/blame.rs:44-93 | Reaches the specified state; aborts exactly where the source panics |
| `EpochObject.ZeusNode.OnEleaderChangeQc` | consensus/src/server/zeus/phases/blame.rs:102-160 | Reaches the specified state, the merge loop included |
| `EpochObject.ZeusNode.OnDataTimerExpired` | consensus/src/server/zeus/core.rs:793-848 | The silence branch signs, sends and accumulates its own blame and tries to form a certificate |
| `EpochObject.ZeusNode.OnCollision` | consensus/src/server/zeus/phases/data.rs:259-334 | A proposed block that passes its checks but collides with a stored child of its parent is not admitted; the node signs, sends and accumulates a blame for the pair and tries to form a certificate |
| `EpochObject.ZeusNode.TryFormChangeQc` | consensus/src/server/zeus/core.rs:871-935 | Counts distinct signers, forms, admits, sends and advances |
| `EpochObject.ZeusNode.AdvanceToEpoch` | consensus/src/server/zeus/core.rs:946-1047 | Truncates, resets, purges in two passes, and notifies the new leader |
| `RoundBuffer.SyncHeld` | consensus/src/server/leto/round_context.rs:214-270 | A message at or above the current round is held once more, any other is dropped |
| `RoundBuffer.EntryOrder` | consensus/src/server/leto/round_context.rs:168-211 | On entry to a round the buffer holds exactly what waited for it: proposals, then certificates, then blames, each in arrival order |
| `RoundBuffer.AdvanceHeld` | consensus/src/server/leto/round_context.rs:143-211 | Ending a round drops exactly what is left of it |
| `RoundBuffer.PollHeld` | consensus/src/server/leto/round_context.rs:340-361 | What is handed out belongs to the current round and is held once less |
| `RoundBuffer.Conservation` | consensus/src/server/leto/round_context.rs:138-361 | Message by message and over any run, accepted = handed out + held + dropped with its round; messages for later rounds are all held, those for past rounds are not |
| `RoundBuffer.DeliveredInRound` | consensus/src/server/leto/round_context.rs:340-361 | Every message is handed out in its own round |
| `RoundOrder.HandedOutInOrder` | consensus/src/server/leto/round_context.rs:138-361 | Over any run, what was handed out since the round began followed by what is still buffered is the round's schedule, read off the events: what came early, proposals before certificates before blames and each kind as it came, then what has come since |
| `RoundOrder.NextIsScheduled` | consensus/src/server/leto/round_context.rs:340-361 | The next message handed out is the next of that schedule, and there is one exactly when the schedule is not done |
| `RoundOrder.WaitingIsEarly` | consensus/src/server/leto/round_context.rs:214-270 | Messages for a later round wait by kind, each kind in arrival order |
| `RoundOrder.EarlyInOrder` | consensus/src/server/leto/round_context.rs:168-211 | What came early is handed out proposals first, then certificates, then blames |
| `RoundBuffer.HandlersExact` | consensus/src/server/leto/round_context.rs:119-159 | After any run exactly the handlers added in the last 4n + 1 rounds are kept, in order |
| `RoundBuffer.HandlersKept` | consensus/src/server/leto/round_context.rs:119-159 | With n nodes exactly the handlers of the last 4n rounds and the current one are kept, or of the last 16 by default |
| `RoundBuffer.HandlersBounded` | consensus/src/server/leto/round_context.rs:157-159 | Cancel handlers span at most 4n + 1 rounds, 17 by default |
| `RoundBuffer.RoundContext.constructor` | consensus/src/server/leto/round_context.rs:83-95 | Starts in round 1 with nothing buffered |
| `RoundBuffer.RoundContext.SyncMsg` | consensus/src/server/leto/round_context.rs:214-270 | Drops, queues by kind, or buffers |
| `RoundBuffer.RoundContext.AdvanceRound` | consensus/src/server/leto/round_context.rs:138-211 | The collection and re-scheduling loops reach the specified state |
| `RoundBuffer.RoundContext.Next` | consensus/src/server/leto/round_context.rs:340-361 | Pops the front of the current round's buffer |
| `RoundBuffer.RoundContext.Track` | consensus/src/server/leto/round_context.rs:119-127 | Handlers are filed under the current round |
| `BlameQuorum.FormsIff` | consensus/src/server/leto/phases/blame.rs:92-112 | The `!=` test never steps over the threshold: a valid blame forms a certificate if and only if it completes a quorum, and the certificate's signers are exactly the blamers |
| `BlameQuorum.RunGood` | consensus/src/server/leto/phases/blame.rs:59-189 | Between two handlers fewer blames than a quorum are at hand, all on the current round, and every certificate formed is complete, sent, and the only one of its round |
| `BlameQuorum.CertificateComplete` | consensus/src/server/leto/phases/blame.rs:105-115 | Over any run every formed certificate carries exactly (n + f + 1) / 2 distinct known signers, all on the round it was formed in |
| `BlameQuorum.AdoptedCompleteIff` | consensus/src/server/leto/phases/blame.rs:132-189 | A received certificate is adopted and ends the round exactly when each of its signatures is good; it is complete if and only if it has a quorum of signatures, no two by one signer, which is not looked at |
| `BlameQuorum.EmptyCertificateAdopted` | consensus/src/types/cert.rs:18-31 | So a certificate without signatures is adopted and ends the round |
| `QuorumSteps.BlameTurn` | consensus/src/server/leto/phases/blame.rs:59-125 | A handed-out blame with a good signature joins the others; the one that completes a quorum forms, sends and stores the certificate of all of them and enters the next round with what waited for it; any other is dropped |
| `QuorumSteps.CertificateTurn` | consensus/src/server/leto/phases/blame.rs:132-189 | A handed-out certificate whose signatures are all good is passed on, stored and ends the round; any other is dropped |
| `QuorumSteps.ProposalTurn` | consensus/src/server/leto/phases/proposal.rs:124-172 | An accepted proposal becomes the highest and ends the round; a refused one is dropped |
| `QuorumSteps.OwnProposalTurn` | consensus/src/server/leto/phases/proposal.rs:251-264 | The same for a proposal of one's own, which also files the send handlers |
| `QuorumSteps.HighestBehind` | consensus/src/server/leto/phases/blame.rs:73-78 | Over any run the round of the last accepted proposal is behind, so the test against it never drops a blame |
| `BlameQuorum.Overlap` | consensus/src/server/leto/phases/blame.rs:81-84 | Two quorums share at least 2 * ((n + f + 1) / 2) - n members |
| `BlameQuorum.ShareHonestIff` | consensus/src/server/leto/phases/blame.rs:81-84 | Any two quorums share a member outside any f faulty ones if and only if n + f is odd |
| `BlameQuorum.ThirdFaulty` | consensus/src/server/leto/phases/blame.rs:81-84 | For n = 3f + 1 the quorum is 2f + 1 and any two share an honest member |
| `BlameQuorum.LetoBlames.OnBlame` | consensus/src/server/leto/phases/blame.rs:59-125 | Reaches the specified state |
| `BlameQuorum.LetoBlames.OnQC` | consensus/src/server/leto/phases/blame.rs:132-154 | A received certificate is adopted exactly when each of its signatures verifies and the round has none yet |
| `BlameQuorum.LetoBlames.OnOwnProposal` | consensus/src/server/leto/phases/proposal.rs:251-264 | The leader tracks its broadcast and handles its own proposal at once, past the buffer |
| `BlameQuorum.LetoBlames.AdoptQC` | consensus/src/server/leto/phases/blame.rs:156-189 | Sends and stores the certificate and enters the next round |

## Left out

- Sockets, channels, tasks, timers and RocksDB itself; they appear as steps, sequences of sent messages and maps.
- Machine integer widths: rounds, heights, nonces and sizes are unbounded.
- Hash collisions, key generation and serialization; a transaction's serialized length is a field of it.
- `MultiAuthorDataChainState::admit`, the untyped duplicate of `admit_typed`.
- The Hera and Zeus commit contexts, which repeat Leto's window rule and pick an attestation from each committed element; the committed attestations they hand over are inputs here.
- `HeraNode.Hera.OnCommittedAttestation`: does not model metrics, latency samples, debug assertions, or the early return when the application's channel is closed.
- `HeraNode.Hera.MakeMultiAttestation`: the update of what was last attested is part of the proposal phase and is not part of this model.
- `CommitObject.CommitContext.EndRound`: a failed database read and a missing element are one case, and the loop's early exit when the application's channel is closed is left out.
- `CommitChain.CommitLogIsChain`: is stated for at most one new element per round, which `CommitAnyInput.RunSoundIff` shows to be necessary for log and queue together.
- `LeaderRotation.DistinctLeadersIff`: is stated for a history shorter than the committee, as `LeaderRotation.QuorumLeavesEligible` shows it is for the committee's own fault bound.
- Whether a Leto proposal is valid; the proposal's certificate check only logs. Global agreement between Leto nodes is not decided by this code.
- `PoolObject.Txpool.Make`: does not model the reset of the batch timer.
- `BlockStore.StoreRefinesMap`: says nothing about blocks at or below the watermark that have left the cache, which the store drops.
- `EpochChange.HandleGood`: handlers that touch neither epoch nor certificates nor blames, such as admission and proposal of data blocks, are one step that may change everything else; a proposed block that collides is a step of its own.
- `EpochObject.ZeusNode.OnCollision`: the stored child is an argument, and failures to read it or to sign are left out.
- `EpochObject.ZeusNode.OnDataTimerExpired`: the branch that only re-arms while waiting for a fresh block is left out.
- `PrefixLock.ValidatedChainCovers`: runs keep one index; blocks stored later do not change what the check says of those stored before.
- `EpochObject.ZeusNode.LockCommitted`: the emission walk that follows the update of the lock is not part of this model.
- `BlameQuorum.LetoBlames.OnBlame`: lists a certificate's signatures in ascending order of signer; in the source the order is that of a hash map.
- `BlameQuorum.LetoBlames.OnOwnProposal`: whether the proposal is accepted is an argument.
- Round equality for the Zeus and Hera round states, whose buffers are not purged on advance.
- Clients, command lines, benchmarks, the stress test and the plotting scripts.
