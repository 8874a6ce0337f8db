/** The mempool over whole traces of operations. */
module PoolTraces {
  import opened Base
  import opened TxPool
  import opened PoolLaws

  datatype Op =
    | Add(tx: Tx, size: nat)
    | Admit(batch: seq<Tx>, round: nat)
    | Make(round: nat)
    | Finalize(batch: seq<Tx>, round: nat)
    | Undo(rounds: seq<nat>)

  function Apply(p: Pool, op: Op): Pool {
    match op
    case Add(tx, size) => AddTx(p, tx, size)
    case Admit(batch, round) => AdmitProposal(p, batch, round)
    case Make(round) => MakeBatch(p, round).0
    case Finalize(batch, round) => Commit(p, batch, round)
    case Undo(rounds) => Rollback(p, rounds)
  }

  /** The keys of the batch that an operation puts out. */
  function Proposed(p: Pool, op: Op): set<Key> {
    if op.Make? then set tx | tx in MakeBatch(p, op.round).1 :: KeyOf(tx) else {}
  }

  function RunOps(batchSize: nat, ops: seq<Op>): Pool
    decreases |ops|
  {
    if ops == [] then Empty(batchSize)
    else Apply(RunOps(batchSize, ops[..|ops| - 1]), ops[|ops| - 1])
  }

  lemma ApplyRep(p: Pool, op: Op)
    requires Rep(p)
    ensures Rep(Apply(p, op))
  {
    match op
    case Add(tx, size) => AddTxRep(p, tx, size);
    case Admit(batch, round) => AdmitProposalRep(p, batch, round);
    case Make(round) => MakeBatchRep(p, round);
    case Finalize(batch, round) => CommitRep(p, batch, round);
    case Undo(rounds) => RollbackRep(p, rounds);
  }

  /** The representation invariant holds after every sequence of operations. */
  lemma {:induction false} RunRep(batchSize: nat, ops: seq<Op>)
    ensures Rep(RunOps(batchSize, ops))
    decreases |ops|
  {
    hide Rep, Apply;
    if ops == [] {
      EmptyRep(batchSize);
    } else {
      RunRep(batchSize, ops[..|ops| - 1]);
      ApplyRep(RunOps(batchSize, ops[..|ops| - 1]), ops[|ops| - 1]);
    }
  }

  // ----- What becomes of one key -----

  predicate InPool(p: Pool, k: Key) {
    k in p.mineable || k in p.inflight
  }

  /** Marks do not fall, and `k` leaves the pool only by going stale. */
  predicate Carries(p: Pool, q: Pool, k: Key) {
    && (Stale(p, k) ==> Stale(q, k))
    && (InPool(p, k) && !Stale(q, k) ==> InPool(q, k))
  }

  /** `k` also stays in flight, with its transaction and round, unless it goes stale. */
  predicate Flies(p: Pool, q: Pool, k: Key) {
    k in p.inflight && !Stale(q, k) ==> k in q.inflight && q.inflight[k] == p.inflight[k]
  }

  lemma LaunchFlies(p: Pool, k: Key, f: Flight, x: Key)
    requires k !in p.inflight
    ensures Carries(p, Launch(p, k, f), x) && Flies(p, Launch(p, k, f), x)
  {
  }

  lemma {:induction false} AdmitAllFlies(p: Pool, batch: seq<Tx>, round: nat, x: Key)
    ensures Carries(p, AdmitAll(p, batch, round), x) && Flies(p, AdmitAll(p, batch, round), x)
    decreases |batch|
  {
    hide Launch, Stale;
    if batch != [] {
      var k := KeyOf(batch[0]);
      if !Stale(p, k) && k !in p.inflight {
        LaunchFlies(p, k, Flight(batch[0], if k in p.mineable then p.mineable[k].size else batch[0].wireSize, round), x);
      }
      AdmitAllFlies(AdmitOne(p, batch[0], round), batch[1..], round, x);
    }
  }

  lemma MakeFlies(p: Pool, round: nat, x: Key)
    requires Rep(p)
    ensures Carries(p, MakeBatch(p, round).0, x) && Flies(p, MakeBatch(p, round).0, x)
  {
    hide MakeBatch, Flights, SortedItems, KeysOf, Rising;
    var (q, payload) := MakeBatch(p, round);
    BatchIsShortestPrefix(p, round);
    SortedItemsCorrect(p.mineable);
    var front := SortedItems(p.mineable)[..|payload|];
    assert ItemsOf(front, p.mineable);
    FlightsValues(front, p.mineable, round);
  }

  lemma CommitOneFlies(p: Pool, k: Key, x: Key)
    ensures Carries(p, CommitOne(p, k), x) && Flies(p, CommitOne(p, k), x)
    ensures k.client == x.client && x.nonce <= k.nonce ==> Stale(CommitOne(p, k), x)
  {
  }

  lemma {:induction false} CommitAllFlies(p: Pool, batch: seq<Tx>, x: Key)
    ensures Carries(p, CommitAll(p, batch), x) && Flies(p, CommitAll(p, batch), x)
    ensures (exists tx :: tx in batch && tx.client == x.client && x.nonce <= tx.nonce) ==>
              Stale(CommitAll(p, batch), x)
    decreases |batch|
  {
    hide CommitOne, Stale;
    if batch != [] {
      CommitOneFlies(p, KeyOf(batch[0]), x);
      CommitAllFlies(CommitOne(p, KeyOf(batch[0])), batch[1..], x);
    }
  }

  lemma CommitFlies(p: Pool, batch: seq<Tx>, round: nat, x: Key)
    ensures Carries(p, Commit(p, batch, round), x) && Flies(p, Commit(p, batch, round), x)
    ensures (exists tx :: tx in batch && tx.client == x.client && x.nonce <= tx.nonce) ==>
              Stale(Commit(p, batch, round), x)
  {
    hide CommitAll, Total;
    CommitAllFlies(p, batch, x);
  }

  lemma RollbackRoundFlies(p: Pool, round: nat, x: Key)
    requires Rep(p)
    ensures Carries(p, RollbackRound(p, round), x)
    ensures !InFlightAt(p, x, round) ==> Flies(p, RollbackRound(p, round), x)
  {
    hide Total;
  }

  lemma {:induction false} RollbackFlies(p: Pool, rounds: seq<nat>, x: Key)
    requires Rep(p)
    ensures Carries(p, Rollback(p, rounds), x)
    ensures !(x in p.inflight && p.inflight[x].round in rounds) ==> Flies(p, Rollback(p, rounds), x)
    decreases |rounds|
  {
    hide Rep, RollbackRound, Stale;
    if rounds != [] {
      RollbackRoundFlies(p, rounds[0], x);
      RollbackRoundRep(p, rounds[0]);
      RollbackFlies(RollbackRound(p, rounds[0]), rounds[1..], x);
    }
  }

  /** No operation loses a transaction that is still fresh, and only a rollback
      of its own round takes it out of flight. */
  lemma ApplyCarries(p: Pool, op: Op, x: Key)
    requires Rep(p)
    ensures Carries(p, Apply(p, op), x)
    ensures !(op.Undo? && x in p.inflight && p.inflight[x].round in op.rounds) ==> Flies(p, Apply(p, op), x)
  {
    hide Rep;
    match op
    case Add(tx, size) =>
    case Admit(batch, round) => AdmitAllFlies(Touch(p, round), batch, round, x);
    case Make(round) => MakeFlies(p, round, x);
    case Finalize(batch, round) => CommitFlies(p, batch, round, x);
    case Undo(rounds) => RollbackFlies(p, rounds, x);
  }

  // ----- No double proposal -----

  predicate Rolls(op: Op, round: nat) {
    op.Undo? && round in op.rounds
  }

  /** `k` cannot be proposed again until `round` is rolled back. */
  predicate Held(p: Pool, k: Key, round: nat) {
    Stale(p, k) || InFlightAt(p, k, round)
  }

  lemma HeldKept(p: Pool, op: Op, k: Key, round: nat)
    requires Rep(p) && Held(p, k, round) && !Rolls(op, round)
    ensures Held(Apply(p, op), k, round)
  {
    hide Rep, Stale, Apply;
    ApplyCarries(p, op, k);
  }

  lemma ProposedIsHeld(p: Pool, op: Op, k: Key)
    requires Rep(p) && op.Make? && k in Proposed(p, op)
    ensures Held(Apply(p, op), k, op.round)
  {
    hide Rep, MakeBatch, Stale;
    var tx :| tx in MakeBatch(p, op.round).1 && KeyOf(tx) == k;
    BatchKeys(p, op.round, tx);
  }

  lemma HeldIsNotProposed(p: Pool, op: Op, k: Key, round: nat)
    requires Rep(p) && Held(p, k, round)
    ensures k !in Proposed(p, op)
  {
    hide Rep, MakeBatch, Stale;
    if k in Proposed(p, op) {
      var tx :| tx in MakeBatch(p, op.round).1 && KeyOf(tx) == k;
      BatchKeys(p, op.round, tx);
    }
  }

  lemma {:induction false} HeldThrough(
      batchSize: nat, ops: seq<Op>, i: nat, j: nat, k: Key, round: nat)
    requires i <= j <= |ops| && Held(RunOps(batchSize, ops[..i]), k, round)
    requires forall m | i <= m < j :: !Rolls(ops[m], round)
    ensures Held(RunOps(batchSize, ops[..j]), k, round)
    decreases j
  {
    hide Rep, Held, Apply;
    if i < j {
      HeldThrough(batchSize, ops, i, j - 1, k, round);
      RunRep(batchSize, ops[..j - 1]);
      assert ops[..j][..j - 1] == ops[..j - 1];
      HeldKept(RunOps(batchSize, ops[..j - 1]), ops[j - 1], k, round);
    }
  }

  /** A (client, nonce) is proposed twice only if the earlier batch's round was
      rolled back in between. */
  lemma NoDoubleProposal(batchSize: nat, ops: seq<Op>, i: nat, j: nat, k: Key)
    requires i < j < |ops|
    requires k in Proposed(RunOps(batchSize, ops[..i]), ops[i])
    requires k in Proposed(RunOps(batchSize, ops[..j]), ops[j])
    ensures exists m :: i < m < j && Rolls(ops[m], ops[i].round)
  {
    hide Rep, Held, Apply, MakeBatch;
    RunRep(batchSize, ops[..i]);
    RunRep(batchSize, ops[..j]);
    assert ops[..i + 1][..i] == ops[..i];
    ProposedIsHeld(RunOps(batchSize, ops[..i]), ops[i], k);
    if forall m | i < m < j :: !Rolls(ops[m], ops[i].round) {
      HeldThrough(batchSize, ops, i + 1, j, k, ops[i].round);
      HeldIsNotProposed(RunOps(batchSize, ops[..j]), ops[j], k, ops[i].round);
    }
  }

  lemma {:induction false} StaleThrough(batchSize: nat, ops: seq<Op>, i: nat, j: nat, k: Key)
    requires i <= j <= |ops| && Stale(RunOps(batchSize, ops[..i]), k)
    ensures Stale(RunOps(batchSize, ops[..j]), k)
    decreases j
  {
    hide Rep, Stale, Apply;
    if i < j {
      StaleThrough(batchSize, ops, i, j - 1, k);
      RunRep(batchSize, ops[..j - 1]);
      assert ops[..j][..j - 1] == ops[..j - 1];
      ApplyCarries(RunOps(batchSize, ops[..j - 1]), ops[j - 1], k);
    }
  }

  /** Nothing at or below a committed nonce of its client is ever proposed again. */
  lemma NeverAfterCommit(batchSize: nat, ops: seq<Op>, m: nat, j: nat, k: Key, tx: Tx)
    requires m < j < |ops| && ops[m].Finalize? && tx in ops[m].batch
    requires tx.client == k.client && k.nonce <= tx.nonce
    ensures k !in Proposed(RunOps(batchSize, ops[..j]), ops[j])
  {
    hide Rep, Stale, MakeBatch, Commit;
    var p := RunOps(batchSize, ops[..m]);
    CommitFlies(p, ops[m].batch, ops[m].round, k);
    assert ops[..m + 1][..m] == ops[..m];
    StaleThrough(batchSize, ops, m + 1, j, k);
    RunRep(batchSize, ops[..j]);
    HeldIsNotProposed(RunOps(batchSize, ops[..j]), ops[j], k, 0);
  }
}
