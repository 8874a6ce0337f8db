/** What the engine's messages and the clients' transactions do to a batcher's pool,
    turn by turn and over runs. */
module BatcherRun {
  import opened Base
  import opened TxPool
  import opened PoolLaws
  import opened PoolTraces
  import opened PoolEffects
  import opened Batcher


  /** A client's transaction is recorded under its key, the last one given, unless it
      is stale or in flight; it is there when the turn makes its batch. */
  lemma IncomingExact(b: Robin, tx: Tx, size: nat)
    requires Rep(b.pool)
    ensures var e := Event.Incoming(tx, size); var p, k := PoolAtSend(b, e), KeyOf(tx);
            && p.inflight == b.pool.inflight && p.high == b.pool.high
            && (if Stale(b.pool, k) || k in b.pool.inflight then p.mineable == b.pool.mineable
                else p.mineable == b.pool.mineable[k := Sized(tx, size)])
            && (!Sends(b, e) ==> Step(b, e).pool == p)
  {
    hide MakeBatch;
  }

  /** Another node's proposal puts its fresh keys in flight under its round. */
  lemma AdmittedExact(b: Robin, batch: seq<Tx>, round: nat, x: Key)
    requires Rep(b.pool)
    ensures var r := Step(b, Event.Admitted(batch, round));
            AdmitEffect(b.pool, r.pool, batch, round, x) && r == b.(pool := r.pool)
  {
    hide AdmitProposal, AdmitEffect;
    AdmitExact(b.pool, batch, round, x);
  }

  /** A commit raises its clients' marks, takes its keys out of flight and drops what
      went stale. */
  lemma CommittedExact(b: Robin, batch: seq<Tx>, round: nat, c: Id)
    requires Rep(b.pool)
    ensures var r := Step(b, Event.Committed(batch, round));
            && High(r.pool, c) == Max(High(b.pool, c), MaxNonce(batch, c))
            && r.pool.inflight == b.pool.inflight - Keys(batch)
            && r.pool.mineable == (map k | k in b.pool.mineable && !Stale(r.pool, k) :: b.pool.mineable[k])
            && r == b.(pool := r.pool)
  {
    hide Commit;
    CommitExact(b.pool, batch, round, c);
  }

  /** A rollback makes what its rounds had in flight mineable again, if still fresh. */
  lemma RolledBackExact(b: Robin, rounds: seq<nat>)
    requires Rep(b.pool)
    ensures var r := Step(b, Event.RolledBack(rounds));
            && r.pool.inflight == Untagged(b.pool.inflight, rounds)
            && r.pool.mineable == b.pool.mineable + Reopened(b.pool, rounds)
            && r.pool.high == b.pool.high && r == b.(pool := r.pool)
  {
    hide Rollback;
    RollbackExact(b.pool, rounds);
  }

  // ----- Marks over a run -----

  /** The greatest nonce that the engine reported committed for a client. */
  function CommittedFor(es: seq<Event>, c: Id): nat
    decreases |es|
  {
    if es == [] then 0
    else
      match es[|es| - 1]
      case Committed(batch, _) => Max(CommittedFor(es[..|es| - 1], c), MaxNonce(batch, c))
      case _ => CommittedFor(es[..|es| - 1], c)
  }

  lemma StepHigh(b: Robin, e: Event, c: Id)
    requires Rep(b.pool)
    ensures High(Step(b, e).pool, c)
         == if e.Committed? then Max(High(b.pool, c), MaxNonce(e.batch, c)) else High(b.pool, c)
  {
    hide MakeBatch, AddTx, AdmitProposal, Commit, Rollback, Rep;
    var p := PoolAtSend(b, e);
    PoolAtSendRep(b, e);
    match e
    case Tick => HighUnchanged(p, Make(b.round), c);
    case Incoming(tx, size) =>
      HighUnchanged(b.pool, Add(tx, size), c);
      HighUnchanged(p, Make(b.round), c);
    case NewRound(_, round) => HighUnchanged(p, Make(round), c);
    case Admitted(batch, round) => HighUnchanged(b.pool, Admit(batch, round), c);
    case Committed(batch, round) => CommitExact(b.pool, batch, round, c);
    case RolledBack(rounds) => HighUnchanged(b.pool, Undo(rounds), c);
  }

  /** Over any run a key is stale exactly when its nonce is at most the greatest one
      reported committed for its client, nonce 0 always. */
  lemma {:induction false} StaleIffCommitted(me: Id, leader: Id, batchSize: nat, es: seq<Event>, k: Key)
    ensures var b := Run(Begin(me, leader, batchSize), es);
            High(b.pool, k.client) == CommittedFor(es, k.client)
            && (Stale(b.pool, k) <==> k.nonce <= CommittedFor(es, k.client))
    decreases |es|
  {
    hide Step, Rep;
    if es != [] {
      var b := Run(Begin(me, leader, batchSize), es[..|es| - 1]);
      StaleIffCommitted(me, leader, batchSize, es[..|es| - 1], k);
      BatcherIsTrace(me, leader, batchSize, es[..|es| - 1]);
      StepHigh(b, es[|es| - 1], k.client);
    }
  }

  /** Nothing at or below a committed nonce of its client is ever sent. */
  lemma SentAboveCommitted(me: Id, leader: Id, batchSize: nat, es: seq<Event>, e: Event, k: Key)
    requires k in Sent(Run(Begin(me, leader, batchSize), es), e)
    ensures k.nonce > CommittedFor(es, k.client)
  {
    hide Step, Rep, Sends, MakeBatch, Proposed, Stale, PoolAtSend;
    var b := Run(Begin(me, leader, batchSize), es);
    BatcherIsTrace(me, leader, batchSize, es);
    StaleIffCommitted(me, leader, batchSize, es, k);
    if Stale(b.pool, k) {
      StaleHeld(b.pool, k);
      NotSentWhileHeld(b, e, k, b.round);
    }
  }

  lemma StaleHeld(p: Pool, k: Key)
    requires Stale(p, k)
    ensures forall round: nat :: Held(p, k, round)
  {
  }
}
