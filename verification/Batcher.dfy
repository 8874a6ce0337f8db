/** The round-robin batcher: an event loop over the mempool that seals at most
    one batch per round, and only as leader. */
module Batcher {
  import opened Base
  import opened TxPool
  import opened PoolLaws
  import opened PoolTraces
  import opened PoolObject

  datatype Event =
    | Tick
    | Incoming(tx: Tx, size: nat)
    | NewRound(leader: Id, round: nat)
    | Admitted(batch: seq<Tx>, round: nat)
    | Committed(batch: seq<Tx>, round: nat)
    | RolledBack(rounds: seq<nat>)

  /** The value of an `RRBatcher` object; `out` are the batches sent. */
  datatype Robin = Robin(
    me: Id, leader: Id, round: nat, proposed: bool, pool: Pool, out: seq<seq<Tx>>)

  function Begin(me: Id, leader: Id, batchSize: nat): Robin {
    Robin(me, leader, 0, false, Empty(batchSize), [])
  }

  predicate MayPropose(b: Robin) {
    b.me == b.leader && !b.proposed
  }

  function Propose(b: Robin): Robin {
    var (pool, batch) := MakeBatch(b.pool, b.round);
    b.(pool := pool, proposed := true, out := b.out + [batch])
  }

  /** One turn of the event loop. The timer branch is disabled, and so changes
      nothing, when the batcher may not propose. */
  function Step(b: Robin, e: Event): Robin {
    match e
    case Tick => if MayPropose(b) then Propose(b) else b
    case Incoming(tx, size) =>
      var b' := b.(pool := AddTx(b.pool, tx, size));
      if MayPropose(b) && Ready(b'.pool) then Propose(b') else b'
    case NewRound(leader, round) =>
      var b' := b.(leader := leader, round := round, proposed := false);
      if MayPropose(b') && Ready(b'.pool) then Propose(b') else b'
    case Admitted(batch, round) => b.(pool := AdmitProposal(b.pool, batch, round))
    case Committed(batch, round) => b.(pool := Commit(b.pool, batch, round))
    case RolledBack(rounds) => b.(pool := Rollback(b.pool, rounds))
  }

  function Run(start: Robin, es: seq<Event>): Robin
    decreases |es|
  {
    if es == [] then start else Step(Run(start, es[..|es| - 1]), es[|es| - 1])
  }

  // ----- The leader and the round are the ones announced last -----

  /** Leader and round of the last `NewRound`, or those of the start. */
  function Announced(first: Id, es: seq<Event>): (Id, nat)
    decreases |es|
  {
    if es == [] then (first, 0)
    else
      match es[|es| - 1]
      case NewRound(leader, round) => (leader, round)
      case _ => Announced(first, es[..|es| - 1])
  }

  predicate LastRoundAt(es: seq<Event>, m: nat) {
    m < |es| && es[m].NewRound? && forall q | m < q < |es| :: !es[q].NewRound?
  }

  lemma {:induction false} AnnouncedIs(first: Id, es: seq<Event>)
    ensures forall m: nat | LastRoundAt(es, m) :: Announced(first, es) == (es[m].leader, es[m].round)
    ensures (forall e <- es :: !e.NewRound?) ==> Announced(first, es) == (first, 0)
    ensures (exists e <- es :: e.NewRound?) ==> exists m: nat :: LastRoundAt(es, m)
    decreases |es|
  {
    if es != [] {
      var n := |es| - 1;
      var front := es[..n];
      AnnouncedIs(first, front);
      if es[n].NewRound? {
        assert LastRoundAt(es, n);
      } else {
        forall m: nat ensures LastRoundAt(es, m) <==> LastRoundAt(front, m) {
          LastRoundSnoc(es, m);
        }
        assert forall e <- front :: e in es;
        assert es == front + [es[n]];
      }
    }
  }

  lemma LastRoundSnoc(es: seq<Event>, m: nat)
    requires es != [] && !es[|es| - 1].NewRound?
    ensures LastRoundAt(es, m) <==> LastRoundAt(es[..|es| - 1], m)
  {
    var front := es[..|es| - 1];
    if LastRoundAt(es, m) {
      assert forall q | m < q < |front| :: front[q] == es[q];
    }
    if LastRoundAt(front, m) {
      forall q | m < q < |es| ensures !es[q].NewRound? {
        assert q < |front| ==> front[q] == es[q];
      }
    }
  }

  lemma StepAnnounced(b: Robin, e: Event)
    ensures var r := Step(b, e);
            && r.me == b.me
            && (r.leader, r.round) == if e.NewRound? then (e.leader, e.round) else (b.leader, b.round)
  {
    hide MakeBatch, AddTx, AdmitProposal, Commit, Rollback;
  }

  /** Over any run the batcher goes by the leader and round announced last. */
  lemma {:induction false} FollowsAnnounced(me: Id, leader: Id, batchSize: nat, es: seq<Event>)
    ensures var b := Run(Begin(me, leader, batchSize), es);
            b.me == me && (b.leader, b.round) == Announced(leader, es)
    decreases |es|
  {
    hide Step;
    if es != [] {
      FollowsAnnounced(me, leader, batchSize, es[..|es| - 1]);
      StepAnnounced(Run(Begin(me, leader, batchSize), es[..|es| - 1]), es[|es| - 1]);
    }
  }

  lemma RunMore(start: Robin, es: seq<Event>, i: nat)
    requires i < |es|
    ensures es[..i + 1] == es[..i] + [es[i]]
    ensures Run(start, es[..i + 1]) == Step(Run(start, es[..i]), es[i])
  {
    assert es[..i + 1][..i] == es[..i];
  }

  // ----- One batch per round, and only as leader -----

  predicate Sends(b: Robin, e: Event) {
    |Step(b, e).out| > |b.out|
  }

  /** The pool from which a turn makes its batch. */
  function PoolAtSend(b: Robin, e: Event): Pool {
    if e.Incoming? then AddTx(b.pool, e.tx, e.size) else b.pool
  }

  /** A turn sends at most one batch, only for the round and leader it ends in,
      and not after an earlier batch unless the turn starts a round. */
  lemma StepSends(b: Robin, e: Event)
    ensures |Step(b, e).out| == |b.out| + (if Sends(b, e) then 1 else 0) && b.out <= Step(b, e).out
    ensures Sends(b, e) ==> Step(b, e).leader == b.me && Step(b, e).proposed && (e.NewRound? || !b.proposed)
    ensures !e.NewRound? && b.proposed ==> Step(b, e).proposed
    ensures Step(b, e).me == b.me
    ensures !e.NewRound? ==> Step(b, e).round == b.round && Step(b, e).leader == b.leader
  {
    hide MakeBatch, AddTx, AdmitProposal, Commit, Rollback;
  }

  /** Exactly when a turn sends: on its timer, or on reaching the batch size by a
      new transaction or with what a new round finds. */
  lemma SendsIff(b: Robin, e: Event)
    ensures Sends(b, e) <==>
              && Step(b, e).leader == b.me && (e.NewRound? || !b.proposed)
              && (e.Tick? || ((e.Incoming? || e.NewRound?) && Ready(PoolAtSend(b, e))))
    ensures Sends(b, e) ==> Step(b, e).out[|b.out|] == MakeBatch(PoolAtSend(b, e), Step(b, e).round).1
  {
    hide MakeBatch, AddTx, AdmitProposal, Commit, Rollback;
  }

  lemma {:induction false} StaysProposed(start: Robin, es: seq<Event>, i: nat, j: nat)
    requires i <= j <= |es| && Run(start, es[..i]).proposed
    requires forall m | i <= m < j :: !es[m].NewRound?
    ensures Run(start, es[..j]).proposed
    decreases j
  {
    hide Step;
    if i < j {
      StaysProposed(start, es, i, j - 1);
      assert es[..j][..j - 1] == es[..j - 1];
      StepSends(Run(start, es[..j - 1]), es[j - 1]);
    }
  }

  /** A batch was sent since the last `NewRound`, in its turn included. */
  predicate SentThisRound(start: Robin, es: seq<Event>)
    decreases |es|
  {
    es != [] &&
    (var n := |es| - 1;
     Sends(Run(start, es[..n]), es[n]) || (!es[n].NewRound? && SentThisRound(start, es[..n])))
  }

  lemma {:induction false} ProposedIsSent(me: Id, leader: Id, batchSize: nat, es: seq<Event>)
    ensures Run(Begin(me, leader, batchSize), es).proposed
       <==> SentThisRound(Begin(me, leader, batchSize), es)
    decreases |es|
  {
    hide Step, Sends;
    if es != [] {
      var b := Run(Begin(me, leader, batchSize), es[..|es| - 1]);
      ProposedIsSent(me, leader, batchSize, es[..|es| - 1]);
      StepProposed(b, es[|es| - 1]);
    }
  }

  lemma StepProposed(b: Robin, e: Event)
    ensures Step(b, e).proposed <==> Sends(b, e) || (!e.NewRound? && b.proposed)
  {
    hide MakeBatch, AddTx, AdmitProposal, Commit, Rollback;
  }

  /** Over any run a turn sends exactly when the leader announced last is this node,
      nothing was sent since, and the timer fires or the pool is ready on a new
      transaction or round; it sends the batch of the announced round. */
  lemma SendsAsLeader(me: Id, leader: Id, batchSize: nat, es: seq<Event>, e: Event)
    ensures var start := Begin(me, leader, batchSize); var b := Run(start, es);
            && (Sends(b, e) <==>
                  && Announced(leader, es + [e]).0 == me && (e.NewRound? || !SentThisRound(start, es))
                  && (e.Tick? || ((e.Incoming? || e.NewRound?) && Ready(PoolAtSend(b, e)))))
            && (Sends(b, e) ==>
                  Step(b, e).out == b.out + [MakeBatch(PoolAtSend(b, e), Announced(leader, es + [e]).1).1])
  {
    hide Step, Sends, MakeBatch, PoolAtSend;
    var start := Begin(me, leader, batchSize);
    var b := Run(start, es);
    assert (es + [e])[..|es|] == es;
    FollowsAnnounced(me, leader, batchSize, es + [e]);
    FollowsAnnounced(me, leader, batchSize, es);
    StepAnnounced(b, e);
    ProposedIsSent(me, leader, batchSize, es);
    SendsIff(b, e);
    SendsAppends(b, e);
  }

  lemma SendsAppends(b: Robin, e: Event)
    ensures Step(b, e).out == if Sends(b, e) then b.out + [MakeBatch(PoolAtSend(b, e), Step(b, e).round).1] else b.out
  {
    hide MakeBatch, AddTx, AdmitProposal, Commit, Rollback;
  }

  /** Between two batches the engine announced a round that this node leads. */
  lemma OneBatchPerRound(me: Id, leader: Id, batchSize: nat, es: seq<Event>, i: nat, j: nat)
    requires i < j < |es|
    requires var start := Begin(me, leader, batchSize);
             Sends(Run(start, es[..i]), es[i]) && Sends(Run(start, es[..j]), es[j])
    ensures exists m :: i < m && LastRoundAt(es[..j + 1], m) && es[m].leader == me
  {
    hide Step, Sends, LastRoundAt;
    var start := Begin(me, leader, batchSize);
    RunMore(start, es, i);
    RunMore(start, es, j);
    StepSends(Run(start, es[..i]), es[i]);
    StepSends(Run(start, es[..j]), es[j]);
    FollowsAnnounced(me, leader, batchSize, es[..j + 1]);
    FollowsAnnounced(me, leader, batchSize, es[..j]);
    AnnouncedIs(leader, es[..j + 1]);
    if forall m | i < m <= j :: !es[m].NewRound? {
      StaysProposed(start, es, i + 1, j);
    }
    var q :| i < q <= j && es[q].NewRound?;
    assert es[..j + 1][q] == es[q];
    var m: nat :| LastRoundAt(es[..j + 1], m);
    LastRoundAfter(es[..j + 1], m, q);
    assert es[..j + 1][m] == es[m];
  }

  lemma LastRoundAfter(es: seq<Event>, m: nat, q: nat)
    requires LastRoundAt(es, m) && q < |es| && es[q].NewRound?
    ensures q <= m < |es|
  {
  }

  // ----- The batcher is a trace of pool operations -----

  /** The pool operations of one turn. */
  function OpsOf(b: Robin, e: Event): seq<Op> {
    var first :=
      match e
      case Tick => []
      case NewRound(_, _) => []
      case Incoming(tx, size) => [Add(tx, size)]
      case Admitted(batch, round) => [Admit(batch, round)]
      case Committed(batch, round) => [Finalize(batch, round)]
      case RolledBack(rounds) => [Undo(rounds)];
    first + if Sends(b, e) then [Make(Step(b, e).round)] else []
  }

  function AllOps(start: Robin, es: seq<Event>): seq<Op>
    decreases |es|
  {
    if es == [] then []
    else AllOps(start, es[..|es| - 1]) + OpsOf(Run(start, es[..|es| - 1]), es[|es| - 1])
  }

  lemma RunOpsOne(batchSize: nat, ops: seq<Op>, op: Op)
    ensures RunOps(batchSize, ops + [op]) == Apply(RunOps(batchSize, ops), op)
  {
    assert (ops + [op])[..|ops|] == ops;
  }

  lemma StepIsOps(b: Robin, e: Event, batchSize: nat, ops: seq<Op>)
    requires b.pool == RunOps(batchSize, ops)
    ensures Step(b, e).pool == RunOps(batchSize, ops + OpsOf(b, e))
  {
    hide MakeBatch, AddTx, AdmitProposal, Commit, Rollback, RunOps;
    var o := OpsOf(b, e);
    if |o| == 0 {
      assert ops + o == ops;
    } else if |o| == 1 {
      RunOpsOne(batchSize, ops, o[0]);
      assert o == [o[0]];
    } else {
      RunOpsOne(batchSize, ops, o[0]);
      RunOpsOne(batchSize, ops + [o[0]], o[1]);
      assert ops + o == ops + [o[0]] + [o[1]];
    }
  }

  /** The batcher's pool is what its trace of pool operations makes of an empty
      pool, so everything proved about traces holds of it. */
  lemma {:induction false} BatcherIsTrace(me: Id, leader: Id, batchSize: nat, es: seq<Event>)
    ensures var start := Begin(me, leader, batchSize);
            Run(start, es).pool == RunOps(batchSize, AllOps(start, es)) && Rep(Run(start, es).pool)
    decreases |es|
  {
    hide Step, OpsOf, Rep;
    var start := Begin(me, leader, batchSize);
    if es != [] {
      BatcherIsTrace(me, leader, batchSize, es[..|es| - 1]);
      var b := Run(start, es[..|es| - 1]);
      StepIsOps(b, es[|es| - 1], batchSize, AllOps(start, es[..|es| - 1]));
    }
    RunRep(batchSize, AllOps(start, es));
  }

  // ----- No double proposal by the batcher -----

  /** The batch sent by a turn. */
  function Sent(b: Robin, e: Event): set<Key> {
    if Sends(b, e) then set tx | tx in Step(b, e).out[|Step(b, e).out| - 1] :: KeyOf(tx) else {}
  }

  lemma SentIsProposed(b: Robin, e: Event)
    requires Sends(b, e)
    ensures var p := PoolAtSend(b, e); var round := Step(b, e).round;
            Sent(b, e) == Proposed(p, Make(round)) && Step(b, e).pool == Apply(p, Make(round))
  {
    hide MakeBatch, AddTx, AdmitProposal, Commit, Rollback;
  }

  lemma StepHolds(b: Robin, e: Event, k: Key, round: nat)
    requires Rep(b.pool) && Held(b.pool, k, round) && !(e.RolledBack? && round in e.rounds)
    ensures Held(Step(b, e).pool, k, round) && Held(PoolAtSend(b, e), k, round) && Rep(PoolAtSend(b, e))
  {
    hide MakeBatch, AddTx, AdmitProposal, Commit, Rollback, Held, Rep, Sent, Sends;
    var p := PoolAtSend(b, e);
    if e.Incoming? {
      HeldKept(b.pool, Add(e.tx, e.size), k, round);
      AddTxRep(b.pool, e.tx, e.size);
    }
    HeldKept(p, Make(b.round), k, round);
    match e
    case Admitted(batch, r) => HeldKept(b.pool, Admit(batch, r), k, round);
    case Committed(batch, r) => HeldKept(b.pool, Finalize(batch, r), k, round);
    case RolledBack(rounds) => HeldKept(b.pool, Undo(rounds), k, round);
    case NewRound(_, r) => HeldKept(b.pool, Make(r), k, round);
    case _ =>
  }

  lemma {:induction false} HeldThroughRun(
      me: Id, leader: Id, batchSize: nat, es: seq<Event>, i: nat, j: nat, k: Key, round: nat)
    requires i <= j <= |es| && Held(Run(Begin(me, leader, batchSize), es[..i]).pool, k, round)
    requires forall m | i <= m < j :: !(es[m].RolledBack? && round in es[m].rounds)
    ensures Held(Run(Begin(me, leader, batchSize), es[..j]).pool, k, round)
    decreases j
  {
    hide Step, Held, Rep;
    if i < j {
      var start := Begin(me, leader, batchSize);
      HeldThroughRun(me, leader, batchSize, es, i, j - 1, k, round);
      assert es[..j][..j - 1] == es[..j - 1];
      BatcherIsTrace(me, leader, batchSize, es[..j - 1]);
      StepHolds(Run(start, es[..j - 1]), es[j - 1], k, round);
    }
  }

  /** What a turn sends is in flight under the round announced last. */
  lemma SentInFlight(me: Id, leader: Id, batchSize: nat, es: seq<Event>, i: nat, k: Key)
    requires i < |es| && k in Sent(Run(Begin(me, leader, batchSize), es[..i]), es[i])
    ensures Announced(leader, es[..i + 1]).0 == me
    ensures InFlightAt(Run(Begin(me, leader, batchSize), es[..i + 1]).pool, k, Announced(leader, es[..i + 1]).1)
  {
    hide Step, Sends, Rep, Proposed, PoolAtSend, MakeBatch;
    var start := Begin(me, leader, batchSize);
    var b := Run(start, es[..i]);
    RunMore(start, es, i);
    FollowsAnnounced(me, leader, batchSize, es[..i + 1]);
    FollowsAnnounced(me, leader, batchSize, es[..i]);
    StepSends(b, es[i]);
    BatcherIsTrace(me, leader, batchSize, es[..i]);
    PoolAtSendRep(b, es[i]);
    SentIsProposed(b, es[i]);
    ProposedFlies(PoolAtSend(b, es[i]), Step(b, es[i]).round, k);
  }

  lemma ProposedFlies(p: Pool, round: nat, k: Key)
    requires Rep(p) && k in Proposed(p, Make(round))
    ensures InFlightAt(Apply(p, Make(round)), k, round)
  {
    hide Rep, MakeBatch;
    var tx :| tx in MakeBatch(p, round).1 && KeyOf(tx) == k;
    BatchKeys(p, round, tx);
  }

  /** Two batches of one batcher share a (client, nonce) only if the engine rolled
      back the round announced for the earlier one in between. */
  lemma NoDoubleBatch(me: Id, leader: Id, batchSize: nat, es: seq<Event>, i: nat, j: nat, k: Key)
    requires i < j < |es|
    requires var start := Begin(me, leader, batchSize);
             k in Sent(Run(start, es[..i]), es[i]) && k in Sent(Run(start, es[..j]), es[j])
    ensures var round := Announced(leader, es[..i + 1]).1;
            exists m :: i < m < j && es[m].RolledBack? && round in es[m].rounds
  {
    hide Step, Sends, Held, Rep, Proposed, PoolAtSend;
    var start := Begin(me, leader, batchSize);
    var c := Run(start, es[..j]);
    var round := Announced(leader, es[..i + 1]).1;
    SentInFlight(me, leader, batchSize, es, i, k);
    BatcherIsTrace(me, leader, batchSize, es[..j]);
    InFlightHeld(Run(start, es[..i + 1]).pool, k, round);
    if forall m | i < m < j :: !(es[m].RolledBack? && round in es[m].rounds) {
      HeldThroughRun(me, leader, batchSize, es, i + 1, j, k, round);
      NotSentWhileHeld(c, es[j], k, round);
    }
  }

  lemma InFlightHeld(p: Pool, k: Key, round: nat)
    requires InFlightAt(p, k, round)
    ensures Held(p, k, round)
  {
  }

  lemma PoolAtSendRep(b: Robin, e: Event)
    requires Rep(b.pool)
    ensures Rep(PoolAtSend(b, e))
  {
    if e.Incoming? {
      AddTxRep(b.pool, e.tx, e.size);
    }
  }

  lemma NotSentWhileHeld(b: Robin, e: Event, k: Key, round: nat)
    requires Rep(b.pool) && Held(b.pool, k, round) && Sends(b, e)
    ensures k !in Sent(b, e)
  {
    hide Rep, Held, Proposed, Step;
    SentIsProposed(b, e);
    assert !e.RolledBack? by { RollbackSendsNothing(b, e); }
    StepHolds(b, e, k, round);
    HeldIsNotProposed(PoolAtSend(b, e), Make(Step(b, e).round), k, round);
  }

  lemma RollbackSendsNothing(b: Robin, e: Event)
    ensures e.RolledBack? ==> !Sends(b, e)
  {
  }

  // ----- The object -----

  class RRBatcher {
    const me: Id
    var currentLeader: Id
    var currentRound: nat
    var proposed: bool
    const pool: Txpool
    var out: seq<seq<Tx>>

    function Model(): Robin
      reads this, pool
    {
      Robin(me, currentLeader, currentRound, proposed, pool.Model(), out)
    }

    constructor (me: Id, leader: Id, batchSize: nat)
      ensures Model() == Begin(me, leader, batchSize) && fresh(pool)
    {
      this.me, currentLeader, currentRound, proposed, out := me, leader, 0, false, [];
      pool := new Txpool(batchSize);
    }

    method Send()
      modifies this, pool
      ensures Model() == Propose(old(Model()))
    {
      hide MakeBatch;
      var batch := pool.Make(currentRound);
      proposed := true;
      out := out + [batch];
    }

    method TryPropose()
      modifies this, pool
      ensures Model() == if MayPropose(old(Model())) && Ready(old(Model()).pool) then Propose(old(Model()))
                         else old(Model())
    {
      hide MakeBatch;
      var ready := pool.IsReady();
      if me == currentLeader && !proposed && ready {
        Send();
      }
    }

    /** One turn of the loop, on the event that was selected. */
    method Turn(e: Event)
      modifies this, pool
      ensures Model() == Step(old(Model()), e)
    {
      hide MakeBatch, AddTx, AdmitProposal, Commit, Rollback;
      var canPropose := me == currentLeader && !proposed;
      match e
      case Tick =>
        if canPropose {
          Send();
        }
      case Incoming(tx, size) =>
        pool.Add(tx, size);
        var ready := pool.IsReady();
        if canPropose && ready {
          Send();
        }
      case NewRound(leader, round) =>
        currentLeader := leader;
        currentRound := round;
        proposed := false;
        TryPropose();
      case Admitted(batch, round) =>
        pool.Admit(batch, round);
      case Committed(batch, round) =>
        pool.Finalize(batch, round);
      case RolledBack(rounds) =>
        pool.Undo(rounds);
    }
  }
}
