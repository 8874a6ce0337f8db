/** The exact effect of each mempool operation on a well-formed pool, stated
    without the loops that compute it. */
module PoolEffects {
  import opened Base
  import opened TxPool
  import opened PoolLaws
  import opened PoolTraces

  function Keys(batch: seq<Tx>): set<Key> {
    set tx | tx in batch :: KeyOf(tx)
  }

  lemma KeysCons(batch: seq<Tx>)
    requires batch != []
    ensures Keys(batch) == {KeyOf(batch[0])} + Keys(batch[1..])
  {
    assert batch == [batch[0]] + batch[1..];
  }

  // ----- Client transactions -----

  /** Of two submissions under one key the later one counts, in tx and in bytes. */
  lemma LastWriteWins(p: Pool, x: Tx, xSize: nat, y: Tx, ySize: nat)
    requires KeyOf(x) == KeyOf(y) && Rep(p)
    ensures AddTx(AddTx(p, x, xSize), y, ySize) == AddTx(p, y, ySize)
    ensures var q := AddTx(p, y, ySize); var k := KeyOf(y);
            if Stale(p, k) || k in p.inflight then q == p
            else Proposable(q, k) && q.mineable[k] == Sized(y, ySize)
                 && forall other <- p.mineable :: other != k ==> other in q.mineable && q.mineable[other] == p.mineable[other]
  {
    var k := KeyOf(x);
    assert p.mineable[k := Sized(x, xSize)][k := Sized(y, ySize)] == p.mineable[k := Sized(y, ySize)];
  }

  // ----- Proposals -----

  function FirstOf(batch: seq<Tx>, x: Key): (tx: Tx)
    requires x in Keys(batch)
    ensures tx in batch && KeyOf(tx) == x
  {
    KeysCons(batch);
    if KeyOf(batch[0]) == x then batch[0] else FirstOf(batch[1..], x)
  }

  /** What an admitted key carries: the first transaction of the batch under it,
      with the mineable size if there is one and its length on the wire if not. */
  predicate Carried(p: Pool, q: Pool, batch: seq<Tx>, round: nat, x: Key)
    requires x in Keys(batch)
  {
    var tx := FirstOf(batch, x);
    && x in q.inflight && x !in q.mineable
    && q.inflight[x] == Flight(tx, if x in p.mineable then p.mineable[x].size else tx.wireSize, round)
  }

  predicate AdmitEffect(p: Pool, q: Pool, batch: seq<Tx>, round: nat, x: Key) {
    && q.high == p.high
    && (if x in p.inflight then x in q.inflight && q.inflight[x] == p.inflight[x]
        else if x in Keys(batch) && !Stale(p, x) then Carried(p, q, batch, round, x)
        else x !in q.inflight)
    && (x !in q.inflight ==> (x in q.mineable <==> x in p.mineable))
    && (x in q.mineable ==> x in p.mineable && q.mineable[x] == p.mineable[x])
  }

  lemma {:induction false} AdmitAllExact(p: Pool, batch: seq<Tx>, round: nat, x: Key)
    requires p.mineable.Keys !! p.inflight.Keys
    ensures AdmitEffect(p, AdmitAll(p, batch, round), batch, round, x)
    decreases |batch|
  {
    if batch != [] {
      var p1 := AdmitOne(p, batch[0], round);
      AdmitAllExact(p1, batch[1..], round, x);
      KeysCons(batch);
      AdmitOneMore(p, p1, AdmitAll(p1, batch[1..], round), batch, round, x);
    } else {
      assert Keys(batch) == {};
    }
  }

  lemma AdmitOneMore(p: Pool, p1: Pool, q: Pool, batch: seq<Tx>, round: nat, x: Key)
    requires batch != [] && p1 == AdmitOne(p, batch[0], round) && p.mineable.Keys !! p.inflight.Keys
    requires AdmitEffect(p1, q, batch[1..], round, x)
    requires Keys(batch) == {KeyOf(batch[0])} + Keys(batch[1..])
    ensures AdmitEffect(p, q, batch, round, x)
  {
    assert batch[0] in batch && forall tx <- batch[1..] :: tx in batch;
    if x == KeyOf(batch[0]) && !Stale(p, x) && x !in p.inflight {
      assert p1.inflight[x].tx == batch[0];
    }
  }

  /** After a proposal: keys in flight stay as they were, fresh keys of the batch
      are in flight under its round, nothing else moves. */
  lemma AdmitExact(p: Pool, batch: seq<Tx>, round: nat, x: Key)
    requires Rep(p)
    ensures AdmitEffect(p, AdmitProposal(p, batch, round), batch, round, x)
  {
    hide Indexed, Total;
    AdmitAllExact(Touch(p, round), batch, round, x);
  }

  // ----- Commits -----

  function MaxNonce(batch: seq<Tx>, c: Id): nat {
    if batch == [] then 0
    else
      var rest := MaxNonce(batch[1..], c);
      if batch[0].client == c && batch[0].nonce > rest then batch[0].nonce else rest
  }

  function Max(a: nat, b: nat): nat {
    if a >= b then a else b
  }

  lemma {:induction false} CommitAllExact(p: Pool, batch: seq<Tx>, c: Id)
    ensures var q := CommitAll(p, batch);
            && High(q, c) == Max(High(p, c), MaxNonce(batch, c))
            && q.inflight == p.inflight - Keys(batch) && q.mineable == p.mineable - Keys(batch)
    decreases |batch|
  {
    if batch == [] {
      assert Keys(batch) == {};
    } else {
      CommitAllExact(CommitOne(p, KeyOf(batch[0])), batch[1..], c);
      KeysCons(batch);
      RemoveTwice(p, KeyOf(batch[0]), Keys(batch[1..]));
    }
  }

  lemma RemoveTwice(p: Pool, k: Key, ks: set<Key>)
    ensures CommitOne(p, k).inflight - ks == p.inflight - ({k} + ks)
    ensures CommitOne(p, k).mineable - ks == p.mineable - ({k} + ks)
  {
  }

  /** After a commit each client's mark is the greatest nonce committed for it,
      the batch's keys are gone, every mineable key left is fresh and none other
      was dropped, and in flight exactly the batch's keys are missing. */
  lemma CommitExact(p: Pool, batch: seq<Tx>, round: nat, c: Id)
    requires Rep(p)
    ensures var q := Commit(p, batch, round);
            && High(q, c) == Max(High(p, c), MaxNonce(batch, c))
            && q.inflight == p.inflight - Keys(batch)
            && q.mineable == (map k | k in p.mineable && !Stale(q, k) :: p.mineable[k])
            && (round in q.byRound ==> q.byRound[round] != {})
  {
    hide Indexed, Total, CommitAll;
    var mid := CommitAll(p, batch);
    var q := Commit(p, batch, round);
    CommitAllExact(p, batch, c);
    forall k ensures k in q.mineable <==> k in p.mineable && !Stale(q, k) {
      CommitAllExact(p, batch, k.client);
      MaxNonceOver(batch, k);
    }
  }

  /** A client outside the batch keeps its mark; a key of the batch is at most
      the greatest nonce. */
  lemma {:induction false} MaxNonceOver(batch: seq<Tx>, k: Key)
    ensures k.client !in Clients(batch) ==> MaxNonce(batch, k.client) == 0
    ensures k in Keys(batch) ==> k.client in Clients(batch) && k.nonce <= MaxNonce(batch, k.client)
  {
    if batch != [] {
      MaxNonceOver(batch[1..], k);
      KeysCons(batch);
      assert batch == [batch[0]] + batch[1..];
      assert Clients(batch) == {batch[0].client} + Clients(batch[1..]);
    }
  }

  // ----- Rollbacks -----

  function Untagged(inflight: map<Key, Flight>, rounds: seq<nat>): map<Key, Flight> {
    map k | k in inflight && inflight[k].round !in rounds :: inflight[k]
  }

  function Reopened(p: Pool, rounds: seq<nat>): map<Key, Sized> {
    map k | k in p.inflight && p.inflight[k].round in rounds && !Stale(p, k)
      :: Sized(p.inflight[k].tx, p.inflight[k].size)
  }

  lemma RollbackRoundExact(p: Pool, round: nat)
    requires Rep(p)
    ensures var q := RollbackRound(p, round);
            q.inflight == Others(p.inflight, round) && q.mineable == p.mineable + Back(p, round) && q.high == p.high
  {
    hide Total;
    if round in p.byRound {
      hide Indexed;
      IndexedKeys(p.inflight, p.byRound, round);
      assert Returned(p.(byRound := p.byRound - {round}), p.byRound[round]) == Back(p, round);
    } else {
      assert Others(p.inflight, round) == p.inflight;
      assert Back(p, round) == map[];
      assert p.mineable + map[] == p.mineable;
    }
  }

  lemma UntaggedStep(inflight: map<Key, Flight>, rounds: seq<nat>)
    requires rounds != []
    ensures Untagged(Others(inflight, rounds[0]), rounds[1..]) == Untagged(inflight, rounds)
  {
    assert rounds == [rounds[0]] + rounds[1..];
  }

  lemma ReopenedStep(p: Pool, p1: Pool, rounds: seq<nat>)
    requires rounds != [] && p1.inflight == Others(p.inflight, rounds[0]) && p1.high == p.high
    ensures Reopened(p, rounds) == Back(p, rounds[0]) + Reopened(p1, rounds[1..])
  {
    assert rounds == [rounds[0]] + rounds[1..];
  }

  lemma UnionAssoc(a: map<Key, Sized>, b: map<Key, Sized>, c: map<Key, Sized>)
    ensures a + b + c == a + (b + c)
  {
  }

  /** A rollback takes exactly the keys tagged with one of its rounds out of
      flight and makes those that are still fresh mineable again, so neither the
      order of the rounds nor a repetition matters. */
  lemma {:induction false} RollbackExact(p: Pool, rounds: seq<nat>)
    requires Rep(p)
    ensures var q := Rollback(p, rounds);
            && q.inflight == Untagged(p.inflight, rounds)
            && q.mineable == p.mineable + Reopened(p, rounds)
            && q.high == p.high
    decreases |rounds|
  {
    hide Rep, RollbackRound, Others, Back;
    if rounds == [] {
      assert Untagged(p.inflight, rounds) == p.inflight;
      assert Reopened(p, rounds) == map[];
      assert p.mineable + map[] == p.mineable;
    } else {
      var p1 := RollbackRound(p, rounds[0]);
      RollbackRoundRep(p, rounds[0]);
      RollbackRoundExact(p, rounds[0]);
      RollbackExact(p1, rounds[1..]);
      UntaggedStep(p.inflight, rounds);
      ReopenedStep(p, p1, rounds);
      UnionAssoc(p.mineable, Back(p, rounds[0]), Reopened(p1, rounds[1..]));
    }
  }

  // ----- The high-water mark over traces -----

  function Committed(ops: seq<Op>, c: Id): nat
    decreases |ops|
  {
    if ops == [] then 0
    else
      var rest := Committed(ops[..|ops| - 1], c);
      var op := ops[|ops| - 1];
      if op.Finalize? then Max(rest, MaxNonce(op.batch, c)) else rest
  }

  lemma HighUnchanged(p: Pool, op: Op, c: Id)
    requires Rep(p) && !op.Finalize?
    ensures High(Apply(p, op), c) == High(p, c)
  {
    hide MakeBatch, AdmitAll, Rollback, SortedItems, Flights, Total, Indexed;
    match op
    case Add(tx, size) =>
    case Admit(batch, round) => AdmitExact(p, batch, round, Key(c, 0));
    case Make(round) => BatchIsShortestPrefix(p, round);
    case Undo(rounds) => RollbackExact(p, rounds);
  }

  /** After any trace a client's mark is the greatest nonce committed for it. */
  lemma {:induction false} HighIsGreatestCommitted(batchSize: nat, ops: seq<Op>, c: Id)
    ensures High(RunOps(batchSize, ops), c) == Committed(ops, c)
    decreases |ops|
  {
    hide Rep, Apply;
    if ops != [] {
      var n := |ops| - 1;
      var p := RunOps(batchSize, ops[..n]);
      HighIsGreatestCommitted(batchSize, ops[..n], c);
      RunRep(batchSize, ops[..n]);
      if ops[n].Finalize? {
        FinalizeHigh(p, ops[n], c);
      } else {
        HighUnchanged(p, ops[n], c);
      }
    }
  }

  lemma FinalizeHigh(p: Pool, op: Op, c: Id)
    requires Rep(p) && op.Finalize?
    ensures High(Apply(p, op), c) == Max(High(p, c), MaxNonce(op.batch, c))
  {
    hide Rep, Commit;
    CommitExact(p, op.batch, op.round, c);
  }
}
