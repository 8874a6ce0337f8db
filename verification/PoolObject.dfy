/** The mempool as an object whose maps and counter are updated in place. */
module PoolObject {
  import opened Base
  import opened TxPool

  /** Returning one more key. */
  lemma ReturnOne(p: Pool, done: set<Key>, k: Key)
    requires k !in done && k in p.inflight && !Stale(p, k)
    ensures var q := Return(p, done); var f := p.inflight[k];
            && k in q.inflight && q.inflight[k] == f
            && Return(p, done + {k})
            == q.(inflight := q.inflight - {k}, mineable := q.mineable[k := Sized(f.tx, f.size)],
                  bytes := q.bytes + f.size)
  {
    var f := p.inflight[k];
    var r := Returned(p, done);
    assert Returned(p, done + {k}) == r[k := Sized(f.tx, f.size)];
    TotalUpdate(r, k, Sized(f.tx, f.size));
    assert r - {k} == r;
    assert p.mineable + r[k := Sized(f.tx, f.size)] == (p.mineable + r)[k := Sized(f.tx, f.size)];
    assert p.inflight - (done + {k}) == p.inflight - done - {k};
  }

  /** Skipping a key that is stale or not in flight. */
  lemma ReturnSkip(p: Pool, done: set<Key>, k: Key)
    requires k !in p.inflight || Stale(p, k)
    ensures var q := Return(p, done); Return(p, done + {k}) == q.(inflight := q.inflight - {k})
  {
    assert Returned(p, done + {k}) == Returned(p, done);
    assert p.inflight - (done + {k}) == p.inflight - done - {k};
  }

  lemma ReturnNone(p: Pool)
    ensures Return(p, {}) == p
  {
    assert Returned(p, {}) == map[];
    assert p.mineable + map[] == p.mineable && p.inflight - {} == p.inflight;
  }

  function StaleOf(p: Pool, clients: set<Id>): set<Key> {
    set k | k in p.mineable && k.client in clients && Stale(p, k)
  }

  lemma StaleOfNone(p: Pool)
    ensures StaleOf(p, {}) == {}
  {
  }

  lemma CollectIs(p: Pool, clients: set<Id>)
    ensures Collect(p, clients)
         == p.(mineable := p.mineable - StaleOf(p, clients),
               bytes := p.bytes - (Total(p.mineable) - Total(p.mineable - StaleOf(p, clients))))
  {
    assert Collect(p, clients).mineable == p.mineable - StaleOf(p, clients);
  }

  lemma StaleOfOne(p: Pool, done: set<Id>, c: Id, m: map<Key, Sized>)
    requires m == p.mineable - StaleOf(p, done)
    ensures var stale := set k | k in m && k.client == c && Stale(p, k);
            m - stale == p.mineable - StaleOf(p, done + {c})
  {
  }

  class Txpool {
    var mineable: map<Key, Sized>
    var mineableBytes: int
    var inflight: map<Key, Flight>
    var inflightByRound: map<nat, set<Key>>
    var highCommittedNonce: map<Id, nat>
    const batchSize: nat

    function Model(): Pool
      reads this
    {
      Pool(mineable, mineableBytes, inflight, inflightByRound, highCommittedNonce, batchSize)
    }

    constructor (batchSize: nat)
      ensures Model() == Empty(batchSize) && Rep(Model())
    {
      mineable, mineableBytes, inflight, inflightByRound := map[], 0, map[], map[];
      highCommittedNonce := map[];
      this.batchSize := batchSize;
    }

    method Add(tx: Tx, size: nat)
      modifies this
      ensures Model() == AddTx(old(Model()), tx, size)
    {
      var k := KeyOf(tx);
      if k.nonce <= Lookup(highCommittedNonce, k.client, 0) {
        return;
      }
      if k in inflight {
        return;
      }
      if k in mineable {
        mineableBytes := mineableBytes - mineable[k].size;
      }
      mineable := mineable[k := Sized(tx, size)];
      mineableBytes := mineableBytes + size;
    }

    method Admit(batch: seq<Tx>, round: nat)
      modifies this
      ensures Model() == AdmitProposal(old(Model()), batch, round)
    {
      inflightByRound := inflightByRound[round := Lookup(inflightByRound, round, {})];
      ghost var touched := Model();
      for i := 0 to |batch|
        invariant AdmitAll(Model(), batch[i..], round) == AdmitAll(touched, batch, round)
        invariant round in inflightByRound
      {
        ghost var before := Model();
        var tx := batch[i];
        var k := KeyOf(tx);
        assert batch[i..][1..] == batch[i + 1..];
        if k.nonce <= Lookup(highCommittedNonce, k.client, 0) {
          continue;
        }
        if k in inflight {
          continue;
        }
        var size := tx.wireSize;
        if k in mineable {
          size := mineable[k].size;
          mineableBytes := mineableBytes - size;
        }
        mineable := mineable - {k};
        inflight := inflight[k := Flight(tx, size, round)];
        inflightByRound := inflightByRound[round := inflightByRound[round] + {k}];
        assert Model() == AdmitOne(before, tx, round);
      }
    }

    method Make(round: nat) returns (payload: seq<Tx>)
      modifies this
      ensures (Model(), payload) == MakeBatch(old(Model()), round)
    {
      hide LaunchFirst, First;
      inflightByRound := inflightByRound[round := Lookup(inflightByRound, round, {})];
      ghost var touched := Model();
      payload := [];
      var bytes: nat := 0;
      ghost var all := MakeFrom(touched, round, 0);
      PrependNone(all.1);
      while bytes < batchSize && mineable != map[]
        invariant round in inflightByRound
        invariant all == (MakeFrom(Model(), round, bytes).0, payload + MakeFrom(Model(), round, bytes).1)
        decreases |mineable|
      {
        ghost var before := payload;
        bytes, payload := TakeFirst(round, bytes, payload);
        AppendAssoc(before, [payload[|payload| - 1]], MakeFrom(Model(), round, bytes).1);
      }
      assert payload + [] == payload;
    }

    /** One turn of the batch loop. */
    method TakeFirst(round: nat, bytes: nat, payload: seq<Tx>) returns (bytes': nat, payload': seq<Tx>)
      requires mineable != map[] && round in inflightByRound
      modifies this
      ensures Model() == LaunchFirst(old(Model()), round) && round in inflightByRound
      ensures var e := old(mineable[First(mineable.Keys)]);
              bytes' == bytes + e.size && payload' == payload + [e.tx]
    {
      var k := First(mineable.Keys);
      var e := mineable[k];
      mineable := mineable - {k};
      mineableBytes := mineableBytes - e.size;
      inflight := inflight[k := Flight(e.tx, e.size, round)];
      inflightByRound := inflightByRound[round := inflightByRound[round] + {k}];
      return bytes + e.size, payload + [e.tx];
    }

    method Finalize(batch: seq<Tx>, round: nat)
      modifies this
      ensures Model() == Commit(old(Model()), batch, round)
    {
      hide Collect, Total;
      var touched: set<Id> := {};
      for i := 0 to |batch|
        invariant CommitAll(Model(), batch[i..]) == CommitAll(old(Model()), batch)
        invariant touched == Clients(batch[..i]) && touched <= highCommittedNonce.Keys
      {
        touched := touched + {batch[i].client};
        assert batch[..i + 1] == batch[..i] + [batch[i]];
        assert batch[i..][1..] == batch[i + 1..];
        FinalizeOne(KeyOf(batch[i]));
      }
      assert batch[..|batch|] == batch;
      CollectStale(touched);
      if round in inflightByRound && inflightByRound[round] == {} {
        inflightByRound := inflightByRound - {round};
      }
    }

    method FinalizeOne(k: Key)
      modifies this
      ensures Model() == CommitOne(old(Model()), k)
      ensures k.client in highCommittedNonce && old(highCommittedNonce.Keys) <= highCommittedNonce.Keys
    {
      if k in inflight {
        var r := inflight[k].round;
        inflight := inflight - {k};
        if r in inflightByRound {
          inflightByRound := inflightByRound[r := inflightByRound[r] - {k}];
        }
      }
      if k in mineable {
        mineableBytes := mineableBytes - mineable[k].size;
      }
      mineable := mineable - {k};
      var cur := Lookup(highCommittedNonce, k.client, 0);
      highCommittedNonce := highCommittedNonce[k.client := if k.nonce > cur then k.nonce else cur];
    }

    /** Drops what went stale, client by client. */
    method CollectStale(touched: set<Id>)
      requires touched <= highCommittedNonce.Keys
      modifies this`mineable, this`mineableBytes
      ensures Model() == Collect(old(Model()), touched)
    {
      hide Collect, StaleOf, Total;
      ghost var p := Model();
      var todo := touched;
      StaleOfNone(p);
      assert touched - todo == {} && mineable == p.mineable - StaleOf(p, {});
      while todo != {}
        invariant todo <= touched
        invariant mineable == p.mineable - StaleOf(p, touched - todo)
        invariant mineableBytes - Total(mineable) == p.bytes - Total(p.mineable)
        decreases todo
      {
        var c :| c in todo;
        ghost var done := touched - todo;
        todo := todo - {c};
        var hi := highCommittedNonce[c];
        var stale := set k | k in mineable && k.client == c && k.nonce <= hi;
        assert stale == set k | k in mineable && k.client == c && Stale(p, k);
        StaleOfOne(p, done, c, mineable);
        assert touched - todo == done + {c};
        DropAll(stale);
      }
      assert touched - {} == touched;
      CollectIs(p, touched);
    }

    method DropAll(stale: set<Key>)
      modifies this`mineable, this`mineableBytes
      ensures mineable == old(mineable) - stale
      ensures mineableBytes - Total(mineable) == old(mineableBytes - Total(mineable))
    {
      var todo := stale;
      while todo != {}
        invariant todo <= stale && mineable == old(mineable) - (stale - todo)
        invariant mineableBytes - Total(mineable) == old(mineableBytes - Total(mineable))
        decreases todo
      {
        var k :| k in todo;
        todo := todo - {k};
        TotalWithout(mineable, k);
        if k in mineable {
          mineableBytes := mineableBytes - mineable[k].size;
        }
        mineable := mineable - {k};
      }
    }

    method Undo(rounds: seq<nat>)
      modifies this
      ensures Model() == Rollback(old(Model()), rounds)
    {
      hide RollbackRound;
      for i := 0 to |rounds|
        invariant Rollback(Model(), rounds[i..]) == Rollback(old(Model()), rounds)
      {
        assert rounds[i..][1..] == rounds[i + 1..];
        UndoRound(rounds[i]);
      }
    }

    method UndoRound(round: nat)
      modifies this
      ensures Model() == RollbackRound(old(Model()), round)
    {
      hide Return, Total;
      if round !in inflightByRound {
        return;
      }
      var keys := inflightByRound[round];
      inflightByRound := inflightByRound - {round};
      ghost var p := Model();
      var todo := keys;
      ReturnNone(p);
      assert keys - todo == {};
      while todo != {}
        invariant todo <= keys && Model() == Return(p, keys - todo)
        decreases todo
      {
        var k :| k in todo;
        ghost var done := keys - todo;
        todo := todo - {k};
        assert keys - todo == done + {k};
        ReturnShape(p, done);
        if k.nonce <= Lookup(highCommittedNonce, k.client, 0) {
          ReturnSkip(p, done, k);
          inflight := inflight - {k};
        } else if k in inflight {
          ReturnOne(p, done, k);
          var e := inflight[k];
          inflight := inflight - {k};
          mineable := mineable[k := Sized(e.tx, e.size)];
          mineableBytes := mineableBytes + e.size;
        } else {
          ReturnSkip(p, done, k);
          assert inflight - {k} == inflight;
        }
      }
      assert keys - {} == keys;
    }

    /** The counter stands for the mineable bytes. */
    method IsReady() returns (r: bool)
      ensures r == Ready(Model())
      ensures Rep(Model()) ==> (r <==> Total(mineable) > batchSize)
    {
      return mineableBytes > batchSize;
    }
  }

  lemma PrependNone(txs: seq<Tx>)
    ensures [] + txs == txs
  {
  }

  lemma ReturnShape(p: Pool, done: set<Key>)
    ensures var q := Return(p, done);
            && q.high == p.high && q.byRound == p.byRound && q.batchSize == p.batchSize
            && q.inflight == p.inflight - done
  {
  }
}
