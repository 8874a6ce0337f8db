/** Properties of the mempool over single batches and over whole traces. */
module PoolLaws {
  import opened Base
  import opened TxPool

  // ----- Batches -----

  /** The mineable transactions in ascending key order. */
  function SortedItems(m: map<Key, Sized>): seq<Sized>
    decreases |m|
  {
    if m == map[] then []
    else
      var k := First(m.Keys);
      RemoveShrinks(m, k);
      [m[k]] + SortedItems(m - {k})
  }

  function Txs(items: seq<Sized>): (r: seq<Tx>)
    ensures |r| == |items| && forall i | 0 <= i < |r| :: r[i] == items[i].tx
  {
    seq(|items|, i requires 0 <= i < |items| => items[i].tx)
  }

  function Bytes(items: seq<Sized>): nat {
    if items == [] then 0 else items[0].size + Bytes(items[1..])
  }

  function KeysOf(items: seq<Sized>): set<Key> {
    set e | e in items :: KeyOf(e.tx)
  }

  function Flights(items: seq<Sized>, round: nat): map<Key, Flight> {
    if items == [] then map[]
    else map[KeyOf(items[0].tx) := Flight(items[0].tx, items[0].size, round)] + Flights(items[1..], round)
  }

  predicate ItemsOf(items: seq<Sized>, m: map<Key, Sized>) {
    forall e <- items :: KeyOf(e.tx) in m && m[KeyOf(e.tx)] == e
  }

  predicate OwnKeys(m: map<Key, Sized>) {
    forall k <- m :: KeyOf(m[k].tx) == k
  }

  predicate Rising(items: seq<Sized>) {
    forall i, j | 0 <= i < j < |items| :: KeyLess(KeyOf(items[i].tx), KeyOf(items[j].tx))
  }

  /** It lists every transaction once, keys rising. */
  lemma {:induction false} SortedItemsCorrect(m: map<Key, Sized>)
    requires OwnKeys(m)
    ensures var items := SortedItems(m);
            |items| == |m| && ItemsOf(items, m) && KeysOf(items) == m.Keys && Rising(items)
    decreases |m|
  {
    hide First, KeyLess, KeysOf;
    if m == map[] {
      BytesNone();
    } else {
      var k := First(m.Keys);
      RemoveShrinks(m, k);
      SortedItemsCorrect(m - {k});
      assert |(m - {k}).Keys| == |m.Keys| - 1 by { assert m.Keys == {k} + (m - {k}).Keys; }
      KeysOfCons(m[k], SortedItems(m - {k}));
      RisingCons(m, SortedItems(m - {k}));
    }
  }

  lemma RisingCons(m: map<Key, Sized>, items: seq<Sized>)
    requires m != map[] && OwnKeys(m) && Rising(items)
    requires ItemsOf(items, m - {First(m.Keys)})
    ensures Rising([m[First(m.Keys)]] + items)
  {
    var k := First(m.Keys);
    assert IsFirst(k, m.Keys);
    forall j | 0 <= j < |items| ensures KeyLess(k, KeyOf(items[j].tx)) {
      assert items[j] in items;
    }
  }

  lemma KeysOfCons(e: Sized, items: seq<Sized>)
    ensures KeysOf([e] + items) == {KeyOf(e.tx)} + KeysOf(items)
  {
    assert forall x <- items :: x in [e] + items;
  }

  lemma {:induction false} FlightsValues(items: seq<Sized>, m: map<Key, Sized>, round: nat)
    requires ItemsOf(items, m)
    ensures Flights(items, round).Keys == KeysOf(items)
    ensures forall k <- Flights(items, round) ::
              k in m && Flights(items, round)[k] == Flight(m[k].tx, m[k].size, round)
  {
    if items == [] {
      assert KeysOf(items) == {};
    } else {
      FlightsValues(items[1..], m, round);
      assert items == [items[0]] + items[1..];
      KeysOfCons(items[0], items[1..]);
    }
  }

  /** Making a batch took the first `j` items and nothing else. */
  predicate TookFirst(p: Pool, q: Pool, payload: seq<Tx>, items: seq<Sized>, round: nat, taken: nat) {
    var j := |payload|;
    && j <= |items| && payload == Txs(items[..j])
    && (forall i | 0 <= i < j :: taken + Bytes(items[..i]) < p.batchSize)
    && (j == |items| || taken + Bytes(items[..j]) >= p.batchSize)
    && q.mineable == p.mineable - KeysOf(items[..j])
    && q.inflight == p.inflight + Flights(items[..j], round)
    && q.high == p.high
  }

  lemma BytesShift(e: Sized, items: seq<Sized>, i: nat)
    requires i <= |items|
    ensures ([e] + items)[..i + 1] == [e] + items[..i]
    ensures Bytes(([e] + items)[..i + 1]) == e.size + Bytes(items[..i])
    ensures KeysOf(([e] + items)[..i + 1]) == {KeyOf(e.tx)} + KeysOf(items[..i])
    ensures Flights(([e] + items)[..i + 1], 0) == Flights([e] + items[..i], 0)
  {
    assert ([e] + items)[..i + 1] == [e] + items[..i];
    assert ([e] + items[..i])[1..] == items[..i];
    KeysOfCons(e, items[..i]);
  }

  lemma FlightsCons(e: Sized, items: seq<Sized>, round: nat)
    ensures Flights([e] + items, round)
         == map[KeyOf(e.tx) := Flight(e.tx, e.size, round)] + Flights(items, round)
  {
    assert ([e] + items)[1..] == items;
  }

  lemma LaunchedFirst(p: Pool, round: nat)
    requires p.mineable != map[] && OwnKeys(p.mineable)
    ensures var k := First(p.mineable.Keys); var e := p.mineable[k]; var q := LaunchFirst(p, round);
            && KeyOf(e.tx) == k
            && q.mineable == p.mineable - {k} && q.batchSize == p.batchSize && q.high == p.high
            && q.inflight == p.inflight + map[k := Flight(e.tx, e.size, round)]
            && SortedItems(p.mineable) == [e] + SortedItems(p.mineable - {k})
  {
  }

  lemma TookOneMore(p: Pool, p1: Pool, q: Pool, rest: seq<Tx>, e: Sized, items: seq<Sized>,
                    round: nat, taken: nat)
    requires taken < p.batchSize && p1.batchSize == p.batchSize && p1.high == p.high
    requires p1.mineable == p.mineable - {KeyOf(e.tx)}
    requires p1.inflight == p.inflight + map[KeyOf(e.tx) := Flight(e.tx, e.size, round)]
    requires TookFirst(p1, q, rest, items, round, taken + e.size)
    ensures TookFirst(p, q, [e.tx] + rest, [e] + items, round, taken)
  {
    hide Flights, KeysOf, Bytes;
    var j := |rest|;
    BytesShift(e, items, j);
    FlightsCons(e, items[..j], round);
    forall i | 0 <= i < j + 1 ensures taken + Bytes(([e] + items)[..i]) < p.batchSize {
      if i > 0 {
        BytesShift(e, items, i - 1);
      } else {
        assert ([e] + items)[..0] == [];
        BytesNone();
      }
    }
  }

  lemma BytesNone()
    ensures Bytes([]) == 0 && KeysOf([]) == {}
  {
  }

  lemma {:induction false} MakeFromTakesFirst(p: Pool, round: nat, taken: nat)
    requires OwnKeys(p.mineable)
    ensures var (q, payload) := MakeFrom(p, round, taken);
            TookFirst(p, q, payload, SortedItems(p.mineable), round, taken)
    decreases |p.mineable|
  {
    hide First, LaunchFirst, KeysOf, TookFirst, MakeFrom, SortedItems, KeyOf;
    if taken >= p.batchSize || p.mineable == map[] {
      TookNone(p, round, taken);
      MakeFromNone(p, round, taken);
    } else {
      var e := p.mineable[First(p.mineable.Keys)];
      LaunchedFirst(p, round);
      var p1 := LaunchFirst(p, round);
      MakeFromTakesFirst(p1, round, taken + e.size);
      var (q, rest) := MakeFrom(p1, round, taken + e.size);
      MakeFromOne(p, round, taken);
      TookOneMore(p, p1, q, rest, e, SortedItems(p1.mineable), round, taken);
    }
  }

  lemma MakeFromNone(p: Pool, round: nat, taken: nat)
    requires taken >= p.batchSize || p.mineable == map[]
    ensures MakeFrom(p, round, taken) == (p, [])
  {
  }

  lemma MakeFromOne(p: Pool, round: nat, taken: nat)
    requires taken < p.batchSize && p.mineable != map[]
    ensures var e := p.mineable[First(p.mineable.Keys)];
            var (q, rest) := MakeFrom(LaunchFirst(p, round), round, taken + e.size);
            MakeFrom(p, round, taken) == (q, [e.tx] + rest)
  {
    hide First, LaunchFirst;
  }

  lemma TookNone(p: Pool, round: nat, taken: nat)
    requires taken >= p.batchSize || p.mineable == map[]
    ensures TookFirst(p, p, [], SortedItems(p.mineable), round, taken)
  {
    var items := SortedItems(p.mineable);
    assert items[..0] == [];
    BytesNone();
    assert p.mineable - {} == p.mineable && p.inflight + map[] == p.inflight;
  }

  /** A batch is the shortest prefix of the mineable transactions, in ascending
      (client, nonce) order, that reaches the batch size, or all of them; exactly
      these move into flight under the given round. */
  lemma BatchIsShortestPrefix(p: Pool, round: nat)
    requires Rep(p)
    ensures var (q, payload) := MakeBatch(p, round);
            TookFirst(p, q, payload, SortedItems(p.mineable), round, 0)
  {
    MakeFromTakesFirst(Touch(p, round), round, 0);
  }

  /** A batch lists its transactions by client and, for one client, by nonce. */
  lemma BatchAscends(p: Pool, round: nat, i: nat, j: nat)
    requires Rep(p) && i < j < |MakeBatch(p, round).1|
    ensures var a, b := MakeBatch(p, round).1[i], MakeBatch(p, round).1[j];
            a.client < b.client || (a.client == b.client && a.nonce < b.nonce)
  {
    hide SortedItems, MakeBatch, Total, Indexed, Flights;
    BatchIsShortestPrefix(p, round);
    SortedItemsCorrect(p.mineable);
  }

  lemma {:induction false} SortedItemsBytes(m: map<Key, Sized>)
    ensures Bytes(SortedItems(m)) == Total(m)
    decreases |m|
  {
    hide First;
    if m != map[] {
      var k := First(m.Keys);
      RemoveShrinks(m, k);
      SortedItemsBytes(m - {k});
      assert ([m[k]] + SortedItems(m - {k}))[1..] == SortedItems(m - {k});
    }
  }

  lemma {:induction false} BytesPrefix(items: seq<Sized>, j: nat)
    requires j <= |items|
    ensures Bytes(items[..j]) <= Bytes(items)
  {
    if j > 0 {
      BytesPrefix(items[1..], j - 1);
      assert items[..j][1..] == items[1..][..j - 1];
    }
  }

  /** The readiness test looks at a counter. It holds exactly when the mineable
      transactions exceed the batch size; a batch made then reaches that size, and
      one made otherwise takes every mineable byte. */
  lemma ReadyFillsBatch(p: Pool, round: nat)
    requires Rep(p)
    ensures Ready(p) <==> Total(p.mineable) > p.batchSize
    ensures var payload := MakeBatch(p, round).1; var items := SortedItems(p.mineable);
            && |payload| <= |items| && payload == Txs(items[..|payload|])
            && (Ready(p) ==> Bytes(items[..|payload|]) >= p.batchSize)
            && (!Ready(p) ==> Bytes(items[..|payload|]) == Total(p.mineable))
  {
    hide SortedItems, MakeBatch, Bytes, Total, Indexed;
    var payload := MakeBatch(p, round).1;
    var items := SortedItems(p.mineable);
    BatchIsShortestPrefix(p, round);
    SortedItemsBytes(p.mineable);
    BytesPrefix(items, |payload|);
    assert items[..|items|] == items;
  }

  predicate Proposable(p: Pool, k: Key) {
    k in p.mineable && !Stale(p, k) && k !in p.inflight
  }

  predicate InFlightAt(q: Pool, k: Key, round: nat) {
    k in q.inflight && q.inflight[k].round == round
  }

  lemma RepProposable(p: Pool, k: Key)
    requires Rep(p) && k in p.mineable
    ensures Proposable(p, k)
  {
  }

  /** Every key of a batch was mineable, hence fresh and not in flight, and is in
      flight under the batch's round afterwards. */
  lemma BatchKeys(p: Pool, round: nat, tx: Tx)
    requires Rep(p) && tx in MakeBatch(p, round).1
    ensures var k := KeyOf(tx);
            && Proposable(p, k) && p.mineable[k].tx == tx
            && InFlightAt(MakeBatch(p, round).0, k, round) && k !in MakeBatch(p, round).0.mineable
  {
    hide SortedItems, Flights, MakeBatch, Total, Indexed, Proposable, Rising;
    var (q, payload) := MakeBatch(p, round);
    var items := SortedItems(p.mineable);
    BatchIsShortestPrefix(p, round);
    SortedItemsCorrect(p.mineable);
    var front := items[..|payload|];
    assert ItemsOf(front, p.mineable);
    FlightsValues(front, p.mineable, round);
    var i :| 0 <= i < |payload| && payload[i] == tx;
    assert front[i] in front && KeyOf(tx) in KeysOf(front);
    RepProposable(p, KeyOf(tx));
  }

  // ----- Undoing a batch -----

  predicate Unused(p: Pool, round: nat) {
    forall k <- p.inflight :: p.inflight[k].round != round
  }

  predicate SameTransactions(p: Pool, q: Pool) {
    p.mineable == q.mineable && p.bytes == q.bytes && p.inflight == q.inflight
  }

  function Others(inflight: map<Key, Flight>, round: nat): map<Key, Flight> {
    map k | k in inflight && inflight[k].round != round :: inflight[k]
  }

  function Back(q: Pool, round: nat): map<Key, Sized> {
    map k | k in q.inflight && q.inflight[k].round == round && !Stale(q, k)
      :: Sized(q.inflight[k].tx, q.inflight[k].size)
  }

  lemma IndexedKeys(inflight: map<Key, Flight>, byRound: map<nat, set<Key>>, round: nat)
    requires Indexed(inflight, byRound) && round in byRound
    ensures byRound[round] == set k | k in inflight && inflight[k].round == round
  {
    assert forall k <- inflight :: inflight[k].round == round ==> k in byRound[round];
  }

  /** A rollback of one round returns exactly the fresh keys tagged with it. */
  lemma RollbackOne(q: Pool, round: nat)
    requires Rep(q) && round in q.byRound
    ensures var r := Rollback(q, [round]);
            && r.high == q.high && r.inflight == Others(q.inflight, round)
            && r.mineable == q.mineable + Back(q, round)
  {
    hide Indexed, Total;
    IndexedKeys(q.inflight, q.byRound, round);
    assert Returned(q.(byRound := q.byRound - {round}), q.byRound[round]) == Back(q, round);
    assert q.inflight - q.byRound[round] == Others(q.inflight, round);
    assert Rollback(q, [round]) == Rollback(RollbackRound(q, round), []) == RollbackRound(q, round);
  }

  lemma MakeBatchTouches(p: Pool, round: nat)
    ensures round in MakeBatch(p, round).0.byRound
  {
    MakeFromTouches(Touch(p, round), round, 0);
  }

  lemma LaunchFirstTouches(p: Pool, round: nat)
    requires p.mineable != map[]
    ensures round in LaunchFirst(p, round).byRound
  {
  }

  lemma {:induction false} MakeFromTouches(p: Pool, round: nat, taken: nat)
    requires round in p.byRound
    ensures round in MakeFrom(p, round, taken).0.byRound
    decreases |p.mineable|
  {
    hide LaunchFirst, First;
    if taken < p.batchSize && p.mineable != map[] {
      LaunchFirstTouches(p, round);
      MakeFromTouches(LaunchFirst(p, round), round, taken + p.mineable[First(p.mineable.Keys)].size);
    }
  }

  lemma UndoInflight(inflight: map<Key, Flight>, more: map<Key, Flight>, round: nat)
    requires inflight.Keys !! more.Keys && forall k <- more :: more[k].round == round
    ensures Others(inflight + more, round) == inflight <==> forall k <- inflight :: inflight[k].round != round
  {
    if Others(inflight + more, round) == inflight {
      forall k | k in inflight ensures inflight[k].round != round {
        assert k in Others(inflight + more, round);
      }
    }
  }

  lemma UndoMineable(p: Pool, q: Pool, front: seq<Sized>, round: nat)
    requires Rep(p) && Unused(p, round) && ItemsOf(front, p.mineable)
    requires q.mineable == p.mineable - KeysOf(front) && q.high == p.high
    requires q.inflight == p.inflight + Flights(front, round)
    ensures q.mineable + Back(q, round) == p.mineable
  {
    hide Flights, Total, Indexed;
    FlightsValues(front, p.mineable, round);
    assert Back(q, round).Keys == KeysOf(front);
  }

  /** Making a batch and rolling its round back restores the pool's transactions
      if and only if no transaction was already in flight under that round. */
  lemma UndoIff(p: Pool, round: nat)
    requires Rep(p)
    ensures SameTransactions(p, Rollback(MakeBatch(p, round).0, [round])) <==> Unused(p, round)
  {
    hide MakeBatch, Rollback, SortedItems, Flights, KeysOf, Indexed, Total, Rising, Back, Others;
    var (q, payload) := MakeBatch(p, round);
    var r := Rollback(q, [round]);
    BatchIsShortestPrefix(p, round);
    SortedItemsCorrect(p.mineable);
    var front := SortedItems(p.mineable)[..|payload|];
    assert ItemsOf(front, p.mineable);
    MakeBatchRep(p, round);
    MakeBatchTouches(p, round);
    RollbackOne(q, round);
    RollbackRep(q, [round]);
    FlightsValues(front, p.mineable, round);
    UndoInflight(p.inflight, Flights(front, round), round);
    if Unused(p, round) {
      UndoMineable(p, q, front, round);
    }
  }
}
