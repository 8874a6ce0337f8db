/** The nonce-keyed mempool: each transaction is mineable, in flight under the
    round it was proposed in, or gone because its client's nonces moved past it. */
module TxPool {
  import opened Base

  datatype Key = Key(client: Id, nonce: nat)

  datatype Sized = Sized(tx: Tx, size: nat)

  datatype Flight = Flight(tx: Tx, size: nat, round: nat)

  /** The value of a `Txpool` object. `bytes` caches the mineable sizes and
      `byRound` indexes the in-flight keys by their round. */
  datatype Pool = Pool(
    mineable: map<Key, Sized>,
    bytes: int,
    inflight: map<Key, Flight>,
    byRound: map<nat, set<Key>>,
    high: map<Id, nat>,
    batchSize: nat)

  function KeyOf(tx: Tx): Key {
    Key(tx.client, tx.nonce)
  }

  function Empty(batchSize: nat): Pool {
    Pool(map[], 0, map[], map[], map[], batchSize)
  }

  // ----- Key order and byte totals -----

  predicate KeyLess(a: Key, b: Key) {
    a.client < b.client || (a.client == b.client && a.nonce < b.nonce)
  }

  predicate IsFirst(k: Key, s: set<Key>) {
    k in s && forall x <- s :: x == k || KeyLess(k, x)
  }

  lemma {:induction false} FirstExists(s: set<Key>)
    requires s != {}
    ensures exists k :: IsFirst(k, s)
    decreases |s|
  {
    var y :| y in s;
    if s == {y} {
      assert IsFirst(y, s);
    } else {
      FirstExists(s - {y});
      var m :| IsFirst(m, s - {y});
      assert forall x <- s :: x == y || x in s - {y};
      assert IsFirst(if KeyLess(y, m) then y else m, s);
    }
  }

  function First(s: set<Key>): (k: Key)
    requires s != {}
    ensures IsFirst(k, s)
  {
    FirstExists(s);
    var k :| IsFirst(k, s);
    k
  }

  /** Sum of all sizes. */
  function Total(m: map<Key, Sized>): nat
    decreases |m|
  {
    if m == map[] then 0
    else
      var k := First(m.Keys);
      RemoveShrinks(m, k);
      m[k].size + Total(m - {k})
  }

  /** Any key may be taken out of the sum first. */
  lemma {:induction false} TotalRemove(m: map<Key, Sized>, k: Key)
    requires k in m
    ensures Total(m) == m[k].size + Total(m - {k})
    decreases |m|
  {
    var f := First(m.Keys);
    if f != k {
      RemoveShrinks(m, f);
      RemoveShrinks(m, k);
      TotalRemove(m - {f}, k);
      TotalRemove(m - {k}, f);
      assert m - {f} - {k} == m - {k} - {f};
    }
  }

  lemma TotalUpdate(m: map<Key, Sized>, k: Key, v: Sized)
    ensures Total(m[k := v]) == Total(m - {k}) + v.size
  {
    TotalRemove(m[k := v], k);
    assert m[k := v] - {k} == m - {k};
  }

  lemma TotalWithout(m: map<Key, Sized>, k: Key)
    ensures Total(m - {k}) == Total(m) - (if k in m then m[k].size else 0)
  {
    if k in m {
      TotalRemove(m, k);
    } else {
      assert m - {k} == m;
    }
  }

  lemma UnionWithout(a: map<Key, Sized>, b: map<Key, Sized>, k: Key)
    requires k in b && k !in a
    ensures a + b - {k} == a + (b - {k}) && (a + b)[k] == b[k]
  {
  }

  lemma {:induction false} TotalUnion(a: map<Key, Sized>, b: map<Key, Sized>)
    requires a.Keys !! b.Keys
    ensures Total(a + b) == Total(a) + Total(b)
    decreases |b|
  {
    hide First;
    if b == map[] {
      assert a + b == a;
    } else {
      var k := First(b.Keys);
      assert k in b.Keys && k !in a.Keys;
      RemoveShrinks(b, k);
      UnionWithout(a, b, k);
      TotalRemove(b, k);
      TotalUnion(a, b - {k});
      TotalRemove(a + b, k);
    }
  }

  // ----- The operations as functions -----

  function High(p: Pool, c: Id): nat {
    Lookup(p.high, c, 0)
  }

  /** At or below what its client has committed; nonce 0 always is. */
  predicate Stale(p: Pool, k: Key) {
    k.nonce <= High(p, k.client)
  }

  function MineableSize(p: Pool, k: Key): nat {
    if k in p.mineable then p.mineable[k].size else 0
  }

  function AddTx(p: Pool, tx: Tx, size: nat): Pool {
    var k := KeyOf(tx);
    if Stale(p, k) || k in p.inflight then p
    else p.(mineable := p.mineable[k := Sized(tx, size)], bytes := p.bytes - MineableSize(p, k) + size)
  }

  /** The index entry of a round exists from the first time it is used. */
  function Touch(p: Pool, round: nat): Pool {
    p.(byRound := p.byRound[round := Lookup(p.byRound, round, {})])
  }

  /** Moves `k` out of the mineable ones into flight. */
  function Launch(p: Pool, k: Key, f: Flight): Pool {
    p.(mineable := p.mineable - {k}, bytes := p.bytes - MineableSize(p, k),
       inflight := p.inflight[k := f],
       byRound := p.byRound[f.round := Lookup(p.byRound, f.round, {}) + {k}])
  }

  function AdmitOne(p: Pool, tx: Tx, round: nat): Pool {
    var k := KeyOf(tx);
    if Stale(p, k) || k in p.inflight then p
    else Launch(p, k, Flight(tx, if k in p.mineable then p.mineable[k].size else tx.wireSize, round))
  }

  function AdmitAll(p: Pool, batch: seq<Tx>, round: nat): Pool
    decreases |batch|
  {
    if batch == [] then p else AdmitAll(AdmitOne(p, batch[0], round), batch[1..], round)
  }

  function AdmitProposal(p: Pool, batch: seq<Tx>, round: nat): Pool {
    AdmitAll(Touch(p, round), batch, round)
  }

  /** Moves the first mineable key into flight. */
  function LaunchFirst(p: Pool, round: nat): (q: Pool)
    requires p.mineable != map[]
    ensures |q.mineable| < |p.mineable|
  {
    var k := First(p.mineable.Keys);
    RemoveShrinks(p.mineable, k);
    Launch(p, k, Flight(p.mineable[k].tx, p.mineable[k].size, round))
  }

  /** Takes the first mineable key while fewer than `batchSize` bytes are taken. */
  function MakeFrom(p: Pool, round: nat, taken: nat): (Pool, seq<Tx>)
    decreases |p.mineable|
  {
    if taken >= p.batchSize || p.mineable == map[] then (p, [])
    else
      var e := p.mineable[First(p.mineable.Keys)];
      var (q, rest) := MakeFrom(LaunchFirst(p, round), round, taken + e.size);
      (q, [e.tx] + rest)
  }

  function MakeBatch(p: Pool, round: nat): (Pool, seq<Tx>) {
    MakeFrom(Touch(p, round), round, 0)
  }

  function Unflight(p: Pool, k: Key): Pool {
    if k !in p.inflight then p
    else
      var r := p.inflight[k].round;
      p.(inflight := p.inflight - {k},
         byRound := if r in p.byRound then p.byRound[r := p.byRound[r] - {k}] else p.byRound)
  }

  function Unmine(p: Pool, k: Key): Pool {
    p.(mineable := p.mineable - {k}, bytes := p.bytes - MineableSize(p, k))
  }

  function Raise(p: Pool, k: Key): Pool {
    p.(high := p.high[k.client := if k.nonce > High(p, k.client) then k.nonce else High(p, k.client)])
  }

  function CommitOne(p: Pool, k: Key): Pool {
    Raise(Unmine(Unflight(p, k), k), k)
  }

  function CommitAll(p: Pool, batch: seq<Tx>): Pool
    decreases |batch|
  {
    if batch == [] then p else CommitAll(CommitOne(p, KeyOf(batch[0])), batch[1..])
  }

  function Clients(batch: seq<Tx>): set<Id> {
    set tx | tx in batch :: tx.client
  }

  /** Drops the mineable transactions that have gone stale for these clients. */
  function Collect(p: Pool, clients: set<Id>): Pool {
    var kept := map k | k in p.mineable && !(k.client in clients && Stale(p, k)) :: p.mineable[k];
    p.(mineable := kept, bytes := p.bytes - (Total(p.mineable) - Total(kept)))
  }

  function DropEmptyRound(p: Pool, round: nat): Pool {
    if round in p.byRound && p.byRound[round] == {} then p.(byRound := p.byRound - {round}) else p
  }

  function Commit(p: Pool, batch: seq<Tx>, round: nat): Pool {
    DropEmptyRound(Collect(CommitAll(p, batch), Clients(batch)), round)
  }

  /** What a rollback of the keys `s` makes mineable again. */
  function Returned(p: Pool, s: set<Key>): map<Key, Sized> {
    map k | k in s && k in p.inflight && !Stale(p, k) :: Sized(p.inflight[k].tx, p.inflight[k].size)
  }

  function Return(p: Pool, s: set<Key>): Pool {
    p.(inflight := p.inflight - s, mineable := p.mineable + Returned(p, s),
       bytes := p.bytes + Total(Returned(p, s)))
  }

  function RollbackRound(p: Pool, round: nat): Pool {
    if round !in p.byRound then p
    else Return(p.(byRound := p.byRound - {round}), p.byRound[round])
  }

  function Rollback(p: Pool, rounds: seq<nat>): Pool
    decreases |rounds|
  {
    if rounds == [] then p else Rollback(RollbackRound(p, rounds[0]), rounds[1..])
  }

  predicate Ready(p: Pool) {
    p.bytes > p.batchSize
  }

  // ----- The representation invariant -----

  predicate BytesExact(p: Pool) {
    p.bytes == Total(p.mineable)
  }

  /** The index is the exact inverse of the tags. */
  predicate Indexed(inflight: map<Key, Flight>, byRound: map<nat, set<Key>>) {
    && (forall r <- byRound :: forall k <- byRound[r] :: k in inflight && inflight[k].round == r)
    && (forall k <- inflight :: inflight[k].round in byRound && k in byRound[inflight[k].round])
  }

  predicate Keyed(p: Pool) {
    && (forall k <- p.mineable :: KeyOf(p.mineable[k].tx) == k)
    && (forall k <- p.inflight :: KeyOf(p.inflight[k].tx) == k)
  }

  predicate FreshExcept(p: Pool, clients: set<Id>) {
    forall k <- p.mineable :: k.client !in clients ==> !Stale(p, k)
  }

  /** All but freshness. */
  predicate Shaped(p: Pool) {
    && p.mineable.Keys !! p.inflight.Keys
    && BytesExact(p) && Indexed(p.inflight, p.byRound) && Keyed(p)
  }

  /** Mineable and in-flight keys are disjoint, the byte counter and the round
      index are exact, and no mineable nonce is at or below its client's mark. */
  predicate Rep(p: Pool) {
    Shaped(p) && FreshExcept(p, {})
  }

  lemma EmptyRep(batchSize: nat)
    ensures Rep(Empty(batchSize))
  {
  }

  lemma AddTxRep(p: Pool, tx: Tx, size: nat)
    requires Rep(p)
    ensures Rep(AddTx(p, tx, size))
  {
    var k := KeyOf(tx);
    TotalUpdate(p.mineable, k, Sized(tx, size));
    TotalWithout(p.mineable, k);
  }

  lemma TouchIndexed(inflight: map<Key, Flight>, byRound: map<nat, set<Key>>, round: nat)
    requires Indexed(inflight, byRound)
    ensures Indexed(inflight, byRound[round := Lookup(byRound, round, {})])
  {
  }

  lemma LaunchIndexed(inflight: map<Key, Flight>, byRound: map<nat, set<Key>>, k: Key, f: Flight)
    requires Indexed(inflight, byRound) && k !in inflight
    ensures Indexed(inflight[k := f], byRound[f.round := Lookup(byRound, f.round, {}) + {k}])
  {
  }

  lemma LaunchRep(p: Pool, k: Key, f: Flight)
    requires Rep(p) && k !in p.inflight && KeyOf(f.tx) == k
    ensures Rep(Launch(p, k, f))
  {
    hide Indexed;
    LaunchIndexed(p.inflight, p.byRound, k, f);
    TotalWithout(p.mineable, k);
  }

  lemma {:induction false} AdmitAllRep(p: Pool, batch: seq<Tx>, round: nat)
    requires Rep(p)
    ensures Rep(AdmitAll(p, batch, round))
    decreases |batch|
  {
    hide Rep, Launch;
    if batch != [] {
      var k := KeyOf(batch[0]);
      if !Stale(p, k) && k !in p.inflight {
        LaunchRep(p, k, Flight(batch[0], if k in p.mineable then p.mineable[k].size else batch[0].wireSize, round));
      }
      AdmitAllRep(AdmitOne(p, batch[0], round), batch[1..], round);
    }
  }

  lemma TouchRep(p: Pool, round: nat)
    requires Rep(p)
    ensures Rep(Touch(p, round))
  {
    hide Indexed;
    TouchIndexed(p.inflight, p.byRound, round);
  }

  lemma AdmitProposalRep(p: Pool, batch: seq<Tx>, round: nat)
    requires Rep(p)
    ensures Rep(AdmitProposal(p, batch, round))
  {
    TouchRep(p, round);
    AdmitAllRep(Touch(p, round), batch, round);
  }

  lemma LaunchFirstRep(p: Pool, round: nat)
    requires Rep(p) && p.mineable != map[]
    ensures Rep(LaunchFirst(p, round))
  {
    var k := First(p.mineable.Keys);
    LaunchRep(p, k, Flight(p.mineable[k].tx, p.mineable[k].size, round));
  }

  lemma {:induction false} MakeFromRep(p: Pool, round: nat, taken: nat)
    requires Rep(p)
    ensures Rep(MakeFrom(p, round, taken).0)
    decreases |p.mineable|
  {
    hide Rep, First, LaunchFirst;
    if taken < p.batchSize && p.mineable != map[] {
      LaunchFirstRep(p, round);
      MakeFromRep(LaunchFirst(p, round), round, taken + p.mineable[First(p.mineable.Keys)].size);
    }
  }

  lemma MakeBatchRep(p: Pool, round: nat)
    requires Rep(p)
    ensures Rep(MakeBatch(p, round).0)
  {
    TouchRep(p, round);
    MakeFromRep(Touch(p, round), round, 0);
  }

  lemma UnflightIndexed(p: Pool, k: Key)
    requires Indexed(p.inflight, p.byRound)
    ensures Indexed(Unflight(p, k).inflight, Unflight(p, k).byRound)
  {
  }

  lemma CommitOneShaped(p: Pool, k: Key, clients: set<Id>)
    requires Shaped(p) && FreshExcept(p, clients)
    ensures Shaped(CommitOne(p, k)) && FreshExcept(CommitOne(p, k), clients + {k.client})
    ensures Stale(CommitOne(p, k), k)
  {
    hide Indexed;
    UnflightIndexed(p, k);
    TotalWithout(p.mineable, k);
  }

  lemma {:induction false} CommitAllShaped(p: Pool, batch: seq<Tx>, clients: set<Id>)
    requires Shaped(p) && FreshExcept(p, clients)
    ensures Shaped(CommitAll(p, batch)) && FreshExcept(CommitAll(p, batch), clients + Clients(batch))
    decreases |batch|
  {
    hide Shaped, FreshExcept, CommitOne;
    if batch == [] {
      assert clients + Clients(batch) == clients;
    } else {
      CommitOneShaped(p, KeyOf(batch[0]), clients);
      CommitAllShaped(CommitOne(p, KeyOf(batch[0])), batch[1..], clients + {batch[0].client});
      assert batch == [batch[0]] + batch[1..];
      assert clients + {batch[0].client} + Clients(batch[1..]) == clients + Clients(batch);
    }
  }

  lemma CollectRep(p: Pool, clients: set<Id>)
    requires Shaped(p) && FreshExcept(p, clients)
    ensures Rep(Collect(p, clients))
  {
    hide Indexed;
  }

  lemma CommitRep(p: Pool, batch: seq<Tx>, round: nat)
    requires Rep(p)
    ensures Rep(Commit(p, batch, round))
  {
    hide Shaped, FreshExcept, CommitAll, Collect;
    CommitAllShaped(p, batch, {});
    assert {} + Clients(batch) == Clients(batch);
    CollectRep(CommitAll(p, batch), Clients(batch));
    DropEmptyRep(Collect(CommitAll(p, batch), Clients(batch)), round);
  }

  lemma DropEmptyRep(p: Pool, round: nat)
    requires Rep(p)
    ensures Rep(DropEmptyRound(p, round))
  {
  }

  lemma RollbackIndexed(inflight: map<Key, Flight>, byRound: map<nat, set<Key>>, round: nat)
    requires Indexed(inflight, byRound) && round in byRound
    ensures Indexed(inflight - byRound[round], byRound - {round})
  {
  }

  lemma ReturnRep(p: Pool, s: set<Key>)
    requires p.mineable.Keys !! p.inflight.Keys && BytesExact(p) && Keyed(p) && FreshExcept(p, {})
    requires Indexed(p.inflight - s, p.byRound)
    ensures Rep(Return(p, s))
  {
    hide Indexed;
    TotalUnion(p.mineable, Returned(p, s));
  }

  lemma RollbackRoundRep(p: Pool, round: nat)
    requires Rep(p)
    ensures Rep(RollbackRound(p, round))
  {
    hide Indexed, Return;
    if round in p.byRound {
      RollbackIndexed(p.inflight, p.byRound, round);
      ReturnRep(p.(byRound := p.byRound - {round}), p.byRound[round]);
    }
  }

  lemma {:induction false} RollbackRep(p: Pool, rounds: seq<nat>)
    requires Rep(p)
    ensures Rep(Rollback(p, rounds))
    decreases |rounds|
  {
    hide Rep, RollbackRound;
    if rounds != [] {
      RollbackRoundRep(p, rounds[0]);
      RollbackRep(RollbackRound(p, rounds[0]), rounds[1..]);
    }
  }
}
