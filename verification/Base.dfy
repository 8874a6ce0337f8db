/** Identifiers, transactions and signatures shared by the three protocols. */
module Base {

  type Id = nat

  /** The id that leads the first round and signs the genesis element. */
  const START_ID: Id := 0

  datatype Option<+T> = None | Some(value: T)

  /** A client transaction. `wireSize` is the length of its serialized form. */
  datatype Tx = Tx(client: Id, nonce: nat, body: nat, wireSize: nat)

  /** Signature bytes: either what `id`'s secret key produces on `digest`, or
      bytes that verify under no key. */
  datatype RawSig<D> = SignedBy(id: Id, digest: D) | Garbage(bytes: nat)

  predicate Verifies<D(==)>(id: Id, digest: D, raw: RawSig<D>) {
    raw == SignedBy(id, digest)
  }

  /** Size of the Leto quorum and of the commit window: (n + f + 1) / 2. */
  function QuorumLen(n: nat, f: nat): nat {
    (n + f + 1) / 2
  }

  function Lookup<K, V>(m: map<K, V>, k: K, default: V): V {
    if k in m then m[k] else default
  }

  lemma RemoveShrinks<K, V>(m: map<K, V>, k: K)
    requires k in m
    ensures |m - {k}| < |m|
  {
    var m' := m - {k};
    assert m'.Keys == m.Keys - {k};
  }

  lemma AppendAssoc<T>(x: seq<T>, y: seq<T>, z: seq<T>)
    ensures x + (y + z) == (x + y) + z
  {
  }

  lemma TailOfAppend<T>(x: seq<T>, y: seq<T>)
    requires x != []
    ensures (x + y)[0] == x[0] && (x + y)[1..] == x[1..] + y
  {
  }

  predicate IsLeast(m: Id, ids: set<Id>) {
    m in ids && forall x <- ids :: m <= x
  }

  lemma {:induction false} LeastExists(ids: set<Id>)
    requires ids != {}
    ensures exists m :: IsLeast(m, ids)
    decreases |ids|
  {
    var y :| y in ids;
    var rest := ids - {y};
    if rest == {} {
      assert ids == {y};
      assert IsLeast(y, ids);
    } else {
      LeastExists(rest);
      var m :| IsLeast(m, rest);
      assert forall x <- ids :: x == y || x in rest;
      assert IsLeast(if y <= m then y else m, ids);
    }
  }

  predicate StrictlyAscending(s: seq<Id>) {
    forall i, j | 0 <= i < j < |s| :: s[i] < s[j]
  }

  /** A set of ids in ascending order. */
  function Ascending(ids: set<Id>): (s: seq<Id>)
    ensures |s| == |ids|
    ensures forall x :: x in s <==> x in ids
    ensures StrictlyAscending(s)
    decreases |ids|
  {
    if ids == {} then []
    else
      LeastExists(ids);
      var m :| IsLeast(m, ids);
      var rest := Ascending(ids - {m});
      assert forall x <- rest :: m < x;
      [m] + rest
  }
}
