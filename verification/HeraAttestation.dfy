/** Multi-attestations: how a leader builds one from its own data chains and
    how a node judges one it receives. */
module HeraAttestation {
  import opened Base
  import opened DataBlocks
  import opened HeraChain

  datatype DataHead = DataHead(author: Id, hash: Hash, height: nat, epoch: nat)

  /** What the leader signs. `parentS` stands for the hash of the sig-chain head. */
  datatype AttestationEnvelope = AttestationEnvelope(
    epochS: nat, roundS: nat, parentS: nat, heads: seq<DataHead>, blames: seq<Id>)

  datatype MultiAttestation = MultiAttestation(
    envelope: AttestationEnvelope, signer: Id, raw: RawSig<AttestationEnvelope>)

  datatype Verdict = Accept | Reject | ParkUnder(missing: Hash)

  // ----- Judging -----

  /** Genesis heads need no stored block. */
  predicate HeadStored(store: map<Hash, Block>, head: DataHead) {
    (head.height == 0 && head.epoch == 0) || head.hash in store
  }

  function FirstMissing(store: map<Hash, Block>, heads: seq<DataHead>): (r: Option<Hash>)
    ensures r.None? <==> forall h <- heads :: HeadStored(store, h)
    ensures r.Some? ==> r.value !in store
  {
    if heads == [] then None
    else if HeadStored(store, heads[0]) then FirstMissing(store, heads[1..])
    else Some(heads[0].hash)
  }

  function Judge(store: map<Hash, Block>, known: set<Id>, att: MultiAttestation): Verdict {
    if att.signer !in known || !Verifies(att.signer, att.envelope, att.raw) then Reject
    else match FirstMissing(store, att.envelope.heads)
         case None => Accept
         case Some(h) => ParkUnder(h)
  }

  lemma {:induction false} FirstMissingAt(store: map<Hash, Block>, heads: seq<DataHead>) returns (i: nat)
    requires FirstMissing(store, heads).Some?
    ensures i < |heads| && !HeadStored(store, heads[i]) && FirstMissing(store, heads) == Some(heads[i].hash)
    ensures forall j | 0 <= j < i :: HeadStored(store, heads[j])
  {
    if HeadStored(store, heads[0]) {
      i := FirstMissingAt(store, heads[1..]);
      i := i + 1;
    } else {
      i := 0;
    }
  }

  predicate IsFirstMissing(store: map<Hash, Block>, heads: seq<DataHead>, i: nat, h: Hash) {
    && i < |heads| && heads[i].hash == h && h !in store && !(heads[i].height == 0 && heads[i].epoch == 0)
    && forall j | 0 <= j < i :: (heads[j].height == 0 && heads[j].epoch == 0) || heads[j].hash in store
  }

  /** The three verdicts: unknown signers and bad signatures are rejected; a good
      one is accepted exactly when every block it names is stored, genesis aside,
      and else waits for the first that is not. */
  lemma VerdictMeans(store: map<Hash, Block>, known: set<Id>, att: MultiAttestation)
    ensures var v := Judge(store, known, att); var heads := att.envelope.heads;
            var signed := att.signer in known && att.raw == SignedBy(att.signer, att.envelope);
            && (v == Reject <==> !signed)
            && (v == Accept <==>
                  signed && forall h <- heads :: (h.height == 0 && h.epoch == 0) || h.hash in store)
            && (v.ParkUnder? ==> exists i :: IsFirstMissing(store, heads, i, v.missing))
  {
    if Judge(store, known, att).ParkUnder? {
      var i := FirstMissingAt(store, att.envelope.heads);
      assert IsFirstMissing(store, att.envelope.heads, i, Judge(store, known, att).missing);
    }
  }

  // ----- Building -----

  predicate Fresh(c: Chain, prev: map<Id, nat>, a: Id) {
    Lookup(c.heights, a, 0) > Lookup(prev, a, 0) && a in c.heads
  }

  function HeadOf(c: Chain, a: Id, currentEpoch: nat): DataHead
    requires a in c.heads
  {
    var h := c.heads[a];
    DataHead(a, h, Lookup(c.heights, a, 0),
             if h in c.store then c.store[h].envelope.epoch else currentEpoch)
  }

  function FreshHeads(c: Chain, prev: map<Id, nat>, epoch: nat, ids: seq<Id>): seq<DataHead> {
    if ids == [] then []
    else
      var rest := FreshHeads(c, prev, epoch, ids[1..]);
      if Fresh(c, prev, ids[0]) then [HeadOf(c, ids[0], epoch)] + rest else rest
  }

  function Blamed(c: Chain, prev: map<Id, nat>, ids: seq<Id>): seq<Id> {
    if ids == [] then []
    else
      var rest := Blamed(c, prev, ids[1..]);
      if Fresh(c, prev, ids[0]) then rest else [ids[0]] + rest
  }

  predicate HeadsAscend(heads: seq<DataHead>) {
    forall i, j | 0 <= i < j < |heads| :: heads[i].author < heads[j].author
  }

  lemma {:induction false} FreshHeadsFrom(c: Chain, prev: map<Id, nat>, epoch: nat, ids: seq<Id>)
    ensures var heads := FreshHeads(c, prev, epoch, ids);
            && (forall h <- heads ::
                  h.author in ids && Fresh(c, prev, h.author) && h == HeadOf(c, h.author, epoch))
            && (forall a <- ids :: Fresh(c, prev, a) ==> HeadOf(c, a, epoch) in heads)
  {
    if ids != [] {
      FreshHeadsFrom(c, prev, epoch, ids[1..]);
      assert forall a <- ids :: a == ids[0] || a in ids[1..];
    }
  }

  lemma {:induction false} FreshHeadsAscend(c: Chain, prev: map<Id, nat>, epoch: nat, ids: seq<Id>)
    requires StrictlyAscending(ids)
    ensures HeadsAscend(FreshHeads(c, prev, epoch, ids))
  {
    if ids != [] {
      FreshHeadsAscend(c, prev, epoch, ids[1..]);
      FreshHeadsFrom(c, prev, epoch, ids[1..]);
      var rest := FreshHeads(c, prev, epoch, ids[1..]);
      forall k | 0 <= k < |rest| ensures ids[0] < rest[k].author {
        assert rest[k] in rest && rest[k].author in ids[1..];
      }
    }
  }

  lemma {:induction false} BlamedFrom(c: Chain, prev: map<Id, nat>, epoch: nat, ids: seq<Id>)
    requires StrictlyAscending(ids)
    ensures var blames := Blamed(c, prev, ids);
            && (forall a :: a in blames <==> a in ids && !Fresh(c, prev, a))
            && StrictlyAscending(blames)
            && |FreshHeads(c, prev, epoch, ids)| + |blames| == |ids|
  {
    hide Fresh, HeadOf;
    if ids != [] {
      BlamedFrom(c, prev, epoch, ids[1..]);
      var rest := Blamed(c, prev, ids[1..]);
      forall k | 0 <= k < |rest| ensures ids[0] < rest[k] {
        assert rest[k] in rest && rest[k] in ids[1..];
      }
      assert forall a <- ids :: a == ids[0] || a in ids[1..];
    }
  }

  function Made(c: Chain, committee: set<Id>, prev: map<Id, nat>, epochS: nat, roundS: nat,
                parentS: nat, epoch: nat, me: Id): MultiAttestation
  {
    var ids := Ascending(committee);
    var env := AttestationEnvelope(epochS, roundS, parentS,
                                   FreshHeads(c, prev, epoch, ids), Blamed(c, prev, ids));
    MultiAttestation(env, me, SignedBy(me, env))
  }

  /** An attestation covers each committee member exactly once, as a head if and
      only if its chain grew since it was last attested; every head is the
      author's stored tip at its true height; and its maker accepts it. */
  lemma MadeIsComplete(c: Chain, committee: set<Id>, prev: map<Id, nat>, epochS: nat, roundS: nat,
                       parentS: nat, epoch: nat, me: Id)
    requires Valid(c) && me in committee
    ensures var att := Made(c, committee, prev, epochS, roundS, parentS, epoch, me);
            var env := att.envelope;
            && att.signer == me && env.epochS == epochS && env.roundS == roundS && env.parentS == parentS
            && |env.heads| + |env.blames| == |committee|
            && HeadsAscend(env.heads) && StrictlyAscending(env.blames)
            && (forall a <- committee :: a in env.blames <==> !exists h :: h in env.heads && h.author == a)
            && (forall a <- env.blames ::
                  a in committee && Lookup(c.heights, a, 0) <= Lookup(prev, a, 0))
            && (forall h <- env.heads ::
                  && h.height > Lookup(prev, h.author, 0)
                  && h.author in c.heads && h.hash == c.heads[h.author] && h.hash in c.store
                  && h.height == c.store[h.hash].envelope.height
                  && h.epoch == c.store[h.hash].envelope.epoch)
            && Judge(c.store, committee, att) == Accept
  {
    var ids := Ascending(committee);
    FreshHeadsFrom(c, prev, epoch, ids);
    FreshHeadsAscend(c, prev, epoch, ids);
    BlamedFrom(c, prev, epoch, ids);
  }
}
