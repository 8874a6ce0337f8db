/** The part of a Hera node that judges, makes and emits attestations. */
module HeraNode {
  import opened Base
  import opened DataBlocks
  import opened HeraChain
  import opened HeraAttestation
  import opened HeraEmission

  /** A batch sent to the application, and to the batcher with `round`. */
  datatype Batch = Batch(payload: seq<Tx>, round: nat)

  /** Blocks without transactions send nothing. */
  function Batches(es: seq<Emission>): seq<Batch> {
    if es == [] then [] else BatchOf(es[0]) + Batches(es[1..])
  }

  function BatchOf(e: Emission): seq<Batch> {
    if e.envelope.payload == [] then [] else [Batch(e.envelope.payload, e.envelope.height)]
  }

  lemma {:induction false} BatchesAppend(x: seq<Emission>, y: seq<Emission>)
    ensures Batches(x + y) == Batches(x) + Batches(y)
  {
    if x == [] {
      assert x + y == y;
    } else {
      BatchesAppend(x[1..], y);
      TailOfAppend(x, y);
      AppendAssoc(BatchOf(x[0]), Batches(x[1..]), Batches(y));
    }
  }

  lemma BatchesEmpty()
    ensures Batches([]) == []
  {
  }

  class Hera {
    const committee: set<Id>
    const myId: Id
    const chain: MultiAuthorDataChain
    var currentEpoch: nat
    var signatureEpoch: nat
    var prevAttested: map<Id, nat>
    var pendingAttestations: map<Hash, seq<MultiAttestation>>
    var sent: seq<Batch>

    constructor (committee: seq<Id>, myId: Id)
      ensures this.committee == (set a | a in committee) && this.myId == myId
      ensures fresh(chain) && chain.Model() == Initial(this.committee) && Valid(chain.Model())
      ensures sent == [] && pendingAttestations == map[] && prevAttested == map[]
    {
      this.committee := set a | a in committee;
      this.myId := myId;
      chain := new MultiAuthorDataChain(committee);
      currentEpoch, signatureEpoch := 1, 1;
      prevAttested, pendingAttestations, sent := map[], map[], [];
    }

    method MultiAttestationValid(att: MultiAttestation) returns (v: Verdict)
      modifies this`pendingAttestations
      ensures v == Judge(chain.store, committee, att)
      ensures pendingAttestations ==
              match v
              case ParkUnder(h) =>
                old(pendingAttestations)[h := Lookup(old(pendingAttestations), h, []) + [att]]
              case _ => old(pendingAttestations)
    {
      if att.signer !in committee {
        return Reject;
      }
      if !Verifies(att.signer, att.envelope, att.raw) {
        return Reject;
      }
      var heads := att.envelope.heads;
      for i := 0 to |heads|
        invariant FirstMissing(chain.store, heads[i..]) == FirstMissing(chain.store, heads)
      {
        var head := heads[i];
        if head.height == 0 && head.epoch == 0 {
          continue;
        }
        if head.hash !in chain.store {
          pendingAttestations :=
            pendingAttestations[head.hash := Lookup(pendingAttestations, head.hash, []) + [att]];
          return ParkUnder(head.hash);
        }
      }
      return Accept;
    }

    method MakeMultiAttestation(round: nat, sigChainHead: nat) returns (att: MultiAttestation)
      ensures att == Made(chain.Model(), committee, prevAttested, signatureEpoch, round, sigChainHead,
                          currentEpoch, myId)
    {
      hide FreshHeads, Blamed, Ascending;
      var c := chain.Model();
      var ids := Ascending(committee);
      var heads: seq<DataHead>, blames: seq<Id> := [], [];
      ghost var allHeads := FreshHeads(c, prevAttested, currentEpoch, ids);
      ghost var allBlames := Blamed(c, prevAttested, ids);
      for i := 0 to |ids|
        invariant heads + FreshHeads(c, prevAttested, currentEpoch, ids[i..]) == allHeads
        invariant blames + Blamed(c, prevAttested, ids[i..]) == allBlames
      {
        var id := ids[i];
        SplitUnroll(c, prevAttested, currentEpoch, ids, i);
        if Lookup(chain.heights, id, 0) > Lookup(prevAttested, id, 0) {
          if id !in chain.heads {
            blames := blames + [id];
            continue;
          }
          var h := chain.heads[id];
          var epoch := if h in chain.store then chain.store[h].envelope.epoch else currentEpoch;
          heads := heads + [DataHead(id, h, Lookup(chain.heights, id, 0), epoch)];
        } else {
          blames := blames + [id];
        }
      }
      SplitUnroll(c, prevAttested, currentEpoch, ids, |ids|);
      assert heads + [] == heads && blames + [] == blames;
      var env := AttestationEnvelope(signatureEpoch, round, sigChainHead, heads, blames);
      return MultiAttestation(env, myId, SignedBy(myId, env));
    }

    /** Emits every newly committed range, authors in ascending order, and raises
        the watermarks. */
    method OnCommittedAttestation(att: MultiAttestation)
      requires WellKeyed(chain.store)
      modifies this`sent, chain`committedHeights
      ensures chain.Model() == old(EmitAttestation(chain.Model(), att).0)
      ensures sent == old(sent + Batches(EmitAttestation(chain.Model(), att).1))
    {
      hide EmitHeads, EmitHead, Batches, SortByAuthor;
      ghost var before := chain.Model();
      var sorted := SortByAuthor(att.envelope.heads);
      ghost var done: seq<Emission> := [];
      BatchesEmpty();
      for i := 0 to |sorted|
        invariant WellKeyed(chain.store)
        invariant sent == old(sent) + Batches(done)
        invariant EmitHeads(before, sorted).0 == EmitHeads(chain.Model(), sorted[i..]).0
        invariant EmitHeads(before, sorted).1 == done + EmitHeads(chain.Model(), sorted[i..]).1
      {
        ghost var c := chain.Model();
        EmitHeadsUnroll(c, sorted, i);
        EmitOneHead(sorted[i]);
        BatchesAppend(done, EmitHead(c, sorted[i]).1);
        done := done + EmitHead(c, sorted[i]).1;
      }
      EmitHeadsUnroll(chain.Model(), sorted, |sorted|);
      assert done + [] == done && sorted[0..] == sorted;
    }

    method EmitOneHead(head: DataHead)
      requires WellKeyed(chain.store)
      modifies this`sent, chain`committedHeights
      ensures chain.Model() == old(EmitHead(chain.Model(), head).0)
      ensures sent == old(sent) + Batches(old(EmitHead(chain.Model(), head).1))
    {
      var author, to := head.author, head.height;
      var from := Lookup(chain.committedHeights, author, 0);
      if to <= from {
        return;
      }
      var blocks := chain.WalkRangeFrom(head.hash, from, to);
      for j := 0 to |blocks|
        invariant chain.Model() == old(chain.Model())
        invariant sent == old(sent) + Batches(Tag(author, blocks[..j]))
      {
        TagSnoc(author, blocks, j);
        BatchesAppend(Tag(author, blocks[..j]), [Emission(author, blocks[j].envelope)]);
        var payload := blocks[j].envelope.payload;
        if payload != [] {
          sent := sent + [Batch(payload, blocks[j].envelope.height)];
        }
      }
      assert blocks[..|blocks|] == blocks;
      chain.committedHeights := chain.committedHeights[author := to];
    }
  }

  lemma SplitUnroll(c: Chain, prev: map<Id, nat>, epoch: nat, ids: seq<Id>, i: nat)
    requires i <= |ids|
    ensures i == |ids| ==> FreshHeads(c, prev, epoch, ids[i..]) == [] && Blamed(c, prev, ids[i..]) == []
    ensures i < |ids| ==>
              && FreshHeads(c, prev, epoch, ids[i..])
                 == (if Fresh(c, prev, ids[i]) then [HeadOf(c, ids[i], epoch)] else [])
                    + FreshHeads(c, prev, epoch, ids[i + 1..])
              && Blamed(c, prev, ids[i..])
                 == (if Fresh(c, prev, ids[i]) then [] else [ids[i]]) + Blamed(c, prev, ids[i + 1..])
  {
    if i < |ids| {
      assert ids[i..][1..] == ids[i + 1..];
    }
  }

  lemma EmitHeadsUnroll(c: Chain, heads: seq<DataHead>, i: nat)
    requires WellKeyed(c.store) && i <= |heads|
    ensures i == |heads| ==> EmitHeads(c, heads[i..]) == (c, [])
    ensures i < |heads| ==>
              var (c1, out1) := EmitHead(c, heads[i]);
              && EmitHeads(c, heads[i..]).0 == EmitHeads(c1, heads[i + 1..]).0
              && EmitHeads(c, heads[i..]).1 == out1 + EmitHeads(c1, heads[i + 1..]).1
  {
    if i < |heads| {
      assert heads[i..][0] == heads[i] && heads[i..][1..] == heads[i + 1..];
    }
  }

  lemma {:induction false} TagSnoc(a: Id, bs: seq<Block>, j: nat)
    requires j < |bs|
    ensures Tag(a, bs[..j + 1]) == Tag(a, bs[..j]) + [Emission(a, bs[j].envelope)]
  {
    if j > 0 {
      TagSnoc(a, bs[1..], j - 1);
      assert bs[..j + 1][1..] == bs[1..][..j] && bs[..j][1..] == bs[1..][..j - 1];
    }
  }
}
