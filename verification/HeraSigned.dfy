/** Whatever a Hera node stores or parks carries the good signature of a known id. */
module HeraSigned {
  import opened Base
  import opened DataBlocks
  import opened HeraChain
  import opened HeraAttestation
  import opened HeraEmission

  predicate WellSigned(ids: set<Id>, b: Block) {
    b.sig.signer in ids && b.sig.raw == SignedBy(b.sig.signer, EnvelopeHash(b.envelope))
  }

  predicate StoredSigned(ids: set<Id>, store: map<Hash, Block>) {
    forall h <- store :: h == GENESIS_HASH || WellSigned(ids, store[h])
  }

  predicate AllSigned(ids: set<Id>, bs: seq<Block>) {
    forall b <- bs :: WellSigned(ids, b)
  }

  predicate ParkedSigned(ids: set<Id>, pending: map<Hash, seq<Block>>) {
    forall p <- pending :: AllSigned(ids, pending[p])
  }

  predicate EverythingSigned(ids: set<Id>, c: Chain) {
    StoredSigned(ids, c.store) && ParkedSigned(ids, c.pending)
  }

  lemma {:induction false} AdoptAllSigned(ids: set<Id>, c: Chain, a: Id, bs: seq<Block>)
    requires StoredSigned(ids, c.store) && AllSigned(ids, bs)
    ensures StoredSigned(ids, AdoptAll(c, a, bs).store)
    decreases |bs|
  {
    hide WellSigned;
    if bs != [] {
      assert AllSigned(ids, bs[1..]) by { assert forall b <- bs[1..] :: b in bs; }
      AdoptAllSigned(ids, Adopt(c, a, bs[0]), a, bs[1..]);
    }
  }

  lemma {:induction false} DrainSigned(ids: set<Id>, c: Chain, a: Id)
    requires EverythingSigned(ids, c)
    ensures EverythingSigned(ids, Drain(c, a))
    decreases |c.pending|
  {
    hide AllSigned, StoredSigned, AdoptAll;
    if a in c.heads && c.heads[a] in c.pending {
      var h := c.heads[a];
      var c1 := c.(pending := c.pending - {h});
      RemoveShrinks(c.pending, h);
      AdoptAllSigned(ids, c1, a, c.pending[h]);
      DrainSigned(ids, AdoptAll(c1, a, c.pending[h]), a);
    }
  }

  lemma InsertSigned(ids: set<Id>, c: Chain, b: Block)
    requires EverythingSigned(ids, c) && WellSigned(ids, b)
    ensures EverythingSigned(ids, Insert(c, b))
  {
    hide WellSigned, AllSigned;
  }

  lemma ParkSigned(ids: set<Id>, c: Chain, b: Block)
    requires EverythingSigned(ids, c) && WellSigned(ids, b)
    ensures var p := b.envelope.parent;
            EverythingSigned(ids, c.(pending := c.pending[p := Lookup(c.pending, p, []) + [b]]))
  {
    hide WellSigned, StoredSigned;
  }

  lemma AdmitSigned(ids: set<Id>, c: Chain, b: Block)
    requires Valid(c) && EverythingSigned(ids, c) && WellSigned(ids, b)
    ensures EverythingSigned(ids, Admit(c, b).0)
  {
    hide EverythingSigned, Drain, Advance, AncestorClosed, LinksStored, HeadsStored, ParkedUnderParent;
    var a := b.sig.signer;
    if b.Digest() !in c.store && a in c.heads {
      InsertSigned(ids, c, b);
      if b.envelope.parent == c.heads[a] {
        var c1 := SetHead(Insert(c, b), a, b.Digest(), b.envelope.height);
        HeadsDoNotMatter(ids, Insert(c, b), c1);
        DrainSigned(ids, c1, a);
      } else if b.envelope.parent in c.store {
        InsertKeepsValid(c, b, a);
        AdvanceKeepsValid(Insert(c, b), a);
        HeadsDoNotMatter(ids, Insert(c, b), Advance(Insert(c, b), a));
        DrainSigned(ids, Advance(Insert(c, b), a), a);
      } else {
        ParkSigned(ids, c, b);
      }
    }
  }

  lemma HeadsDoNotMatter(ids: set<Id>, c: Chain, d: Chain)
    requires EverythingSigned(ids, c) && d.store == c.store && d.pending == c.pending
    ensures EverythingSigned(ids, d)
  {
  }

  /** What a delivery does: a block with a good signature of a known id is admitted,
      any other leaves the node as it is. */
  lemma DeliveryExact(ids: set<Id>, n: Node, b: Block)
    requires Valid(n.chain)
    ensures Step(ids, n, Deliver(b)) == if WellSigned(ids, b) then n.(chain := Admit(n.chain, b).0) else n
  {
    hide Admit;
  }

  /** Over any run every stored block but genesis and every parked one is signed by
      the known id it names. */
  lemma {:induction false} OnlySignedStored(ids: set<Id>, es: seq<Event>)
    ensures EverythingSigned(ids, Run(ids, es).chain)
    decreases |es|
  {
    hide EverythingSigned, Admit, WellSigned, EmitAttestation;
    if es == [] {
      InitialSigned(ids);
    } else {
      var n := Run(ids, es[..|es| - 1]);
      OnlySignedStored(ids, es[..|es| - 1]);
      match es[|es| - 1]
      case Deliver(b) =>
        DeliveryExact(ids, n, b);
        if WellSigned(ids, b) {
          AdmitSigned(ids, n.chain, b);
        }
      case Receive(_) =>
      case Commit(att) =>
        HeadsDoNotMatter(ids, n.chain, EmitAttestation(n.chain, att).0);
    }
  }

  lemma InitialSigned(ids: set<Id>)
    ensures EverythingSigned(ids, Initial(ids))
  {
  }
}
