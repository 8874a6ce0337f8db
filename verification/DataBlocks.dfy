/** Data blocks and their hashes.

    A hash is symbolic: it is the envelope it was computed from, or raw bytes
    that are the hash of nothing. This is content addressing with no collisions
    and no hash cycles, and it gives every chain walk its termination measure.
    As in the source, a block's hash covers the envelope only, not the
    signature. */
module DataBlocks {
  import opened Base

  datatype Hash = RawHash(bytes: nat) | EnvelopeHash(envelope: Envelope)

  datatype Envelope = Envelope(epoch: nat, height: nat, payload: seq<Tx>, parent: Hash)

  datatype BlockSig = BlockSig(signer: Id, raw: RawSig<Hash>)

  datatype Block = Block(envelope: Envelope, sig: BlockSig) {
    function Digest(): Hash {
      EnvelopeHash(envelope)
    }
  }

  const EMPTY_HASH: Hash := RawHash(0)

  const GENESIS: Block := Block(Envelope(0, 0, [], EMPTY_HASH), BlockSig(0, Garbage(0)))

  const GENESIS_HASH: Hash := EnvelopeHash(Envelope(0, 0, [], EMPTY_HASH))

  /** Number of envelopes on the chain that ends in `h`. */
  function Depth(h: Hash): nat {
    match h
    case RawHash(_) => 0
    case EnvelopeHash(e) => 1 + Depth(e.parent)
  }

  /** `a` is `d` itself or lies on the parent chain of `d`. */
  predicate AncestorOrSelf(a: Hash, d: Hash) {
    || a == d
    || match d
       case RawHash(_) => false
       case EnvelopeHash(e) => AncestorOrSelf(a, e.parent)
  }

  lemma {:induction false} AncestorTransitive(a: Hash, b: Hash, c: Hash)
    requires AncestorOrSelf(a, b) && AncestorOrSelf(b, c)
    ensures AncestorOrSelf(a, c)
  {
    if b != c {
      AncestorTransitive(a, b, c.envelope.parent);
    }
  }

  lemma {:induction false} AncestorDepth(a: Hash, d: Hash)
    requires AncestorOrSelf(a, d)
    ensures Depth(a) <= Depth(d)
    ensures Depth(a) == Depth(d) ==> a == d
  {
    if a != d {
      AncestorDepth(a, d.envelope.parent);
    }
  }

  /** Two ancestors of one block are themselves ordered. */
  lemma {:induction false} AncestorsLinear(a: Hash, b: Hash, d: Hash)
    requires AncestorOrSelf(a, d) && AncestorOrSelf(b, d)
    ensures AncestorOrSelf(a, b) || AncestorOrSelf(b, a)
  {
    if a != d && b != d {
      AncestorsLinear(a, b, d.envelope.parent);
    }
  }
}
