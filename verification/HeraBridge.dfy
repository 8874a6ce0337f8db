/** Where an admission leaves its signer's head: past the admitted block exactly
    when child links lead from the old head to the block's parent. */
module HeraBridge {
  import opened Base
  import opened DataBlocks
  import opened HeraChain
  import opened HeraConvergence

  // ----- Paths of child links -----

  lemma {:induction false} PathIsAncestry(links: map<Hash, Hash>, x: Hash, y: Hash)
    requires LinkPath(links, x, y)
    ensures AncestorOrSelf(x, y)
  {
    if x != y {
      PathIsAncestry(links, x, y.envelope.parent);
    }
  }

  /** A path to `y` does not use the link of a hash that is as deep as `y`. */
  lemma {:induction false} DeepLinkUnused(links: map<Hash, Hash>, x: Hash, y: Hash, p: Hash, v: Hash)
    requires Depth(p) >= Depth(y)
    ensures LinkPath(links[p := v], x, y) <==> LinkPath(links, x, y)
  {
    if x != y && y.EnvelopeHash? {
      DeepLinkUnused(links, x, y.envelope.parent, p, v);
    }
  }

  lemma {:induction false} FirstStep(links: map<Hash, Hash>, x: Hash, y: Hash)
    requires LinkPath(links, x, y) && x != y
    ensures x in links && LinkPath(links, links[x], y)
  {
    var p := y.envelope.parent;
    if p == x {
      assert links[x] == y;
    } else {
      FirstStep(links, x, p);
    }
  }

  /** A path on to the end of the links passes through everything on the way. */
  lemma {:induction false} PathGoesOn(links: map<Hash, Hash>, x: Hash, y: Hash, end: Hash)
    requires LinkPath(links, x, y) && LinkPath(links, x, end) && end !in links
    ensures LinkPath(links, y, end)
  {
    if x != y {
      PathGoesOn(links, x, y.envelope.parent, end);
      FirstStep(links, y.envelope.parent, end);
    }
  }

  /** What lies on the parent chain of a path's end is on the path or before it. */
  lemma {:induction false} OnPathOrBefore(links: map<Hash, Hash>, x: Hash, y: Hash, d: Hash)
    requires LinkPath(links, x, y) && AncestorOrSelf(d, y)
    ensures LinkPath(links, x, d) || AncestorOrSelf(d, x)
  {
    if x != y && d != y {
      OnPathOrBefore(links, x, y.envelope.parent, d);
    }
  }

  lemma {:induction false} AncestorsStored(store: map<Hash, Block>, d: Hash, h: Hash)
    requires AncestorClosed(store) && h in store && AncestorOrSelf(d, h) && d.EnvelopeHash?
    ensures d in store
    decreases h
  {
    assert store[h].Digest() == h;
    if d != h && h != GENESIS_HASH {
      AncestorsStored(store, d, h.envelope.parent);
    }
  }

  // ----- Every stored block is linked to from its parent, or a sibling is -----

  predicate ParentsLinked(c: Chain) {
    forall h <- c.store :: h == GENESIS_HASH || c.store[h].envelope.parent in c.childOf
  }

  lemma InsertLinked(c: Chain, b: Block)
    requires ParentsLinked(c)
    ensures ParentsLinked(Insert(c, b))
  {
  }

  lemma {:induction false} AdoptAllLinked(c: Chain, a: Id, bs: seq<Block>)
    requires ParentsLinked(c)
    ensures ParentsLinked(AdoptAll(c, a, bs))
    decreases |bs|
  {
    hide Insert;
    if bs != [] {
      InsertLinked(c, bs[0]);
      AdoptAllLinked(Adopt(c, a, bs[0]), a, bs[1..]);
    }
  }

  lemma {:induction false} DrainLinked(c: Chain, a: Id)
    requires ParentsLinked(c)
    ensures ParentsLinked(Drain(c, a))
    decreases |c.pending|
  {
    hide AdoptAll;
    if a in c.heads && c.heads[a] in c.pending {
      var h := c.heads[a];
      var c1 := c.(pending := c.pending - {h});
      RemoveShrinks(c.pending, h);
      AdoptAllLinked(c1, a, c.pending[h]);
      DrainLinked(AdoptAll(c1, a, c.pending[h]), a);
    }
  }

  lemma AdmitLinked(c: Chain, b: Block)
    requires Valid(c) && ParentsLinked(c)
    ensures ParentsLinked(Admit(c, b).0)
  {
    hide Drain, Advance, AncestorClosed, LinksStored, HeadsStored, ParkedUnderParent;
    var a := b.sig.signer;
    if b.Digest() !in c.store && a in c.heads {
      InsertLinked(c, b);
      if b.envelope.parent == c.heads[a] {
        DrainLinked(SetHead(Insert(c, b), a, b.Digest(), b.envelope.height), a);
      } else if b.envelope.parent in c.store {
        InsertKeepsValid(c, b, a);
        AdvanceSets(Insert(c, b), a);
        DrainLinked(Advance(Insert(c, b), a), a);
      }
    }
  }

  /** After any deliveries. */
  lemma {:induction false} AdmitAllLinked(ids: set<Id>, bs: seq<Block>)
    requires Valid(Initial(ids))
    ensures var c := AdmitAll(Initial(ids), bs); Valid(c) && ParentsLinked(c)
    decreases |bs|
  {
    hide Valid, Admit;
    if bs != [] {
      AdmitAllLinked(ids, bs[..|bs| - 1]);
      AdmitLinked(AdmitAll(Initial(ids), bs[..|bs| - 1]), bs[|bs| - 1]);
    }
  }

  /** Below any stored block every proper ancestor that is stored has a link. */
  lemma {:induction false} ProperAncestorLinked(c: Chain, h: Hash, d: Hash)
    requires Valid(c) && ParentsLinked(c) && d in c.store && AncestorOrSelf(h, d) && h != d && h in c.store
    ensures h in c.childOf
    decreases d
  {
    assert c.store[d].Digest() == d && c.store[h].Digest() == h;
    if d != GENESIS_HASH && h != d.envelope.parent {
      ProperAncestorLinked(c, h, d.envelope.parent);
    }
  }

  // ----- A bridge -----

  /** The forward walk changes one head and its height. */
  lemma {:induction false} AdvanceSets(c: Chain, a: Id)
    requires Valid(c) && a in c.heads
    ensures var r := Advance(c, a);
            && a in r.heads && r.heads[a] in c.store
            && r == SetHead(c, a, r.heads[a], c.store[r.heads[a]].envelope.height)
    decreases Above(c, a)
  {
    hide AncestorClosed, LinksStored, HeadsStored, ParkedUnderParent, Advance, SetHead, Above;
    if c.heads[a] in c.childOf {
      NextAbove(c, a);
      var next := c.childOf[c.heads[a]];
      var c' := SetHead(c, a, next, c.store[next].envelope.height);
      AdvanceSets(c', a);
      var end := Advance(c', a).heads[a];
      SetTwice(c, a, next, c.store[next].envelope.height, end, c.store[end].envelope.height);
    } else {
      SetToSame(c, a);
    }
  }

  lemma NextAbove(c: Chain, a: Id)
    requires Valid(c) && a in c.heads && c.heads[a] in c.childOf
    ensures var next := c.childOf[c.heads[a]];
            && next in c.store && Advance(c, a) == Advance(SetHead(c, a, next, c.store[next].envelope.height), a)
            && Valid(SetHead(c, a, next, c.store[next].envelope.height))
            && a in SetHead(c, a, next, c.store[next].envelope.height).heads
            && SetHead(c, a, next, c.store[next].envelope.height).store == c.store
            && Above(SetHead(c, a, next, c.store[next].envelope.height), a) < Above(c, a)
  {
    var next := c.childOf[c.heads[a]];
    var c' := SetHead(c, a, next, c.store[next].envelope.height);
    SetHeadKeepsValid(c, a, next);
    assert next in Above(c, a) && next !in Above(c', a);
  }

  lemma SetTwice(c: Chain, a: Id, x: Hash, m: nat, y: Hash, n: nat)
    ensures SetHead(SetHead(c, a, x, m), a, y, n) == SetHead(c, a, y, n)
  {
  }

  lemma SetToSame(c: Chain, a: Id)
    requires Valid(c) && a in c.heads && c.heads[a] !in c.childOf
    ensures Advance(c, a) == c
    ensures c.heads[a] in c.store && c == SetHead(c, a, c.heads[a], c.store[c.heads[a]].envelope.height)
  {
    var height := c.store[c.heads[a]].envelope.height;
    assert c.heads[a := c.heads[a]] == c.heads && c.heights[a := height] == c.heights;
  }

  predicate Bridges(c: Chain, b: Block) {
    && b.Digest() !in c.store && b.sig.signer in c.heads
    && b.envelope.parent in c.store && b.envelope.parent != c.heads[b.sig.signer]
  }

  /** The head ends up at or above the one hash that the links, the new one
      included, lead it to. With nothing parked there, this is all that changes. */
  lemma BridgeReaches(c: Chain, b: Block) returns (h: Hash)
    requires Valid(c) && Bridges(c, b)
    ensures var a := b.sig.signer; var c' := Admit(c, b).0;
            var links := c.childOf[b.envelope.parent := b.Digest()];
            && Admit(c, b).1 == Bridge
            && LinkPath(links, c.heads[a], h) && h !in links && (h == b.Digest() || h in c.store) && h.EnvelopeHash?
            && a in c'.heads && AncestorOrSelf(h, c'.heads[a]) && c'.heads[a] !in c'.pending
            && (h !in c.pending ==>
                  c' == c.(store := c.store[b.Digest() := b], childOf := links,
                           heads := c.heads[a := h], heights := c.heights[a := h.envelope.height]))
  {
    hide AncestorClosed, LinksStored, HeadsStored, ParkedUnderParent;
    var a := b.sig.signer;
    var c1 := Insert(c, b);
    InsertKeepsValid(c, b, a);
    AdvanceReachesTip(c1, a);
    AdvanceSets(c1, a);
    AdvanceKeepsValid(c1, a);
    h := Advance(c1, a).heads[a];
    StoredKey(c1, h);
    DrainKeepsValid(Advance(c1, a), a);
  }

  lemma StoredKey(c: Chain, h: Hash)
    requires Valid(c) && h in c.store
    ensures c.store[h].Digest() == h
  {
  }

  lemma HeadStoredAt(c: Chain, a: Id)
    requires Valid(c) && a in c.heads
    ensures c.heads[a] in c.store
  {
  }

  lemma PathThrough(c: Chain, b: Block, x: Hash, end: Hash)
    requires LinkPath(c.childOf, x, b.envelope.parent)
    requires var links := c.childOf[b.envelope.parent := b.Digest()]; LinkPath(links, x, end) && end !in links
    ensures AncestorOrSelf(b.Digest(), end)
  {
    var p := b.envelope.parent;
    var links := c.childOf[p := b.Digest()];
    DeepLinkUnused(c.childOf, x, p, p, b.Digest());
    assert LinkPath(links, x, b.Digest());
    PathGoesOn(links, x, b.Digest(), end);
    PathIsAncestry(links, b.Digest(), end);
  }

  lemma PathBack(c: Chain, b: Block, x: Hash, end: Hash)
    requires Valid(c) && x in c.store && b.Digest() !in c.store && AncestorOrSelf(b.Digest(), end)
    requires LinkPath(c.childOf[b.envelope.parent := b.Digest()], x, end)
    ensures LinkPath(c.childOf, x, b.envelope.parent)
  {
    var p := b.envelope.parent;
    var links := c.childOf[p := b.Digest()];
    OnPathOrBefore(links, x, end, b.Digest());
    if AncestorOrSelf(b.Digest(), x) {
      AncestorsStored(c.store, b.Digest(), x);
    } else {
      DeepLinkUnused(c.childOf, x, p, p, b.Digest());
    }
  }

  /** A stored block makes its signer's head move past it if and only if child links
      led from the head to the block's parent. */
  lemma HeadPassesIff(c: Chain, b: Block)
    requires Valid(c) && ParentsLinked(c)
    requires Admit(c, b).1 == Extended || Admit(c, b).1 == Bridge
    ensures b.sig.signer in c.heads && b.sig.signer in Admit(c, b).0.heads
    ensures AncestorOrSelf(b.Digest(), Admit(c, b).0.heads[b.sig.signer])
       <==> LinkPath(c.childOf, c.heads[b.sig.signer], b.envelope.parent)
  {
    hide AncestorClosed, LinksStored, HeadsStored, ParkedUnderParent, Drain, Advance;
    var a := b.sig.signer;
    AdmitResultMeans(c, b);
    if Admit(c, b).1 == Extended {
      ExtendPasses(c, b);
    } else {
      BridgePassesIff(c, b);
    }
  }

  lemma ExtendPasses(c: Chain, b: Block)
    requires Valid(c) && b.Digest() !in c.store && b.sig.signer in c.heads
    requires b.envelope.parent == c.heads[b.sig.signer]
    ensures var c' := Admit(c, b).0;
            && b.sig.signer in c'.heads && AncestorOrSelf(b.Digest(), c'.heads[b.sig.signer])
            && c'.heads[b.sig.signer] !in c'.pending
            && (b.Digest() !in c.pending ==>
                  c' == c.(store := c.store[b.Digest() := b], childOf := c.childOf[b.envelope.parent := b.Digest()],
                           heads := c.heads[b.sig.signer := b.Digest()],
                           heights := c.heights[b.sig.signer := b.envelope.height]))
  {
    hide AncestorClosed, LinksSound, LinksStored, ParkedUnderParent;
    var a := b.sig.signer;
    InsertKeepsValid(c, b, a);
    SetHeadKeepsValid(Insert(c, b), a, b.Digest());
    DrainKeepsValid(SetHead(Insert(c, b), a, b.Digest(), b.envelope.height), a);
  }

  lemma BridgePassesIff(c: Chain, b: Block)
    requires Valid(c) && ParentsLinked(c) && Bridges(c, b)
    ensures b.sig.signer in Admit(c, b).0.heads
    ensures AncestorOrSelf(b.Digest(), Admit(c, b).0.heads[b.sig.signer])
       <==> LinkPath(c.childOf, c.heads[b.sig.signer], b.envelope.parent)
  {
    hide LinkPath, AncestorOrSelf, AncestorClosed, LinksStored, HeadsStored, ParkedUnderParent, Admit;
    var a := b.sig.signer;
    var h := BridgeReaches(c, b);
    var head := Admit(c, b).0.heads[a];
    assert c.heads[a] in c.store by { HeadStoredAt(c, a); }
    if LinkPath(c.childOf, c.heads[a], b.envelope.parent) {
      PathThrough(c, b, c.heads[a], h);
      AncestorTransitive(b.Digest(), h, head);
    } else if AncestorOrSelf(b.Digest(), head) {
      AncestorsLinear(b.Digest(), h, head);
      if AncestorOrSelf(b.Digest(), h) {
        PathBack(c, b, c.heads[a], h);
      } else {
        assert AncestorOrSelf(b.Digest(), b.Digest()) by { OwnAncestor(b.Digest()); }
        InsertKeepsValid(c, b, a);
        InsertLinked(c, b);
        ProperAncestorLinked(Insert(c, b), h, b.Digest());
      }
    }
  }

  lemma OwnAncestor(h: Hash)
    ensures AncestorOrSelf(h, h)
  {
  }

  // ----- A drain moves the head over the author's own blocks only -----

  predicate OwnAmong(bs: seq<Block>, a: Id, h: Hash) {
    exists b <- bs :: b.sig.signer == a && b.Digest() == h
  }

  predicate HasOwn(bs: seq<Block>, a: Id) {
    exists b <- bs :: b.sig.signer == a
  }

  predicate ParkedBy(pending: map<Hash, seq<Block>>, a: Id, h: Hash) {
    exists p <- pending :: OwnAmong(pending[p], a, h)
  }

  lemma {:induction false} AdoptAllOwn(c: Chain, a: Id, bs: seq<Block>)
    requires a in c.heads
    ensures a in AdoptAll(c, a, bs).heads
    ensures AdoptAll(c, a, bs).heads[a] == c.heads[a] || OwnAmong(bs, a, AdoptAll(c, a, bs).heads[a])
    ensures HasOwn(bs, a) ==> OwnAmong(bs, a, AdoptAll(c, a, bs).heads[a])
    decreases |bs|
  {
    if bs != [] {
      AdoptAllOwn(Adopt(c, a, bs[0]), a, bs[1..]);
      assert bs == [bs[0]] + bs[1..];
    }
  }

  lemma OwnIsChild(c: Chain, bs: seq<Block>, p: Hash, a: Id, h: Hash)
    requires Valid(c) && p in c.pending && bs == c.pending[p] && OwnAmong(bs, a, h)
    ensures ParkedBy(c.pending, a, h) && Depth(h) == Depth(p) + 1
  {
  }

  lemma ParkedByLess(m: map<Hash, seq<Block>>, p: Hash, a: Id, h: Hash)
    requires ParkedBy(m - {p}, a, h)
    ensures ParkedBy(m, a, h)
  {
    hide OwnAmong;
    var q :| q in m - {p} && OwnAmong((m - {p})[q], a, h);
    assert m[q] == (m - {p})[q];
  }

  lemma HeadRises(x: Hash, y: Hash, z: Hash)
    requires AncestorOrSelf(x, y) && AncestorOrSelf(y, z) && Depth(y) > Depth(x)
    ensures z != x
  {
    AncestorDepth(y, z);
  }

  /** What one round of the drain does. */
  lemma DrainRound(c: Chain, a: Id) returns (c2: Chain)
    requires Valid(c) && a in c.heads && c.heads[a] in c.pending
    ensures var h := c.heads[a]; var bs := c.pending[h];
            && Drain(c, a) == Drain(c2, a) && Valid(c2) && c2.pending == c.pending - {h}
            && |c2.pending| < |c.pending|
            && a in c2.heads && AncestorOrSelf(h, c2.heads[a])
            && (c2.heads[a] == h || OwnAmong(bs, a, c2.heads[a]))
            && (HasOwn(bs, a) ==> OwnAmong(bs, a, c2.heads[a]))
  {
    var h := c.heads[a];
    var c1 := c.(pending := c.pending - {h});
    c2 := AdoptAll(c1, a, c.pending[h]);
    AdoptAllOwn(c1, a, c.pending[h]);
    AdoptAllKeepsValid(c1, a, h, c.pending[h]);
    RemoveShrinks(c.pending, h);
  }

  /** The head stays, or moves to a block that its author signed; and it does move
      if a block by its author is parked under it. */
  lemma {:induction false} DrainMovesToOwn(c: Chain, a: Id)
    requires Valid(c) && a in c.heads
    ensures var r := Drain(c, a);
            && a in r.heads && (r.heads[a] == c.heads[a] || ParkedBy(c.pending, a, r.heads[a]))
            && (c.heads[a] in c.pending && HasOwn(c.pending[c.heads[a]], a) ==> r.heads[a] != c.heads[a])
    decreases |c.pending|
  {
    hide Drain, OwnAmong, HasOwn, ParkedBy, Valid;
    if c.heads[a] in c.pending {
      var h := c.heads[a];
      var c2 := DrainRound(c, a);
      DrainMovesToOwn(c2, a);
      assert AncestorOrSelf(c2.heads[a], Drain(c2, a).heads[a]) by { DrainKeepsValid(c2, a); }
      var end := Drain(c2, a).heads[a];
      if OwnAmong(c.pending[h], a, c2.heads[a]) {
        OwnIsChild(c, c.pending[h], h, a, c2.heads[a]);
        HeadRises(h, c2.heads[a], end);
      }
      if end != c2.heads[a] {
        ParkedByLess(c.pending, h, a, end);
      }
    } else {
      assert Drain(c, a) == c by { NothingToDrain(c, a); }
    }
  }

  lemma NothingToDrain(c: Chain, a: Id)
    requires a in c.heads && c.heads[a] !in c.pending
    ensures Drain(c, a) == c
  {
  }

  // ----- A shared first block is overcome by the second -----

  /** Two authors open with one envelope, so the second author's copy is a
      duplicate; its next block bridges and brings its head up to date. */
  lemma SecondBlockRecovers(ids: set<Id>, a: Id, b: Id, e: Envelope, f: Envelope, rawA: RawSig<Hash>, rawB: RawSig<Hash>)
    requires a in ids && b in ids && a != b && Valid(Initial(ids))
    requires e.parent == GENESIS_HASH && f.parent == EnvelopeHash(e)
    ensures var x, y := Block(e, BlockSig(a, rawA)), Block(e, BlockSig(b, rawB));
            var z := Block(f, BlockSig(b, rawB));
            var c := AdmitAll(Initial(ids), [x, y]); var (c', r) := Admit(c, z);
            && Valid(c) && b in c.heads && c.heads[b] == GENESIS_HASH && Admit(AdmitAll(Initial(ids), [x]), y).1 == Duplicate
            && r == Bridge && b in c'.heads && b in c'.heights && c'.heads[b] == EnvelopeHash(f) && c'.heights[b] == f.height
  {
    hide Admit, AncestorClosed, LinksStored, HeadsStored, ParkedUnderParent, LinkPath;
    var x, y, z := Block(e, BlockSig(a, rawA)), Block(e, BlockSig(b, rawB)), Block(f, BlockSig(b, rawB));
    var c0 := Initial(ids);
    TwoDelivered(ids, x, y);
    ExtendPasses(c0, x);
    var c1 := Admit(c0, x).0;
    AdmitResultMeans(c1, y);
    var h := BridgeReaches(c1, z);
    var links := map[GENESIS_HASH := EnvelopeHash(e), EnvelopeHash(e) := EnvelopeHash(f)];
    assert c1.childOf[z.envelope.parent := z.Digest()] == links;
    TwoLinks(e, f, h);
  }

  lemma TwoDelivered(ids: set<Id>, x: Block, y: Block)
    requires Valid(Initial(ids))
    ensures var c1 := Admit(Initial(ids), x).0;
            && Valid(c1) && AdmitAll(Initial(ids), [x]) == c1 && AdmitAll(Initial(ids), [x, y]) == Admit(c1, y).0
  {
    hide Admit;
    assert [x, y][..1] == [x] && [x][..0] == [];
    AdmitKeepsValid(Initial(ids), x);
    assert AdmitAll(Initial(ids), []) == Initial(ids);
  }

  lemma TwoLinks(e: Envelope, f: Envelope, h: Hash)
    requires e.parent == GENESIS_HASH && f.parent == EnvelopeHash(e)
    requires var links := map[GENESIS_HASH := EnvelopeHash(e), EnvelopeHash(e) := EnvelopeHash(f)];
             LinkPath(links, GENESIS_HASH, h) && h !in links
    ensures h == EnvelopeHash(f)
  {
    var links := map[GENESIS_HASH := EnvelopeHash(e), EnvelopeHash(e) := EnvelopeHash(f)];
    assert LinkPath(links, GENESIS_HASH, EnvelopeHash(e)) && LinkPath(links, GENESIS_HASH, EnvelopeHash(f));
    PathGoesOn(links, GENESIS_HASH, EnvelopeHash(f), h);
    assert Depth(EnvelopeHash(f)) > Depth(EnvelopeHash(e)) > Depth(GENESIS_HASH);
    if h != EnvelopeHash(f) {
      FirstStep(links, EnvelopeHash(f), h);
    }
  }
}
