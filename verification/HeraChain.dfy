/** Hera's per-author data chains: three-case admission, the forward walk over
    child links, the drain of parked blocks, and the backward range walk. */
module HeraChain {
  import opened Base
  import opened DataBlocks

  datatype AdmitResult = Extended | Bridge | Parked(missing: Hash) | Duplicate | Invalid

  /** The value of a `MultiAuthorDataChain` object. */
  datatype Chain = Chain(
    heads: map<Id, Hash>,
    heights: map<Id, nat>,
    committedHeights: map<Id, nat>,
    childOf: map<Hash, Hash>,
    pending: map<Hash, seq<Block>>,
    store: map<Hash, Block>)

  // ----- What every reachable state satisfies -----

  /** Every block is stored under its own hash. */
  predicate WellKeyed(store: map<Hash, Block>) {
    forall h <- store :: store[h].Digest() == h
  }

  predicate AncestorClosed(store: map<Hash, Block>) {
    && GENESIS_HASH in store
    && WellKeyed(store)
    && forall h <- store :: h == GENESIS_HASH || store[h].envelope.parent in store
  }

  /** A child link goes from a parent hash to the hash of one of its children. */
  predicate LinksSound(childOf: map<Hash, Hash>) {
    forall p <- childOf :: childOf[p].EnvelopeHash? && childOf[p].envelope.parent == p
  }

  predicate LinksStored(childOf: map<Hash, Hash>, store: map<Hash, Block>) {
    forall p <- childOf :: p in store && childOf[p] in store
  }

  predicate HeadsStored(c: Chain) {
    && c.heads.Keys == c.heights.Keys
    && forall a <- c.heads :: c.heads[a] in c.store && c.heights[a] == c.store[c.heads[a]].envelope.height
  }

  predicate ParkedUnderParent(pending: map<Hash, seq<Block>>) {
    forall p <- pending :: pending[p] != [] && forall b <- pending[p] :: b.envelope.parent == p
  }

  predicate Valid(c: Chain) {
    && AncestorClosed(c.store)
    && LinksSound(c.childOf)
    && LinksStored(c.childOf, c.store)
    && HeadsStored(c)
    && ParkedUnderParent(c.pending)
  }

  // ----- The operations as functions -----

  function InitialHeads(ids: set<Id>): map<Id, Hash> {
    map a | a in ids :: GENESIS_HASH
  }

  function ZeroHeights(ids: set<Id>): map<Id, nat> {
    map a | a in ids :: 0
  }

  function Initial(ids: set<Id>): Chain {
    Chain(InitialHeads(ids), ZeroHeights(ids), ZeroHeights(ids), map[], map[],
          map[GENESIS_HASH := GENESIS])
  }

  /** Stores `b` and links it to its parent, moving no head. */
  function Insert(c: Chain, b: Block): Chain {
    c.(store := c.store[b.Digest() := b], childOf := c.childOf[b.envelope.parent := b.Digest()])
  }

  function SetHead(c: Chain, a: Id, h: Hash, height: nat): Chain {
    c.(heads := c.heads[a := h], heights := c.heights[a := height])
  }

  ghost function Above(c: Chain, a: Id): set<Hash>
    requires a in c.heads
  {
    set h | h in c.store.Keys && Depth(h) > Depth(c.heads[a])
  }

  /** Follows child links from `a`'s head as far as stored blocks go. */
  function Advance(c: Chain, a: Id): Chain
    requires LinksSound(c.childOf)
    decreases if a in c.heads then Above(c, a) else {}
  {
    if a !in c.heads || c.heads[a] !in c.childOf then c
    else
      var next := c.childOf[c.heads[a]];
      if next !in c.store then c
      else
        var c' := SetHead(c, a, next, c.store[next].envelope.height);
        assert next in Above(c, a) && next !in Above(c', a);
        Advance(c', a)
  }

  /** Takes one block out of the park map; it becomes the head if `a` signed it. */
  function Adopt(c: Chain, a: Id, b: Block): Chain {
    var c1 := Insert(c, b);
    if b.sig.signer == a then SetHead(c1, a, b.Digest(), b.envelope.height) else c1
  }

  function AdoptAll(c: Chain, a: Id, bs: seq<Block>): (r: Chain)
    ensures r.pending == c.pending
    decreases |bs|
  {
    if bs == [] then c else AdoptAll(Adopt(c, a, bs[0]), a, bs[1..])
  }

  /** Repeatedly adopts the blocks parked under `a`'s head. */
  function Drain(c: Chain, a: Id): Chain
    decreases |c.pending|
  {
    if a !in c.heads || c.heads[a] !in c.pending then c
    else
      var h := c.heads[a];
      var c1 := c.(pending := c.pending - {h});
      if c.pending[h] == [] then c1
      else
        var c2 := AdoptAll(c1, a, c.pending[h]);
        assert |c2.pending| < |c.pending| by { RemoveShrinks(c.pending, h); }
        Drain(c2, a)
  }

  /** Three-case admission of a block whose signature was already checked. */
  function Admit(c: Chain, b: Block): (Chain, AdmitResult)
    requires LinksSound(c.childOf)
  {
    var a := b.sig.signer;
    var p := b.envelope.parent;
    if b.Digest() in c.store then (c, Duplicate)
    else if a !in c.heads then (c, Invalid)
    else if p == c.heads[a] then
      (Drain(SetHead(Insert(c, b), a, b.Digest(), b.envelope.height), a), Extended)
    else if p in c.store then
      (Drain(Advance(Insert(c, b), a), a), Bridge)
    else if p == GENESIS_HASH then (c, Invalid)
    else (c.(pending := c.pending[p := Lookup(c.pending, p, []) + [b]]), Parked(p))
  }

  /** Blocks from `cur` back to, and not including, the first at or below `from`. */
  function WalkBack(store: map<Hash, Block>, cur: Hash, from: nat): seq<Block>
    requires WellKeyed(store)
    decreases cur
  {
    if cur !in store then []
    else
      var b := store[cur];
      if b.envelope.height <= from then []
      else
        assert cur == EnvelopeHash(b.envelope);
        [b] + WalkBack(store, b.envelope.parent, from)
  }

  function Reverse<T>(s: seq<T>): (r: seq<T>)
    ensures |r| == |s|
  {
    if s == [] then [] else Reverse(s[1..]) + [s[0]]
  }

  function WithinHeights(bs: seq<Block>, from: nat, to: nat): seq<Block> {
    if bs == [] then []
    else
      var rest := WithinHeights(bs[1..], from, to);
      if from < bs[0].envelope.height <= to then [bs[0]] + rest else rest
  }

  function WalkRange(store: map<Hash, Block>, tip: Hash, from: nat, to: nat): seq<Block>
    requires WellKeyed(store)
  {
    if to <= from then [] else WithinHeights(Reverse(WalkBack(store, tip, from)), from, to)
  }

  // ----- Admission keeps the chain valid -----

  /** Everything an admission for author `a` may not touch. */
  predicate Frame(c: Chain, c': Chain, a: Id) {
    && c.store.Keys <= c'.store.Keys
    && c.childOf.Keys <= c'.childOf.Keys
    && c'.committedHeights == c.committedHeights
    && c'.heads.Keys == c.heads.Keys && c'.heights.Keys == c.heights.Keys
    && (forall x <- c.heads :: x != a ==> c'.heads[x] == c.heads[x])
    && (forall x <- c.heights :: x != a ==> c'.heights[x] == c.heights[x])
  }

  /** The store and the links only grow, only `a`'s head moves, and only to a
      descendant of where it was. */
  predicate Grows(c: Chain, c': Chain, a: Id) {
    && Frame(c, c', a)
    && (a in c.heads ==> AncestorOrSelf(c.heads[a], c'.heads[a]))
  }

  /** No block is lost: what was parked is still parked or has been stored. */
  predicate KeepsParked(c: Chain, c': Chain) {
    forall p <- c.pending :: forall b <- c.pending[p] ::
      b.Digest() in c'.store || (p in c'.pending && b in c'.pending[p])
  }

  lemma GrowsTransitive(c: Chain, d: Chain, e: Chain, a: Id)
    requires Grows(c, d, a) && Grows(d, e, a)
    ensures Grows(c, e, a)
  {
    if a in c.heads {
      AncestorTransitive(c.heads[a], d.heads[a], e.heads[a]);
    }
  }

  lemma InsertKeepsValid(c: Chain, b: Block, a: Id)
    requires Valid(c) && b.envelope.parent in c.store
    ensures Valid(Insert(c, b)) && Grows(c, Insert(c, b), a)
  {
  }

  lemma SetHeadKeepsValid(c: Chain, a: Id, h: Hash)
    requires Valid(c) && a in c.heads && h in c.store
    ensures var c' := SetHead(c, a, h, c.store[h].envelope.height);
            Valid(c') && Frame(c, c', a)
  {
  }

  /** Child links lead from `x` to `y`. */
  predicate LinkPath(childOf: map<Hash, Hash>, x: Hash, y: Hash) {
    || x == y
    || match y
       case RawHash(_) => false
       case EnvelopeHash(e) =>
         e.parent in childOf && childOf[e.parent] == y && LinkPath(childOf, x, e.parent)
  }

  lemma {:induction false} LinkPathPrepend(childOf: map<Hash, Hash>, x: Hash, y: Hash, z: Hash)
    requires y.EnvelopeHash? && y.envelope.parent == x && x in childOf && childOf[x] == y
    requires LinkPath(childOf, y, z)
    ensures LinkPath(childOf, x, z)
  {
    if y != z {
      LinkPathPrepend(childOf, x, y, z.envelope.parent);
    }
  }

  /** The walk moves the head along links to the one hash that has no link. */
  lemma {:induction false} AdvanceReachesTip(c: Chain, a: Id)
    requires Valid(c) && a in c.heads
    ensures var r := Advance(c, a);
            && a in r.heads && LinkPath(c.childOf, c.heads[a], r.heads[a])
            && r.heads[a] !in c.childOf
    decreases Above(c, a)
  {
    if c.heads[a] in c.childOf {
      var next := c.childOf[c.heads[a]];
      var c' := SetHead(c, a, next, c.store[next].envelope.height);
      assert next in Above(c, a) && next !in Above(c', a);
      SetHeadKeepsValid(c, a, next);
      AdvanceReachesTip(c', a);
      LinkPathPrepend(c.childOf, c.heads[a], next, Advance(c', a).heads[a]);
    }
  }

  lemma {:induction false} AdvanceKeepsValid(c: Chain, a: Id)
    requires Valid(c)
    ensures Valid(Advance(c, a)) && Grows(c, Advance(c, a), a)
    ensures Advance(c, a).pending == c.pending && Advance(c, a).store == c.store
    decreases if a in c.heads then Above(c, a) else {}
  {
    if a in c.heads && c.heads[a] in c.childOf {
      var next := c.childOf[c.heads[a]];
      var c' := SetHead(c, a, next, c.store[next].envelope.height);
      assert next in Above(c, a) && next !in Above(c', a);
      assert AncestorOrSelf(c.heads[a], next.envelope.parent);
      SetHeadKeepsValid(c, a, next);
      AdvanceKeepsValid(c', a);
      GrowsTransitive(c, c', Advance(c', a), a);
    }
  }

  lemma AdoptKeepsValid(c: Chain, a: Id, b: Block)
    requires Valid(c) && a in c.heads && b.envelope.parent in c.store
    ensures var r := Adopt(c, a, b);
            && Valid(r) && Frame(c, r, a) && b.Digest() in r.store && r.pending == c.pending
            && r.heads[a] == (if b.sig.signer == a then b.Digest() else c.heads[a])
  {
    InsertKeepsValid(c, b, a);
    SetHeadKeepsValid(Insert(c, b), a, b.Digest());
  }

  /** Adopting children of `h` leaves the head at or below `h`. */
  lemma {:induction false} AdoptAllKeepsValid(c: Chain, a: Id, h: Hash, bs: seq<Block>)
    requires Valid(c) && a in c.heads && h in c.store
    requires forall b <- bs :: b.envelope.parent == h
    requires AncestorOrSelf(h, c.heads[a])
    ensures var r := AdoptAll(c, a, bs);
            && Valid(r) && Frame(c, r, a)
            && AncestorOrSelf(h, r.heads[a])
            && forall b <- bs :: b.Digest() in r.store
    decreases |bs|
  {
    hide AncestorClosed, LinksSound, LinksStored, HeadsStored, ParkedUnderParent;
    if bs != [] {
      var b := bs[0];
      var c1 := Adopt(c, a, b);
      AdoptKeepsValid(c, a, b);
      assert AncestorOrSelf(h, b.envelope.parent);
      AdoptAllKeepsValid(c1, a, h, bs[1..]);
      assert forall x <- bs :: x == b || x in bs[1..];
    }
  }

  lemma {:induction false} DrainKeepsValid(c: Chain, a: Id)
    requires Valid(c) && a in c.heads
    ensures var r := Drain(c, a);
            Valid(r) && Grows(c, r, a) && KeepsParked(c, r) && r.heads[a] !in r.pending
    decreases |c.pending|
  {
    var h := c.heads[a];
    if h in c.pending {
      var c1 := c.(pending := c.pending - {h});
      var c2 := AdoptAll(c1, a, c.pending[h]);
      AdoptAllKeepsValid(c1, a, h, c.pending[h]);
      RemoveShrinks(c.pending, h);
      assert Grows(c, c2, a) && KeepsParked(c, c2);
      DrainKeepsValid(c2, a);
      GrowsTransitive(c, c2, Drain(c2, a), a);
    }
  }

  /** The block is stored, or parked under its missing parent. */
  predicate Kept(c: Chain, b: Block) {
    b.Digest() in c.store || (b.envelope.parent in c.pending && b in c.pending[b.envelope.parent])
  }

  lemma InitialValid(ids: set<Id>)
    ensures Valid(Initial(ids))
  {
  }

  /** A stored head of `a`, moved from `c` to `c1` by an insertion, then drained. */
  lemma DrainAfter(c: Chain, c1: Chain, a: Id)
    requires Valid(c1) && a in c.heads && Grows(c, c1, a) && c1.pending == c.pending
    ensures var r := Drain(c1, a);
            Valid(r) && Grows(c, r, a) && KeepsParked(c, r) && c1.store.Keys <= r.store.Keys
  {
    DrainKeepsValid(c1, a);
    GrowsTransitive(c, c1, Drain(c1, a), a);
    assert forall p <- c.pending :: p in c1.pending;
  }

  lemma ParkKeepsValid(c: Chain, b: Block)
    requires Valid(c)
    ensures var p := b.envelope.parent;
            var c' := c.(pending := c.pending[p := Lookup(c.pending, p, []) + [b]]);
            Valid(c') && Grows(c, c', b.sig.signer) && KeepsParked(c, c') && Kept(c', b)
  {
  }

  lemma ExtendKeepsValid(c: Chain, b: Block)
    requires Valid(c) && b.sig.signer in c.heads && b.envelope.parent == c.heads[b.sig.signer]
    ensures var a := b.sig.signer;
            var c' := Drain(SetHead(Insert(c, b), a, b.Digest(), b.envelope.height), a);
            Valid(c') && Grows(c, c', a) && KeepsParked(c, c') && b.Digest() in c'.store
  {
    hide AncestorClosed, LinksSound, LinksStored, ParkedUnderParent, KeepsParked;
    var a := b.sig.signer;
    InsertKeepsValid(c, b, a);
    SetHeadKeepsValid(Insert(c, b), a, b.Digest());
    assert AncestorOrSelf(c.heads[a], b.envelope.parent);
    DrainAfter(c, SetHead(Insert(c, b), a, b.Digest(), b.envelope.height), a);
  }

  lemma BridgeKeepsValid(c: Chain, b: Block)
    requires Valid(c) && b.sig.signer in c.heads && b.envelope.parent in c.store
    ensures var a := b.sig.signer;
            LinksSound(Insert(c, b).childOf) &&
            var c' := Drain(Advance(Insert(c, b), a), a);
            Valid(c') && Grows(c, c', a) && KeepsParked(c, c') && b.Digest() in c'.store
  {
    hide AncestorClosed, LinksSound, LinksStored, HeadsStored, ParkedUnderParent, KeepsParked;
    var a := b.sig.signer;
    var c1 := Insert(c, b);
    InsertKeepsValid(c, b, a);
    AdvanceKeepsValid(c1, a);
    GrowsTransitive(c, c1, Advance(c1, a), a);
    DrainAfter(c, Advance(c1, a), a);
  }

  /** Admission of an arbitrary block, equivocating or cross-linked, keeps the
      store ancestor-closed, every link a real parent link and every height
      that of its head; no other author's head moves, the author's own head
      moves to a descendant, and no block is lost. */
  lemma AdmitKeepsValid(c: Chain, b: Block)
    requires Valid(c)
    ensures var (c', r) := Admit(c, b);
            && Valid(c')
            && Grows(c, c', b.sig.signer)
            && KeepsParked(c, c')
            && (r.Invalid? <==> b.Digest() !in c.store && b.sig.signer !in c.heads)
            && (!r.Invalid? ==> Kept(c', b))
  {
    hide LinksStored, ParkedUnderParent, WellKeyed, LinksSound;
    if b.Digest() !in c.store && b.sig.signer in c.heads {
      if b.envelope.parent == c.heads[b.sig.signer] {
        ExtendKeepsValid(c, b);
      } else if b.envelope.parent in c.store {
        BridgeKeepsValid(c, b);
      } else {
        ParkKeepsValid(c, b);
      }
    }
  }

  /** What each result says: a duplicate or invalid block changes nothing, a
      parked one reports its missing parent and waits last under it, and only
      these leave the block unstored; the head was extended exactly when the
      parent was the signer's head. */
  lemma AdmitResultMeans(c: Chain, b: Block)
    requires Valid(c)
    ensures var (c', r) := Admit(c, b); var p := b.envelope.parent; var a := b.sig.signer;
            && (r.Duplicate? <==> b.Digest() in c.store)
            && (r.Duplicate? || r.Invalid? ==> c' == c)
            && (r.Parked? ==> r.missing == p && p !in c.store && c' == c.(pending := c'.pending)
                              && c'.pending == c.pending[p := Lookup(c.pending, p, []) + [b]])
            && (r.Extended? <==> b.Digest() !in c.store && a in c.heads && p == c.heads[a])
            && (r.Bridge? <==> b.Digest() !in c.store && a in c.heads && p != c.heads[a] && p in c.store)
            && (r.Extended? || r.Bridge? <==> b.Digest() !in c.store && b.Digest() in c'.store)
  {
    hide LinksStored, ParkedUnderParent, WellKeyed, LinksSound, Drain, Advance;
    if b.Digest() !in c.store && b.sig.signer in c.heads {
      if b.envelope.parent == c.heads[b.sig.signer] {
        ExtendKeepsValid(c, b);
      } else if b.envelope.parent in c.store {
        BridgeKeepsValid(c, b);
      }
    }
  }

  // ----- The object -----

  /** Per-author chain state that admission updates in place. */
  class MultiAuthorDataChain {
    var heads: map<Id, Hash>
    var heights: map<Id, nat>
    var committedHeights: map<Id, nat>
    var childOf: map<Hash, Hash>
    var pending: map<Hash, seq<Block>>
    var store: map<Hash, Block>

    function Model(): Chain
      reads this
    {
      Chain(heads, heights, committedHeights, childOf, pending, store)
    }

    constructor (allIds: seq<Id>)
      ensures Model() == Initial(set a | a in allIds)
      ensures Valid(Model())
    {
      var hd: map<Id, Hash> := map[];
      var zero: map<Id, nat> := map[];
      for i := 0 to |allIds|
        invariant hd == InitialHeads(set a | a in allIds[..i])
        invariant zero == ZeroHeights(set a | a in allIds[..i])
      {
        hd, zero := hd[allIds[i] := GENESIS_HASH], zero[allIds[i] := 0];
      }
      assert allIds[..|allIds|] == allIds;
      heads, heights, committedHeights := hd, zero, zero;
      childOf, pending, store := map[], map[], map[GENESIS_HASH := GENESIS];
    }

    method AdmitTyped(b: Block) returns (r: AdmitResult)
      requires Valid(Model())
      modifies this
      ensures Valid(Model())
      ensures (Model(), r) == Admit(old(Model()), b)
    {
      hide AncestorClosed, LinksStored, HeadsStored, ParkedUnderParent, Drain, Advance;
      ghost var before := Model();
      assert Valid(Admit(before, b).0) by { AdmitKeepsValid(before, b); }
      var author, hash, parent := b.sig.signer, b.Digest(), b.envelope.parent;
      if hash in store {
        return Duplicate;
      }
      if author !in heads {
        return Invalid;
      }
      if parent == heads[author] {
        store := store[hash := b];
        childOf := childOf[parent := hash];
        heads := heads[author := hash];
        heights := heights[author := b.envelope.height];
        assert Model() == SetHead(Insert(before, b), author, hash, b.envelope.height);
        DrainPendingForAuthor(author);
        return Extended;
      } else if parent in store {
        store := store[hash := b];
        childOf := childOf[parent := hash];
        assert Model() == Insert(before, b);
        assert Valid(Model()) by { InsertKeepsValid(before, b, author); }
        AdvanceHeadViaChildOf(author);
        DrainPendingForAuthor(author);
        return Bridge;
      } else if parent == GENESIS_HASH {
        return Invalid;
      } else {
        pending := pending[parent := Lookup(pending, parent, []) + [b]];
        return Parked(parent);
      }
    }

    method AdvanceHeadViaChildOf(author: Id)
      requires Valid(Model())
      modifies this
      ensures Valid(Model())
      ensures Model() == Advance(old(Model()), author)
    {
      hide AncestorClosed, LinksStored, HeadsStored, ParkedUnderParent;
      while author in heads && heads[author] in childOf && childOf[heads[author]] in store
        invariant Valid(Model())
        invariant Advance(Model(), author) == Advance(old(Model()), author)
        decreases if author in heads then Above(Model(), author) else {}
      {
        ghost var before := Model();
        var next := childOf[heads[author]];
        SetHeadKeepsValid(before, author, next);
        heads := heads[author := next];
        heights := heights[author := store[next].envelope.height];
        assert next in Above(before, author) && next !in Above(Model(), author);
        assert Model() == SetHead(before, author, next, store[next].envelope.height);
      }
    }

    method DrainPendingForAuthor(author: Id)
      modifies this
      ensures Model() == Drain(old(Model()), author)
    {
      while author in heads && heads[author] in pending
        invariant Drain(Model(), author) == Drain(old(Model()), author)
        decreases |pending|
      {
        ghost var before := Model();
        var head := heads[author];
        var parked := pending[head];
        RemoveShrinks(pending, head);
        pending := pending - {head};
        if parked == [] {
          return;
        }
        ghost var removed := Model();
        for i := 0 to |parked|
          invariant pending == removed.pending
          invariant AdoptAll(Model(), author, parked[i..]) == AdoptAll(removed, author, parked)
        {
          var child := parked[i];
          ghost var mid := Model();
          store := store[child.Digest() := child];
          childOf := childOf[child.envelope.parent := child.Digest()];
          if child.sig.signer == author {
            heads := heads[author := child.Digest()];
            heights := heights[author := child.envelope.height];
          }
          assert Model() == Adopt(mid, author, child);
          assert parked[i..][1..] == parked[i + 1..];
        }
        assert Model() == AdoptAll(removed, author, parked);
      }
    }

    method WalkRangeFrom(tip: Hash, fromHeight: nat, toHeight: nat) returns (chain: seq<Block>)
      requires WellKeyed(store)
      ensures chain == WalkRange(store, tip, fromHeight, toHeight)
    {
      if toHeight <= fromHeight {
        return [];
      }
      chain := [];
      var current := tip;
      while current in store && store[current].envelope.height > fromHeight
        invariant chain + WalkBack(store, current, fromHeight) == WalkBack(store, tip, fromHeight)
        decreases current
      {
        var b := store[current];
        assert current == EnvelopeHash(b.envelope);
        chain := chain + [b];
        current := b.envelope.parent;
      }
      assert chain == WalkBack(store, tip, fromHeight);
      return WithinHeights(Reverse(chain), fromHeight, toHeight);
    }
  }
}
