/** Out-of-order delivery: when every author signs one linear chain, the state
    depends only on which blocks have arrived, not on their order or repetition. */
module HeraConvergence {
  import opened Base
  import opened DataBlocks
  import opened HeraChain

  type Chains = map<Id, seq<Envelope>>

  /** Hash of the `k`-th block of a chain; the 0-th is genesis. */
  function Tip(ch: seq<Envelope>, k: nat): Hash
    requires k <= |ch|
  {
    if k == 0 then GENESIS_HASH else EnvelopeHash(ch[k - 1])
  }

  predicate Linked(ch: seq<Envelope>) {
    forall i {:trigger Tip(ch, i)} | 0 <= i < |ch| :: ch[i].parent == Tip(ch, i)
  }

  predicate LinearChains(chains: Chains) {
    forall a <- chains :: Linked(chains[a])
  }

  /** No two authors start with the same envelope. */
  predicate FirstBlocksDiffer(chains: Chains) {
    forall a, b | a in chains && b in chains && a != b ::
      chains[a] != [] && chains[b] != [] ==> chains[a][0] != chains[b][0]
  }

  predicate FromChains(chains: Chains, b: Block) {
    b.sig.signer in chains && b.envelope in chains[b.sig.signer]
  }

  /** First index at or after `i` whose block has not arrived. */
  function PrefixFrom(ch: seq<Envelope>, got: set<Envelope>, i: nat): (k: nat)
    requires i <= |ch|
    ensures i <= k <= |ch|
    ensures forall j | i <= j < k :: ch[j] in got
    ensures k < |ch| ==> ch[k] !in got
    decreases |ch| - i
  {
    if i < |ch| && ch[i] in got then PrefixFrom(ch, got, i + 1) else i
  }

  /** Length of the longest contiguous prefix that has arrived. */
  function Prefix(ch: seq<Envelope>, got: set<Envelope>): (k: nat)
    ensures k <= |ch|
  {
    PrefixFrom(ch, got, 0)
  }

  function Envelopes(bs: seq<Block>): set<Envelope> {
    set b | b in bs :: b.envelope
  }

  // ----- The converged shape -----

  /** `b` belongs beyond the first `k` blocks of its author and waits under `p`. */
  ghost predicate Beyond(chains: Chains, got: set<Envelope>, k: map<Id, nat>, p: Hash, b: Block)
    requires k.Keys == chains.Keys
  {
    && FromChains(chains, b) && b.envelope in got
    && exists i: nat :: 0 < i < |chains[b.sig.signer]| && k[b.sig.signer] <= i
                        && chains[b.sig.signer][i] == b.envelope && p == Tip(chains[b.sig.signer], i)
  }

  /** Hashes of the first `k[a]` blocks of every author. */
  ghost function PrefixHashes(chains: Chains, k: map<Id, nat>): set<Hash>
    requires k.Keys == chains.Keys
  {
    set a, i | a in chains && 0 <= i < |chains[a]| && i < k[a] :: EnvelopeHash(chains[a][i])
  }

  /** Parents of the arrived blocks that lie beyond the first `k[a]`. */
  ghost function BeyondTips(chains: Chains, got: set<Envelope>, k: map<Id, nat>): set<Hash>
    requires k.Keys == chains.Keys
  {
    set a, i | a in chains && 0 < i < |chains[a]| && k[a] <= i && chains[a][i] in got :: Tip(chains[a], i)
  }

  ghost predicate HeadsAt(chains: Chains, k: map<Id, nat>, heads: map<Id, Hash>) {
    && k.Keys == chains.Keys && heads.Keys == chains.Keys
    && forall a <- chains :: k[a] <= |chains[a]| && heads[a] == Tip(chains[a], k[a])
  }

  ghost predicate ArrivedBelow(chains: Chains, got: set<Envelope>, k: map<Id, nat>)
    requires k.Keys == chains.Keys
  {
    forall a <- chains :: k[a] <= Prefix(chains[a], got)
  }

  ghost predicate ParkedOnlyBeyond(
    chains: Chains, got: set<Envelope>, k: map<Id, nat>, pending: map<Hash, seq<Block>>)
    requires k.Keys == chains.Keys
  {
    forall p <- pending :: forall b <- pending[p] :: Beyond(chains, got, k, p, b)
  }

  /** The state in which exactly the first `k[a]` blocks of each author are
      admitted and the other arrived ones are parked. */
  ghost predicate Shape(chains: Chains, got: set<Envelope>, k: map<Id, nat>, c: Chain) {
    && HeadsAt(chains, k, c.heads)
    && ArrivedBelow(chains, got, k)
    && c.store.Keys == {GENESIS_HASH} + PrefixHashes(chains, k)
    && ParkedOnlyBeyond(chains, got, k, c.pending)
    && BeyondTips(chains, got, k) <= c.pending.Keys
  }

  function Prefixes(chains: Chains, got: set<Envelope>): map<Id, nat> {
    map a | a in chains :: Prefix(chains[a], got)
  }

  /** Each head is the tip of the longest arrived prefix; the park map holds
      exactly the arrived blocks beyond the gap. */
  ghost predicate Converged(chains: Chains, got: set<Envelope>, c: Chain) {
    Shape(chains, got, Prefixes(chains, got), c)
  }

  // ----- Chains of different authors do not meet -----

  lemma {:induction false} TipDepth(ch: seq<Envelope>, k: nat)
    requires Linked(ch) && k <= |ch|
    ensures Depth(Tip(ch, k)) == k + 1
  {
    if k > 0 {
      TipDepth(ch, k - 1);
      assert ch[k - 1].parent == Tip(ch, k - 1);
    }
  }

  lemma {:induction false} SharedTipSharesFirst(c1: seq<Envelope>, c2: seq<Envelope>, i: nat)
    requires Linked(c1) && Linked(c2) && 0 < i <= |c1| && i <= |c2| && Tip(c1, i) == Tip(c2, i)
    ensures c1[0] == c2[0]
  {
    if i > 1 {
      assert c1[i - 1].parent == Tip(c1, i - 1) && c2[i - 1].parent == Tip(c2, i - 1);
      SharedTipSharesFirst(c1, c2, i - 1);
    }
  }

  /** A non-genesis block of one author's chain occurs nowhere else. */
  lemma TipUnique(chains: Chains, a: Id, i: nat, b: Id, j: nat)
    requires LinearChains(chains) && FirstBlocksDiffer(chains)
    requires a in chains && b in chains && i <= |chains[a]| && j <= |chains[b]|
    requires Tip(chains[a], i) == Tip(chains[b], j)
    ensures i == j && (i > 0 ==> a == b)
  {
    TipDepth(chains[a], i);
    TipDepth(chains[b], j);
    if i > 0 && a != b {
      SharedTipSharesFirst(chains[a], chains[b], i);
    }
  }

  lemma BlockUnique(chains: Chains, a: Id, i: nat, b: Id, j: nat)
    requires LinearChains(chains) && FirstBlocksDiffer(chains)
    requires a in chains && b in chains && i < |chains[a]| && j < |chains[b]|
    requires chains[a][i] == chains[b][j]
    ensures i == j && a == b
  {
    assert Tip(chains[a], i + 1) == Tip(chains[b], j + 1);
    TipUnique(chains, a, i + 1, b, j + 1);
  }

  // ----- Draining -----

  lemma {:induction false} AdoptCopies(c: Chain, a: Id, e: Envelope, bs: seq<Block>)
    requires bs != [] && forall b <- bs :: b.envelope == e && b.sig.signer == a
    ensures var r := AdoptAll(c, a, bs);
            && r.heads == c.heads[a := EnvelopeHash(e)]
            && r.store.Keys == c.store.Keys + {EnvelopeHash(e)}
    decreases |bs|
  {
    var c1 := Adopt(c, a, bs[0]);
    if |bs| > 1 {
      AdoptCopies(c1, a, e, bs[1..]);
    } else {
      assert AdoptAll(c, a, bs) == c1;
    }
  }

  /** Everything parked under `a`'s head is a copy of `a`'s next block. */
  lemma ParkedUnderHead(
    chains: Chains, got: set<Envelope>, k: map<Id, nat>, pending: map<Hash, seq<Block>>, a: Id)
    requires LinearChains(chains) && FirstBlocksDiffer(chains)
    requires k.Keys == chains.Keys && a in chains && 0 < k[a] <= |chains[a]|
    requires ParkedOnlyBeyond(chains, got, k, pending)
    requires Tip(chains[a], k[a]) in pending && pending[Tip(chains[a], k[a])] != []
    ensures k[a] < |chains[a]| && chains[a][k[a]] in got
    ensures forall b <- pending[Tip(chains[a], k[a])] ::
              b.sig.signer == a && b.envelope == chains[a][k[a]]
  {
    var h := Tip(chains[a], k[a]);
    forall b | b in pending[h]
      ensures b.sig.signer == a && k[a] < |chains[a]| && b.envelope == chains[a][k[a]] && b.envelope in got
    {
      assert Beyond(chains, got, k, h, b);
      var i: nat :| 0 < i < |chains[b.sig.signer]| && k[b.sig.signer] <= i
                    && chains[b.sig.signer][i] == b.envelope && h == Tip(chains[b.sig.signer], i);
      TipUnique(chains, a, k[a], b.sig.signer, i);
    }
    assert pending[h][0] in pending[h];
  }

  /** Admitting `a`'s next block extends the stored prefixes by exactly it. */
  lemma PrefixHashesExtend(chains: Chains, k: map<Id, nat>, stored: set<Hash>, a: Id)
    requires k.Keys == chains.Keys && a in chains && k[a] < |chains[a]|
    requires stored == {GENESIS_HASH} + PrefixHashes(chains, k)
    ensures stored + {EnvelopeHash(chains[a][k[a]])}
         == {GENESIS_HASH} + PrefixHashes(chains, k[a := k[a] + 1])
  {
    var k' := k[a := k[a] + 1];
    var e := EnvelopeHash(chains[a][k[a]]);
    forall h | h in PrefixHashes(chains, k) + {e} ensures h in PrefixHashes(chains, k') {
      if h == e {
        assert k[a] < k'[a];
      } else {
        var x, i :| x in chains && 0 <= i < |chains[x]| && i < k[x] && h == EnvelopeHash(chains[x][i]);
        assert i < k'[x];
      }
    }
  }

  /** Dropping the key of `a`'s next block leaves only blocks beyond it. */
  lemma ParkedOnlyAfterRemove(
    chains: Chains, got: set<Envelope>, k: map<Id, nat>, pending: map<Hash, seq<Block>>, a: Id)
    requires k.Keys == chains.Keys && a in chains && k[a] < |chains[a]|
    requires ParkedOnlyBeyond(chains, got, k, pending)
    ensures ParkedOnlyBeyond(chains, got, k[a := k[a] + 1], pending - {Tip(chains[a], k[a])})
  {
    var h, k' := Tip(chains[a], k[a]), k[a := k[a] + 1];
    forall p, b | p in pending && p != h && b in pending[p] ensures Beyond(chains, got, k', p, b) {
      assert Beyond(chains, got, k, p, b);
      var i: nat :| 0 < i < |chains[b.sig.signer]| && k[b.sig.signer] <= i
                    && chains[b.sig.signer][i] == b.envelope && p == Tip(chains[b.sig.signer], i);
      assert k'[b.sig.signer] <= i;
    }
  }

  lemma BeyondTipsAfterRemove(chains: Chains, got: set<Envelope>, k: map<Id, nat>, a: Id)
    requires LinearChains(chains) && FirstBlocksDiffer(chains)
    requires k.Keys == chains.Keys && a in chains && 0 < k[a] < |chains[a]|
    ensures BeyondTips(chains, got, k[a := k[a] + 1]) <= BeyondTips(chains, got, k) - {Tip(chains[a], k[a])}
  {
    var h, k' := Tip(chains[a], k[a]), k[a := k[a] + 1];
    forall t | t in BeyondTips(chains, got, k') ensures t in BeyondTips(chains, got, k) && t != h {
      var x, i :| x in chains && 0 < i < |chains[x]| && k'[x] <= i && chains[x][i] in got && t == Tip(chains[x], i);
      assert k[x] <= i;
      if t == h {
        TipUnique(chains, x, i, a, k[a]);
      }
    }
  }

  lemma ArrivedNext(chains: Chains, got: set<Envelope>, k: map<Id, nat>, a: Id)
    requires k.Keys == chains.Keys && a in chains && k[a] < |chains[a]| && chains[a][k[a]] in got
    requires ArrivedBelow(chains, got, k)
    ensures ArrivedBelow(chains, got, k[a := k[a] + 1])
  {
    assert k[a] != Prefix(chains[a], got);
  }

  lemma HeadsNext(chains: Chains, k: map<Id, nat>, heads: map<Id, Hash>, a: Id)
    requires HeadsAt(chains, k, heads) && a in chains && k[a] < |chains[a]|
    ensures HeadsAt(chains, k[a := k[a] + 1], heads[a := EnvelopeHash(chains[a][k[a]])])
  {
  }

  /** Parking one more block that lies beyond the prefix. */
  lemma ParkedOnlyAdd(
    chains: Chains, got: set<Envelope>, k: map<Id, nat>, pending: map<Hash, seq<Block>>, p: Hash, b: Block)
    requires k.Keys == chains.Keys && ParkedOnlyBeyond(chains, got, k, pending)
    requires Beyond(chains, got, k, p, b)
    ensures ParkedOnlyBeyond(chains, got, k, pending[p := Lookup(pending, p, []) + [b]])
  {
  }

  lemma UpdateTwice<K, V>(m: map<K, V>, k: K, v: V, w: V)
    ensures m[k := v][k := w] == m[k := w]
  {
  }

  lemma UpdateSame<K, V>(m: map<K, V>, k: K)
    requires k in m
    ensures m[k := m[k]] == m
  {
  }

  lemma ShapeAfterAdopt(
    chains: Chains, got: set<Envelope>, k: map<Id, nat>, c: Chain, a: Id, r: Chain)
    requires LinearChains(chains) && FirstBlocksDiffer(chains)
    requires Shape(chains, got, k, c) && ParkedUnderParent(c.pending) && a in chains && k[a] > 0
    requires c.heads[a] in c.pending
    requires r == AdoptAll(c.(pending := c.pending - {c.heads[a]}), a, c.pending[c.heads[a]])
    ensures Shape(chains, got, k[a := k[a] + 1], r)
  {
    var h := c.heads[a];
    ParkedUnderHead(chains, got, k, c.pending, a);
    AdoptCopies(c.(pending := c.pending - {h}), a, chains[a][k[a]], c.pending[h]);
    ShapeAfterStep(chains, got, k, c, a, r);
  }

  lemma ShapeAfterStep(
    chains: Chains, got: set<Envelope>, k: map<Id, nat>, c: Chain, a: Id, r: Chain)
    requires LinearChains(chains) && FirstBlocksDiffer(chains)
    requires Shape(chains, got, k, c) && a in chains && 0 < k[a] < |chains[a]|
    requires chains[a][k[a]] in got
    requires r.heads == c.heads[a := EnvelopeHash(chains[a][k[a]])]
    requires r.store.Keys == c.store.Keys + {EnvelopeHash(chains[a][k[a]])}
    requires r.pending == c.pending - {Tip(chains[a], k[a])}
    ensures Shape(chains, got, k[a := k[a] + 1], r)
  {
    ArrivedNext(chains, got, k, a);
    HeadsNext(chains, k, c.heads, a);
    PrefixHashesExtend(chains, k, c.store.Keys, a);
    ParkedOnlyAfterRemove(chains, got, k, c.pending, a);
    BeyondTipsAfterRemove(chains, got, k, a);
  }

  lemma NothingParkedAtEnd(chains: Chains, got: set<Envelope>, k: map<Id, nat>, a: Id)
    requires k.Keys == chains.Keys && a in chains && 0 < k[a] <= Prefix(chains[a], got)
    requires Tip(chains[a], k[a]) !in BeyondTips(chains, got, k)
    ensures k[a] == Prefix(chains[a], got)
  {
  }

  /** Draining takes `a` to the end of its arrived prefix. */
  lemma {:induction false} DrainConverges(
    chains: Chains, got: set<Envelope>, k: map<Id, nat>, c: Chain, a: Id)
    requires LinearChains(chains) && FirstBlocksDiffer(chains)
    requires Shape(chains, got, k, c) && ParkedUnderParent(c.pending) && a in chains && k[a] > 0
    ensures Shape(chains, got, k[a := Prefix(chains[a], got)], Drain(c, a))
    decreases |c.pending|
  {
    var h := c.heads[a];
    if h in c.pending {
      RemoveShrinks(c.pending, h);
      var k' := k[a := k[a] + 1];
      var c2 := AdoptAll(c.(pending := c.pending - {h}), a, c.pending[h]);
      ShapeAfterAdopt(chains, got, k, c, a, c2);
      DrainConverges(chains, got, k', c2, a);
      UpdateTwice(k, a, k[a] + 1, Prefix(chains[a], got));
      assert Drain(c, a) == Drain(c2, a);
    } else {
      NothingParkedAtEnd(chains, got, k, a);
      UpdateSame(k, a);
    }
  }

  lemma PrefixIs(ch: seq<Envelope>, got: set<Envelope>, k: nat)
    requires k <= |ch| && (forall i | 0 <= i < k :: ch[i] in got) && (k < |ch| ==> ch[k] !in got)
    ensures Prefix(ch, got) == k
  {
  }

  // ----- One delivery -----

  lemma PrefixPasses(ch: seq<Envelope>, got: set<Envelope>, i: nat)
    requires i < |ch| && i == Prefix(ch, got)
    ensures i < Prefix(ch, got + {ch[i]})
  {
    var k := Prefix(ch, got + {ch[i]});
    assert forall j | 0 <= j < i :: ch[j] in got;
  }

  /** A delivery changes the prefix of its own author only. */
  lemma OtherPrefixes(chains: Chains, got: set<Envelope>, a: Id, i: nat)
    requires LinearChains(chains) && FirstBlocksDiffer(chains)
    requires a in chains && i < |chains[a]|
    ensures var got' := got + {chains[a][i]};
            Prefixes(chains, got') == Prefixes(chains, got)[a := Prefix(chains[a], got')]
  {
    var got' := got + {chains[a][i]};
    forall x | x in chains && x != a ensures Prefix(chains[x], got') == Prefix(chains[x], got) {
      var k := Prefix(chains[x], got);
      if k < |chains[x]| && chains[x][k] == chains[a][i] {
        BlockUnique(chains, x, k, a, i);
      }
      PrefixIs(chains[x], got', k);
    }
  }

  /** A chain hash is stored exactly when it is genesis or inside the prefix. */
  lemma StoredTip(chains: Chains, k: map<Id, nat>, a: Id, i: nat)
    requires LinearChains(chains) && FirstBlocksDiffer(chains)
    requires k.Keys == chains.Keys && a in chains && i <= |chains[a]|
    ensures Tip(chains[a], i) in {GENESIS_HASH} + PrefixHashes(chains, k) <==> i == 0 || i <= k[a]
  {
    var h := Tip(chains[a], i);
    TipDepth(chains[a], i);
    if 0 < i <= k[a] {
      assert i - 1 < k[a] && h == EnvelopeHash(chains[a][i - 1]);
    }
    if i > 0 && h in PrefixHashes(chains, k) {
      var x, j :| x in chains && 0 <= j < |chains[x]| && j < k[x] && h == EnvelopeHash(chains[x][j]);
      assert h == Tip(chains[x], j + 1);
      TipUnique(chains, x, j + 1, a, i);
    }
  }

  /** One more arrival that keeps the prefixes keeps what is parked beyond them. */
  lemma BeyondGrows(
    chains: Chains, got: set<Envelope>, got': set<Envelope>, k: map<Id, nat>, pending: map<Hash, seq<Block>>)
    requires k.Keys == chains.Keys && got <= got'
    requires ParkedOnlyBeyond(chains, got, k, pending)
    ensures ParkedOnlyBeyond(chains, got', k, pending)
  {
    forall p, b | p in pending && b in pending[p] ensures Beyond(chains, got', k, p, b) {
      assert Beyond(chains, got, k, p, b);
    }
  }

  /** The arrival of the gap block leaves what is parked beyond it. */
  lemma ParkedOnlyAfterNext(
    chains: Chains, got: set<Envelope>, k: map<Id, nat>, pending: map<Hash, seq<Block>>, a: Id)
    requires k.Keys == chains.Keys && a in chains && k[a] < |chains[a]|
    requires ParkedOnlyBeyond(chains, got, k, pending) && chains[a][k[a]] !in got
    ensures ParkedOnlyBeyond(chains, got + {chains[a][k[a]]}, k[a := k[a] + 1], pending)
  {
    var k', got' := k[a := k[a] + 1], got + {chains[a][k[a]]};
    forall p, b | p in pending && b in pending[p] ensures Beyond(chains, got', k', p, b) {
      assert Beyond(chains, got, k, p, b);
      var s := b.sig.signer;
      var i: nat :| 0 < i < |chains[s]| && k[s] <= i && chains[s][i] == b.envelope && p == Tip(chains[s], i);
      assert k'[s] <= i;
    }
  }

  /** An arrival adds at most its own parent to the parents waited for. */
  lemma BeyondTipsGrow(chains: Chains, got: set<Envelope>, k: map<Id, nat>, k': map<Id, nat>, a: Id, i: nat)
    requires LinearChains(chains) && FirstBlocksDiffer(chains)
    requires k.Keys == chains.Keys && k'.Keys == chains.Keys && a in chains && i < |chains[a]|
    requires forall x <- chains :: k[x] <= k'[x]
    ensures BeyondTips(chains, got + {chains[a][i]}, k') <= BeyondTips(chains, got, k) + {Tip(chains[a], i)}
    ensures i < k'[a] ==> BeyondTips(chains, got + {chains[a][i]}, k') <= BeyondTips(chains, got, k)
  {
    var got' := got + {chains[a][i]};
    forall t | t in BeyondTips(chains, got', k')
      ensures t in BeyondTips(chains, got, k) || (t == Tip(chains[a], i) && k'[a] <= i)
    {
      var x, j :| x in chains && 0 < j < |chains[x]| && k'[x] <= j && chains[x][j] in got' && t == Tip(chains[x], j);
      if chains[x][j] == chains[a][i] {
        BlockUnique(chains, x, j, a, i);
      } else {
        assert k[x] <= j;
      }
    }
  }

  lemma ArrivedAfterNext(chains: Chains, got: set<Envelope>, a: Id)
    requires LinearChains(chains) && FirstBlocksDiffer(chains)
    requires a in chains && Prefix(chains[a], got) < |chains[a]|
    ensures var i := Prefix(chains[a], got);
            ArrivedBelow(chains, got + {chains[a][i]}, Prefixes(chains, got)[a := i + 1])
  {
    var i := Prefix(chains[a], got);
    var got' := got + {chains[a][i]};
    OtherPrefixes(chains, got, a, i);
    PrefixPasses(chains[a], got, i);
    forall x | x in chains && x != a ensures Prefix(chains[x], got) == Prefix(chains[x], got') {
      assert Prefixes(chains, got')[x] == Prefixes(chains, got)[x];
    }
  }

  lemma ShapeAfterNext(
    chains: Chains, got: set<Envelope>, ks: map<Id, nat>, c: Chain, a: Id, r: Chain)
    requires LinearChains(chains) && FirstBlocksDiffer(chains)
    requires ks == Prefixes(chains, got) && Shape(chains, got, ks, c)
    requires a in chains && ks[a] < |chains[a]|
    requires r.heads == c.heads[a := EnvelopeHash(chains[a][ks[a]])]
    requires r.store.Keys == c.store.Keys + {EnvelopeHash(chains[a][ks[a]])}
    requires r.pending == c.pending
    ensures Shape(chains, got + {chains[a][ks[a]]}, ks[a := ks[a] + 1], r)
  {
    hide ParkedOnlyBeyond, BeyondTips, PrefixHashes, ArrivedBelow, HeadsAt, LinearChains, FirstBlocksDiffer;
    var i := ks[a];
    var got' := got + {chains[a][i]};
    var k1 := ks[a := i + 1];
    HeadsNext(chains, ks, c.heads, a);
    PrefixHashesExtend(chains, ks, c.store.Keys, a);
    ParkedOnlyAfterNext(chains, got, ks, c.pending, a);
    assert BeyondTips(chains, got', k1) <= r.pending.Keys by {
      BeyondTipsGrow(chains, got, ks, k1, a, i);
    }
    ArrivedAfterNext(chains, got, a);
  }

  lemma DeliverNext(chains: Chains, got: set<Envelope>, c: Chain, b: Block)
    requires LinearChains(chains) && FirstBlocksDiffer(chains)
    requires Converged(chains, got, c) && FromChains(chains, b)
    requires LinksSound(c.childOf) && ParkedUnderParent(c.pending)
    requires var a := b.sig.signer; var k := Prefix(chains[a], got);
             k < |chains[a]| && b.envelope == chains[a][k]
    ensures Converged(chains, got + {b.envelope}, Admit(c, b).0)
  {
    var a := b.sig.signer;
    var ks := Prefixes(chains, got);
    var i := ks[a];
    var got' := got + {b.envelope};
    assert chains[a][i].parent == Tip(chains[a], i) && b.Digest() == Tip(chains[a], i + 1);
    StoredTip(chains, ks, a, i + 1);
    var c1 := SetHead(Insert(c, b), a, b.Digest(), b.envelope.height);
    ShapeAfterNext(chains, got, ks, c, a, c1);
    DrainConverges(chains, got', ks[a := i + 1], c1, a);
    OtherPrefixes(chains, got, a, i);
    UpdateTwice(ks, a, i + 1, Prefix(chains[a], got'));
  }

  lemma DeliverBeyondGap(chains: Chains, got: set<Envelope>, c: Chain, b: Block, i: nat)
    requires LinearChains(chains) && FirstBlocksDiffer(chains)
    requires Converged(chains, got, c) && FromChains(chains, b)
    requires LinksSound(c.childOf)
    requires i < |chains[b.sig.signer]| && b.envelope == chains[b.sig.signer][i]
    requires Prefix(chains[b.sig.signer], got) < i
    ensures Converged(chains, got + {b.envelope}, Admit(c, b).0)
  {
    hide ParkedOnlyBeyond, BeyondTips, PrefixHashes, FirstBlocksDiffer;
    var a := b.sig.signer;
    var ks := Prefixes(chains, got);
    var got' := got + {b.envelope};
    var p := b.envelope.parent;
    assert p == Tip(chains[a], i) && b.Digest() == Tip(chains[a], i + 1);
    StoredTip(chains, ks, a, i);
    StoredTip(chains, ks, a, i + 1);
    StoredTip(chains, ks, a, ks[a]);
    var pending' := c.pending[p := Lookup(c.pending, p, []) + [b]];
    assert Admit(c, b).0 == c.(pending := pending');
    PrefixIs(chains[a], got', ks[a]);
    OtherPrefixes(chains, got, a, i);
    assert Prefixes(chains, got') == ks;
    BeyondGrows(chains, got, got', ks, c.pending);
    ParkedOnlyAdd(chains, got', ks, c.pending, p, b);
    BeyondTipsGrow(chains, got, ks, ks, a, i);
  }

  lemma DeliverConverges(chains: Chains, got: set<Envelope>, c: Chain, b: Block)
    requires LinearChains(chains) && FirstBlocksDiffer(chains)
    requires Converged(chains, got, c) && FromChains(chains, b)
    requires LinksSound(c.childOf) && ParkedUnderParent(c.pending)
    ensures Converged(chains, got + {b.envelope}, Admit(c, b).0)
  {
    var a := b.sig.signer;
    var k := Prefix(chains[a], got);
    var i :| 0 <= i < |chains[a]| && chains[a][i] == b.envelope;
    if i < k {
      assert b.Digest() == Tip(chains[a], i + 1);
      StoredTip(chains, Prefixes(chains, got), a, i + 1);
      assert got + {b.envelope} == got;
    } else if i == k {
      DeliverNext(chains, got, c, b);
    } else {
      DeliverBeyondGap(chains, got, c, b, i);
    }
  }

  // ----- Whole delivery sequences -----

  function AdmitAll(c: Chain, bs: seq<Block>): (r: Chain)
    requires Valid(c)
    ensures Valid(r)
  {
    if bs == [] then c
    else
      var before := AdmitAll(c, bs[..|bs| - 1]);
      AdmitKeepsValid(before, bs[|bs| - 1]);
      Admit(before, bs[|bs| - 1]).0
  }

  lemma EnvelopesSnoc(bs: seq<Block>)
    requires bs != []
    ensures Envelopes(bs) == Envelopes(bs[..|bs| - 1]) + {bs[|bs| - 1].envelope}
  {
    var n := |bs| - 1;
    assert bs == bs[..n] + [bs[n]];
  }

  /** After any interleaving, permutation and duplication of deliveries the
      state has converged. */
  lemma {:induction false} Convergence(chains: Chains, bs: seq<Block>)
    requires LinearChains(chains) && FirstBlocksDiffer(chains)
    requires forall b <- bs :: FromChains(chains, b)
    ensures Valid(Initial(chains.Keys))
    ensures Converged(chains, Envelopes(bs), AdmitAll(Initial(chains.Keys), bs))
  {
    InitialValid(chains.Keys);
    if bs == [] {
      assert Prefixes(chains, {}) == map a | a in chains :: 0;
    } else {
      var n := |bs| - 1;
      Convergence(chains, bs[..n]);
      DeliverConverges(chains, Envelopes(bs[..n]), AdmitAll(Initial(chains.Keys), bs[..n]), bs[n]);
      EnvelopesSnoc(bs);
    }
  }

  function ParkedEnvelopes(c: Chain): set<Envelope> {
    set p, b | p in c.pending && b in c.pending[p] :: b.envelope
  }

  function BeyondGap(chains: Chains, got: set<Envelope>): set<Envelope> {
    set a, i | a in chains && 0 <= i < |chains[a]| && Prefix(chains[a], got) < i && chains[a][i] in got
      :: chains[a][i]
  }

  lemma ConvergedParks(chains: Chains, got: set<Envelope>, c: Chain)
    requires LinearChains(chains) && FirstBlocksDiffer(chains)
    requires Converged(chains, got, c) && ParkedUnderParent(c.pending)
    ensures ParkedEnvelopes(c) == BeyondGap(chains, got)
  {
    var ks := Prefixes(chains, got);
    forall e | e in ParkedEnvelopes(c) ensures e in BeyondGap(chains, got) {
      var p, b :| p in c.pending && b in c.pending[p] && e == b.envelope;
      assert Beyond(chains, got, ks, p, b);
      var s := b.sig.signer;
      var i: nat :| 0 < i < |chains[s]| && ks[s] <= i && chains[s][i] == e && p == Tip(chains[s], i);
      assert i != Prefix(chains[s], got);
    }
    forall e | e in BeyondGap(chains, got)
      ensures exists p, b :: p in c.pending && b in c.pending[p] && e == b.envelope
    {
      var a, i :| a in chains && 0 <= i < |chains[a]| && Prefix(chains[a], got) < i && chains[a][i] in got
                  && e == chains[a][i];
      var p := Tip(chains[a], i);
      assert p in BeyondTips(chains, got, ks);
      var b := c.pending[p][0];
      assert b in c.pending[p];
      assert Beyond(chains, got, ks, p, b);
      var s := b.sig.signer;
      var j: nat :| 0 < j < |chains[s]| && ks[s] <= j && chains[s][j] == b.envelope && p == Tip(chains[s], j);
      TipUnique(chains, a, i, s, j);
    }
  }

  /** Two nodes that received the same blocks agree on every head, height,
      stored hash and parked block, whatever the order and the repetitions. */
  lemma OrderIrrelevant(chains: Chains, bs: seq<Block>, cs: seq<Block>)
    requires LinearChains(chains) && FirstBlocksDiffer(chains)
    requires forall b <- bs :: FromChains(chains, b)
    requires forall b <- cs :: FromChains(chains, b)
    requires Envelopes(bs) == Envelopes(cs)
    requires Valid(Initial(chains.Keys))
    ensures var c := AdmitAll(Initial(chains.Keys), bs);
            var d := AdmitAll(Initial(chains.Keys), cs);
            && c.heads == d.heads && c.heights == d.heights && c.store.Keys == d.store.Keys
            && ParkedEnvelopes(c) == ParkedEnvelopes(d)
  {
    hide ParkedOnlyBeyond, BeyondTips, PrefixHashes, LinearChains, FirstBlocksDiffer;
    var c := AdmitAll(Initial(chains.Keys), bs);
    var d := AdmitAll(Initial(chains.Keys), cs);
    Convergence(chains, bs);
    Convergence(chains, cs);
    ConvergedParks(chains, Envelopes(bs), c);
    ConvergedParks(chains, Envelopes(cs), d);
    assert c.heads == d.heads;
    forall a | a in c.heads ensures c.heights[a] == d.heights[a] {
      assert c.store[c.heads[a]].Digest() == c.heads[a];
      assert d.store[d.heads[a]].Digest() == d.heads[a];
    }
  }

  // ----- The condition is exact -----

  /** The author is not part of the hash, so when two authors start with one
      envelope the second delivery is taken for a duplicate and the second
      author's head stays at genesis. */
  lemma SharedFirstBlockStalls(chains: Chains, a: Id, b: Id, raw: RawSig<Hash>)
    requires LinearChains(chains) && a in chains && b in chains && a != b
    requires chains[a] != [] && chains[b] != [] && chains[a][0] == chains[b][0]
    requires Valid(Initial(chains.Keys))
    ensures var bs := [Block(chains[a][0], BlockSig(a, raw)), Block(chains[b][0], BlockSig(b, raw))];
            && (forall x <- bs :: FromChains(chains, x))
            && b in AdmitAll(Initial(chains.Keys), bs).heads
            && AdmitAll(Initial(chains.Keys), bs).heads[b] == GENESIS_HASH
            && !Converged(chains, Envelopes(bs), AdmitAll(Initial(chains.Keys), bs))
  {
    hide ParkedOnlyBeyond, BeyondTips, PrefixHashes, ArrivedBelow;
    var e := chains[a][0];
    var x, y := Block(e, BlockSig(a, raw)), Block(e, BlockSig(b, raw));
    var c0 := Initial(chains.Keys);
    assert e.parent == Tip(chains[a], 0);
    assert [x, y][..1] == [x] && [x][..0] == [];
    var c1 := Admit(c0, x).0;
    assert AdmitAll(c0, [x]) == Admit(AdmitAll(c0, []), x).0 == c1;
    assert c1.heads[b] == GENESIS_HASH && y.Digest() in c1.store;
    assert AdmitAll(c0, [x, y]) == Admit(AdmitAll(c0, [x]), y).0 == c1;
    assert y in [x, y] && e in Envelopes([x, y]);
    assert Prefix(chains[b], Envelopes([x, y])) > 0;
    assert GENESIS_HASH != Tip(chains[b], Prefix(chains[b], Envelopes([x, y]))) by {
      TipDepth(chains[b], Prefix(chains[b], Envelopes([x, y])));
    }
  }

  /** Every delivery sequence converges if and only if no two authors start
      with the same envelope. */
  lemma ConvergesIffFirstBlocksDiffer(chains: Chains)
    requires LinearChains(chains)
    ensures Valid(Initial(chains.Keys))
    ensures (forall bs: seq<Block> {:trigger AdmitAll(Initial(chains.Keys), bs)} ::
               (forall b <- bs :: FromChains(chains, b)) ==>
               Converged(chains, Envelopes(bs), AdmitAll(Initial(chains.Keys), bs)))
            <==> FirstBlocksDiffer(chains)
  {
    hide Converged, AdmitAll, FromChains, LinearChains, Initial;
    InitialValid(chains.Keys);
    if FirstBlocksDiffer(chains) {
      forall bs: seq<Block> | forall b <- bs :: FromChains(chains, b)
        ensures Converged(chains, Envelopes(bs), AdmitAll(Initial(chains.Keys), bs))
      {
        Convergence(chains, bs);
      }
    } else {
      var a, b :| a in chains && b in chains && a != b && chains[a] != [] && chains[b] != []
                  && chains[a][0] == chains[b][0];
      SharedFirstBlockStalls(chains, a, b, Garbage(0));
    }
  }
}
