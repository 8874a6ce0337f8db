/** What the rest of Zeus sees of the block store over its runs: the metadata index
    that the conflict check walks, lookups, the budget and the watermark. */
module StoreIndex {
  import opened Base
  import opened DataBlocks
  import opened BlockStore
  import PrefixLock

  function Greater(a: nat, b: nat): nat {
    if a >= b then a else b
  }

  // ----- The index -----

  /** After any run the metadata of a hash are its block's epoch, height and parent. */
  lemma StoreIsIndex(capBytes: nat, disk: map<Hash, Block>, emitted: nat, es: seq<BlockStore.Event>, h: Hash)
    ensures var s := Run(Fresh(capBytes, disk, emitted), es);
            && PrefixLock.WellIndexed(s.meta)
            && (h in s.meta <==> h == GENESIS_HASH || h in PlainMap(es))
            && (h in PlainMap(es) ==>
                  var e := PlainMap(es)[h].envelope; s.meta[h] == Meta(e.epoch, e.height, e.parent, h))
  {
    hide Run, Queued, CacheCurrent, SpillCurrent;
    RunValid(capBytes, disk, emitted, es);
  }

  /** Every block was inserted after its parent, one height above it. */
  predicate ParentsFirst(es: seq<BlockStore.Event>)
    decreases |es|
  {
    es == [] ||
    (var n := |es| - 1;
     ParentsFirst(es[..n]) &&
     (es[n].Inserted? && es[n].block.Digest() != GENESIS_HASH ==>
        HasParent(PlainMap(es[..n]), es[n].block.envelope)))
  }

  predicate HasParent(m: map<Hash, Block>, e: Envelope) {
    if e.parent == GENESIS_HASH then e.height == 1
    else e.parent in m && e.parent.EnvelopeHash? && e.height == e.parent.envelope.height + 1
  }

  lemma {:induction false} ParentsFirstMembers(es: seq<BlockStore.Event>, h: Hash)
    requires ParentsFirst(es) && h in PlainMap(es) && h != GENESIS_HASH
    ensures h.EnvelopeHash? && HasParent(PlainMap(es), h.envelope)
    decreases |es|
  {
    var n := |es| - 1;
    if h in PlainMap(es[..n]) {
      ParentsFirstMembers(es[..n], h);
    }
  }

  /** Then the index is closed under parents, as the conflict check needs it. */
  lemma StoreIsClosed(capBytes: nat, disk: map<Hash, Block>, emitted: nat, es: seq<BlockStore.Event>)
    requires ParentsFirst(es)
    ensures PrefixLock.Closed(Run(Fresh(capBytes, disk, emitted), es).meta)
  {
    hide Run, PlainMap, ParentsFirst;
    var s := Run(Fresh(capBytes, disk, emitted), es);
    StoreIsIndex(capBytes, disk, emitted, es, GENESIS_HASH);
    forall h | h in s.meta && h != GENESIS_HASH
      ensures h.envelope.parent in s.meta && h.envelope.height == s.meta[h.envelope.parent].height + 1
    {
      StoreIsIndex(capBytes, disk, emitted, es, h);
      ParentsFirstMembers(es, h);
      StoreIsIndex(capBytes, disk, emitted, es, h.envelope.parent);
    }
  }

  // ----- Lookups -----

  /** Genesis is always found; a block never inserted is not; a cached one is
      returned as inserted last, any other as the disk has it. */
  lemma GetExact(capBytes: nat, disk: map<Hash, Block>, emitted: nat, es: seq<BlockStore.Event>, h: Hash)
    ensures var s := Run(Fresh(capBytes, disk, emitted), es); var plain := PlainMap(es);
            Get(s, h) == if h == GENESIS_HASH then Some(GENESIS)
                         else if h !in plain then None
                         else if h in s.cache then Some(plain[h])
                         else if h in s.disk then Some(s.disk[h]) else None
  {
    hide Run, Queued, SpillCurrent;
    RunValid(capBytes, disk, emitted, es);
  }

  // ----- Budget and watermark -----

  lemma {:induction false} EvictKeeps(s: Store, rises: seq<nat>)
    ensures var r := Evict(s, rises); r.cap == s.cap && r.emitted >= s.emitted && r.meta == s.meta
    decreases |s.order|
  {
    if OverBudget(s) {
      EvictKeeps(EvictOldest(if rises == [] then s else Raise(s, rises[0])), if rises == [] then [] else rises[1..]);
    }
  }

  /** The watermark after its first `k` rises. */
  function Risen(emitted: nat, rises: seq<nat>, k: nat): nat
    requires k <= |rises|
    decreases k
  {
    if k == 0 then emitted else Risen(Greater(emitted, rises[0]), rises[1..], k - 1)
  }

  lemma EvictOldestOne(s: Store)
    requires s.order != []
    ensures |EvictOldest(s).order| == |s.order| - 1 && EvictOldest(s).emitted == s.emitted
  {
  }

  /** An eviction loop reads the watermark anew for each block it drops. */
  lemma {:induction false} EvictReadsWatermark(s: Store, rises: seq<nat>)
    ensures var r := Evict(s, rises);
            && |r.order| <= |s.order|
            && r.emitted == Risen(s.emitted, rises,
                                  if |s.order| - |r.order| <= |rises| then |s.order| - |r.order| else |rises|)
    decreases |s.order|
  {
    hide EvictOldest;
    if OverBudget(s) {
      if rises == [] {
        EvictOldestOne(s);
        EvictReadsWatermark(EvictOldest(s), []);
      } else {
        var s1 := Raise(s, rises[0]);
        EvictOldestOne(s1);
        EvictReadsWatermark(EvictOldest(s1), rises[1..]);
      }
    }
  }

  lemma StepKeeps(s: Store, e: BlockStore.Event)
    ensures var r := Step(s, e);
            && r.cap == s.cap && r.emitted >= s.emitted
            && (e.Emitted? ==> r.emitted == Greater(s.emitted, e.height))
            && (e.Wrote? ==> r.emitted == s.emitted)
  {
    hide Evict;
    if e.Inserted? {
      EvictKeeps(Put(WithMeta(s, e.block), e.block.Digest(), e.block, SizeOf(e.block)), e.rises);
    }
  }

  /** The budget is the one given, but at least 1; the watermark is at least the one
      given and every height announced. */
  lemma {:induction false} BudgetAndWatermark(capBytes: nat, disk: map<Hash, Block>, emitted: nat, es: seq<BlockStore.Event>)
    ensures var s := Run(Fresh(capBytes, disk, emitted), es);
            && s.cap == Greater(capBytes, 1)
            && s.emitted >= emitted && forall e <- es :: e.Emitted? ==> s.emitted >= e.height
    decreases |es|
  {
    hide Step;
    if es != [] {
      var n := |es| - 1;
      BudgetAndWatermark(capBytes, disk, emitted, es[..n]);
      StepKeeps(Run(Fresh(capBytes, disk, emitted), es[..n]), es[n]);
      assert es == es[..n] + [es[n]];
    }
  }

  /** So what is cached is within the given budget, unless it is a single block. */
  lemma CacheWithinBudget(capBytes: nat, disk: map<Hash, Block>, emitted: nat, es: seq<BlockStore.Event>)
    ensures var s := Run(Fresh(capBytes, disk, emitted), es);
            BytesOf(s.order) <= Greater(capBytes, 1) || |s.cache| <= 1
  {
    hide Run;
    CacheBounded(capBytes, disk, emitted, es);
    BudgetAndWatermark(capBytes, disk, emitted, es);
  }
}
