/** Zeus' write-back block store: a byte-bounded first-in first-out cache in
    front of a disk, which is written only when a block that was not yet emitted
    has to leave the cache. */
module BlockStore {
  import opened Base
  import opened DataBlocks

  datatype Meta = Meta(epoch: nat, height: nat, parent: Hash, hash: Hash)

  datatype Cached = Cached(block: Block, size: nat)

  datatype Write = Write(key: Hash, block: Block)

  /** The value of a `DataBlockDB` object together with the writes handed to the
      background writer, the disk, and the committer's watermark. */
  datatype Store = Store(
    meta: map<Hash, Meta>,
    cache: map<Hash, Cached>,
    order: seq<Hash>,
    resident: nat,
    cap: nat,
    queue: seq<Write>,
    disk: map<Hash, Block>,
    emitted: nat)

  function MetaOf(b: Block): Meta {
    Meta(b.envelope.epoch, b.envelope.height, b.envelope.parent, b.Digest())
  }

  /** Approximate resident size of a block. */
  function SizeOf(b: Block): nat {
    (|b.envelope.payload| + 1) * 64
  }

  function Fresh(capBytes: nat, disk: map<Hash, Block>, emitted: nat): Store {
    Store(map[GENESIS_HASH := MetaOf(GENESIS)], map[], [], 0, if capBytes > 1 then capBytes else 1,
          [], disk, emitted)
  }

  // ----- The operations as functions -----

  function Raise(s: Store, height: nat): Store {
    s.(emitted := if height > s.emitted then height else s.emitted)
  }

  function Put(s: Store, h: Hash, b: Block, size: nat): Store {
    if h in s.cache then
      s.(cache := s.cache[h := Cached(b, size)],
         resident := if s.resident + size >= s.cache[h].size then s.resident + size - s.cache[h].size else 0)
    else
      s.(cache := s.cache[h := Cached(b, size)], order := s.order + [h], resident := s.resident + size)
  }

  predicate OverBudget(s: Store) {
    s.resident > s.cap && |s.cache| > 1 && s.order != []
  }

  /** The oldest entry leaves the cache; it is spilled only if it lies above the
      watermark as read at that moment. */
  function EvictOldest(s: Store): Store
    requires s.order != []
  {
    var oldest := s.order[0];
    var s' := s.(order := s.order[1..]);
    if oldest !in s.cache then s'
    else
      var c := s.cache[oldest];
      s'.(cache := s.cache - {oldest},
          resident := if s.resident >= c.size then s.resident - c.size else 0,
          queue := if c.block.envelope.height > s.emitted then s.queue + [Write(oldest, c.block)] else s.queue)
  }

  /** `rises` are the heights the committer announces between the reads of the
      watermark; the loop sees the first of them before its first read. */
  function Evict(s: Store, rises: seq<nat>): Store
    decreases |s.order|
  {
    if !OverBudget(s) then s
    else if rises == [] then Evict(EvictOldest(s), [])
    else Evict(EvictOldest(Raise(s, rises[0])), rises[1..])
  }

  /** Metadata is recorded the first time a hash is inserted. */
  function WithMeta(s: Store, b: Block): Store {
    if b.Digest() in s.meta then s else s.(meta := s.meta[b.Digest() := MetaOf(b)])
  }

  function Insert(s: Store, b: Block, rises: seq<nat>): Store {
    Evict(Put(WithMeta(s, b), b.Digest(), b, SizeOf(b)), rises)
  }

  /** One turn of the background writer. */
  function WriteOne(s: Store): Store {
    if s.queue == [] then s
    else s.(disk := s.disk[s.queue[0].key := s.queue[0].block], queue := s.queue[1..])
  }

  function Get(s: Store, h: Hash): Option<Block> {
    if h == GENESIS_HASH then Some(GENESIS)
    else if h !in s.meta then None
    else if h in s.cache then Some(s.cache[h].block)
    else if h in s.disk then Some(s.disk[h])
    else None
  }

  function CacheGet(s: Store, h: Hash): Option<Block> {
    if h == GENESIS_HASH then Some(GENESIS)
    else if h in s.cache then Some(s.cache[h].block)
    else None
  }

  // ----- What every reachable state satisfies -----

  /** The disk once the queued writes have been made. */
  function Flush(disk: map<Hash, Block>, queue: seq<Write>): map<Hash, Block>
    decreases |queue|
  {
    if queue == [] then disk else Flush(disk[queue[0].key := queue[0].block], queue[1..])
  }

  function HeightOf(h: Hash): nat {
    match h
    case RawHash(_) => 0
    case EnvelopeHash(e) => e.height
  }

  function BytesOf(order: seq<Hash>): nat {
    if order == [] then 0
    else BytesOf(order[1..]) + (match order[0]
                                case RawHash(_) => 0
                                case EnvelopeHash(e) => (|e.payload| + 1) * 64)
  }

  predicate NoDuplicates(s: seq<Hash>) {
    forall i, j | 0 <= i < j < |s| :: s[i] != s[j]
  }

  /** The order lists the cached hashes once each and the byte counter is exact. */
  predicate Queued(s: Store) {
    && NoDuplicates(s.order) && (forall h <- s.order :: h in s.cache) && (forall h <- s.cache :: h in s.order)
    && s.resident == BytesOf(s.order)
  }

  predicate WithinBudget(s: Store) {
    s.resident <= s.cap || |s.order| <= 1
  }

  /** Metadata is kept for exactly genesis and the blocks inserted so far. */
  predicate MetaExact(s: Store, last: map<Hash, Block>) {
    && s.meta.Keys == {GENESIS_HASH} + last.Keys
    && forall h <- s.meta :: h.EnvelopeHash? && s.meta[h] == MetaOf(Block(h.envelope, GENESIS.sig))
  }

  /** A cached block is the one inserted last under its hash. */
  predicate CacheCurrent(s: Store, last: map<Hash, Block>) {
    forall h <- s.cache :: h in last && s.cache[h] == Cached(last[h], SizeOf(last[h]))
  }

  /** A block above the watermark that has left the cache is on disk or on its way. */
  predicate SpillCurrent(s: Store, last: map<Hash, Block>) {
    forall h <- last :: h !in s.cache && HeightOf(h) > s.emitted ==>
      h in Flush(s.disk, s.queue) && Flush(s.disk, s.queue)[h] == last[h]
  }

  predicate OwnHashes(last: map<Hash, Block>) {
    forall h <- last :: last[h].Digest() == h
  }

  predicate Valid(s: Store, last: map<Hash, Block>) {
    && Queued(s) && MetaExact(s, last) && CacheCurrent(s, last) && SpillCurrent(s, last) && OwnHashes(last)
  }

  // ----- Preservation -----

  lemma {:induction false} FlushAppend(disk: map<Hash, Block>, queue: seq<Write>, w: Write)
    ensures Flush(disk, queue + [w]) == Flush(disk, queue)[w.key := w.block]
    decreases |queue|
  {
    if queue == [] {
      assert queue + [w] == [w] && [w][1..] == [];
      assert Flush(disk, [w]) == Flush(disk[w.key := w.block], []);
    } else {
      TailOfAppend(queue, [w]);
      FlushAppend(disk[queue[0].key := queue[0].block], queue[1..], w);
    }
  }

  lemma {:induction false} BytesAppend(order: seq<Hash>, h: Hash)
    ensures BytesOf(order + [h]) == BytesOf(order) + BytesOf([h])
  {
    if order == [] {
      assert order + [h] == [h];
    } else {
      TailOfAppend(order, [h]);
      BytesAppend(order[1..], h);
    }
  }

  lemma BytesOfBlock(b: Block)
    ensures BytesOf([b.Digest()]) == SizeOf(b)
  {
    assert [b.Digest()][1..] == [];
  }

  lemma AppendDistinct(s: seq<Hash>, x: Hash)
    requires NoDuplicates(s) && x !in s
    ensures NoDuplicates(s + [x])
  {
  }

  lemma DropFirst(s: seq<Hash>)
    requires NoDuplicates(s) && s != []
    ensures NoDuplicates(s[1..]) && s[0] !in s[1..]
    ensures forall h :: h in s <==> h == s[0] || h in s[1..]
  {
    assert s == [s[0]] + s[1..];
    forall i | 0 <= i < |s[1..]| ensures s[1..][i] != s[0] {
      assert s[1..][i] == s[i + 1];
    }
  }

  /** Putting a block that is cached already changes neither order nor bytes. */
  lemma PutQueued(s: Store, last: map<Hash, Block>, b: Block)
    requires Queued(s) && CacheCurrent(s, last) && OwnHashes(last)
    ensures Queued(Put(s, b.Digest(), b, SizeOf(b)))
    ensures b.Digest() in s.cache ==>
              var r := Put(s, b.Digest(), b, SizeOf(b));
              r.resident == s.resident && r.order == s.order && r.cache.Keys == s.cache.Keys
  {
    hide NoDuplicates, BytesOf;
    var h := b.Digest();
    if h in s.cache {
      assert s.cache[h].size == SizeOf(last[h]) == SizeOf(b);
    } else {
      AppendDistinct(s.order, h);
      BytesAppend(s.order, h);
      BytesOfBlock(b);
    }
  }

  lemma PutSpills(s: Store, last: map<Hash, Block>, b: Block)
    requires SpillCurrent(s, last)
    ensures SpillCurrent(Put(s, b.Digest(), b, SizeOf(b)), last[b.Digest() := b])
  {
    hide Flush;
  }

  lemma PutMeta(s: Store, last: map<Hash, Block>, b: Block)
    requires MetaExact(s, last)
    ensures MetaExact(Put(WithMeta(s, b), b.Digest(), b, SizeOf(b)), last[b.Digest() := b])
  {
  }

  lemma PutCache(s: Store, last: map<Hash, Block>, b: Block)
    requires CacheCurrent(s, last) && OwnHashes(last)
    ensures CacheCurrent(Put(s, b.Digest(), b, SizeOf(b)), last[b.Digest() := b])
    ensures OwnHashes(last[b.Digest() := b])
  {
  }

  lemma PutValid(s: Store, last: map<Hash, Block>, b: Block)
    requires Valid(s, last)
    ensures Valid(Put(WithMeta(s, b), b.Digest(), b, SizeOf(b)), last[b.Digest() := b])
  {
    hide Queued, SpillCurrent, MetaExact, CacheCurrent, OwnHashes, Put, SizeOf;
    var s1 := WithMeta(s, b);
    MetaIrrelevant(s, s1, last);
    PutCache(s1, last, b);
    PutQueued(s1, last, b);
    PutSpills(s1, last, b);
    PutMeta(s, last, b);
  }

  lemma MetaIrrelevant(s: Store, s1: Store, last: map<Hash, Block>)
    requires s1 == s.(meta := s1.meta)
    ensures Queued(s1) == Queued(s) && SpillCurrent(s1, last) == SpillCurrent(s, last)
    ensures CacheCurrent(s1, last) == CacheCurrent(s, last)
  {
    hide Flush;
  }

  lemma RaiseValid(s: Store, last: map<Hash, Block>, height: nat)
    requires Valid(s, last)
    ensures Valid(Raise(s, height), last)
  {
  }

  lemma EvictQueued(s: Store, last: map<Hash, Block>)
    requires Queued(s) && CacheCurrent(s, last) && OwnHashes(last) && s.order != []
    ensures Queued(EvictOldest(s))
  {
    hide NoDuplicates;
    var oldest := s.order[0];
    DropFirst(s.order);
    assert oldest in s.cache && s.cache[oldest].size == SizeOf(last[oldest]);
    BytesOfBlock(last[oldest]);
    assert BytesOf(s.order) == BytesOf([oldest]) + BytesOf(s.order[1..]);
  }

  lemma EvictSpills(s: Store, last: map<Hash, Block>)
    requires Valid(s, last) && s.order != []
    ensures SpillCurrent(EvictOldest(s), last)
  {
    hide Flush;
    var oldest := s.order[0];
    assert oldest in s.cache;
    var c := s.cache[oldest];
    FlushAppend(s.disk, s.queue, Write(oldest, c.block));
  }

  lemma EvictOldestValid(s: Store, last: map<Hash, Block>)
    requires Valid(s, last) && s.order != []
    ensures Valid(EvictOldest(s), last)
  {
    hide SpillCurrent, Queued;
    EvictQueued(s, last);
    EvictSpills(s, last);
  }

  /** Evicting stops within budget, keeps the newest entry, and loses nothing. */
  lemma {:induction false} EvictValid(s: Store, last: map<Hash, Block>, rises: seq<nat>)
    requires Valid(s, last)
    ensures var r := Evict(s, rises);
            Valid(r, last) && WithinBudget(r) && r.emitted >= s.emitted && r.cap == s.cap
            && (s.order != [] ==> s.order[|s.order| - 1] in r.cache)
    decreases |s.order|
  {
    hide Valid, EvictOldest, Flush;
    ValidSizes(s, last);
    if OverBudget(s) {
      var s1 := if rises == [] then s else Raise(s, rises[0]);
      if rises != [] {
        RaiseValid(s, last, rises[0]);
      }
      EvictOldestValid(s1, last);
      EvictOldestShape(s1);
      EvictValid(EvictOldest(s1), last, if rises == [] then [] else rises[1..]);
      assert s1.order[1..][|s.order| - 2] == s.order[|s.order| - 1];
    }
  }

  lemma EvictOldestShape(s: Store)
    requires s.order != []
    ensures EvictOldest(s).order == s.order[1..] && EvictOldest(s).emitted == s.emitted
    ensures EvictOldest(s).cap == s.cap
  {
  }

  lemma {:induction false} NoDuplicatesSize(s: seq<Hash>, t: set<Hash>)
    requires NoDuplicates(s) && forall h :: h in s <==> h in t
    ensures |s| == |t|
  {
    if s == [] {
      assert t == {};
    } else {
      var front, x := s[..|s| - 1], s[|s| - 1];
      assert s == front + [x];
      NoDuplicatesSize(front, t - {x});
    }
  }

  lemma ValidSizes(s: Store, last: map<Hash, Block>)
    requires Valid(s, last)
    ensures |s.order| == |s.cache| && forall h <- s.order :: h in s.cache
    ensures !OverBudget(s) ==> WithinBudget(s)
  {
    NoDuplicatesSize(s.order, s.cache.Keys);
    assert |s.cache.Keys| == |s.cache|;
  }

  lemma InsertValid(s: Store, last: map<Hash, Block>, b: Block, rises: seq<nat>)
    requires Valid(s, last) && WithinBudget(s)
    ensures var r := Insert(s, b, rises); var h := b.Digest();
            && Valid(r, last[h := b]) && WithinBudget(r)
            && r.emitted >= s.emitted && s.meta.Keys <= r.meta.Keys
            && h in r.cache && r.cache[h].block == b
  {
    hide Queued, SpillCurrent, MetaExact, OwnHashes, Evict;
    var h := b.Digest();
    var s1 := WithMeta(s, b);
    PutValid(s, last, b);
    var s2 := Put(s1, h, b, SizeOf(b));
    EvictValid(s2, last[h := b], rises);
    if h in s.cache {
      ValidSizes(s, last);
      assert Queued(s1) by { MetaIrrelevant(s, s1, last); }
      assert OwnHashes(last);
      PutQueued(s1, last, b);
      assert |s2.cache.Keys| == |s2.cache| && |s.cache.Keys| == |s.cache|;
      NoEviction(s2, rises);
    } else {
      assert s2.order[|s2.order| - 1] == h;
    }
    MetaGrows(s, Insert(s, b, rises), last, h, b);
  }

  lemma MetaGrows(s: Store, r: Store, last: map<Hash, Block>, h: Hash, b: Block)
    requires MetaExact(s, last) && MetaExact(r, last[h := b])
    ensures s.meta.Keys <= r.meta.Keys
  {
  }

  lemma NoEviction(s: Store, rises: seq<nat>)
    requires !OverBudget(s)
    ensures Evict(s, rises) == s
  {
  }

  /** Everything written by an eviction lies above the watermark. */
  predicate WritesAbove(s: Store, r: Store) {
    && s.queue <= r.queue
    && forall i | |s.queue| <= i < |r.queue| :: HeightOf(r.queue[i].key) > s.emitted
  }

  lemma EvictOldestWrites(s: Store, last: map<Hash, Block>)
    requires Valid(s, last) && s.order != []
    ensures WritesAbove(s, EvictOldest(s))
  {
    hide Queued, SpillCurrent, MetaExact;
    var oldest := s.order[0];
    if oldest in s.cache {
      assert last[oldest].Digest() == oldest;
    }
  }

  /** Every suffix that still holds one of the first `k` entries is over the cap
      and more than one entry long. */
  predicate AllOver(order: seq<Hash>, cap: nat, k: nat)
    requires k <= |order|
  {
    forall j | 0 <= j < k :: BytesOf(order[j..]) > cap && j + 1 < |order|
  }

  /** Blocks leave the cache oldest first and no more of them than the budget
      demands, the newest never; only those above the watermark are written. */
  lemma {:induction false} EvictFifo(s: Store, last: map<Hash, Block>, rises: seq<nat>) returns (k: nat)
    requires Valid(s, last)
    ensures k <= |s.order| && Evict(s, rises).order == s.order[k..]
    ensures AllOver(s.order, s.cap, k)
    ensures BytesOf(s.order[k..]) <= s.cap || k + 1 >= |s.order|
    ensures WritesAbove(s, Evict(s, rises))
    decreases |s.order|
  {
    hide Valid, EvictOldest, Flush, BytesOf, AllOver;
    ValidSizes(s, last);
    ValidBytes(s, last);
    assert s.order[0..] == s.order;
    if OverBudget(s) {
      var s1 := if rises == [] then s else Raise(s, rises[0]);
      var rest := if rises == [] then [] else rises[1..];
      if rises != [] {
        RaiseValid(s, last, rises[0]);
      }
      EvictOldestValid(s1, last);
      EvictOldestShape(s1);
      EvictOldestWrites(s1, last);
      var k' := EvictFifo(EvictOldest(s1), last, rest);
      k := k' + 1;
      var t := EvictOldest(s1).order;
      assert t == s.order[1..] && t[k'..] == s.order[k..];
      AllOverOneMore(s.order, s.cap, k');
    } else {
      k := 0;
      NoneOver(s.order, s.cap);
    }
  }

  lemma NoneOver(order: seq<Hash>, cap: nat)
    ensures AllOver(order, cap, 0)
  {
  }

  lemma AllOverOneMore(order: seq<Hash>, cap: nat, k: nat)
    requires |order| > 1 && BytesOf(order) > cap && k < |order| && AllOver(order[1..], cap, k)
    ensures AllOver(order, cap, k + 1)
  {
    hide BytesOf;
    var t := order[1..];
    assert order[0..] == order;
    forall j | 0 <= j < k + 1 ensures BytesOf(order[j..]) > cap && j + 1 < |order| {
      if j > 0 {
        assert t[j - 1..] == order[j..];
        assert BytesOf(t[j - 1..]) > cap;
      }
    }
  }

  lemma ValidBytes(s: Store, last: map<Hash, Block>)
    requires Valid(s, last)
    ensures s.resident == BytesOf(s.order)
  {
  }

  /** When everything cached has been emitted, inserting writes nothing. */
  lemma SteadyStateWritesNothing(s: Store, last: map<Hash, Block>, b: Block, rises: seq<nat>)
    requires Valid(s, last) && WithinBudget(s)
    requires b.envelope.height <= s.emitted && forall h <- s.cache :: HeightOf(h) <= s.emitted
    ensures Insert(s, b, rises).queue == s.queue
  {
    hide Valid, Evict;
    var s2 := Put(WithMeta(s, b), b.Digest(), b, SizeOf(b));
    PutValid(s, last, b);
    NoneToWrite(s2, last[b.Digest() := b], rises);
  }

  lemma {:induction false} NoneToWrite(s: Store, last: map<Hash, Block>, rises: seq<nat>)
    requires Valid(s, last) && forall h <- s.cache :: HeightOf(h) <= s.emitted
    ensures Evict(s, rises).queue == s.queue
    decreases |s.order|
  {
    hide Valid;
    if OverBudget(s) {
      var s1 := if rises == [] then s else Raise(s, rises[0]);
      if rises != [] {
        RaiseValid(s, last, rises[0]);
      }
      EvictOldestValid(s1, last);
      EvictEmitted(s1, last);
      NoneToWrite(EvictOldest(s1), last, if rises == [] then [] else rises[1..]);
    }
  }

  lemma EvictEmitted(s: Store, last: map<Hash, Block>)
    requires Valid(s, last) && s.order != [] && forall h <- s.cache :: HeightOf(h) <= s.emitted
    ensures EvictOldest(s).queue == s.queue && EvictOldest(s).emitted == s.emitted
    ensures forall h <- EvictOldest(s).cache :: HeightOf(h) <= s.emitted
  {
    hide Queued, SpillCurrent, MetaExact;
    assert forall h <- s.cache :: s.cache[h].block.envelope.height == HeightOf(h);
  }

  lemma WriteOneValid(s: Store, last: map<Hash, Block>)
    requires Valid(s, last)
    ensures Valid(WriteOne(s), last)
    ensures Flush(WriteOne(s).disk, WriteOne(s).queue) == Flush(s.disk, s.queue)
  {
  }

  // ----- Runs -----

  datatype Event = Inserted(block: Block, rises: seq<nat>) | Wrote | Emitted(height: nat)

  function Step(s: Store, e: Event): Store {
    match e
    case Inserted(b, rises) => Insert(s, b, rises)
    case Wrote => WriteOne(s)
    case Emitted(height) => Raise(s, height)
  }

  function Run(start: Store, es: seq<Event>): Store
    decreases |es|
  {
    if es == [] then start else Step(Run(start, es[..|es| - 1]), es[|es| - 1])
  }

  /** The plain map the store stands for: the block inserted last under each hash. */
  function PlainMap(es: seq<Event>): map<Hash, Block>
    decreases |es|
  {
    if es == [] then map[]
    else
      var m := PlainMap(es[..|es| - 1]);
      var e := es[|es| - 1];
      if e.Inserted? then m[e.block.Digest() := e.block] else m
  }

  lemma FreshValid(capBytes: nat, disk: map<Hash, Block>, emitted: nat)
    ensures Valid(Fresh(capBytes, disk, emitted), map[]) && WithinBudget(Fresh(capBytes, disk, emitted))
  {
  }

  lemma {:induction false} RunValid(capBytes: nat, disk: map<Hash, Block>, emitted: nat, es: seq<Event>)
    ensures var s := Run(Fresh(capBytes, disk, emitted), es);
            Valid(s, PlainMap(es)) && WithinBudget(s)
    decreases |es|
  {
    hide Valid, Insert, WithinBudget;
    if es == [] {
      FreshValid(capBytes, disk, emitted);
    } else {
      var s := Run(Fresh(capBytes, disk, emitted), es[..|es| - 1]);
      RunValid(capBytes, disk, emitted, es[..|es| - 1]);
      match es[|es| - 1]
      case Inserted(b, rises) => InsertValid(s, PlainMap(es[..|es| - 1]), b, rises);
      case Wrote => WriteOneValid(s, PlainMap(es[..|es| - 1])); WriteOneWithin(s);
      case Emitted(height) => RaiseValid(s, PlainMap(es[..|es| - 1]), height); RaiseWithin(s, height);
    }
  }

  lemma WriteOneWithin(s: Store)
    ensures WithinBudget(WriteOne(s)) <==> WithinBudget(s)
  {
  }

  lemma RaiseWithin(s: Store, height: nat)
    ensures WithinBudget(Raise(s, height)) <==> WithinBudget(s)
  {
  }

  /** In every reachable state every inserted block above the watermark is in the
      cache, among the queued writes, or on disk, in the version inserted last;
      once the queue has drained a lookup returns exactly that version. Nothing
      that was never inserted is found, and metadata covers exactly what was. */
  lemma StoreRefinesMap(capBytes: nat, disk: map<Hash, Block>, emitted: nat, es: seq<Event>, h: Hash)
    requires h != GENESIS_HASH
    ensures var s := Run(Fresh(capBytes, disk, emitted), es); var plain := PlainMap(es);
            && (h in s.meta <==> h in plain)
            && (h !in plain ==> Get(s, h) == None)
            && (h in plain ==> plain[h].Digest() == h)
            && (h in plain && h in s.cache ==> Get(s, h) == Some(plain[h]) == CacheGet(s, h))
            && (h in plain && plain[h].envelope.height > s.emitted && h !in s.cache ==>
                  && h in Flush(s.disk, s.queue) && Flush(s.disk, s.queue)[h] == plain[h])
            && (h in plain && plain[h].envelope.height > s.emitted && s.queue == [] ==>
                  Get(s, h) == Some(plain[h]))
  {
    hide Queued, Run;
    RunValid(capBytes, disk, emitted, es);
  }

  /** Membership never shrinks. */
  lemma {:induction false} MembershipGrows(capBytes: nat, disk: map<Hash, Block>, emitted: nat, es: seq<Event>, k: nat)
    requires k <= |es|
    ensures Run(Fresh(capBytes, disk, emitted), es[..k]).meta.Keys <= Run(Fresh(capBytes, disk, emitted), es).meta.Keys
    decreases |es|
  {
    hide Insert, Valid;
    if k < |es| {
      var n := |es| - 1;
      var s := Run(Fresh(capBytes, disk, emitted), es[..n]);
      assert es[..n][..k] == es[..k];
      MembershipGrows(capBytes, disk, emitted, es[..n], k);
      RunValid(capBytes, disk, emitted, es[..n]);
      if es[n].Inserted? {
        InsertValid(s, PlainMap(es[..n]), es[n].block, es[n].rises);
      }
    } else {
      assert es[..k] == es;
    }
  }

  /** The cache bound: after any run the resident bytes are the sum of the cached
      blocks' sizes and within the budget, unless a single block exceeds it. */
  lemma CacheBounded(capBytes: nat, disk: map<Hash, Block>, emitted: nat, es: seq<Event>)
    ensures var s := Run(Fresh(capBytes, disk, emitted), es);
            && |s.order| == |s.cache| && s.resident == BytesOf(s.order)
            && (s.resident <= s.cap || |s.cache| <= 1)
  {
    hide Run;
    RunValid(capBytes, disk, emitted, es);
    ValidSizes(Run(Fresh(capBytes, disk, emitted), es), PlainMap(es));
  }

  /** Draining makes every queued write and nothing else. */
  lemma {:induction false} DrainedDisk(s: Store)
    ensures var d := Drain(s); d.queue == [] && d.disk == Flush(s.disk, s.queue) && d.cache == s.cache
    decreases |s.queue|
  {
    if s.queue != [] {
      DrainedDisk(WriteOne(s));
    }
  }

  function Drain(s: Store): Store
    decreases |s.queue|
  {
    if s.queue == [] then s else Drain(WriteOne(s))
  }

  // ----- The object -----

  class DataBlockDB {
    var meta: map<Hash, Meta>
    var cache: map<Hash, Cached>
    var order: seq<Hash>
    var residentBytes: nat
    const capBytes: nat
    var writes: seq<Write>
    var disk: map<Hash, Block>
    var emittedHigh: nat

    function Model(): Store
      reads this
    {
      Store(meta, cache, order, residentBytes, capBytes, writes, disk, emittedHigh)
    }

    constructor (capBytes: nat, disk: map<Hash, Block>, emitted: nat)
      ensures Model() == Fresh(capBytes, disk, emitted)
    {
      meta := map[GENESIS_HASH := MetaOf(GENESIS)];
      cache, order, residentBytes, writes := map[], [], 0, [];
      this.capBytes := if capBytes > 1 then capBytes else 1;
      this.disk, emittedHigh := disk, emitted;
    }

    method InsertBlock(b: Block, rises: seq<nat>)
      modifies this
      ensures Model() == Insert(old(Model()), b, rises)
    {
      var h := b.Digest();
      if h !in meta {
        meta := meta[h := MetaOf(b)];
      }
      CachePut(h, b, (|b.envelope.payload| + 1) * 64, rises);
    }

    method CachePut(h: Hash, b: Block, size: nat, rises: seq<nat>)
      modifies this
      ensures Model() == Evict(Put(old(Model()), h, b, size), rises)
    {
      ghost var before := Model();
      if h in cache {
        var oldSize := cache[h].size;
        residentBytes := if residentBytes + size >= oldSize then residentBytes + size - oldSize else 0;
      } else {
        order := order + [h];
        residentBytes := residentBytes + size;
      }
      cache := cache[h := Cached(b, size)];
      assert Model() == Put(before, h, b, size);
      var seen := rises;
      while residentBytes > capBytes && |cache| > 1 && order != []
        invariant Evict(Model(), seen) == Evict(Put(before, h, b, size), rises)
        decreases |order|
      {
        if seen != [] {
          Announce(seen[0]);
          seen := seen[1..];
        }
        DropOldest();
      }
    }

    /** The committer raises the watermark. */
    method Announce(height: nat)
      modifies this
      ensures Model() == Raise(old(Model()), height)
    {
      if height > emittedHigh {
        emittedHigh := height;
      }
    }

    method DropOldest()
      requires order != []
      modifies this
      ensures Model() == EvictOldest(old(Model()))
    {
      var oldest := order[0];
      order := order[1..];
      if oldest in cache {
        var evicted := cache[oldest];
        cache := cache - {oldest};
        residentBytes := if residentBytes >= evicted.size then residentBytes - evicted.size else 0;
        if evicted.block.envelope.height > emittedHigh {
          writes := writes + [Write(oldest, evicted.block)];
        }
      }
    }

    method WriterTurn()
      modifies this
      ensures Model() == WriteOne(old(Model()))
    {
      if writes != [] {
        disk := disk[writes[0].key := writes[0].block];
        writes := writes[1..];
      }
    }

    method Fetch(h: Hash) returns (r: Option<Block>)
      ensures r == Get(Model(), h)
    {
      if h == GENESIS_HASH {
        return Some(GENESIS);
      }
      if h !in meta {
        return None;
      }
      if h in cache {
        return Some(cache[h].block);
      }
      return if h in disk then Some(disk[h]) else None;
    }
  }
}
