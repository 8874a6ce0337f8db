/** What the commit context does on every input, not only on runs with one new
    element per round: it never panics, and the two conditions under which keys
    and counts stay right are exact. */
module CommitAnyInput {
  import opened Base
  import opened CommitWindow
  import opened CommitChain

  // ----- What a walk collects -----

  function DepthOf(h: ElementHash): nat {
    match h
    case RawDigest(_) => 0
    case Digest(e) => 1 + DepthOf(e.parent)
  }

  predicate HasKey(q: seq<Entry>, k: ElementHash) {
    exists e :: e in q && e.key == k
  }

  predicate DistinctKeys(q: seq<Entry>) {
    forall i, j | 0 <= i < j < |q| :: q[i].key != q[j].key
  }

  /** Keys collected so far lie deeper than the hash to read next. */
  predicate DeeperThan(q: seq<Entry>, hash: ElementHash) {
    forall e <- q :: DepthOf(e.key) > DepthOf(hash)
  }

  predicate AvoidsBack(st: State, q: seq<Entry>) {
    forall e <- q :: !AtBack(st.queue, e.key)
  }

  lemma UpsertFresh(q: seq<Entry>, e: Entry)
    requires !HasKey(q, e.key)
    ensures Upsert(q, e) == q + [e]
    ensures DistinctKeys(q) ==> DistinctKeys(q + [e])
  {
    forall i | 0 <= i < |q| ensures q[i].key != e.key {
      assert q[i] in q;
    }
  }

  lemma BumpExact(p: map<Id, nat>, q: seq<Entry>, e: Entry)
    requires Exact(p, q)
    ensures Exact(Bump(p, e.element.proposer, 1), q + [e])
  {
    hide Proposers;
    var id := e.element.proposer;
    ProposersAppend(q, [e]);
    SingleProposer(e);
    forall x ensures Lookup(Bump(p, id, 1), x, 0) == Proposers(q + [e])[x] {
      assert Lookup(p, x, 0) == Proposers(q)[x];
    }
  }

  predicate TakesStep(st: State, head: Element, hash: ElementHash) {
    head.round > st.committed.round && !AtBack(st.queue, hash) && hash != st.committedHash
  }

  /** Whatever the walk meets, it collects distinct keys, never the key of the
      queue's back, and counts exactly the proposers of what it collected. */
  lemma {:induction false} WalkCollects(st: State, stored: set<Element>, head: Element, hash: ElementHash,
                                        q: seq<Entry>, p: map<Id, nat>)
    requires DistinctKeys(q) && DeeperThan(q, hash) && AvoidsBack(st, q) && Exact(p, q)
    ensures var w := Walk(st, stored, head, hash, q, p);
            && DistinctKeys(w.queue) && AvoidsBack(st, w.queue) && Exact(w.proposers, w.queue)
            && q <= w.queue
            && (TakesStep(st, head, hash) ==> Entry(hash, head) in w.queue)
    decreases hash
  {
    hide Exact, DistinctKeys;
    if TakesStep(st, head, hash) {
      var e := Entry(hash, head);
      UpsertFresh(q, e);
      BumpExact(p, q, e);
      assert (q + [e])[|q|] == e;
      if hash.Digest? && hash.element in stored {
        WalkCollects(st, stored, hash.element, hash.element.parent, q + [e], Bump(p, head.proposer, 1));
      }
    }
  }

  lemma WalkFromHead(st: State, stored: set<Element>, head: Element)
    ensures var w := Walk(st, stored, head, Digest(head), [], map[]);
            DistinctKeys(w.queue) && AvoidsBack(st, w.queue) && Exact(w.proposers, w.queue)
  {
    EmptyExact();
    WalkCollects(st, stored, head, Digest(head), [], map[]);
  }

  // ----- Extending the queue by what was collected -----

  lemma {:induction false} WithoutKeyProposers(q: seq<Entry>, k: ElementHash, id: Id)
    ensures Proposers(WithoutKey(q, k))[id] <= Proposers(q)[id]
    ensures (forall e <- q :: e.key == k ==> e.element.proposer != id) ==>
              Proposers(WithoutKey(q, k))[id] == Proposers(q)[id]
  {
    if q != [] {
      WithoutKeyProposers(q[1..], k, id);
      assert q[0].key != k ==> WithoutKey(q, k)[1..] == WithoutKey(q[1..], k);
    }
  }

  lemma UpsertProposers(q: seq<Entry>, e: Entry, id: Id)
    ensures var one := if e.element.proposer == id then 1 else 0;
            && Proposers(Upsert(q, e))[id] <= Proposers(q)[id] + one
            && ((forall x <- q :: x.key == e.key ==> x.element.proposer != id) ==>
                  Proposers(Upsert(q, e))[id] == Proposers(q)[id] + one)
  {
    WithoutKeyProposers(q, e.key, id);
    ProposersAppend(WithoutKey(q, e.key), [e]);
    SingleProposer(e);
  }

  /** No entry of `id` in `q` has a key of `more`. */
  predicate Untouched(q: seq<Entry>, more: seq<Entry>, id: Id) {
    forall x <- q, y <- more :: x.key == y.key ==> x.element.proposer != id
  }

  /** Entries are replaced, never multiplied; those of a proposer whose keys are
      not touched all stay. */
  lemma {:induction false} ExtendProposers(q: seq<Entry>, more: seq<Entry>, id: Id)
    requires DistinctKeys(more)
    ensures Proposers(Extend(q, more))[id] <= Proposers(q)[id] + Proposers(more)[id]
    ensures Untouched(q, more, id) ==>
              Proposers(Extend(q, more))[id] == Proposers(q)[id] + Proposers(more)[id]
    decreases |more|
  {
    hide WithoutKey;
    if more != [] {
      UpsertProposers(q, more[0], id);
      ExtendProposers(Upsert(q, more[0]), more[1..], id);
      if Untouched(q, more, id) {
        UpsertMembers(q, more[0]);
        assert Untouched(Upsert(q, more[0]), more[1..], id);
      }
    }
  }

  lemma UpsertMembers(q: seq<Entry>, e: Entry)
    ensures forall x <- Upsert(q, e) :: x == e || (x in q && x.key != e.key)
    ensures e in Upsert(q, e)
    ensures forall x <- q :: x.key != e.key ==> x in Upsert(q, e)
  {
  }

  lemma {:induction false} ExtendFresh(q: seq<Entry>, more: seq<Entry>)
    requires DistinctKeys(more) && forall e <- more :: !HasKey(q, e.key)
    ensures Extend(q, more) == q + more
    decreases |more|
  {
    if more != [] {
      UpsertFresh(q, more[0]);
      forall e | e in more[1..] ensures !HasKey(q + [more[0]], e.key) {
        assert e in more && !HasKey(q, e.key);
      }
      ExtendFresh(q + [more[0]], more[1..]);
      assert more == [more[0]] + more[1..];
      AppendAssoc(q, [more[0]], more[1..]);
    } else {
      assert q + more == q;
    }
  }

  /** A shared key loses an entry. */
  lemma {:induction false} ExtendSize(q: seq<Entry>, more: seq<Entry>)
    requires DistinctKeys(more)
    ensures |Extend(q, more)| <= |q| + |more|
    ensures (exists e :: e in more && HasKey(q, e.key)) ==> |Extend(q, more)| < |q| + |more|
    decreases |more|
  {
    if more != [] {
      ExtendSize(Upsert(q, more[0]), more[1..]);
      if !HasKey(q, more[0].key) {
        UpsertFresh(q, more[0]);
        forall e | e in more && HasKey(q, e.key) ensures e in more[1..] && HasKey(q + [more[0]], e.key) {
          var x :| x in q && x.key == e.key;
          assert x in q + [more[0]];
        }
      }
    }
  }

  lemma {:induction false} ExtendHas(q: seq<Entry>, more: seq<Entry>, e: Entry)
    requires DistinctKeys(more)
    requires e in more || (e in q && !HasKey(more, e.key))
    ensures e in Extend(q, more)
    decreases |more|
  {
    if more != [] {
      UpsertMembers(q, more[0]);
      if e == more[0] {
        assert !HasKey(more[1..], e.key);
      } else if e in q && !HasKey(more, e.key) {
        assert more[0] in more && !HasKey(more[1..], e.key);
      }
      ExtendHas(Upsert(q, more[0]), more[1..], e);
    }
  }

  // ----- When a walk connects, and what it then collects -----

  /** `a` is `d` or lies on the parent chain of `d`. */
  predicate UpTo(a: ElementHash, d: ElementHash) {
    || a == d
    || match d
       case RawDigest(_) => false
       case Digest(e) => UpTo(a, e.parent)
  }

  /** `k` lies on the parent chain from `d` down to, and not including, `base`. */
  predicate Between(base: ElementHash, k: ElementHash, d: ElementHash) {
    k != base && UpTo(base, k) && UpTo(k, d)
  }

  /** A walk can pass `k`: it is not the last commit, can be read, and lies above
      the last commit. */
  predicate Passable(st: State, stored: set<Element>, k: ElementHash) {
    k != st.committedHash && k.Digest? && k.element in stored && k.element.round > st.committed.round
  }

  /** The head lies above the last commit and, through passable elements only, on
      top of the queue's back. */
  ghost predicate Connects(st: State, stored: set<Element>, head: Element) {
    && head.round > st.committed.round && st.queue != []
    && Reaches(st, stored, Digest(head))
  }

  ghost predicate Reaches(st: State, stored: set<Element>, d: ElementHash)
    requires st.queue != []
  {
    var back := st.queue[|st.queue| - 1].key;
    UpTo(back, d) && forall k | Between(back, k, d) :: Passable(st, stored, k)
  }

  lemma {:induction false} UpToDepth(a: ElementHash, d: ElementHash)
    requires UpTo(a, d)
    ensures DepthOf(a) <= DepthOf(d) && (DepthOf(a) == DepthOf(d) ==> a == d)
  {
    if a != d {
      UpToDepth(a, d.element.parent);
    }
  }

  /** Taking one step down the path. */
  lemma BetweenStep(base: ElementHash, k: ElementHash, d: ElementHash)
    requires d != base
    ensures Between(base, k, d) <==>
              (k == d && UpTo(base, d)) || (d.Digest? && Between(base, k, d.element.parent))
  {
  }

  lemma BetweenSelf(base: ElementHash, k: ElementHash)
    ensures !Between(base, k, base)
  {
    if Between(base, k, base) {
      UpToDepth(base, k);
      UpToDepth(k, base);
    }
  }

  lemma ReachesStep(st: State, stored: set<Element>, d: ElementHash)
    requires st.queue != [] && d != st.queue[|st.queue| - 1].key
    ensures Reaches(st, stored, d) <==>
              Passable(st, stored, d) && Reaches(st, stored, d.element.parent)
  {
    hide Passable;
    var back := st.queue[|st.queue| - 1].key;
    forall k ensures Between(back, k, d) <==>
              (k == d && UpTo(back, d)) || (d.Digest? && Between(back, k, d.element.parent)) {
      BetweenStep(back, k, d);
    }
    if Reaches(st, stored, d) {
      assert Between(back, d, d);
    }
    if Passable(st, stored, d) {
      assert d.Digest? by { PassableDigest(st, stored, d); }
    }
  }

  lemma PassableDigest(st: State, stored: set<Element>, k: ElementHash)
    requires Passable(st, stored, k)
    ensures k.Digest?
  {
  }

  lemma ReachesBack(st: State, stored: set<Element>)
    requires st.queue != []
    ensures Reaches(st, stored, st.queue[|st.queue| - 1].key)
  {
    var back := st.queue[|st.queue| - 1].key;
    forall k ensures !Between(back, k, back) {
      BetweenSelf(back, k);
    }
  }

  /** The walk connects exactly when the path says so, and then collects exactly
      the keys on the path. */
  lemma {:induction false} WalkConnects(st: State, stored: set<Element>, head: Element, hash: ElementHash,
                                        q: seq<Entry>, p: map<Id, nat>)
    requires DistinctKeys(q) && DeeperThan(q, hash)
    ensures var w := Walk(st, stored, head, hash, q, p);
            && (w.connected <==> head.round > st.committed.round && st.queue != [] && Reaches(st, stored, hash))
            && (w.connected ==> forall k ::
                  HasKey(w.queue, k) <==> HasKey(q, k) || Between(st.queue[|st.queue| - 1].key, k, hash))
    decreases hash
  {
    hide DistinctKeys, HasKey, Reaches, Passable, Between, WithoutKey, Bump;
    if head.round > st.committed.round {
      if AtBack(st.queue, hash) {
        ReachesBack(st, stored);
        forall k ensures !Between(hash, k, hash) {
          BetweenSelf(hash, k);
        }
      } else {
        if st.queue != [] {
          ReachesStep(st, stored, hash);
        }
        if hash == st.committedHash || hash.RawDigest? || hash.element !in stored {
          NotPassable(st, stored, hash);
        } else {
          WalkConnectsStep(st, stored, head, hash, q, p);
        }
      }
    }
  }

  lemma NotPassable(st: State, stored: set<Element>, k: ElementHash)
    requires k == st.committedHash || k.RawDigest? || k.element !in stored
    ensures !Passable(st, stored, k)
  {
  }

  lemma WalkConnectsStep(st: State, stored: set<Element>, head: Element, hash: ElementHash,
                         q: seq<Entry>, p: map<Id, nat>)
    requires DistinctKeys(q) && DeeperThan(q, hash)
    requires TakesStep(st, head, hash) && hash.Digest? && hash.element in stored
    ensures var w := Walk(st, stored, head, hash, q, p);
            && (w.connected <==> st.queue != [] && Reaches(st, stored, hash))
            && (w.connected ==> forall k ::
                  HasKey(w.queue, k) <==> HasKey(q, k) || Between(st.queue[|st.queue| - 1].key, k, hash))
    decreases hash, 0
  {
    hide DistinctKeys, HasKey, Reaches, Between, WithoutKey, Bump;
    var e := Entry(hash, head);
    FreshHasNot(q, hash);
    UpsertFresh(q, e);
    var parent := hash.element.parent;
    assert DeeperThan(q + [e], parent);
    WalkConnects(st, stored, hash.element, parent, q + [e], Bump(p, head.proposer, 1));
    if st.queue != [] {
      var back := st.queue[|st.queue| - 1].key;
      ReachesStep(st, stored, hash);
      if Reaches(st, stored, hash) {
        ReachesUpTo(st, stored, hash);
        forall k ensures HasKey(q + [e], k) || Between(back, k, parent) <==> HasKey(q, k) || Between(back, k, hash) {
          BetweenStep(back, k, hash);
          HasKeySnoc(q, e, k);
        }
      }
    }
  }

  lemma ReachesUpTo(st: State, stored: set<Element>, d: ElementHash)
    requires st.queue != [] && Reaches(st, stored, d)
    ensures UpTo(st.queue[|st.queue| - 1].key, d)
  {
  }

  lemma FreshHasNot(q: seq<Entry>, hash: ElementHash)
    requires DeeperThan(q, hash)
    ensures !HasKey(q, hash)
  {
  }

  lemma HasKeySnoc(q: seq<Entry>, e: Entry, k: ElementHash)
    ensures HasKey(q + [e], k) <==> HasKey(q, k) || k == e.key
  {
    assert (q + [e])[|q|] == e;
    if HasKey(q, k) {
      var x :| x in q && x.key == k;
      assert x in q + [e];
    }
  }

  // ----- Counts stay exact if and only if no queued key is met -----

  /** Some queued key lies on the path from the head down to the queue's back. */
  ghost predicate MeetsQueued(st: State, stored: set<Element>, head: Element) {
    && Connects(st, stored, head)
    && exists e <- st.queue :: Between(st.queue[|st.queue| - 1].key, e.key, Digest(head))
  }

  lemma MeetsIffShared(st: State, stored: set<Element>, head: Element)
    ensures var w := Walk(st, stored, head, Digest(head), [], map[]);
            && (w.connected <==> Connects(st, stored, head))
            && (MeetsQueued(st, stored, head) <==> w.connected && exists e <- w.queue :: HasKey(st.queue, e.key))
  {
    hide Walk, Reaches, Between;
    var w := Walk(st, stored, head, Digest(head), [], map[]);
    WalkConnects(st, stored, head, Digest(head), [], map[]);
    if w.connected {
      var back := st.queue[|st.queue| - 1].key;
      if e: Entry :| e in w.queue && HasKey(st.queue, e.key) {
        var x :| x in st.queue && x.key == e.key;
        assert HasKey(w.queue, x.key);
        assert Between(back, x.key, Digest(head)) by { NoKeys(x.key); }
      }
      if MeetsQueued(st, stored, head) {
        var x :| x in st.queue && Between(back, x.key, Digest(head));
        assert HasKey(w.queue, x.key);
        var e :| e in w.queue && e.key == x.key;
        assert HasKey(st.queue, e.key);
      }
    }
  }

  lemma NoKeys(k: ElementHash)
    ensures !HasKey([], k)
  {
  }

  lemma ExactTotal(p: map<Id, nat>, x: seq<Entry>, q: multiset<Id>)
    requires Exact(p, x) && forall id :: Lookup(p, id, 0) == q[id]
    ensures |x| == |q|
  {
    forall id ensures Proposers(x)[id] == q[id] {
      assert Lookup(p, id, 0) == Proposers(x)[id];
    }
    assert Proposers(x) == q;
  }

  /** After the merge the counts are those of the queue if and only if no queued
      key lies on the path from the head down to the queue's back. */
  lemma CountsExactIff(st: State, stored: set<Element>, head: Element)
    requires Exact(st.proposers, st.queue)
    ensures var m := Merged(st, stored, head);
            Exact(m.proposers, m.queue) <==> !MeetsQueued(st, stored, head)
  {
    hide Exact, Walk, Merge, Lookup, Proposers, MeetsQueued, Connects;
    var w := Walk(st, stored, head, Digest(head), [], map[]);
    var m := Merged(st, stored, head);
    WalkFromHead(st, stored, head);
    MeetsIffShared(st, stored, head);
    if w.connected {
      MergeExact(st.proposers, st.queue, w.proposers, w.queue);
      if MeetsQueued(st, stored, head) {
        ExtendSize(st.queue, w.queue);
        if Exact(m.proposers, m.queue) {
          ExactLookups(m.proposers, st.queue + w.queue);
          ExactTotal(m.proposers, m.queue, Proposers(st.queue + w.queue));
        }
      } else {
        ExtendFresh(st.queue, w.queue);
      }
    }
  }

  /** Along a chain every key lies on the parent chain of the last one. */
  lemma {:induction false} ChainUpToBack(q: seq<Entry>, i: nat)
    requires GenesisChain(q) && i < |q|
    ensures UpTo(q[i].key, q[|q| - 1].key)
    decreases |q| - i
  {
    hide GenesisChain;
    if i < |q| - 1 {
      ChainUpToBack(q, i + 1);
      GenesisChainRises(q, i, i + 1);
      UpToTransitive(q[i].key, q[i + 1].key, q[|q| - 1].key);
    }
  }

  lemma {:induction false} UpToTransitive(a: ElementHash, b: ElementHash, c: ElementHash)
    requires UpTo(a, b) && UpTo(b, c)
    ensures UpTo(a, c)
  {
    if b != c {
      UpToTransitive(a, b, c.element.parent);
    }
  }

  /** In a sound state everything queued lies below the queue's back. */
  lemma QueuedBelowBack(st: State, i: nat, d: ElementHash)
    requires Sound(st) && i < |st.queue|
    ensures !Between(st.queue[|st.queue| - 1].key, st.queue[i].key, d)
  {
    hide GenesisChain, UpTo, Exact;
    var all := st.log + st.queue;
    var k := st.queue[i].key;
    var back := st.queue[|st.queue| - 1].key;
    ChainUpToBack(all, |st.log| + i);
    assert all[|st.log| + i].key == k && all[|all| - 1].key == back;
    UpToDepth(k, back);
    if UpTo(back, k) {
      UpToDepth(back, k);
    }
  }

  /** From a sound state the counts stay exact whatever head comes. */
  lemma SoundKeepsCounts(st: State, stored: set<Element>, head: Element)
    requires Sound(st)
    ensures Exact(Merged(st, stored, head).proposers, Merged(st, stored, head).queue)
  {
    hide Exact, GenesisChain, Between, Connects, Merged;
    CountsExactIff(st, stored, head);
    forall e | e in st.queue ensures !Between(st.queue[|st.queue| - 1].key, e.key, Digest(head)) {
      var i :| 0 <= i < |st.queue| && st.queue[i] == e;
      QueuedBelowBack(st, i, Digest(head));
    }
  }

  lemma ExactLookups(p: map<Id, nat>, q: seq<Entry>)
    requires Exact(p, q)
    ensures forall id :: Lookup(p, id, 0) == Proposers(q)[id]
  {
  }

  // ----- Keys stay right if and only if at most one element is new -----

  /** The walk ends before its second step, or that step finds nothing to read. */
  predicate OneStep(st: State, stored: set<Element>, head: Element) {
    || head.round <= st.committed.round
    || AtBack(st.queue, Digest(head))
    || head !in stored
    || AtBack(st.queue, head.parent)
    || head.parent == st.committedHash
  }

  lemma {:induction false} PopAllKeepsEntries(st: State, len: nat)
    ensures PopAll(st, len).log + PopAll(st, len).queue == st.log + st.queue
    decreases |st.queue|
  {
    if |st.proposers| >= len && CanPop(st) {
      PopAllKeepsEntries(Pop(st), len);
      AppendAssoc(st.log, [st.queue[0]], st.queue[1..]);
      assert [st.queue[0]] + st.queue[1..] == st.queue;
    }
  }

  /** Longer walks insert the head a second time under its parent's key. */
  lemma LongWalk(st: State, stored: set<Element>, head: Element)
    requires st.committedHash == Digest(st.committed) && !OneStep(st, stored, head)
    ensures Entry(head.parent, head) in Walk(st, stored, head, Digest(head), [], map[]).queue
  {
    hide Exact;
    var e1, p1 := Entry(Digest(head), head), Bump(map[], head.proposer, 1);
    EmptyExact();
    BumpExact(map[], [], e1);
    UpsertFresh([], e1);
    assert [] + [e1] == [e1];
    assert Walk(st, stored, head, Digest(head), [], map[]) == Walk(st, stored, head, head.parent, [e1], p1);
    WalkCollects(st, stored, head, head.parent, [e1], p1);
  }

  lemma ShortWalk(st: State, stored: set<Element>, head: Element)
    requires st.committedHash == Digest(st.committed) && OneStep(st, stored, head)
    ensures var w := Walk(st, stored, head, Digest(head), [], map[]);
            w.queue == [] || w.queue == [Entry(Digest(head), head)]
  {
    if head.round > st.committed.round && !AtBack(st.queue, Digest(head)) {
      assert Upsert([], Entry(Digest(head), head)) == [Entry(Digest(head), head)];
      if head in stored {
        assert Walk(st, stored, head, Digest(head), [], map[])
            == Walk(st, stored, head, head.parent, [Entry(Digest(head), head)], Bump(map[], head.proposer, 1));
      }
    }
  }

  lemma ExtendKeyed(q: seq<Entry>, more: seq<Entry>)
    requires Keyed(q) && Keyed(more) && |more| <= 1
    ensures Keyed(Extend(q, more))
  {
    if more != [] {
      UpsertMembers(q, more[0]);
      assert Extend(q, more) == Extend(Upsert(q, more[0]), []);
    }
  }

  /** After an end of round every queued and committed element sits under its own
      hash if and only if the head was within one step of a place to stop. */
  lemma KeysRightIff(st: State, stored: set<Element>, head: Element, len: nat)
    requires st.committedHash == Digest(st.committed) && Keyed(st.log + st.queue)
    requires !st.panicked && head.round > 0
    ensures var r := EndRound(st, stored, head, len);
            Keyed(r.log + r.queue) <==> OneStep(st, stored, head)
  {
    hide Walk, OneStep, PopAll, Extend;
    var w := Walk(st, stored, head, Digest(head), [], map[]);
    var m := Absorb(st, w);
    PopAllKeepsEntries(m, len);
    if OneStep(st, stored, head) {
      ShortWalk(st, stored, head);
      KeyedParts(st.log, st.queue);
      ExtendKeyed(st.queue, w.queue);
      KeyedParts(m.log, m.queue);
    } else {
      var e := Entry(head.parent, head);
      LongWalk(st, stored, head);
      if w.connected {
        WalkFromHead(st, stored, head);
        ExtendHas(st.queue, w.queue, e);
      }
      assert e in m.log + m.queue && e.key != Digest(e.element) by { ParentDiffers(head); }
    }
  }

  lemma ParentDiffers(e: Element)
    ensures e.parent != Digest(e)
  {
  }

  lemma KeyedParts(x: seq<Entry>, y: seq<Entry>)
    ensures Keyed(x + y) <==> Keyed(x) && Keyed(y)
  {
    if Keyed(x + y) {
      forall e | e in x || e in y ensures e.key == Digest(e.element) {
        assert e in x + y;
      }
    }
  }

  // ----- Log and queue stay one chain if and only if at most one element is new -----

  lemma {:induction false} WithoutKeyBack(q: seq<Entry>, k: ElementHash)
    requires q != [] && q[|q| - 1].key != k
    ensures var r := WithoutKey(q, k); r != [] && r[|r| - 1] == q[|q| - 1]
  {
    if |q| == 1 {
      assert q[1..] == [] && WithoutKey([], k) == [];
    } else {
      var rest := WithoutKey(q[1..], k);
      WithoutKeyBack(q[1..], k);
      assert ([q[0]] + rest)[|rest|] == rest[|rest| - 1];
    }
  }

  lemma ChainIsKeyed(q: seq<Entry>, e: Entry)
    requires GenesisChain(q) && e in q
    ensures e.key == Digest(e.element)
  {
    var i :| 0 <= i < |q| && q[i] == e;
    KeyedAt(q, i);
  }

  lemma LongWalkBreaks(st: State, stored: set<Element>, head: Element)
    requires st.committedHash == Digest(st.committed) && !OneStep(st, stored, head)
    ensures var m := Merged(st, stored, head); !GenesisChain(m.log + m.queue)
  {
    hide GenesisChain, Walk, OneStep, Extend;
    var m := Merged(st, stored, head);
    var w := Walk(st, stored, head, Digest(head), [], map[]);
    var e := Entry(head.parent, head);
    LongWalk(st, stored, head);
    if w.connected {
      WalkFromHead(st, stored, head);
      ExtendHas(st.queue, w.queue, e);
    }
    assert e in m.log + m.queue;
    ParentDiffers(head);
    if GenesisChain(m.log + m.queue) {
      ChainIsKeyed(m.log + m.queue, e);
    }
  }

  /** An element that cannot be read replaces the queue by itself alone. */
  lemma UnreadableBreaks(st: State, stored: set<Element>, head: Element)
    requires Sound(st) && head.round > st.committed.round && head !in stored
    requires !AtBack(st.queue, Digest(head)) && head.parent != st.committedHash
    ensures var m := Merged(st, stored, head); !GenesisChain(m.log + m.queue)
  {
    hide Exact, Walk;
    var e := Entry(Digest(head), head);
    WalkFromChild(st, stored, head);
    assert Merged(st, stored, head).queue == [e] && [e][1..] == [];
    GenesisChainAppend(st.log, [e]);
  }

  /** A child of the back whose round does not rise. */
  lemma SinkingBreaks(st: State, stored: set<Element>, head: Element)
    requires Sound(st) && head.round > st.committed.round && head in stored
    requires !AtBack(st.queue, Digest(head)) && AtBack(st.queue, head.parent)
    requires head.round <= st.queue[|st.queue| - 1].element.round
    ensures var m := Merged(st, stored, head); !GenesisChain(m.log + m.queue)
  {
    hide Exact, Walk, GenesisChain, Merge;
    var e := Entry(Digest(head), head);
    var m := Merged(st, stored, head);
    WalkFromChild(st, stored, head);
    assert [e][1..] == [];
    assert m.queue == Extend(Upsert(st.queue, e), []) == WithoutKey(st.queue, e.key) + [e];
    WithoutKeyBack(st.queue, e.key);
    var all := m.log + m.queue;
    assert all[|all| - 2] == st.queue[|st.queue| - 1] && all[|all| - 1] == e;
    if GenesisChain(all) {
      GenesisChainRises(all, |all| - 2, |all| - 1);
    }
  }

  lemma MoreThanOneBreaks(st: State, stored: set<Element>, head: Element)
    requires Sound(st) && !OneNewElement(st, stored, head)
    ensures var m := Merged(st, stored, head); !GenesisChain(m.log + m.queue)
  {
    hide GenesisChain, Exact, Walk;
    assert st.committedHash == Digest(st.committed) by { NotPanicked(st); }
    if head !in stored {
      UnreadableBreaks(st, stored, head);
    } else if AtBack(st.queue, head.parent) {
      SinkingBreaks(st, stored, head);
    } else {
      LongWalkBreaks(st, stored, head);
    }
  }

  /** From a sound state, one end of round leaves a sound one, before and after
      the commit loop, if and only if it brought at most one new element. */
  lemma SoundIff(st: State, stored: set<Element>, head: Element, len: nat)
    requires Sound(st) && head.round > 0 && len > 0
    ensures Sound(Merged(st, stored, head)) <==> OneNewElement(st, stored, head)
    ensures Sound(EndRound(st, stored, head, len)) <==> OneNewElement(st, stored, head)
  {
    hide OneNewElement, Walk, Absorb, PopAll, GenesisChain, Exact;
    if OneNewElement(st, stored, head) {
      AbsorbSound(st, stored, head);
      EndRoundSound(st, stored, head, len);
    } else {
      MoreThanOneBreaks(st, stored, head);
      PopAllKeepsEntries(Merged(st, stored, head), len);
    }
  }

  /** Over a whole run: log and queue are one chain with exact counts after every
      round if and only if every round brought at most one new element. */
  lemma {:induction false} RunSoundIff(inputs: seq<Input>, len: nat)
    requires len > 0
    ensures (forall k | 0 <= k <= |inputs| :: Sound(RunAll(inputs[..k], len))) <==> OneNewEach(inputs, len)
  {
    hide OneNewElement, EndRound, Sound;
    if inputs == [] {
      assert inputs[..0] == [];
      InitialSound();
    } else {
      var n := |inputs| - 1;
      var front := inputs[..n];
      var st := RunAll(front, len);
      RunSoundIff(front, len);
      assert forall k | 0 <= k <= n :: front[..k] == inputs[..k];
      assert inputs[..|inputs|] == inputs && front[..n] == front;
      if Sound(st) {
        StepSoundIff(st, inputs[n], len);
      }
    }
  }

  lemma StepSoundIff(st: State, input: Input, len: nat)
    requires Sound(st) && len > 0
    ensures Sound(EndRound(st, input.stored, input.head, len)) <==> OneNewElement(st, input.stored, input.head)
  {
    hide Sound, Walk, Absorb, PopAll;
    if input.head.round > 0 {
      SoundIff(st, input.stored, input.head, len);
    }
  }

  // ----- No input makes the commit loop panic -----

  /** No proposer is counted less often than it is queued. */
  ghost predicate Covers(proposers: map<Id, nat>, q: seq<Entry>) {
    && (forall id :: Proposers(q)[id] <= Lookup(proposers, id, 0))
    && (forall id <- proposers :: proposers[id] > 0)
  }

  /** Proposers counted more often than they are queued. */
  function Phantoms(proposers: map<Id, nat>, q: seq<Entry>): set<Id> {
    set id | id in proposers && proposers[id] > Proposers(q)[id]
  }

  lemma ExactHasNoPhantoms(p: map<Id, nat>, q: seq<Entry>)
    requires Exact(p, q)
    ensures Covers(p, q) && Phantoms(p, q) == {}
  {
    forall id ensures Proposers(q)[id] == Lookup(p, id, 0) {
    }
  }

  lemma PopKeepsPhantoms(st: State)
    requires Covers(st.proposers, st.queue) && st.queue != []
    ensures CanPop(st)
    ensures Covers(Pop(st).proposers, Pop(st).queue)
    ensures Phantoms(Pop(st).proposers, Pop(st).queue) == Phantoms(st.proposers, st.queue)
  {
    var id := st.queue[0].element.proposer;
    assert Proposers(st.queue)[id] <= Lookup(st.proposers, id, 0);
    var r := Pop(st);
    forall x ensures Proposers(r.queue)[x] <= Lookup(r.proposers, x, 0)
                  && (x in Phantoms(r.proposers, r.queue) <==> x in Phantoms(st.proposers, st.queue)) {
      assert Proposers(st.queue)[x] <= Lookup(st.proposers, x, 0);
      assert Proposers(st.queue)[x] == Proposers(r.queue)[x] + (if x == id then 1 else 0);
    }
  }

  lemma EmptyQueuePhantoms(p: map<Id, nat>)
    requires Covers(p, [])
    ensures Phantoms(p, []) == p.Keys
  {
  }

  lemma {:induction false} PopAllTotal(st: State, len: nat)
    requires Covers(st.proposers, st.queue) && |Phantoms(st.proposers, st.queue)| < len
    ensures var r := PopAll(st, len);
            r.panicked == st.panicked && |r.proposers| < len && Covers(r.proposers, r.queue)
    decreases |st.queue|
  {
    hide Covers, Phantoms, CanPop;
    if |st.proposers| >= len {
      if st.queue == [] {
        EmptyQueuePhantoms(st.proposers);
        assert false;
      } else {
        PopKeepsPhantoms(st);
        PopTail(st);
        PopAllTotal(Pop(st), len);
      }
    }
  }

  /** A merge can only lose entries that were queued before, so every phantom it
      makes is a proposer that was counted before. */
  lemma MergePhantoms(p: map<Id, nat>, q: seq<Entry>, more: map<Id, nat>, local: seq<Entry>)
    requires Covers(p, q) && Exact(more, local) && DistinctKeys(local)
    ensures Covers(Merge(p, more), Extend(q, local))
    ensures Phantoms(Merge(p, more), Extend(q, local)) <= p.Keys
  {
    hide Proposers, Merge, Extend;
    var m, x := Merge(p, more), Extend(q, local);
    assert forall id <- m :: m[id] > 0 by { MergePositive(p, more); }
    forall id ensures Proposers(x)[id] <= Lookup(m, id, 0)
                   && (id in Phantoms(m, x) ==> id in p) {
      MergeLookup(p, more, id);
      ExtendProposers(q, local, id);
      assert Proposers(q)[id] <= Lookup(p, id, 0) && Lookup(more, id, 0) == Proposers(local)[id];
      if id !in p {
        ProposersMembers(q);
      }
    }
  }

  /** The state between two ends of round. */
  ghost predicate Settled(st: State, len: nat) {
    && !st.panicked && Covers(st.proposers, st.queue)
    && (|st.proposers| < len || (st.queue == [GENESIS_ENTRY] && Exact(st.proposers, st.queue)))
  }

  lemma SmallerSet<T>(x: set<T>, y: set<T>)
    requires x <= y
    ensures |x| <= |y|
    decreases y
  {
    if y != {} && x != {} {
      var e :| e in x;
      SmallerSet(x - {e}, y - {e});
    }
  }

  lemma OnlyGenesisQueued(st: State, stored: set<Element>, head: Element)
    requires st.queue == [GENESIS_ENTRY]
    ensures !MeetsQueued(st, stored, head)
  {
  }

  lemma MergedTotal(st: State, stored: set<Element>, head: Element, len: nat)
    requires Settled(st, len) && len > 0
    ensures var m := Merged(st, stored, head);
            && m.panicked == st.panicked && Covers(m.proposers, m.queue)
            && |Phantoms(m.proposers, m.queue)| < len
  {
    hide Covers, Exact, Walk, Phantoms, Extend, Merge, DistinctKeys;
    var w := Walk(st, stored, head, Digest(head), [], map[]);
    var m := Merged(st, stored, head);
    WalkFromHead(st, stored, head);
    if !w.connected {
      ExactHasNoPhantoms(m.proposers, m.queue);
    } else if |st.proposers| < len {
      MergePhantoms(st.proposers, st.queue, w.proposers, w.queue);
      SmallerSet(Phantoms(m.proposers, m.queue), st.proposers.Keys);
      assert |st.proposers.Keys| == |st.proposers|;
    } else {
      OnlyGenesisQueued(st, stored, head);
      CountsExactIff(st, stored, head);
      ExactHasNoPhantoms(m.proposers, m.queue);
    }
  }

  /** Over any run, whatever heads are handed in and whatever is stored, neither
      the two unwraps nor the count assertion of the commit loop can fail, and
      every round ends with fewer than `len` proposers counted. */
  lemma {:induction false} NeverPanics(inputs: seq<Input>, len: nat)
    requires len > 0
    ensures Settled(RunAll(inputs, len), len) && !RunAll(inputs, len).panicked
  {
    hide Covers, Walk, Exact;
    if inputs == [] {
      InitialSound();
      assert Exact(INITIAL.proposers, INITIAL.queue) by { NotPanicked(INITIAL); }
      ExactHasNoPhantoms(INITIAL.proposers, INITIAL.queue);
    } else {
      var n := |inputs| - 1;
      var st := RunAll(inputs[..n], len);
      NeverPanics(inputs[..n], len);
      if inputs[n].head.round > 0 {
        MergedTotal(st, inputs[n].stored, inputs[n].head, len);
        PopAllTotal(Merged(st, inputs[n].stored, inputs[n].head), len);
      }
    }
  }

  // ----- A run with two new elements in its first round -----

  const X1: Element := Element(1, 1, [], 0, Digest(GENESIS))
  const X2: Element := Element(2, 2, [], 0, Digest(X1))
  const X3: Element := Element(3, 3, [], 0, Digest(X2))
  const X4: Element := Element(4, 1, [], 0, Digest(X3))

  const ALL: set<Element> := {X1, X2, X3, X4}

  lemma TwoStepWalk(st: State, stored: set<Element>, head: Element)
    requires head in stored && head.parent.Digest? && head.parent.element in stored
    requires TakesStep(st, head, Digest(head)) && TakesStep(st, head, head.parent)
    requires head.parent.element.round > st.committed.round
    requires AtBack(st.queue, head.parent.element.parent)
    ensures Walk(st, stored, head, Digest(head), [], map[])
         == WalkResult(true, [Entry(Digest(head), head), Entry(head.parent, head)], map[head.proposer := 2])
  {
    var e1, e2 := Entry(Digest(head), head), Entry(head.parent, head);
    var p1 := Bump(map[], head.proposer, 1);
    assert Upsert([], e1) == [e1] && Upsert([e1], e2) == [e1, e2];
    assert Bump(p1, head.proposer, 1) == map[head.proposer := 2];
    assert Walk(st, stored, head, head.parent, [e1], p1)
        == Walk(st, stored, head.parent.element, head.parent.element.parent, [e1, e2], map[head.proposer := 2]);
    assert Walk(st, stored, head, Digest(head), [], map[]) == Walk(st, stored, head, head.parent, [e1], p1);
  }

  lemma ExtendByTwo(q: seq<Entry>, a: Entry, b: Entry)
    ensures Extend(q, [a, b]) == Upsert(Upsert(q, a), b)
  {
    assert [a, b][1..] == [b];
    assert Extend(Upsert(q, a), [b]) == Extend(Upsert(Upsert(q, a), b), []);
  }

  function After(queue: seq<Entry>, proposers: map<Id, nat>): State {
    INITIAL.(queue := queue, proposers := proposers)
  }

  const E21: Entry := Entry(Digest(X1), X2)
  const E22: Entry := Entry(Digest(X2), X2)
  const E32: Entry := Entry(Digest(X2), X3)
  const E33: Entry := Entry(Digest(X3), X3)
  const E44: Entry := Entry(Digest(X4), X4)
  const E43: Entry := Entry(Digest(X3), X4)

  /** A round whose walk takes two steps, up to the commit loop. */
  lemma TwoStepRound(st: State, head: Element, q: seq<Entry>, p: map<Id, nat>)
    requires !st.panicked && head in ALL && head.parent.Digest? && head.parent.element in ALL
    requires TakesStep(st, head, Digest(head)) && TakesStep(st, head, head.parent)
    requires head.parent.element.round > st.committed.round
    requires AtBack(st.queue, head.parent.element.parent)
    requires q == Upsert(Upsert(st.queue, Entry(Digest(head), head)), Entry(head.parent, head))
    requires p == Merge(st.proposers, map[head.proposer := 2])
    ensures EndRound(st, ALL, head, 3) == PopAll(st.(queue := q, proposers := p), 3)
  {
    hide Walk, PopAll, Upsert, Extend, Merge;
    TwoStepWalk(st, ALL, head);
    ExtendByTwo(st.queue, Entry(Digest(head), head), Entry(head.parent, head));
  }

  lemma UpsertTwo(g: Entry, a: Entry, b: Entry)
    requires a.key != g.key && b.key != g.key && b.key != a.key
    ensures Upsert(Upsert([g], a), b) == [g, a, b]
  {
    UpsertFresh([g], a);
    UpsertFresh([g, a], b);
  }

  /** Nothing commits. */
  lemma FirstRound()
    ensures EndRound(INITIAL, ALL, X2, 3) == After([GENESIS_ENTRY, E22, E21], map[0 := 1, 2 := 2])
  {
    hide EndRound, Upsert, PopAll, Merge;
    var q, p := [GENESIS_ENTRY, E22, E21], map[0 := 1, 2 := 2];
    UpsertTwo(GENESIS_ENTRY, E22, E21);
    FirstMerge();
    TwoStepRound(INITIAL, X2, q, p);
    NothingToPop(After(q, p));
  }

  lemma FirstMerge()
    ensures Merge(map[0 := 1], map[2 := 2]) == map[0 := 1, 2 := 2]
  {
  }

  lemma NothingToPop(st: State)
    requires |st.proposers| < 3
    ensures PopAll(st, 3) == st
  {
  }

  const AFTER_SECOND: State :=
    After([E21, E33, E32], map[2 := 2, 3 := 2])
    .(log := [GENESIS_ENTRY], sent := [Committed([], 0)])

  lemma UpsertFourth(g: Entry, a: Entry, b: Entry, c: Entry)
    requires c.key != g.key && c.key != a.key && c.key != b.key
    ensures Upsert([g, a, b], c) == [g, a, b, c]
  {
    UpsertFresh([g, a, b], c);
  }

  lemma WithoutSecond(g: Entry, a: Entry, b: Entry, c: Entry)
    requires a.key != g.key && a.key != b.key && a.key != c.key
    ensures WithoutKey([g, a, b, c], a.key) == [g, b, c]
  {
    assert [g, a, b, c][1..] == [a, b, c] && [a, b, c][1..] == [b, c];
    assert WithoutKey([b, c], a.key) == [b, c];
    assert WithoutKey([a, b, c], a.key) == [b, c];
  }

  /** Appending `c` and then an entry with the key of `a`. */
  lemma ReplaceSecond(g: Entry, a: Entry, b: Entry, c: Entry, d: Entry)
    requires c.key != g.key && c.key != a.key && c.key != b.key
    requires a.key != g.key && a.key != b.key && d.key == a.key
    ensures Upsert(Upsert([g, a, b], c), d) == [g, b, c, d]
  {
    hide WithoutKey;
    UpsertFourth(g, a, b, c);
    WithoutSecond(g, a, b, c);
  }

  lemma SecondPop()
    ensures PopAll(After([GENESIS_ENTRY, E21, E33, E32], map[0 := 1, 2 := 2, 3 := 2]), 3) == AFTER_SECOND
  {
    var m := After([GENESIS_ENTRY, E21, E33, E32], map[0 := 1, 2 := 2, 3 := 2]);
    assert Pop(m) == AFTER_SECOND;
    assert PopAll(m, 3) == PopAll(AFTER_SECOND, 3) == AFTER_SECOND;
  }

  /** Genesis commits, and `X2` loses one of its two places. */
  lemma SecondRound()
    ensures EndRound(After([GENESIS_ENTRY, E22, E21], map[0 := 1, 2 := 2]), ALL, X3, 3) == AFTER_SECOND
  {
    hide EndRound, PopAll, Upsert;
    ReplaceSecond(GENESIS_ENTRY, E22, E21, E33, E32);
    assert Merge(map[0 := 1, 2 := 2], map[3 := 2]) == map[0 := 1, 2 := 2, 3 := 2];
    TwoStepRound(After([GENESIS_ENTRY, E22, E21], map[0 := 1, 2 := 2]), X3,
                 [GENESIS_ENTRY, E21, E33, E32], map[0 := 1, 2 := 2, 3 := 2]);
    SecondPop();
  }

  /** Everything in the queue commits. */
  lemma ThirdRound()
    ensures EndRound(AFTER_SECOND, ALL, X4, 3).log == [GENESIS_ENTRY, E21, E32, E44, E43]
  {
    hide EndRound, PopAll, Upsert;
    var p := map[2 := 2, 3 := 2, 1 := 2];
    ReplaceSecond(E21, E33, E32, E44, E43);
    assert Merge(map[2 := 2, 3 := 2], map[1 := 2]) == p;
    TwoStepRound(AFTER_SECOND, X4, [E21, E32, E44, E43], p);
    PopFour(AFTER_SECOND.(queue := [E21, E32, E44, E43], proposers := p));
    assert [GENESIS_ENTRY] + [E21, E32, E44, E43] == [GENESIS_ENTRY, E21, E32, E44, E43];
  }

  /** One pop of a proposer that is counted more than once. */
  lemma PopDouble(st: State, len: nat)
    requires CanPop(st) && |st.proposers| >= len && st.proposers[st.queue[0].element.proposer] > 1
    ensures var id := st.queue[0].element.proposer;
            && Pop(st).proposers == st.proposers[id := st.proposers[id] - 1]
            && PopAll(st, len) == PopAll(Pop(st), len)
            && Pop(st).queue == st.queue[1..] && Pop(st).log == st.log + [st.queue[0]]
  {
  }

  lemma PopFour(m: State)
    requires m.queue == [E21, E32, E44, E43] && m.proposers == map[2 := 2, 3 := 2, 1 := 2]
    ensures PopAll(m, 3).log == m.log + [E21, E32, E44, E43]
  {
    hide Pop;
    PopDouble(m, 3);
    PopDouble(Pop(m), 3);
    var p2 := Pop(Pop(m));
    assert p2.queue == [E44, E43] && p2.proposers == map[2 := 1, 3 := 1, 1 := 2];
    PopDouble(p2, 3);
    PopLast(Pop(p2));
    assert m.log + [E21] + [E32] + [E44] + [E43] == m.log + [E21, E32, E44, E43];
  }

  lemma PopLast(st: State)
    requires st.queue == [E43] && st.proposers == map[2 := 1, 3 := 1, 1 := 1]
    ensures PopAll(st, 3).log == st.log + [E43]
  {
    assert Pop(st).proposers == map[2 := 1, 3 := 1];
    assert PopAll(st, 3) == PopAll(Pop(st), 3) == Pop(st);
  }

  /** The first round hands in `X2` although `X1` is also new; afterwards each
      round brings one new element. `X1` is never committed and `X4` commits twice. */
  lemma SkippedElement()
    ensures RunAll([Input(ALL, X2), Input(ALL, X3), Input(ALL, X4)], 3).log
         == [GENESIS_ENTRY, E21, E32, E44, E43]
  {
    hide EndRound;
    FirstRound();
    SecondRound();
    ThirdRound();
    var ins := [Input(ALL, X2), Input(ALL, X3), Input(ALL, X4)];
    assert ins[..2][..1] == [ins[0]] && ins[..2][..1][..0] == [];
    assert RunAll(ins[..2][..1], 3) == EndRound(INITIAL, ALL, X2, 3);
    assert RunAll(ins[..2], 3) == AFTER_SECOND;
  }
}
