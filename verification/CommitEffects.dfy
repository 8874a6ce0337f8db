/** What one end of round brings into the commit queue: by case when at most one
    element is new, and position by position for any walk. */
module CommitEffects {
  import opened Base
  import opened CommitWindow
  import opened CommitChain
  import opened CommitAnyInput

  /** The queue is replaced and its rounds are rolled back, but genesis'. */
  predicate Replaced(st: State, m: State, queue: seq<Entry>, proposers: map<Id, nat>) {
    var rounds := OrphanedRounds(st.queue);
    && m == st.(queue := queue, proposers := proposers, sent := m.sent)
    && m.sent == (if rounds == [] then st.sent else st.sent + [Rollback(rounds)])
  }

  /** Head at or below the last commit: the queue is dropped. */
  lemma StaleHeadDrops(st: State, stored: set<Element>, head: Element)
    requires head.round <= st.committed.round
    ensures Replaced(st, Merged(st, stored, head), [], map[])
  {
    assert st.sent + [] == st.sent;
  }

  /** Head at the queue's back: nothing is new. */
  lemma SameHeadKeeps(st: State, stored: set<Element>, head: Element)
    requires head.round > st.committed.round && AtBack(st.queue, Digest(head))
    requires forall id <- st.proposers :: st.proposers[id] > 0
    ensures Merged(st, stored, head) == st
  {
    assert Merge(st.proposers, map[]) == st.proposers;
  }

  /** A readable child of the back that is not queued yet: it goes to the back, its
      proposer is counted once more, and nothing is rolled back. */
  lemma ChildExtends(st: State, stored: set<Element>, head: Element)
    requires head.round > st.committed.round && head in stored && AtBack(st.queue, head.parent)
    requires Digest(head) != st.committedHash && forall e <- st.queue :: e.key != Digest(head)
    ensures var m := Merged(st, stored, head); var e := Entry(Digest(head), head);
            && m == st.(queue := st.queue + [e], proposers := m.proposers)
            && forall id :: Lookup(m.proposers, id, 0) == Lookup(st.proposers, id, 0) + (if id == head.proposer then 1 else 0)
  {
    var e := Entry(Digest(head), head);
    assert !AtBack(st.queue, Digest(head));
    assert [] + [e] == [e] && [e][1..] == [];
    assert Walk(st, stored, head, Digest(head), [], map[]) == WalkResult(true, [e], map[head.proposer := 1]) by {
      assert Walk(st, stored, head, head.parent, [e], map[head.proposer := 1])
          == WalkResult(true, [e], map[head.proposer := 1]);
    }
    assert Extend(st.queue, [e]) == st.queue + [e];
  }

  /** A head that cannot be read, or whose parent is the last commit, replaces the
      queue unless it is its back. */
  lemma LoneHeadReplaces(st: State, stored: set<Element>, head: Element)
    requires head.round > st.committed.round && !AtBack(st.queue, Digest(head)) && Digest(head) != st.committedHash
    requires head !in stored || (head.parent == st.committedHash && !AtBack(st.queue, head.parent))
    ensures Replaced(st, Merged(st, stored, head), [Entry(Digest(head), head)], map[head.proposer := 1])
  {
    var e := Entry(Digest(head), head);
    assert [] + [e] == [e] && st.sent + [] == st.sent;
    assert Walk(st, stored, head, Digest(head), [], map[]) == WalkResult(false, [e], map[head.proposer := 1]) by {
      if head in stored {
        assert Walk(st, stored, head, head.parent, [e], map[head.proposer := 1])
            == WalkResult(false, [e], map[head.proposer := 1]);
      }
    }
  }

  // ----- The element trails its key -----

  /** The first key is the head's own with the head. Each further key is the parent
      of the element beside it, which is the element under the key before. */
  predicate Trails(q: seq<Entry>, head: Element) {
    && (q != [] ==> q[0] == Entry(Digest(head), head))
    && forall i, j | 0 <= i < |q| && j == i + 1 < |q| :: NextOnWalk(q[i], q[j])
  }

  predicate NextOnWalk(e: Entry, next: Entry) {
    e.key.Digest? && next.element == e.key.element && next.key == e.key.element.parent
  }

  /** Where the walk stands after collecting `q`. */
  predicate Stands(q: seq<Entry>, first: Element, head: Element, hash: ElementHash) {
    && Trails(q, first)
    && (q == [] ==> head == first && hash == Digest(first))
    && (q != [] ==> q[|q| - 1].key.Digest? && head == q[|q| - 1].key.element && hash == head.parent)
  }

  lemma {:induction false} WalkTrails(st: State, stored: set<Element>, first: Element, head: Element, hash: ElementHash,
                                      q: seq<Entry>, p: map<Id, nat>)
    requires Stands(q, first, head, hash) && DistinctKeys(q) && DeeperThan(q, hash)
    ensures Trails(Walk(st, stored, head, hash, q, p).queue, first)
    decreases hash
  {
    hide DistinctKeys, WithoutKey, Bump;
    if head.round > st.committed.round && !AtBack(st.queue, hash) && hash != st.committedHash {
      var e := Entry(hash, head);
      UpsertFresh(q, e);
      TrailsSnoc(q, first, head, hash);
      if hash.Digest? && hash.element in stored {
        assert DeeperThan(q + [e], hash.element.parent);
        WalkTrails(st, stored, first, hash.element, hash.element.parent, q + [e], Bump(p, head.proposer, 1));
      }
    }
  }

  lemma TrailsSnoc(q: seq<Entry>, first: Element, head: Element, hash: ElementHash)
    requires Stands(q, first, head, hash)
    ensures Trails(q + [Entry(hash, head)], first)
    ensures hash.Digest? ==> Stands(q + [Entry(hash, head)], first, hash.element, hash.element.parent)
  {
    var more := q + [Entry(hash, head)];
    forall i, j | 0 <= i < |more| && j == i + 1 < |more| ensures NextOnWalk(more[i], more[j]) {
      if j < |q| {
        assert NextOnWalk(q[i], q[j]);
      }
    }
  }

  /** Whatever is stored, the walk collects the head under its own key and then every
      element under its parent's. */
  lemma WalkShape(st: State, stored: set<Element>, head: Element)
    ensures Trails(Walk(st, stored, head, Digest(head), [], map[]).queue, head)
  {
    hide Walk, DistinctKeys;
    NothingCollected();
    WalkTrails(st, stored, head, head, Digest(head), [], map[]);
  }

  lemma NothingCollected()
    ensures DistinctKeys([])
  {
  }
}
