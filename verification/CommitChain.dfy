/** What the commit log and the queue look like over whole runs of the commit
    context, and exactly which inputs keep them that way. */
module CommitChain {
  import opened Base
  import opened CommitWindow

  // ----- Parent-linked sequences -----

  predicate Follows(prev: Element, e: Entry) {
    && e.key == Digest(e.element)
    && e.element.parent == Digest(prev)
    && e.element.round > prev.round
  }

  /** `q` is a chain of own-keyed elements that starts with a child of `prev`,
      each the parent of the next, rounds rising. */
  predicate ChainFrom(prev: Element, q: seq<Entry>)
    decreases |q|
  {
    q == [] || (Follows(prev, q[0]) && ChainFrom(q[0].element, q[1..]))
  }

  /** A chain that starts with genesis itself or with a child of genesis. */
  predicate GenesisChain(q: seq<Entry>) {
    ChainFrom(GENESIS, q) || (q != [] && q[0] == GENESIS_ENTRY && ChainFrom(GENESIS, q[1..]))
  }

  predicate Keyed(q: seq<Entry>) {
    forall e <- q :: e.key == Digest(e.element)
  }

  function Last(prev: Element, q: seq<Entry>): Element {
    if q == [] then prev else q[|q| - 1].element
  }

  lemma {:induction false} ChainAppend(prev: Element, x: seq<Entry>, y: seq<Entry>)
    ensures ChainFrom(prev, x + y) <==> ChainFrom(prev, x) && ChainFrom(Last(prev, x), y)
    decreases |x|
  {
    if x == [] {
      assert x + y == y;
    } else {
      TailOfAppend(x, y);
      ChainAppend(x[0].element, x[1..], y);
    }
  }

  lemma GenesisChainAppend(x: seq<Entry>, y: seq<Entry>)
    requires GenesisChain(x)
    ensures GenesisChain(x + y) <==> ChainFrom(Last(GENESIS, x), y) || (x == [] && GenesisChain(y))
  {
    ChainAppend(GENESIS, x, y);
    if x == [] {
      assert x + y == y;
    } else {
      TailOfAppend(x, y);
      ChainAppend(GENESIS, x[1..], y);
    }
  }

  lemma {:induction false} ChainRounds(prev: Element, q: seq<Entry>, i: nat)
    requires ChainFrom(prev, q) && i < |q|
    ensures q[i].key == Digest(q[i].element) && q[i].element.round > prev.round
    ensures q[i].element.round <= Last(prev, q).round
    ensures i < |q| - 1 ==> q[i].element.round < Last(prev, q).round
    decreases |q|
  {
    if i == 0 {
      if |q| > 1 {
        ChainRounds(q[0].element, q[1..], |q| - 2);
      }
    } else {
      ChainRounds(q[0].element, q[1..], i - 1);
    }
  }

  /** Rounds rise strictly along a chain, so nothing occurs in it twice. */
  lemma {:induction false} GenesisChainRises(q: seq<Entry>, i: nat, j: nat)
    requires GenesisChain(q) && i < j < |q|
    ensures q[i].element.round < q[j].element.round && q[i].key != q[j].key
    ensures q[j].key == Digest(q[j].element) && q[i].key == Digest(q[i].element)
    ensures j == i + 1 ==> q[j].element.parent == q[i].key
    decreases i
  {
    if ChainFrom(GENESIS, q) {
      ChainRises(GENESIS, q, i, j);
    } else if i > 0 {
      ChainRises(GENESIS, q[1..], i - 1, j - 1);
    } else {
      ChainRounds(GENESIS, q[1..], j - 1);
    }
  }

  lemma {:induction false} ChainRises(prev: Element, q: seq<Entry>, i: nat, j: nat)
    requires ChainFrom(prev, q) && i < j < |q|
    ensures q[i].element.round < q[j].element.round && q[i].key != q[j].key
    ensures q[j].key == Digest(q[j].element) && q[i].key == Digest(q[i].element)
    ensures j == i + 1 ==> q[j].element.parent == q[i].key
    decreases i
  {
    if i == 0 {
      ChainRounds(q[0].element, q[1..], j - 1);
    } else {
      ChainRises(q[0].element, q[1..], i - 1, j - 1);
    }
  }

  // ----- The invariant -----

  /** The log continued by the queue is one chain from genesis, the last commit
      is the log's end, and the counts are exact. */
  ghost predicate Sound(st: State) {
    && !st.panicked
    && GenesisChain(st.log) && GenesisChain(st.log + st.queue)
    && st.committed == Last(GENESIS, st.log) && st.committedHash == Digest(st.committed)
    && Exact(st.proposers, st.queue)
  }

  lemma InitialSound()
    ensures Sound(INITIAL)
  {
    assert [] + [GENESIS_ENTRY] == [GENESIS_ENTRY];
    assert Proposers([GENESIS_ENTRY]) == multiset{START_ID} by {
      assert Proposers([GENESIS_ENTRY]) == multiset{START_ID} + Proposers([GENESIS_ENTRY][1..]);
    }
  }

  /** At most one new element: the head is not above the last commit, or is the
      queue's back, or can be read and is a child of the back in a later round,
      or is a child of the last commit. */
  predicate OneNewElement(st: State, stored: set<Element>, head: Element) {
    || head.round <= st.committed.round
    || AtBack(st.queue, Digest(head))
    || (head in stored && AtBack(st.queue, head.parent)
        && head.round > st.queue[|st.queue| - 1].element.round)
    || head.parent == st.committedHash
  }

  // ----- What the walk collects from such a head -----

  lemma WalkFromBack(st: State, stored: set<Element>, head: Element)
    requires head.round > st.committed.round && AtBack(st.queue, Digest(head))
    ensures Walk(st, stored, head, Digest(head), [], map[]) == WalkResult(true, [], map[])
  {
  }

  lemma WalkFromChild(st: State, stored: set<Element>, head: Element)
    requires head.round > st.committed.round
    requires !AtBack(st.queue, Digest(head)) && st.committedHash == Digest(st.committed)
    requires head !in stored || AtBack(st.queue, head.parent) || head.parent == st.committedHash
    ensures Walk(st, stored, head, Digest(head), [], map[])
         == WalkResult(head in stored && AtBack(st.queue, head.parent),
                       [Entry(Digest(head), head)], map[head.proposer := 1])
  {
    var q', p' := Upsert([], Entry(Digest(head), head)), Bump(map[], head.proposer, 1);
    assert q' == [Entry(Digest(head), head)] && p' == map[head.proposer := 1];
    if head in stored {
      assert Walk(st, stored, head, Digest(head), [], map[]) == Walk(st, stored, head, head.parent, q', p');
    }
  }

  lemma SingleProposer(e: Entry)
    ensures Proposers([e]) == multiset{e.element.proposer}
    ensures Exact(map[e.element.proposer := 1], [e])
  {
    assert Proposers([e]) == multiset{e.element.proposer} + Proposers([e][1..]);
  }

  lemma MergeLookup(p: map<Id, nat>, more: map<Id, nat>, id: Id)
    ensures Lookup(Merge(p, more), id, 0) == Lookup(p, id, 0) + Lookup(more, id, 0)
  {
  }

  lemma MergePositive(p: map<Id, nat>, more: map<Id, nat>)
    requires (forall id <- p :: p[id] > 0) && (forall id <- more :: more[id] > 0)
    ensures forall id <- Merge(p, more) :: Merge(p, more)[id] > 0
  {
  }

  /** Exact counts add up. */
  lemma MergeExact(p: map<Id, nat>, x: seq<Entry>, more: map<Id, nat>, y: seq<Entry>)
    requires Exact(p, x) && Exact(more, y)
    ensures Exact(Merge(p, more), x + y)
  {
    hide Merge, Lookup, Proposers;
    ProposersAppend(x, y);
    MergePositive(p, more);
    forall id ensures Lookup(Merge(p, more), id, 0) == Proposers(x + y)[id] {
      MergeLookup(p, more, id);
    }
  }

  lemma EmptyExact()
    ensures Exact(map[], [])
  {
  }

  /** The state before the commit loop, when no panic has happened. */
  function Merged(st: State, stored: set<Element>, head: Element): State {
    Absorb(st, Walk(st, stored, head, Digest(head), [], map[]))
  }

  /** A chain has no element that comes after its last. */
  lemma FreshKey(q: seq<Entry>, e: Entry, i: nat)
    requires GenesisChain(q) && i < |q|
    requires e.key == Digest(e.element) && e.element.round > Last(GENESIS, q).round
    ensures q[i].key != e.key
  {
    KeyedAt(q, i);
    if i < |q| - 1 {
      GenesisChainRises(q, i, |q| - 1);
    }
  }

  lemma BackIs(st: State)
    requires Sound(st) && st.queue != []
    ensures var b := st.queue[|st.queue| - 1];
            b.key == Digest(b.element) && Last(GENESIS, st.log + st.queue) == b.element
  {
    var all := st.log + st.queue;
    assert all[|all| - 1] == st.queue[|st.queue| - 1];
    KeyedAt(all, |all| - 1);
  }

  /** A child of the back goes to the end of the queue. */
  lemma AbsorbChild(st: State, head: Element)
    requires Sound(st) && AtBack(st.queue, head.parent)
    requires head.round > st.queue[|st.queue| - 1].element.round
    ensures var e := Entry(Digest(head), head);
            var r := Absorb(st, WalkResult(true, [e], map[head.proposer := 1]));
            r.queue == st.queue + [e] && Sound(r)
  {
    hide Exact, Merge;
    var q, e := st.queue, Entry(Digest(head), head);
    BackIs(st);
    forall x | x in q ensures x.key != e.key {
      var i :| 0 <= i < |q| && q[i] == x;
      assert (st.log + q)[|st.log| + i] == x;
      FreshKey(st.log + q, e, |st.log| + i);
    }
    assert [e][1..] == [];
    assert Extend(q, [e]) == Extend(Upsert(q, e), []) == Upsert(q, e) == q + [e];
    assert ChainFrom(head, []) && ChainFrom(Last(GENESIS, st.log + q), [e]);
    GenesisChainAppend(st.log + q, [e]);
    AppendAssoc(st.log, q, [e]);
    SingleProposer(e);
    MergeExact(st.proposers, q, map[head.proposer := 1], [e]);
  }

  /** A child of the last commit replaces the queue. */
  lemma AbsorbSwitch(st: State, head: Element)
    requires Sound(st) && head.parent == st.committedHash && head.round > st.committed.round
    ensures Sound(Absorb(st, WalkResult(false, [Entry(Digest(head), head)], map[head.proposer := 1])))
  {
    hide Exact, OrphanedRounds;
    var e := Entry(Digest(head), head);
    assert ChainFrom(head, []) && [e][1..] == [] && ChainFrom(st.committed, [e]);
    GenesisChainAppend(st.log, [e]);
    SingleProposer(e);
  }

  lemma AbsorbEmpty(st: State, connected: bool)
    requires Sound(st)
    ensures Sound(Absorb(st, WalkResult(connected, [], map[])))
  {
    hide OrphanedRounds;
    if connected {
      EmptyExact();
      MergeExact(st.proposers, st.queue, map[], []);
      assert st.queue + [] == st.queue;
    } else {
      EmptyExact();
      assert st.log + [] == st.log;
    }
  }

  lemma AbsorbSound(st: State, stored: set<Element>, head: Element)
    requires Sound(st) && OneNewElement(st, stored, head) && head.round > 0
    ensures Sound(Merged(st, stored, head))
  {
    hide GenesisChain, Exact, Absorb;
    if head.round <= st.committed.round {
      assert Walk(st, stored, head, Digest(head), [], map[]) == WalkResult(false, [], map[]);
      AbsorbEmpty(st, false);
    } else if AtBack(st.queue, Digest(head)) {
      WalkFromBack(st, stored, head);
      AbsorbEmpty(st, true);
    } else {
      assert st.committedHash == Digest(st.committed) by { NotPanicked(st); }
      WalkFromChild(st, stored, head);
      if head in stored && AtBack(st.queue, head.parent) {
        BackIs(st);
        AbsorbChild(st, head);
      } else {
        AbsorbSwitch(st, head);
      }
    }
  }

  lemma KeyedAt(q: seq<Entry>, i: nat)
    requires GenesisChain(q) && i < |q|
    ensures q[i].key == Digest(q[i].element)
  {
    if ChainFrom(GENESIS, q) {
      ChainRounds(GENESIS, q, i);
    } else if i > 0 {
      ChainRounds(GENESIS, q[1..], i - 1);
    }
  }

  lemma GenesisChainPrefix(x: seq<Entry>, y: seq<Entry>)
    requires GenesisChain(x + y)
    ensures GenesisChain(x)
  {
    if x != [] {
      TailOfAppend(x, y);
      ChainAppend(GENESIS, x, y);
      ChainAppend(GENESIS, x[1..], y);
    }
  }

  lemma PopSound(st: State, r: State, k: nat)
    requires Sound(st) && k <= |st.queue| && PoppedTo(st, r, k) && Exact(r.proposers, r.queue)
    ensures Sound(r)
  {
    var q := st.queue;
    assert q == q[..k] + q[k..];
    AppendAssoc(st.log, q[..k], q[k..]);
    GenesisChainPrefix(st.log + q[..k], q[k..]);
    if k > 0 {
      assert r.log[|r.log| - 1] == q[k - 1];
      KeyedAt(st.log + q, |st.log| + k - 1);
    } else {
      assert r.log == st.log;
    }
  }

  /** One end of round with one new element keeps the invariant, commits the
      shortest prefix of the merged queue that leaves fewer than `len` distinct
      proposers, and never reaches a panic. */
  lemma EndRoundSound(st: State, stored: set<Element>, head: Element, len: nat)
    requires Sound(st) && OneNewElement(st, stored, head) && len > 0
    ensures Sound(EndRound(st, stored, head, len))
    ensures head.round > 0 ==>
              var m := Merged(st, stored, head);
              PoppedTo(m, EndRound(st, stored, head, len), PopCount(m.queue, len))
  {
    hide Sound, OneNewElement, PoppedTo, Walk, Absorb;
    assert !st.panicked by { NotPanicked(st); }
    if head.round > 0 {
      var m := Merged(st, stored, head);
      AbsorbSound(st, stored, head);
      assert Exact(m.proposers, m.queue) by { NotPanicked(m); }
      PopAllExact(m, len);
      PopSound(m, PopAll(m, len), PopCount(m.queue, len));
    }
  }

  lemma NotPanicked(st: State)
    requires Sound(st)
    ensures !st.panicked && Exact(st.proposers, st.queue) && st.committedHash == Digest(st.committed)
  {
  }

  // ----- Whole runs -----

  datatype Input = Input(stored: set<Element>, head: Element)

  function RunAll(inputs: seq<Input>, len: nat): State {
    if inputs == [] then INITIAL
    else
      var n := |inputs| - 1;
      EndRound(RunAll(inputs[..n], len), inputs[n].stored, inputs[n].head, len)
  }

  predicate OneNewEach(inputs: seq<Input>, len: nat) {
    inputs == [] ||
    (var n := |inputs| - 1;
     OneNewEach(inputs[..n], len) && OneNewElement(RunAll(inputs[..n], len), inputs[n].stored, inputs[n].head))
  }

  /** Over any run with one new element per round, chain switches included, the
      log followed by the queue is one parent-linked chain from genesis. */
  lemma {:induction false} RunSound(inputs: seq<Input>, len: nat)
    requires OneNewEach(inputs, len) && len > 0
    ensures Sound(RunAll(inputs, len))
  {
    if inputs == [] {
      InitialSound();
    } else {
      var n := |inputs| - 1;
      RunSound(inputs[..n], len);
      EndRoundSound(RunAll(inputs[..n], len), inputs[n].stored, inputs[n].head, len);
    }
  }

  lemma GenesisChainStart(q: seq<Entry>)
    requires GenesisChain(q) && q != []
    ensures q[0] == GENESIS_ENTRY || q[0].element.parent == Digest(GENESIS)
  {
  }

  /** The commit log: every committed element is the parent of the next one, no
      element commits twice, rounds rise, and the first is genesis or its child. */
  lemma CommitLogIsChain(inputs: seq<Input>, len: nat)
    requires OneNewEach(inputs, len) && len > 0
    ensures var st := RunAll(inputs, len); var log := st.log;
            && !st.panicked
            && (forall i | 0 <= i < |log| :: log[i].key == Digest(log[i].element))
            && (log != [] ==> log[0] == GENESIS_ENTRY || log[0].element.parent == Digest(GENESIS))
            && (forall i | 0 < i < |log| :: log[i].element.parent == log[i - 1].key)
            && (forall i, j | 0 <= i < j < |log| :: log[i].element.round < log[j].element.round)
            && (log != [] && st.queue != [] ==> st.queue[0].element.parent == log[|log| - 1].key)
  {
    hide RunAll, OneNewEach, GenesisChain, Exact;
    RunSound(inputs, len);
    var st := RunAll(inputs, len);
    var log := st.log;
    forall i | 0 <= i < |log| ensures log[i].key == Digest(log[i].element) {
      KeyedAt(log, i);
    }
    forall i | 0 < i < |log| ensures log[i].element.parent == log[i - 1].key {
      GenesisChainRises(log, i - 1, i);
    }
    forall i, j | 0 <= i < j < |log| ensures log[i].element.round < log[j].element.round {
      GenesisChainRises(log, i, j);
    }
    if log != [] {
      GenesisChainStart(log);
      if st.queue != [] {
        GenesisChainRises(log + st.queue, |log| - 1, |log|);
      }
    }
  }
}
