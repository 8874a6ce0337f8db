/** Leto's commit context: a queue of chain elements beside the count of its
    proposers, from which elements commit once enough distinct proposers follow. */
module CommitWindow {
  import opened Base

  /** A chain element. `evidence` stands for its quorum certificates and
      signature bytes. As for data blocks, hashes are symbolic. */
  datatype Element = Element(round: nat, proposer: Id, batch: seq<Tx>, evidence: nat, parent: ElementHash)

  datatype ElementHash = RawDigest(bytes: nat) | Digest(element: Element)

  const GENESIS: Element := Element(0, START_ID, [], 0, RawDigest(0))

  /** A queue position: the key it was inserted under and the element there. */
  datatype Entry = Entry(key: ElementHash, element: Element)

  const GENESIS_ENTRY: Entry := Entry(Digest(GENESIS), GENESIS)

  datatype ToBatcher = Rollback(rounds: seq<nat>) | Committed(batch: seq<Tx>, round: nat)

  /** The value of a `CommitContext` object. `log` is what has been committed. */
  datatype State = State(
    committedHash: ElementHash,
    committed: Element,
    proposers: map<Id, nat>,
    queue: seq<Entry>,
    log: seq<Entry>,
    sent: seq<ToBatcher>,
    panicked: bool)

  const INITIAL: State := State(
    Digest(GENESIS), GENESIS, map[START_ID := 1], [GENESIS_ENTRY], [], [], false)

  // ----- Insertion-ordered map operations -----

  function WithoutKey(q: seq<Entry>, k: ElementHash): (r: seq<Entry>)
    ensures |r| <= |q|
    ensures (forall e <- q :: e.key != k) ==> r == q
    ensures (exists e :: e in q && e.key == k) ==> |r| < |q|
    ensures forall e :: e in r <==> e in q && e.key != k
  {
    if q == [] then []
    else if q[0].key == k then WithoutKey(q[1..], k)
    else [q[0]] + WithoutKey(q[1..], k)
  }

  /** Inserting an existing key replaces its value and moves it to the back. */
  function Upsert(q: seq<Entry>, e: Entry): seq<Entry> {
    WithoutKey(q, e.key) + [e]
  }

  function Extend(q: seq<Entry>, more: seq<Entry>): seq<Entry>
    decreases |more|
  {
    if more == [] then q else Extend(Upsert(q, more[0]), more[1..])
  }

  function Bump(m: map<Id, nat>, id: Id, extra: nat): map<Id, nat> {
    m[id := Lookup(m, id, 0) + extra]
  }

  function Merge(m: map<Id, nat>, more: map<Id, nat>): map<Id, nat> {
    map id | id in m.Keys + more.Keys :: Lookup(m, id, 0) + Lookup(more, id, 0)
  }

  // ----- One end of round -----

  datatype WalkResult = WalkResult(connected: bool, queue: seq<Entry>, proposers: map<Id, nat>)

  predicate AtBack(q: seq<Entry>, h: ElementHash) {
    q != [] && q[|q| - 1].key == h
  }

  /** Collects elements from `head` back to the queue or the last commit. Each
      step re-reads the element stored under `hash`, so `head` trails `hash`. */
  function Walk(st: State, stored: set<Element>, head: Element, hash: ElementHash,
                q: seq<Entry>, p: map<Id, nat>): WalkResult
    decreases hash
  {
    if head.round <= st.committed.round then WalkResult(false, q, p)
    else if AtBack(st.queue, hash) then WalkResult(true, q, p)
    else if hash == st.committedHash then WalkResult(false, q, p)
    else
      var q', p' := Upsert(q, Entry(hash, head)), Bump(p, head.proposer, 1);
      if hash.RawDigest? || hash.element !in stored then WalkResult(false, q', p')
      else Walk(st, stored, hash.element, hash.element.parent, q', p')
  }

  function OrphanedRounds(q: seq<Entry>): seq<nat> {
    if q == [] then []
    else (if q[0].element.round == 0 then [] else [q[0].element.round]) + OrphanedRounds(q[1..])
  }

  function Absorb(st: State, w: WalkResult): State {
    if w.connected then
      st.(queue := Extend(st.queue, w.queue), proposers := Merge(st.proposers, w.proposers))
    else
      st.(queue := w.queue, proposers := w.proposers,
          sent := st.sent + (if OrphanedRounds(st.queue) == [] then []
                             else [Rollback(OrphanedRounds(st.queue))]))
  }

  predicate CanPop(st: State) {
    && st.queue != []
    && st.queue[0].element.proposer in st.proposers
    && st.proposers[st.queue[0].element.proposer] > 0
  }

  function Pop(st: State): State
    requires CanPop(st)
  {
    var e := st.queue[0];
    var id := e.element.proposer;
    st.(queue := st.queue[1..],
        proposers := if st.proposers[id] == 1 then st.proposers - {id}
                     else st.proposers[id := st.proposers[id] - 1],
        log := st.log + [e],
        sent := st.sent + [Committed(e.element.batch, e.element.round)],
        committedHash := e.key, committed := e.element)
  }

  /** Commits from the front while the window holds `len` distinct proposers. */
  function PopAll(st: State, len: nat): State
    decreases |st.queue|
  {
    if |st.proposers| < len then st
    else if !CanPop(st) then st.(panicked := true)
    else PopAll(Pop(st), len)
  }

  function EndRound(st: State, stored: set<Element>, head: Element, len: nat): State {
    if st.panicked || head.round == 0 then st
    else PopAll(Absorb(st, Walk(st, stored, head, Digest(head), [], map[])), len)
  }

  // ----- The proposer counts -----

  function Proposers(q: seq<Entry>): (m: multiset<Id>)
    ensures |m| == |q|
  {
    if q == [] then multiset{} else multiset{q[0].element.proposer} + Proposers(q[1..])
  }

  /** `proposers` is the positive count map of the queue's proposers. */
  ghost predicate Exact(proposers: map<Id, nat>, q: seq<Entry>) {
    && (forall id :: Lookup(proposers, id, 0) == Proposers(q)[id])
    && (forall id <- proposers :: proposers[id] > 0)
  }

  function Distinct(q: seq<Entry>): set<Id> {
    set e | e in q :: e.element.proposer
  }

  lemma {:induction false} ProposersAppend(x: seq<Entry>, y: seq<Entry>)
    ensures Proposers(x + y) == Proposers(x) + Proposers(y)
  {
    if x == [] {
      assert x + y == y;
    } else {
      ProposersAppend(x[1..], y);
      TailOfAppend(x, y);
    }
  }

  lemma {:induction false} ProposersMembers(q: seq<Entry>)
    ensures forall id :: id in Proposers(q) <==> id in Distinct(q)
  {
    if q != [] {
      ProposersMembers(q[1..]);
      assert q == [q[0]] + q[1..];
      assert Distinct(q) == {q[0].element.proposer} + Distinct(q[1..]);
    }
  }

  lemma ExactKeys(proposers: map<Id, nat>, q: seq<Entry>)
    requires Exact(proposers, q)
    ensures proposers.Keys == Distinct(q)
  {
    ProposersMembers(q);
    forall id ensures id in proposers <==> id in Distinct(q) {
      assert Lookup(proposers, id, 0) == Proposers(q)[id];
    }
  }

  lemma ExactSize(proposers: map<Id, nat>, q: seq<Entry>)
    requires Exact(proposers, q)
    ensures |proposers| == |Distinct(q)|
  {
    ExactKeys(proposers, q);
    assert |proposers.Keys| == |proposers|;
  }

  lemma PopKeepsExact(st: State)
    requires Exact(st.proposers, st.queue) && st.queue != []
    ensures CanPop(st) && Exact(Pop(st).proposers, Pop(st).queue)
  {
    var id := st.queue[0].element.proposer;
    assert Lookup(st.proposers, id, 0) == Proposers(st.queue)[id];
    forall x ensures Lookup(Pop(st).proposers, x, 0) == Proposers(st.queue[1..])[x] {
      assert Lookup(st.proposers, x, 0) == Proposers(st.queue)[x];
    }
  }

  /** How many elements one end of round commits. */
  function PopCount(q: seq<Entry>, len: nat): (k: nat)
    requires len > 0
    ensures k <= |q|
    ensures |Distinct(q[k..])| < len
    ensures forall j | 0 <= j < k :: |Distinct(q[j..])| >= len
  {
    if |Distinct(q)| < len then
      assert q[0..] == q;
      0
    else
      EmptyDistinct(q);
      var k := PopCount(q[1..], len);
      assert q[1..][k..] == q[k + 1..];
      assert forall j | 0 < j < k + 1 :: q[1..][j - 1..] == q[j..];
      assert q[0..] == q;
      k + 1
  }

  /** One announcement for each element, with its batch and its round. */
  function CommittedMsgs(q: seq<Entry>): seq<ToBatcher> {
    if q == [] then [] else [Committed(q[0].element.batch, q[0].element.round)] + CommittedMsgs(q[1..])
  }

  lemma {:induction false} CommittedMsgsAt(q: seq<Entry>)
    ensures |CommittedMsgs(q)| == |q|
    ensures forall i | 0 <= i < |q| :: CommittedMsgs(q)[i] == Committed(q[i].element.batch, q[i].element.round)
  {
    if q != [] {
      CommittedMsgsAt(q[1..]);
    }
  }

  lemma {:induction false} CommittedMsgsAppend(x: seq<Entry>, y: seq<Entry>)
    ensures CommittedMsgs(x + y) == CommittedMsgs(x) + CommittedMsgs(y)
  {
    if x == [] {
      assert x + y == y;
    } else {
      TailOfAppend(x, y);
      CommittedMsgsAppend(x[1..], y);
    }
  }

  /** `r` is `st` after committing the first `k` queued elements. */
  predicate PoppedTo(st: State, r: State, k: nat)
    requires k <= |st.queue|
  {
    && r.panicked == st.panicked
    && r.log == st.log + st.queue[..k] && r.queue == st.queue[k..]
    && r.sent == st.sent + CommittedMsgs(st.queue[..k])
    && (k == 0 ==> r.committed == st.committed && r.committedHash == st.committedHash)
    && (k > 0 ==> r.committed == st.queue[k - 1].element && r.committedHash == st.queue[k - 1].key)
  }

  lemma HeadSlices(q: seq<Entry>, k: nat)
    requires q != [] && k < |q|
    ensures q[..k + 1] == [q[0]] + q[1..][..k] && q[1..][k..] == q[k + 1..]
    ensures CommittedMsgs(q[..k + 1])
         == [Committed(q[0].element.batch, q[0].element.round)] + CommittedMsgs(q[1..][..k])
  {
    assert q[..k + 1][1..] == q[1..][..k];
  }

  lemma PoppedOneMore(st: State, r: State, k: nat)
    requires CanPop(st) && k < |st.queue| && PoppedTo(Pop(st), r, k)
    ensures PoppedTo(st, r, k + 1)
  {
    var q := st.queue;
    HeadSlices(q, k);
    AppendAssoc(st.log, [q[0]], q[1..][..k]);
    AppendAssoc(st.sent, [Committed(q[0].element.batch, q[0].element.round)], CommittedMsgs(q[1..][..k]));
  }

  /** With exact counts the commit loop never panics and commits the shortest
      prefix that leaves fewer than `len` distinct proposers in the queue. */
  lemma {:induction false} PopAllExact(st: State, len: nat)
    requires Exact(st.proposers, st.queue) && len > 0
    ensures PoppedTo(st, PopAll(st, len), PopCount(st.queue, len))
    ensures Exact(PopAll(st, len).proposers, PopAll(st, len).queue)
    decreases |st.queue|
  {
    hide PoppedTo, Exact, Pop, CanPop, Distinct, CommittedMsgs, Proposers;
    ExactSize(st.proposers, st.queue);
    if |st.proposers| < len {
      NothingPopped(st);
    } else {
      assert st.queue != [] by { EmptyDistinct(st.queue); }
      PopKeepsExact(st);
      assert Pop(st).queue == st.queue[1..] by { PopTail(st); }
      PopAllExact(Pop(st), len);
      PoppedOneMore(st, PopAll(st, len), PopCount(st.queue[1..], len));
    }
  }

  lemma NothingPopped(st: State)
    ensures PoppedTo(st, st, 0)
  {
    assert st.log + [] == st.log && st.sent + [] == st.sent && st.queue[..0] == [];
  }

  lemma PopTail(st: State)
    requires CanPop(st)
    ensures Pop(st).queue == st.queue[1..] && Pop(st).panicked == st.panicked
  {
  }

  lemma EmptyDistinct(q: seq<Entry>)
    ensures q == [] ==> |Distinct(q)| == 0
  {
    if q == [] {
      assert Distinct(q) == {};
    }
  }
}
