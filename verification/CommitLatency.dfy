/** Rotation and commit window together: in a run in which every round's leader
    proposes and its proposal is accepted, the element of round r commits
    exactly when round r + (n + f + 1) / 2 - 1 ends. */
module CommitLatency {
  import opened Base
  import opened CommitWindow
  import opened CommitChain
  import opened LeaderRotation

  /** `xs[i]` is what the leader of round i + 1 proposed on top of round i. */
  predicate Accepted(rs: seq<Rotation>, xs: seq<Element>, i: nat)
    requires i < |xs| <= |rs|
  {
    && xs[i].round == i + 1
    && xs[i].proposer == rs[i].current
    && xs[i].parent == Digest(if i == 0 then GENESIS else xs[i - 1])
  }

  /** Rounds 1 to |xs| of a run whose first leader is the start id. */
  predicate AllAccepted(rs: seq<Rotation>, committee: set<Id>, len: nat, xs: seq<Element>) {
    && 0 < |rs| && |xs| <= |rs| && IsRun(rs) && Fair(rs[0], committee, len)
    && rs[0].current == START_ID
    && forall i | 0 <= i < |xs| :: Accepted(rs, xs, i)
  }

  /** Each round ends with the accepted element as head. */
  predicate Ends(inputs: seq<Input>, xs: seq<Element>) {
    |inputs| == |xs| && forall i | 0 <= i < |xs| :: inputs[i].head == xs[i] && xs[i] in inputs[i].stored
  }

  function Entries(xs: seq<Element>): (es: seq<Entry>)
    ensures |es| == |xs| && forall i | 0 <= i < |xs| :: es[i] == Entry(Digest(xs[i]), xs[i])
  {
    seq(|xs|, i requires 0 <= i < |xs| => Entry(Digest(xs[i]), xs[i]))
  }

  /** Genesis and then the elements of rounds 1, 2, ... */
  function Whole(xs: seq<Element>): seq<Entry> {
    [GENESIS_ENTRY] + Entries(xs)
  }

  /** Such runs exist for every length and every fair start: a draw is always
      possible, and whoever leads can propose on top of the round before. */
  lemma {:induction false} AcceptedRunExists(r0: Rotation, committee: set<Id>, len: nat, m: nat)
    returns (rs: seq<Rotation>, xs: seq<Element>)
    requires Fair(r0, committee, len) && r0.current == START_ID
    ensures AllAccepted(rs, committee, len, xs) && rs[0] == r0 && |xs| == m && |rs| == m + 1
    decreases m
  {
    hide Fair, Advance;
    if m == 0 {
      rs, xs := [r0], [];
    } else {
      var rs', xs' := AcceptedRunExists(r0, committee, len, m - 1);
      var last := rs'[m - 1];
      RunFair(rs', committee, len, m - 1);
      FreedNonempty(last, committee, len);
      var next := Drawn(last, committee, len);
      rs := rs' + [next];
      xs := xs' + [Element(m, last.current, [], 0, Digest(if m == 1 then GENESIS else xs'[m - 2]))];
      forall i | 0 <= i < m ensures Accepted(rs, xs, i) {
        if i < m - 1 {
          assert Accepted(rs', xs', i);
        }
      }
    }
  }

  lemma Drawn(r: Rotation, committee: set<Id>, len: nat) returns (next: Rotation)
    requires Fair(r, committee, len)
    ensures Steps(r, next)
  {
    FreedNonempty(r, committee, len);
    next := Advance(r, r.history[len - 1]);
  }

  /** How many elements, genesis included, are committed after `r` rounds. */
  function CommittedCount(r: nat, len: nat): (k: nat)
    requires len > 0
    ensures k <= r + 1
  {
    if r < len then 0 else r - len + 2
  }

  // ----- Distinct proposers in a window -----

  lemma DistinctAppend(q: seq<Entry>, e: Entry)
    ensures Distinct(q + [e]) == Distinct(q) + {e.element.proposer}
  {
  }

  /** The leader of round `j` led none of the `len` rounds before. */
  lemma FreshProposer(rs: seq<Rotation>, committee: set<Id>, len: nat, xs: seq<Element>, i: nat, j: nat)
    requires AllAccepted(rs, committee, len, xs) && i <= j < |xs| && j <= i + len
    ensures xs[j].proposer !in Distinct(Entries(xs[i..j]))
  {
    hide Fair, IsRun;
    var front := Entries(xs[i..j]);
    forall e | e in front ensures e.element.proposer != xs[j].proposer {
      var k :| 0 <= k < |front| && front[k] == e;
      assert e.element == xs[i + k] && Accepted(rs, xs, i + k) && Accepted(rs, xs, j);
      LeadersDistinct(rs, committee, len, i + k, j);
    }
  }

  lemma {:induction false} WindowDistinct(
      rs: seq<Rotation>, committee: set<Id>, len: nat, xs: seq<Element>, i: nat, j: nat)
    requires AllAccepted(rs, committee, len, xs) && i <= j <= |xs| && j <= i + len
    ensures |Distinct(Entries(xs[i..j]))| == j - i
    decreases j
  {
    hide AllAccepted;
    if i == j {
      assert Distinct(Entries(xs[i..j])) == {};
    } else {
      var front := Entries(xs[i..j - 1]);
      WindowDistinct(rs, committee, len, xs, i, j - 1);
      FreshProposer(rs, committee, len, xs, i, j - 1);
      assert Entries(xs[i..j]) == front + [Entry(Digest(xs[j - 1]), xs[j - 1])];
      DistinctAppend(front, Entry(Digest(xs[j - 1]), xs[j - 1]));
    }
  }

  /** Genesis has the proposer of the first round. */
  lemma GenesisAddsNone(rs: seq<Rotation>, committee: set<Id>, len: nat, xs: seq<Element>, r: nat)
    requires AllAccepted(rs, committee, len, xs) && 0 < r <= |xs|
    ensures Distinct(Whole(xs[..r])) == Distinct(Entries(xs[..r]))
  {
    assert Accepted(rs, xs, 0);
    assert Entries(xs[..r])[0] in Entries(xs[..r]);
    forall e | e in Whole(xs[..r]) ensures e == GENESIS_ENTRY || e in Entries(xs[..r]) {
    }
    assert forall e <- Entries(xs[..r]) :: e in Whole(xs[..r]);
  }

  lemma {:induction false} PopCountIs(q: seq<Entry>, len: nat, k: nat)
    requires len > 0 && k <= |q| && |Distinct(q[k..])| < len
    requires forall j | 0 <= j < k :: |Distinct(q[j..])| >= len
    ensures PopCount(q, len) == k
  {
    hide Distinct;
    assert q[0..] == q;
    if k > 0 {
      assert |Distinct(q[0..])| >= len;
      assert q[1..][k - 1..] == q[k..];
      forall j | 0 <= j < k - 1 ensures |Distinct(q[1..][j..])| >= len {
        assert q[1..][j..] == q[j + 1..];
      }
      PopCountIs(q[1..], len, k - 1);
    }
  }

  /** What is not committed after `r` - 1 rounds, with round `r`'s element added. */
  function Window(xs: seq<Element>, r: nat, len: nat): seq<Entry>
    requires 0 < r <= |xs| && len > 0
  {
    Whole(xs[..r])[CommittedCount(r - 1, len)..]
  }

  /** Before the window is full nothing commits; then genesis and the first
      element; then one element a round. */
  lemma WindowPops(rs: seq<Rotation>, committee: set<Id>, len: nat, xs: seq<Element>, r: nat)
    requires AllAccepted(rs, committee, len, xs) && 0 < r <= |xs| && len > 0
    ensures PopCount(Window(xs, r, len), len) == CommittedCount(r, len) - CommittedCount(r - 1, len)
  {
    hide AllAccepted, Distinct;
    var q := Window(xs, r, len);
    assert q[0..] == q;
    if r <= len {
      WindowFromGenesis(rs, committee, len, xs, r);
      PopCountIs(q, len, if r < len then 0 else 2);
    } else {
      WholeFrom(xs, r, r - len);
      WholeFrom(xs, r, r - len + 1);
      assert q[1..] == Entries(xs[r - len + 1..r]);
      WindowDistinct(rs, committee, len, xs, r - len, r);
      WindowDistinct(rs, committee, len, xs, r - len + 1, r);
      PopCountIs(q, len, 1);
    }
  }

  lemma WholeFrom(xs: seq<Element>, r: nat, i: nat)
    requires i <= r <= |xs|
    ensures Whole(xs[..r])[i + 1..] == Entries(xs[i..r])
  {
  }

  lemma WindowFromGenesis(rs: seq<Rotation>, committee: set<Id>, len: nat, xs: seq<Element>, r: nat)
    requires AllAccepted(rs, committee, len, xs) && 0 < r <= |xs| && r <= len
    ensures Window(xs, r, len) == Whole(xs[..r])
    ensures |Distinct(Whole(xs[..r]))| == r && |Distinct(Whole(xs[..r])[1..])| == r
    ensures |Distinct(Whole(xs[..r])[2..])| == r - 1
  {
    hide AllAccepted, Distinct;
    GenesisAddsNone(rs, committee, len, xs, r);
    assert xs[..r] == xs[0..r];
    WholeFrom(xs, r, 0);
    WholeFrom(xs, r, 1);
    WindowDistinct(rs, committee, len, xs, 0, r);
    WindowDistinct(rs, committee, len, xs, 1, r);
  }

  lemma LenPositive(rs: seq<Rotation>, committee: set<Id>, len: nat, xs: seq<Element>)
    requires AllAccepted(rs, committee, len, xs)
    ensures len > 0
  {
  }

  // ----- The run -----

  /** The commit context after `r` rounds. */
  ghost predicate At(st: State, xs: seq<Element>, r: nat, len: nat)
    requires r <= |xs| && len > 0
  {
    && Sound(st)
    && st.log == Whole(xs[..r])[..CommittedCount(r, len)]
    && st.queue == Whole(xs[..r])[CommittedCount(r, len)..]
    && st.sent == CommittedMsgs(st.log)
  }

  lemma LastOf(xs: seq<Element>, r: nat, len: nat, st: State)
    requires r <= |xs| && len > 0 && At(st, xs, r, len)
    requires (if r == 0 then GENESIS else xs[r - 1]).round == r
    ensures var last := if r == 0 then GENESIS else xs[r - 1];
            && (st.queue != [] ==> st.queue[|st.queue| - 1] == Entry(Digest(last), last))
            && (st.queue == [] ==> st.committed == last)
            && st.committed.round <= r
  {
    hide Exact, CommittedMsgs, Entries;
    var last := if r == 0 then GENESIS else xs[r - 1];
    var whole := Whole(xs[..r]);
    assert whole[|whole| - 1] == Entry(Digest(last), last) by { WholeLast(xs, r); }
    if st.queue != [] {
      assert st.queue[|st.queue| - 1] == whole[|whole| - 1];
      CommittedBelow(st, whole);
    } else {
      assert st.log == whole;
    }
  }

  lemma WholeLast(xs: seq<Element>, r: nat)
    requires r <= |xs|
    ensures var last := if r == 0 then GENESIS else xs[r - 1];
            Whole(xs[..r])[r] == Entry(Digest(last), last)
  {
  }

  lemma CommittedBelow(st: State, whole: seq<Entry>)
    requires Sound(st) && st.queue != [] && whole == st.log + st.queue
    ensures st.committed.round <= whole[|whole| - 1].element.round
  {
    hide GenesisChain, Exact;
    if st.log != [] {
      GenesisChainRises(whole, |st.log| - 1, |whole| - 1);
    }
  }

  lemma NextMerged(st: State, stored: set<Element>, xs: seq<Element>, r: nat, len: nat)
    requires 0 < r <= |xs| && len > 0 && At(st, xs, r - 1, len)
    requires xs[r - 1].round == r && xs[r - 1] in stored
    requires (if r == 1 then 0 else xs[r - 2].round) == r - 1
    requires xs[r - 1].parent == Digest(if r == 1 then GENESIS else xs[r - 2])
    ensures OneNewElement(st, stored, xs[r - 1])
    ensures var m := Merged(st, stored, xs[r - 1]);
            m.queue == Window(xs, r, len) && m.log == st.log && m.sent == st.sent
  {
    hide Sound, Exact, Walk, Extend;
    var head := xs[r - 1];
    var e := Entry(Digest(head), head);
    LastOf(xs, r - 1, len, st);
    SoundHash(st);
    assert Window(xs, r, len) == st.queue + [e];
    assert !AtBack(st.queue, Digest(head));
    WalkFromChild(st, stored, head);
    if st.queue != [] {
      AbsorbChild(st, head);
    } else {
      assert [e] == st.queue + [e];
    }
  }

  lemma SoundHash(st: State)
    requires Sound(st)
    ensures st.committedHash == Digest(st.committed)
  {
  }

  lemma StepAt(rs: seq<Rotation>, committee: set<Id>, st: State, stored: set<Element>,
               xs: seq<Element>, r: nat, len: nat)
    requires AllAccepted(rs, committee, len, xs) && 0 < r <= |xs| && xs[r - 1] in stored
    requires len > 0 && At(st, xs, r - 1, len)
    ensures At(EndRound(st, stored, xs[r - 1], len), xs, r, len)
  {
    hide Sound, EndRound, Merged, Distinct, CommittedMsgs;
    assert Accepted(rs, xs, r - 1) && (r > 1 ==> Accepted(rs, xs, r - 2));
    NextMerged(st, stored, xs, r, len);
    EndRoundSound(st, stored, xs[r - 1], len);
    WindowPops(rs, committee, len, xs, r);
    assert Merged(st, stored, xs[r - 1]).queue == Window(xs, r, len);
    var done, k := CommittedCount(r - 1, len), CommittedCount(r, len);
    var q := Window(xs, r, len);
    assert Whole(xs[..r])[..k] == Whole(xs[..r - 1])[..done] + q[..k - done];
    assert Whole(xs[..r])[k..] == q[k - done..];
    CommittedMsgsAppend(st.log, q[..k - done]);
  }

  lemma {:induction false} RunAt(rs: seq<Rotation>, committee: set<Id>, len: nat,
                                 xs: seq<Element>, inputs: seq<Input>, r: nat)
    requires AllAccepted(rs, committee, len, xs) && Ends(inputs, xs) && r <= |xs| && len > 0
    ensures At(RunAll(inputs[..r], len), xs, r, len)
  {
    hide EndRound, AllAccepted, Sound;
    if r == 0 {
      InitialSound();
      assert Whole(xs[..0]) == [GENESIS_ENTRY];
    } else {
      RunAt(rs, committee, len, xs, inputs, r - 1);
      assert inputs[..r][..r - 1] == inputs[..r - 1];
      StepAt(rs, committee, RunAll(inputs[..r - 1], len), inputs[r - 1].stored, xs, r, len);
    }
  }

  /** After `r` rounds the log is genesis and the elements of rounds 1 to
      r - len + 1, or still empty; nothing was rolled back. */
  lemma LogAfter(rs: seq<Rotation>, committee: set<Id>, len: nat,
                 xs: seq<Element>, inputs: seq<Input>, r: nat)
    requires AllAccepted(rs, committee, len, xs) && Ends(inputs, xs) && r <= |xs|
    ensures var st := RunAll(inputs[..r], len);
            && st.log == (if r < len then [] else Whole(xs[..r - len + 1]))
            && st.sent == CommittedMsgs(st.log)
  {
    LenPositive(rs, committee, len, xs);
    RunAt(rs, committee, len, xs, inputs, r);
    if r >= len {
      assert Whole(xs[..r])[..CommittedCount(r, len)] == Whole(xs[..r - len + 1]);
    }
  }

  /** The element of round `k` is committed after `r` rounds if and only if
      r >= k + len - 1: it commits exactly when round k + len - 1 ends. */
  lemma ExactLatency(rs: seq<Rotation>, committee: set<Id>, len: nat,
                     xs: seq<Element>, inputs: seq<Input>, k: nat, r: nat)
    requires AllAccepted(rs, committee, len, xs) && Ends(inputs, xs)
    requires 0 < k <= |xs| && r <= |xs|
    ensures Entry(Digest(xs[k - 1]), xs[k - 1]) in RunAll(inputs[..r], len).log <==> r >= k + len - 1
  {
    LogAfter(rs, committee, len, xs, inputs, r);
    var e := Entry(Digest(xs[k - 1]), xs[k - 1]);
    assert Accepted(rs, xs, k - 1);
    if r >= k + len - 1 {
      assert Whole(xs[..r - len + 1])[k] == e;
    } else if r >= len {
      var whole := Whole(xs[..r - len + 1]);
      forall i | 0 <= i < |whole| ensures whole[i] != e {
        if i > 0 {
          assert whole[i].element == xs[i - 1] && Accepted(rs, xs, i - 1);
        }
      }
    }
  }

  /** The same for a rotation as its constructor leaves it, with the window and
      the rotation both sized by `ids` and `f`. */
  lemma LatencyFromNew(ids: seq<Id>, f: nat, rs: seq<Rotation>, xs: seq<Element>,
                       inputs: seq<Input>, k: nat, r: nat)
    requires NoDuplicates(ids) && !Panics(ids, QuorumLen(|ids|, f))
    requires START_ID in ids[..|ids| - QuorumLen(|ids|, f)] || START_ID == ids[|ids| - 1]
    requires 0 < |rs| && IsRun(rs) && |xs| <= |rs|
    requires var s := Start(ids, QuorumLen(|ids|, f));
             rs[0].next in Freed(s) && rs[0] == Advance(s, rs[0].next).(round := 0)
    requires (forall i | 0 <= i < |xs| :: Accepted(rs, xs, i)) && Ends(inputs, xs)
    requires 0 < k <= |xs| && r <= |xs|
    ensures Entry(Digest(xs[k - 1]), xs[k - 1]) in RunAll(inputs[..r], QuorumLen(|ids|, f)).log
       <==> r >= k + QuorumLen(|ids|, f) - 1
  {
    hide Accepted, IsRun, Panics, NoDuplicates, Partition;
    var len := QuorumLen(|ids|, f);
    assert !Panics(ids, len);
    NewFairIff(ids, len, rs[0].next);
    assert Fair(rs[0], Members(ids), len);
    ExactLatency(rs, Members(ids), len, xs, inputs, k, r);
  }
}
