/** Zeus' committed-prefix lock: which candidate heads the conflict check lets
    through, and what the lock looks like after any sequence of commits. */
module PrefixLock {
  import opened Base
  import opened DataBlocks
  import BlockStore

  type Index = map<Hash, BlockStore.Meta>

  /** A committed attestation, reduced to the data block it pins. */
  datatype Pin = Pin(round: nat, hash: Hash, height: nat)

  predicate WellIndexed(meta: Index) {
    forall h <- meta ::
      && h.EnvelopeHash?
      && meta[h] == BlockStore.Meta(h.envelope.epoch, h.envelope.height, h.envelope.parent, h)
  }

  /** Parent-closed, heights rising by one. */
  predicate Closed(meta: Index) {
    && WellIndexed(meta) && GENESIS_HASH in meta
    && forall h <- meta :: h == GENESIS_HASH ||
         (h.envelope.parent in meta && h.envelope.height == meta[h.envelope.parent].height + 1)
  }

  /** In the index, or the next block on top of one that is. */
  predicate Attached(meta: Index, d: Hash) {
    && d.EnvelopeHash?
    && (d in meta ||
        (d.envelope.parent in meta && d.envelope.height == meta[d.envelope.parent].height + 1))
  }

  // ----- The check -----

  /** The walk from a candidate down to `target`; none if a parent is missing. */
  function AncestorAt(meta: Index, hash: Hash, height: nat, parent: Hash, target: nat): Option<Hash>
    requires WellIndexed(meta)
    decreases parent
  {
    if height <= target then Some(hash)
    else if parent !in meta then None
    else AncestorAt(meta, meta[parent].hash, meta[parent].height, meta[parent].parent, target)
  }

  predicate Passes(meta: Index, hash: Hash, height: nat, parent: Hash, pin: Pin)
    requires WellIndexed(meta)
  {
    pin.height <= height && AncestorAt(meta, hash, height, parent, pin.height) == Some(pin.hash)
  }

  predicate Conflicts(meta: Index, hash: Hash, height: nat, parent: Hash, lock: seq<Pin>)
    requires WellIndexed(meta)
  {
    exists pin <- lock :: !Passes(meta, hash, height, parent, pin)
  }

  method ConflictsDataPrefix(dHash: Hash, dHeight: nat, dParent: Hash, lock: seq<Pin>, meta: Index)
    returns (conflicts: bool)
    requires WellIndexed(meta)
    ensures conflicts == Conflicts(meta, dHash, dHeight, dParent, lock)
  {
    for i := 0 to |lock|
      invariant forall j | 0 <= j < i :: Passes(meta, dHash, dHeight, dParent, lock[j])
    {
      var pin := lock[i];
      assert pin in lock;
      if pin.height <= dHeight {
        var hash: Hash, height: nat, parent: Hash := dHash, dHeight, dParent;
        while height > pin.height
          invariant AncestorAt(meta, hash, height, parent, pin.height)
                 == AncestorAt(meta, dHash, dHeight, dParent, pin.height)
          decreases parent
        {
          if parent !in meta {
            return true;
          }
          var m := meta[parent];
          hash, height, parent := m.hash, m.height, m.parent;
        }
        if hash != pin.hash {
          return true;
        }
      } else {
        return true;
      }
    }
    return false;
  }

  // ----- What passing means -----

  /** The pin names a block and claims that block's own height. */
  predicate Genuine(pin: Pin) {
    pin.hash.EnvelopeHash? && pin.hash.envelope.height == pin.height
  }

  lemma {:induction false} AncestorHeights(meta: Index, a: Hash, d: Hash)
    requires Closed(meta) && d in meta && AncestorOrSelf(a, d) && a.EnvelopeHash?
    ensures a in meta && a.envelope.height <= d.envelope.height
    ensures a.envelope.height == d.envelope.height ==> a == d
    decreases d
  {
    if a != d {
      assert d != GENESIS_HASH;
      AncestorHeights(meta, a, d.envelope.parent);
    }
  }

  lemma {:induction false} AncestorAtCorrect(meta: Index, d: Hash, target: nat)
    requires Closed(meta) && d in meta && target <= d.envelope.height
    ensures var r := AncestorAt(meta, d, d.envelope.height, d.envelope.parent, target);
            r.Some? && r.value in meta && r.value.envelope.height == target && AncestorOrSelf(r.value, d)
    decreases d
  {
    if d.envelope.height > target {
      assert d != GENESIS_HASH;
      AncestorAtCorrect(meta, d.envelope.parent, target);
    }
  }

  lemma PassesIffInIndex(meta: Index, d: Hash, pin: Pin)
    requires Closed(meta) && d in meta
    ensures Passes(meta, d, d.envelope.height, d.envelope.parent, pin)
       <==> Genuine(pin) && AncestorOrSelf(pin.hash, d)
  {
    if pin.height <= d.envelope.height {
      AncestorAtCorrect(meta, d, pin.height);
      var a := AncestorAt(meta, d, d.envelope.height, d.envelope.parent, pin.height).value;
      if Genuine(pin) && AncestorOrSelf(pin.hash, d) {
        AncestorHeights(meta, pin.hash, d);
        SameHeightAncestors(meta, a, pin.hash, d);
      }
    } else if Genuine(pin) && AncestorOrSelf(pin.hash, d) {
      AncestorHeights(meta, pin.hash, d);
      assert false;
    }
  }

  /** A block has at most one ancestor of each height. */
  lemma SameHeightAncestors(meta: Index, a: Hash, b: Hash, d: Hash)
    requires Closed(meta) && d in meta && a.EnvelopeHash? && b.EnvelopeHash?
    requires AncestorOrSelf(a, d) && AncestorOrSelf(b, d) && a.envelope.height == b.envelope.height
    ensures a == b
  {
    AncestorHeights(meta, a, d);
    AncestorHeights(meta, b, d);
    AncestorsLinear(a, b, d);
    if AncestorOrSelf(a, b) {
      AncestorHeights(meta, a, b);
    } else {
      AncestorHeights(meta, b, a);
    }
  }

  lemma PassesIff(meta: Index, d: Hash, pin: Pin)
    requires Closed(meta) && Attached(meta, d)
    ensures Passes(meta, d, d.envelope.height, d.envelope.parent, pin)
       <==> Genuine(pin) && AncestorOrSelf(pin.hash, d)
  {
    if d in meta {
      PassesIffInIndex(meta, d, pin);
    } else {
      var p := d.envelope.parent;
      PassesIffInIndex(meta, p, pin);
      if Genuine(pin) && AncestorOrSelf(pin.hash, d) && pin.hash != d {
        AncestorHeights(meta, pin.hash, p);
      }
    }
  }

  /** On a parent-closed index a candidate passes if and only if every pin claims
      its block's own height and that block is an ancestor of the candidate, or
      the candidate itself. */
  lemma ConflictsIff(meta: Index, d: Hash, lock: seq<Pin>)
    requires Closed(meta) && Attached(meta, d)
    ensures !Conflicts(meta, d, d.envelope.height, d.envelope.parent, lock)
       <==> forall pin <- lock :: Genuine(pin) && AncestorOrSelf(pin.hash, d)
  {
    forall pin | pin in lock
      ensures Passes(meta, d, d.envelope.height, d.envelope.parent, pin)
         <==> Genuine(pin) && AncestorOrSelf(pin.hash, d)
    {
      PassesIff(meta, d, pin);
    }
  }

  /** A pin that claims another height than its block's conflicts with everything. */
  lemma FalseHeightBlocks(meta: Index, d: Hash, lock: seq<Pin>, pin: Pin)
    requires Closed(meta) && Attached(meta, d) && pin in lock && !Genuine(pin)
    ensures Conflicts(meta, d, d.envelope.height, d.envelope.parent, lock)
  {
    ConflictsIff(meta, d, lock);
  }

  // ----- The lock -----

  /** The attestation that pins the greatest height; of several, the last. */
  function Latest(lock: seq<Pin>): (r: Option<Pin>)
    ensures r.None? <==> lock == []
    ensures r.Some? ==> r.value in lock && forall pin <- lock :: pin.height <= r.value.height
  {
    if lock == [] then None
    else
      var rest := Latest(lock[..|lock| - 1]);
      var last := lock[|lock| - 1];
      assert lock == lock[..|lock| - 1] + [last];
      if rest.Some? && rest.value.height > last.height then rest else Some(last)
  }

  function Retain(lock: seq<Pin>, height: nat): (r: seq<Pin>)
    ensures forall pin :: pin in r <==> pin in lock && pin.height >= height
  {
    if lock == [] then []
    else if lock[0].height >= height then [lock[0]] + Retain(lock[1..], height)
    else Retain(lock[1..], height)
  }

  /** A commit keeps what pins at least its height, and is added if nothing does. */
  function Committed(lock: seq<Pin>, pin: Pin): seq<Pin> {
    var kept := Retain(lock, pin.height);
    if kept == [] then [pin] else kept
  }

  function LockAfter(commits: seq<Pin>): seq<Pin> {
    if commits == [] then []
    else Committed(LockAfter(commits[..|commits| - 1]), commits[|commits| - 1])
  }

  /** Index of the first commit of the greatest height. */
  function FirstHighest(commits: seq<Pin>): (i: nat)
    requires commits != []
    ensures i < |commits|
    ensures forall j | 0 <= j < i :: commits[j].height < commits[i].height
    ensures forall j | i <= j < |commits| :: commits[j].height <= commits[i].height
  {
    var n := |commits| - 1;
    if n == 0 then 0
    else
      var i := FirstHighest(commits[..n]);
      assert forall j | 0 <= j < n :: commits[..n][j] == commits[j];
      if commits[i].height >= commits[n].height then i else n
  }

  /** After any commits the lock holds one pin, the first of the greatest height. */
  lemma {:induction false} LockIsFirstHighest(commits: seq<Pin>)
    requires commits != []
    ensures LockAfter(commits) == [commits[FirstHighest(commits)]]
  {
    var n := |commits| - 1;
    if n > 0 {
      LockIsFirstHighest(commits[..n]);
      RetainOne(commits[FirstHighest(commits[..n])], commits[n].height);
    }
  }

  lemma RetainOne(pin: Pin, height: nat)
    ensures Retain([pin], height) == if pin.height >= height then [pin] else []
  {
    assert [pin][1..] == [];
  }

  // ----- What the lock covers -----

  predicate Covers(lock: seq<Pin>, commits: seq<Pin>) {
    forall p <- lock, c <- commits :: AncestorOrSelf(c.hash, p.hash)
  }

  predicate Comparable(p: Pin, q: Pin) {
    AncestorOrSelf(p.hash, q.hash) || AncestorOrSelf(q.hash, p.hash)
  }

  predicate Chained(pins: seq<Pin>) {
    forall p <- pins, q <- pins :: Comparable(p, q)
  }

  lemma LockedPin(commits: seq<Pin>) returns (pin: Pin)
    requires commits != []
    ensures LockAfter(commits) == [pin] && pin in commits
    ensures forall c <- commits :: c.height <= pin.height
  {
    LockIsFirstHighest(commits);
    pin := commits[FirstHighest(commits)];
    forall c | c in commits ensures c.height <= pin.height {
      var j :| 0 <= j < |commits| && commits[j] == c;
    }
  }

  lemma LockMore(commits: seq<Pin>, pin: Pin)
    ensures LockAfter(commits + [pin]) == Committed(LockAfter(commits), pin)
  {
    assert (commits + [pin])[..|commits|] == commits;
  }

  lemma OwnAncestor(h: Hash)
    ensures AncestorOrSelf(h, h)
  {
  }

  /** A commit is not checked. The lock goes on covering everything committed if and
      only if the lower of the old and the new pin is an ancestor of the other. */
  lemma CommitCoversIff(commits: seq<Pin>, locked: Pin, pin: Pin)
    requires LockAfter(commits) == [locked] && locked in commits && Covers([locked], commits)
    ensures Covers(LockAfter(commits + [pin]), commits + [pin])
       <==> if pin.height <= locked.height then AncestorOrSelf(pin.hash, locked.hash)
            else AncestorOrSelf(locked.hash, pin.hash)
  {
    hide AncestorOrSelf, LockAfter;
    LockMore(commits, pin);
    RetainOne(locked, pin.height);
    OwnAncestor(pin.hash);
    var more := commits + [pin];
    assert pin in more && locked in more;
    if pin.height <= locked.height {
      assert LockAfter(more) == [locked];
    } else {
      assert LockAfter(more) == [pin];
      if AncestorOrSelf(locked.hash, pin.hash) {
        forall c | c in commits ensures AncestorOrSelf(c.hash, pin.hash) {
          assert locked in [locked];
          AncestorTransitive(c.hash, locked.hash, pin.hash);
        }
      }
    }
  }

  /** After any commits the lock covers them all if and only if any two of their
      blocks are comparable and the locked one is the deepest. */
  lemma LockCoversIff(commits: seq<Pin>, top: Pin)
    requires LockAfter(commits) == [top] && top in commits
    ensures Covers(LockAfter(commits), commits)
       <==> Chained(commits) && forall c <- commits :: Depth(c.hash) <= Depth(top.hash)
  {
    hide AncestorOrSelf, LockAfter, Depth;
    assert top in [top];
    if Covers([top], commits) {
      forall c | c in commits ensures Depth(c.hash) <= Depth(top.hash) {
        AncestorDepth(c.hash, top.hash);
      }
      forall p, q | p in commits && q in commits ensures Comparable(p, q) {
        AncestorsLinear(p.hash, q.hash, top.hash);
      }
    } else if Chained(commits) && forall c <- commits :: Depth(c.hash) <= Depth(top.hash) {
      forall c | c in commits ensures AncestorOrSelf(c.hash, top.hash) {
        DeeperIsAbove(c, top);
      }
    }
  }

  lemma DeeperIsAbove(c: Pin, top: Pin)
    requires Comparable(c, top) && Depth(c.hash) <= Depth(top.hash)
    ensures AncestorOrSelf(c.hash, top.hash)
  {
    if AncestorOrSelf(top.hash, c.hash) {
      AncestorDepth(top.hash, c.hash);
      OwnAncestor(c.hash);
    }
  }

  lemma {:induction false} HeightIsDepth(meta: Index, h: Hash)
    requires Closed(meta) && h in meta
    ensures Depth(h) == h.envelope.height + 1
    decreases h
  {
    if h != GENESIS_HASH {
      HeightIsDepth(meta, h.envelope.parent);
    }
  }

  /** For pins that claim their blocks' own heights comparability decides alone. */
  lemma GenuineCoversIff(meta: Index, commits: seq<Pin>)
    requires Closed(meta) && commits != [] && forall c <- commits :: Genuine(c) && c.hash in meta
    ensures Covers(LockAfter(commits), commits) <==> Chained(commits)
  {
    hide LockAfter, Covers, Chained, Depth, Closed;
    var top := LockedPin(commits);
    forall c | c in commits ensures Depth(c.hash) <= Depth(top.hash) {
      HeightIsDepth(meta, c.hash);
      HeightIsDepth(meta, top.hash);
    }
    LockCoversIff(commits, top);
  }

  // ----- Validation and commit as separate steps -----

  /** An attestation passes validation against the lock of that moment, or is
      committed, some rounds later, with no further check. */
  datatype Event = Validate(pin: Pin) | Commit(pin: Pin)

  function CommitsOf(es: seq<Event>): seq<Pin> {
    if es == [] then []
    else CommitsOf(es[..|es| - 1]) + (if es[|es| - 1].Commit? then [es[|es| - 1].pin] else [])
  }

  /** The block's own height drives the check, not the claimed one. */
  predicate AttestationValid(meta: Index, lock: seq<Pin>, pin: Pin)
    requires WellIndexed(meta)
  {
    && pin.hash in meta
    && !Conflicts(meta, pin.hash, meta[pin.hash].height, meta[pin.hash].parent, lock)
  }

  predicate ValidatedIn(meta: Index, es: seq<Event>, pin: Pin)
    requires WellIndexed(meta)
  {
    exists j | 0 <= j < |es| :: es[j] == Validate(pin) && AttestationValid(meta, LockAfter(CommitsOf(es[..j])), pin)
  }

  /** Only attestations validated earlier are committed. */
  predicate Legal(meta: Index, es: seq<Event>)
    requires WellIndexed(meta)
  {
    es == [] ||
    (var n := |es| - 1;
     Legal(meta, es[..n]) && (es[n].Commit? ==> ValidatedIn(meta, es[..n], es[n].pin)))
  }

  function Validates(es: seq<Event>): set<Pin> {
    set e | e in es && e.Validate? :: e.pin
  }

  lemma {:induction false} CommitsAreValidated(meta: Index, es: seq<Event>)
    requires WellIndexed(meta) && Legal(meta, es)
    ensures forall c <- CommitsOf(es) :: c in Validates(es) && c.hash in meta
  {
    hide Conflicts, Validates;
    if es != [] {
      var n := |es| - 1;
      CommitsAreValidated(meta, es[..n]);
      ValidatesMore(es);
      if es[n].Commit? {
        var j :| 0 <= j < n && es[..n][j] == Validate(es[n].pin)
                 && AttestationValid(meta, LockAfter(CommitsOf(es[..n][..j])), es[n].pin);
        ValidatesAt(es[..n], j);
      }
    }
  }

  lemma ValidatesMore(es: seq<Event>)
    requires es != []
    ensures Validates(es[..|es| - 1]) <= Validates(es)
  {
  }

  lemma ValidatesAt(es: seq<Event>, j: nat)
    requires j < |es| && es[j].Validate?
    ensures es[j].pin in Validates(es)
  {
    assert es[j] in es;
  }

  predicate ComparableSet(pins: set<Pin>) {
    forall p <- pins, q <- pins :: Comparable(p, q)
  }

  /** If the validated attestations claim their blocks' heights and no two name
      incomparable blocks, the lock covers every commit, however late it comes. */
  lemma ValidatedChainCovers(meta: Index, es: seq<Event>)
    requires Closed(meta) && Legal(meta, es) && ComparableSet(Validates(es))
    requires forall p <- Validates(es) :: Genuine(p)
    ensures Covers(LockAfter(CommitsOf(es)), CommitsOf(es))
  {
    hide Legal, Validates, LockAfter, Comparable, Closed;
    assert WellIndexed(meta) by { ClosedIsWellIndexed(meta); }
    CommitsAreValidated(meta, es);
    if CommitsOf(es) != [] {
      GenuineCoversIff(meta, CommitsOf(es));
    }
  }

  lemma ClosedIsWellIndexed(meta: Index)
    requires Closed(meta)
    ensures WellIndexed(meta)
  {
  }

  function PinOf(round: nat, h: Hash): Pin
    requires h.EnvelopeHash?
  {
    Pin(round, h, h.envelope.height)
  }

  /** Two attestations are validated before either is committed. */
  function LateCommits(p: Pin, q: Pin): seq<Event> {
    [Validate(p), Validate(q), Commit(p), Commit(q)]
  }

  lemma LegalMore(meta: Index, es: seq<Event>, e: Event)
    requires WellIndexed(meta) && Legal(meta, es) && (e.Commit? ==> ValidatedIn(meta, es, e.pin))
    ensures Legal(meta, es + [e])
    ensures CommitsOf(es + [e]) == CommitsOf(es) + (if e.Commit? then [e.pin] else [])
  {
    assert (es + [e])[..|es|] == es;
  }

  lemma FirstValid(meta: Index, es: seq<Event>, j: nat)
    requires Closed(meta) && j < |es| && es[j].Validate? && es[j].pin.hash in meta && CommitsOf(es[..j]) == []
    ensures ValidatedIn(meta, es, es[j].pin)
  {
    hide CommitsOf;
    ConflictsIff(meta, es[j].pin.hash, []);
    assert LockAfter(CommitsOf(es[..j])) == [];
  }

  lemma NothingYet(meta: Index)
    requires WellIndexed(meta)
    ensures Legal(meta, []) && CommitsOf([]) == []
  {
  }

  /** Of any two incomparable blocks of different heights the lower is lost: both
      pass validation first, then both are committed, and the lock keeps the higher
      one only. */
  lemma LateCommitLosesPin(meta: Index, x: Hash, y: Hash)
    requires Closed(meta) && x in meta && y in meta
    requires x.envelope.height < y.envelope.height && !AncestorOrSelf(x, y)
    ensures var es := LateCommits(PinOf(1, x), PinOf(2, y));
            && Legal(meta, es) && CommitsOf(es) == [PinOf(1, x), PinOf(2, y)]
            && LockAfter(CommitsOf(es)) == [PinOf(2, y)] && !Covers(LockAfter(CommitsOf(es)), CommitsOf(es))
  {
    hide Legal, CommitsOf, LockAfter, AncestorOrSelf, ValidatedIn;
    var p, q := PinOf(1, x), PinOf(2, y);
    var es := LateCommits(p, q);
    LateCommitsLegal(meta, p, q);
    LockMore([], p);
    LockMore([p], q);
    assert LockAfter([]) == [] by { NoLock(); }
    assert [] + [p] == [p] && [p] + [q] == [p, q];
    RetainOne(p, q.height);
    assert p in [p, q] && q in [q];
  }

  lemma NoLock()
    ensures LockAfter([]) == []
  {
  }

  lemma LateCommitsLegal(meta: Index, p: Pin, q: Pin)
    requires Closed(meta) && p.hash in meta && q.hash in meta
    ensures Legal(meta, LateCommits(p, q)) && CommitsOf(LateCommits(p, q)) == [p, q]
  {
    hide Legal, CommitsOf, ValidatedIn;
    var es := LateCommits(p, q);
    assert WellIndexed(meta) by { ClosedIsWellIndexed(meta); }
    hide Closed;
    assert [] + [es[0]] == [es[0]] && [es[0]] + [es[1]] == [es[0], es[1]];
    assert [es[0], es[1]] + [es[2]] == [es[0], es[1], es[2]] && [es[0], es[1], es[2]] + [es[3]] == es;
    NothingYet(meta);
    LegalMore(meta, [], es[0]);
    LegalMore(meta, [es[0]], es[1]);
    assert [es[0], es[1]][..0] == [] && [es[0], es[1], es[2]][..1] == [es[0]];
    FirstValid(meta, [es[0], es[1]], 0);
    LegalMore(meta, [es[0], es[1]], es[2]);
    FirstValid(meta, [es[0], es[1], es[2]], 1);
    LegalMore(meta, [es[0], es[1], es[2]], es[3]);
  }

  const LEFT: Envelope := Envelope(1, 1, [], GENESIS_HASH)
  const RIGHT: Envelope := Envelope(2, 1, [], GENESIS_HASH)
  const ABOVE_RIGHT: Envelope := Envelope(2, 2, [], EnvelopeHash(RIGHT))

  /** Genesis with two children, one of which has a child. */
  const FORKED: Index := map[
    GENESIS_HASH := BlockStore.Meta(0, 0, EMPTY_HASH, GENESIS_HASH),
    EnvelopeHash(LEFT) := BlockStore.Meta(1, 1, GENESIS_HASH, EnvelopeHash(LEFT)),
    EnvelopeHash(RIGHT) := BlockStore.Meta(2, 1, GENESIS_HASH, EnvelopeHash(RIGHT)),
    EnvelopeHash(ABOVE_RIGHT) := BlockStore.Meta(2, 2, EnvelopeHash(RIGHT), EnvelopeHash(ABOVE_RIGHT))]

  /** A concrete such run. */
  lemma ForkedRunLosesPin()
    ensures Closed(FORKED)
    ensures var es := LateCommits(PinOf(1, EnvelopeHash(LEFT)), PinOf(2, EnvelopeHash(ABOVE_RIGHT)));
            Legal(FORKED, es) && !Covers(LockAfter(CommitsOf(es)), CommitsOf(es))
  {
    hide Legal, CommitsOf, LockAfter, Covers, LateCommits;
    assert !AncestorOrSelf(EnvelopeHash(LEFT), GENESIS_HASH) && !AncestorOrSelf(EnvelopeHash(LEFT), EnvelopeHash(RIGHT));
    LateCommitLosesPin(FORKED, EnvelopeHash(LEFT), EnvelopeHash(ABOVE_RIGHT));
  }

  // ----- Commits that were checked against the lock as it was -----

  predicate CheckedCommits(meta: Index, commits: seq<Pin>)
    requires WellIndexed(meta)
  {
    commits == [] ||
    (var n := |commits| - 1;
     && CheckedCommits(meta, commits[..n])
     && Genuine(commits[n]) && AttestationValid(meta, LockAfter(commits[..n]), commits[n]))
  }

  /** Between the validation and the commit of an attestation no other is committed. */
  predicate Prompt(meta: Index, es: seq<Event>)
    requires WellIndexed(meta)
  {
    es == [] ||
    (var n := |es| - 1;
     && Prompt(meta, es[..n])
     && (es[n].Commit? ==> exists j | 0 <= j < n ::
           && es[j] == Validate(es[n].pin) && CommitsOf(es[..j]) == CommitsOf(es[..n])
           && AttestationValid(meta, LockAfter(CommitsOf(es[..j])), es[n].pin)))
  }

  lemma {:induction false} PromptIsChecked(meta: Index, es: seq<Event>)
    requires WellIndexed(meta) && Prompt(meta, es) && forall c <- CommitsOf(es) :: Genuine(c)
    ensures CheckedCommits(meta, CommitsOf(es))
  {
    hide Conflicts, LockAfter;
    if es != [] {
      var n := |es| - 1;
      PromptIsChecked(meta, es[..n]);
      if es[n].Commit? {
        assert CommitsOf(es)[..|CommitsOf(es)| - 1] == CommitsOf(es[..n]);
        assert es[n].pin in CommitsOf(es);
      } else {
        assert CommitsOf(es) == CommitsOf(es[..n]);
      }
    }
  }

  lemma {:induction false} CheckedMember(meta: Index, commits: seq<Pin>, i: nat)
    requires WellIndexed(meta) && CheckedCommits(meta, commits) && i < |commits|
    ensures Genuine(commits[i]) && commits[i].hash in meta
  {
    if i < |commits| - 1 {
      CheckedMember(meta, commits[..|commits| - 1], i);
    }
  }

  /** A commit that was checked extends what was locked before it. */
  lemma LastExtends(meta: Index, commits: seq<Pin>)
    requires Closed(meta) && CheckedCommits(meta, commits) && |commits| > 1
    ensures var locked := commits[FirstHighest(commits[..|commits| - 1])]; var pin := commits[|commits| - 1];
            && AncestorOrSelf(locked.hash, pin.hash) && locked.height <= pin.height
            && (locked.height == pin.height ==> locked.hash == pin.hash)
  {
    var n := |commits| - 1;
    var k := FirstHighest(commits[..n]);
    LockIsFirstHighest(commits[..n]);
    assert commits[..n][k] == commits[k];
    CheckedMember(meta, commits, n);
    CheckedMember(meta, commits, k);
    ConflictsIff(meta, commits[n].hash, LockAfter(commits[..n]));
    AncestorHeights(meta, commits[k].hash, commits[n].hash);
  }

  /** The locked pin always names the block that was committed last. */
  lemma LockedIsLast(meta: Index, commits: seq<Pin>)
    requires Closed(meta) && CheckedCommits(meta, commits) && commits != []
    ensures commits[FirstHighest(commits)].hash == commits[|commits| - 1].hash
  {
    if |commits| > 1 {
      LastExtends(meta, commits);
    }
  }

  lemma ExtendsPrevious(meta: Index, commits: seq<Pin>)
    requires Closed(meta) && CheckedCommits(meta, commits) && |commits| > 1
    ensures AncestorOrSelf(commits[|commits| - 2].hash, commits[|commits| - 1].hash)
  {
    var front := commits[..|commits| - 1];
    LockedIsLast(meta, front);
    LastExtends(meta, commits);
    assert front[FirstHighest(front)] == commits[FirstHighest(front)];
  }

  /** Commits that were all checked against the lock as it was lie on one chain:
      every pin is an ancestor of each later one. */
  lemma {:induction false} LockIsLinear(meta: Index, commits: seq<Pin>, i: nat, j: nat)
    requires Closed(meta) && CheckedCommits(meta, commits) && i <= j < |commits|
    ensures AncestorOrSelf(commits[i].hash, commits[j].hash)
    decreases j
  {
    hide Closed, CheckedCommits, AncestorOrSelf;
    if i == j {
      OwnAncestor(commits[i].hash);
    } else {
      LockIsLinear(meta, commits, i, j - 1);
      var upTo := commits[..j + 1];
      CheckedPrefix(meta, commits, j + 1);
      ExtendsPrevious(meta, upTo);
      AncestorTransitive(commits[i].hash, commits[j - 1].hash, commits[j].hash);
    }
  }

  lemma {:induction false} CheckedPrefix(meta: Index, commits: seq<Pin>, k: nat)
    requires Closed(meta) && CheckedCommits(meta, commits) && k <= |commits|
    ensures CheckedCommits(meta, commits[..k])
  {
    if k < |commits| {
      CheckedPrefix(meta, commits[..|commits| - 1], k);
      assert commits[..|commits| - 1][..k] == commits[..k];
    } else {
      assert commits[..k] == commits;
    }
  }

  /** If every commit comes before another one can, the lock covers them all. */
  lemma PromptCovers(meta: Index, es: seq<Event>)
    requires Closed(meta) && Prompt(meta, es) && forall c <- CommitsOf(es) :: Genuine(c)
    ensures Covers(LockAfter(CommitsOf(es)), CommitsOf(es))
  {
    hide Closed, Prompt, CheckedCommits, AncestorOrSelf, LockAfter;
    assert WellIndexed(meta) by { ClosedIsWellIndexed(meta); }
    PromptIsChecked(meta, es);
    var commits := CommitsOf(es);
    if commits != [] {
      LockIsFirstHighest(commits);
      LockedIsLast(meta, commits);
      forall c | c in commits ensures AncestorOrSelf(c.hash, LockAfter(commits)[0].hash) {
        var i :| 0 <= i < |commits| && commits[i] == c;
        LockIsLinear(meta, commits, i, |commits| - 1);
      }
    } else {
      NoLock();
    }
  }

  // ----- Where a new epoch starts -----

  /** D*: the locked block, or genesis. */
  function StartHash(lock: seq<Pin>): Hash {
    if Latest(lock).Some? then Latest(lock).value.hash else GENESIS_HASH
  }

  function StartHeight(lock: seq<Pin>): nat {
    if Latest(lock).Some? then Latest(lock).value.height else 0
  }

  lemma {:induction false} GenesisBelow(meta: Index, d: Hash)
    requires Closed(meta) && d in meta
    ensures AncestorOrSelf(GENESIS_HASH, d)
    decreases d
  {
    if d != GENESIS_HASH {
      GenesisBelow(meta, d.envelope.parent);
    }
  }

  /** Whatever was committed, the block a new epoch starts from passes the conflict
      check if and only if the locked attestation claims its block's own height, and
      that is when the height recorded with it is the block's. */
  lemma StartPassesIff(meta: Index, lock: seq<Pin>)
    requires Closed(meta) && |lock| <= 1 && forall pin <- lock :: pin.hash in meta
    ensures var d := StartHash(lock); var honest := forall pin <- lock :: Genuine(pin);
            && d in meta
            && (!Conflicts(meta, d, d.envelope.height, d.envelope.parent, lock) <==> honest)
            && (StartHeight(lock) == d.envelope.height <==> honest)
  {
    hide Conflicts, AncestorOrSelf;
    ConflictsIff(meta, StartHash(lock), lock);
    OwnAncestor(StartHash(lock));
    if lock != [] {
      assert lock == [lock[0]] && lock[0] in lock;
    }
  }

  /** An attestation of a stored block passes exactly when the locked one claims its
      block's height and the block descends from that start, whatever its own epoch
      and height. */
  lemma AttestationValidIff(meta: Index, lock: seq<Pin>, pin: Pin)
    requires Closed(meta) && |lock| <= 1 && pin.hash in meta
    ensures AttestationValid(meta, lock, pin)
       <==> (forall p <- lock :: Genuine(p)) && AncestorOrSelf(StartHash(lock), pin.hash)
  {
    hide Conflicts, AncestorOrSelf;
    ConflictsIff(meta, pin.hash, lock);
    if lock == [] {
      GenesisBelow(meta, pin.hash);
    } else {
      assert lock == [lock[0]] && lock[0] in lock;
    }
  }
}
