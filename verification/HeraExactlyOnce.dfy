/** Exactly-once emission for an author with one linear chain of heights 1, 2, ... */
module HeraExactlyOnce {
  import opened Base
  import opened DataBlocks
  import opened HeraChain
  import opened HeraConvergence
  import opened HeraAttestation
  import opened HeraEmission

  predicate Numbered(ch: seq<Envelope>) {
    && Linked(ch)
    && forall i | 0 <= i < |ch| :: ch[i].height == i + 1
  }

  /** Position on its chain of the block that a hash names; 0 is genesis. */
  function Position(h: Hash): nat {
    if Depth(h) == 0 then 0 else Depth(h) - 1
  }

  predicate NamesBlockOf(ch: seq<Envelope>, h: Hash) {
    Position(h) <= |ch| && h == Tip(ch, Position(h))
  }

  /** The head names a block of the chain and claims no more than its height. */
  predicate HonestHead(ch: seq<Envelope>, head: DataHead) {
    NamesBlockOf(ch, head.hash) && head.height <= Position(head.hash)
  }

  /** Everything emitted for author `a`, in order. */
  function LogOf(out: seq<Emission>, a: Id): seq<Envelope> {
    if out == [] then [] else LogOne(out[0], a) + LogOf(out[1..], a)
  }

  function LogOne(e: Emission, a: Id): seq<Envelope> {
    if e.author == a then [e.envelope] else []
  }

  function Min(a: nat, b: nat): nat {
    if a <= b then a else b
  }

  lemma {:induction false} LineageIsSuffix(ch: seq<Envelope>, j: nat, from: nat)
    requires Numbered(ch) && from <= j <= |ch|
    ensures Reverse(Lineage(Tip(ch, j), from)) == ch[from..j]
  {
    if j > from {
      LineageIsSuffix(ch, j - 1, from);
      assert ch[j - 1].parent == Tip(ch, j - 1) && ch[j - 1].height == j;
      var rest := Lineage(Tip(ch, j - 1), from);
      assert Lineage(Tip(ch, j), from) == [ch[j - 1]] + rest;
      assert ([ch[j - 1]] + rest)[1..] == rest;
    } else if j > 0 {
      assert ch[j - 1].height == j;
    }
  }

  lemma ClipStep(ch: seq<Envelope>, from: nat, i: nat, j: nat, to: nat)
    requires Numbered(ch) && from <= i < j <= |ch|
    ensures Clip(ch[i..j], from, to) == (if i < to then [ch[i]] else []) + Clip(ch[i + 1..j], from, to)
  {
    assert ch[i..j][1..] == ch[i + 1..j];
    assert ch[i..j][0].height == i + 1;
  }

  lemma {:induction false} ClipAppend(x: seq<Envelope>, y: seq<Envelope>, from: nat, to: nat)
    ensures Clip(x + y, from, to) == Clip(x, from, to) + Clip(y, from, to)
  {
    if x == [] {
      assert x + y == y;
    } else {
      TailOfAppend(x, y);
      ClipAppend(x[1..], y, from, to);
    }
  }

  lemma {:induction false} ClipBelow(ch: seq<Envelope>, from: nat, i: nat, j: nat, to: nat)
    requires Numbered(ch) && from <= i <= j <= |ch| && j <= to
    ensures Clip(ch[i..j], from, to) == ch[i..j]
    decreases j - i
  {
    hide Numbered, Clip;
    if i == j {
      ClipNone(from, to);
      assert ch[i..j] == [];
    } else {
      ClipBelow(ch, from, i + 1, j, to);
      ClipStep(ch, from, i, j, to);
      assert ch[i..j] == [ch[i]] + ch[i + 1..j];
    }
  }

  lemma {:induction false} ClipAbove(ch: seq<Envelope>, from: nat, i: nat, j: nat, to: nat)
    requires Numbered(ch) && from <= i <= j <= |ch| && to <= i
    ensures Clip(ch[i..j], from, to) == []
    decreases j - i
  {
    hide Numbered, Clip;
    if i == j {
      ClipNone(from, to);
      assert ch[i..j] == [];
    } else {
      ClipAbove(ch, from, i + 1, j, to);
      ClipStep(ch, from, i, j, to);
    }
  }

  lemma ClipNone(from: nat, to: nat)
    ensures Clip([], from, to) == []
  {
  }

  lemma ClipIsPrefix(ch: seq<Envelope>, from: nat, i: nat, j: nat, to: nat)
    requires Numbered(ch) && from <= i <= j <= |ch|
    ensures Clip(ch[i..j], from, to) == if i <= Min(j, to) then ch[i..Min(j, to)] else []
  {
    hide Numbered, Clip;
    if j <= to {
      ClipBelow(ch, from, i, j, to);
    } else if to <= i {
      ClipAbove(ch, from, i, j, to);
    } else {
      ClipBelow(ch, from, i, to, to);
      ClipAbove(ch, from, to, j, to);
      ClipAppend(ch[i..to], ch[to..j], from, to);
      assert ch[i..j] == ch[i..to] + ch[to..j];
    }
  }

  /** The range walked from the `j`-th block, from watermark `k` up to `to`. */
  lemma RangeIsSlice(ch: seq<Envelope>, j: nat, k: nat, to: nat)
    requires Numbered(ch) && j <= |ch| && k < to
    ensures RangeOf(Tip(ch, j), k, to) == if k <= Min(j, to) then ch[k..Min(j, to)] else []
  {
    if k <= j {
      LineageIsSuffix(ch, j, k);
      ClipIsPrefix(ch, k, k, j, to);
    } else if j > 0 {
      assert ch[j - 1].height == j;
    }
  }

  // ----- Which heads continue an author's chain -----

  /** From `tip` the parent links lead to `base` over heights above `height` only. */
  predicate ReachesAbove(tip: Hash, base: Hash, height: nat) {
    || tip == base
    || match tip
       case RawHash(_) => false
       case EnvelopeHash(e) => e.height > height && ReachesAbove(e.parent, base, height)
  }

  /** The head's hash lies on top of the author's block of the head's height. */
  predicate Fits(ch: seq<Envelope>, head: DataHead) {
    head.height <= |ch| && ReachesAbove(head.hash, Tip(ch, head.height), head.height)
  }

  lemma {:induction false} ClipHeights(es: seq<Envelope>, from: nat, to: nat)
    ensures forall e <- Clip(es, from, to) :: from < e.height <= to
  {
    if es != [] {
      ClipHeights(es[1..], from, to);
    }
  }

  /** One step of the backward walk, whatever hash it starts from. */
  lemma RangeStep(e: Envelope, from: nat, to: nat)
    requires from < to
    ensures RangeOf(EnvelopeHash(e), from, to)
         == if e.height <= from then []
            else RangeOf(e.parent, from, to) + (if e.height <= to then [e] else [])
  {
    if e.height > from {
      var rest := Lineage(e.parent, from);
      assert ([e] + rest)[1..] == rest;
      ClipAppend(Reverse(rest), [e], from, to);
      assert [e][1..] == [];
      assert Clip([e], from, to) == if e.height <= to then [e] else [];
    }
  }

  lemma {:induction false} FittingRange(ch: seq<Envelope>, tip: Hash, from: nat, to: nat)
    requires Numbered(ch) && from < to <= |ch| && ReachesAbove(tip, Tip(ch, to), to)
    ensures RangeOf(tip, from, to) == ch[from..to]
    decreases tip
  {
    if tip == Tip(ch, to) {
      RangeIsSlice(ch, to, from, to);
    } else {
      RangeStep(tip.envelope, from, to);
      FittingRange(ch, tip.envelope.parent, from, to);
    }
  }

  /** The last emitted block is reached over greater heights only. */
  lemma {:induction false} LastReached(tip: Hash, from: nat, to: nat)
    requires from < to && RangeOf(tip, from, to) != []
    ensures var r := RangeOf(tip, from, to); ReachesAbove(tip, EnvelopeHash(r[|r| - 1]), to)
    decreases tip
  {
    if tip.EnvelopeHash? {
      RangeStep(tip.envelope, from, to);
      if tip.envelope.height > to {
        LastReached(tip.envelope.parent, from, to);
      }
    }
  }

  /** A head above the watermark emits the author's next blocks up to its height
      if and only if it fits, whatever its hash names. */
  lemma RangeIffFits(ch: seq<Envelope>, k: nat, head: DataHead)
    requires Numbered(ch) && k <= |ch| && k < head.height
    ensures (head.height <= |ch| && RangeOf(head.hash, k, head.height) == ch[k..head.height]) <==> Fits(ch, head)
  {
    if Fits(ch, head) {
      FittingRange(ch, head.hash, k, head.height);
    } else if head.height <= |ch| && RangeOf(head.hash, k, head.height) == ch[k..head.height] {
      LastReached(head.hash, k, head.height);
    }
  }

  /** One head, on any hash, keeps "emitted blocks 1..k" if and only if it is
      stale or fits. */
  lemma ExactlyOnceStep(ch: seq<Envelope>, k: nat, head: DataHead)
    requires Numbered(ch) && k <= |ch|
    ensures var log := ch[..k] + RangeOf(head.hash, k, head.height);
            var k' := if head.height <= k then k else head.height;
            (k' <= |ch| && log == ch[..k']) <==> (head.height <= k || Fits(ch, head))
  {
    if head.height > k {
      RangeIffFits(ch, k, head);
      var r := RangeOf(head.hash, k, head.height);
      if head.height <= |ch| {
        assert ch[..head.height] == ch[..k] + ch[k..head.height];
        assert (ch[..k] + r)[k..] == r && ch[..head.height][k..] == ch[k..head.height];
      }
    }
  }

  /** On a chain of heights 1, 2, ... a head fits exactly when the author's block
      of its height is the named block or an ancestor of it. */
  lemma {:induction false} FitsIffAncestor(ch: seq<Envelope>, other: seq<Envelope>, j: nat, height: nat)
    requires Numbered(ch) && Numbered(other) && j <= |other| && height <= |ch|
    ensures ReachesAbove(Tip(other, j), Tip(ch, height), height)
       <==> AncestorOrSelf(Tip(ch, height), Tip(other, j))
    decreases j
  {
    if j > 0 && Tip(other, j) != Tip(ch, height) {
      FitsIffAncestor(ch, other, j - 1, height);
      assert other[j - 1].parent == Tip(other, j - 1) && other[j - 1].height == j;
      if AncestorOrSelf(Tip(ch, height), Tip(other, j - 1)) {
        AncestorDepth(Tip(ch, height), Tip(other, j - 1));
        TipDepth(ch, height);
        TipDepth(other, j - 1);
      }
    }
  }

  lemma {:induction false} TipsAscend(ch: seq<Envelope>, i: nat, j: nat)
    requires Numbered(ch) && i <= j <= |ch|
    ensures AncestorOrSelf(Tip(ch, i), Tip(ch, j))
    decreases j
  {
    if i < j {
      TipsAscend(ch, i, j - 1);
      assert ch[j - 1].parent == Tip(ch, j - 1);
    }
  }

  lemma HonestFits(ch: seq<Envelope>, head: DataHead)
    requires Numbered(ch) && HonestHead(ch, head)
    ensures Fits(ch, head)
  {
    TipsAscend(ch, head.height, Position(head.hash));
    FitsIffAncestor(ch, ch, Position(head.hash), head.height);
  }

  // ----- One author's heads, in commit order -----

  /** Watermark after, and envelopes emitted by, one author's heads. */
  function AuthorRun(k: nat, hs: seq<DataHead>): (nat, seq<Envelope>)
    decreases |hs|
  {
    if hs == [] then (k, [])
    else if hs[0].height <= k then AuthorRun(k, hs[1..])
    else
      var (k', out) := AuthorRun(hs[0].height, hs[1..]);
      (k', RangeOf(hs[0].hash, k, hs[0].height) + out)
  }

  /** Every head that is above the heights before it fits. */
  predicate AllFit(ch: seq<Envelope>, k: nat, hs: seq<DataHead>)
    decreases |hs|
  {
    hs == [] ||
    (if hs[0].height <= k then AllFit(ch, k, hs[1..])
     else Fits(ch, hs[0]) && AllFit(ch, hs[0].height, hs[1..]))
  }

  /** Everything emitted lies above the watermark before. */
  lemma {:induction false} AuthorRunHeights(k: nat, hs: seq<DataHead>)
    ensures var (k', out) := AuthorRun(k, hs);
            k' >= k && forall e <- out :: k < e.height
    decreases |hs|
  {
    if hs != [] {
      if hs[0].height <= k {
        AuthorRunHeights(k, hs[1..]);
      } else {
        AuthorRunHeights(hs[0].height, hs[1..]);
        ClipHeights(Reverse(Lineage(hs[0].hash, k)), k, hs[0].height);
      }
    }
  }

  lemma HeightAt(ch: seq<Envelope>, k: nat, k': nat, all: seq<Envelope>, i: nat)
    requires Numbered(ch) && k <= k' <= |ch| && all == ch[k..k'] && i < |all|
    ensures all[i].height == k + i + 1
  {
  }

  /** A wrong range cannot be made good by what is emitted above it. */
  lemma NoRepair(ch: seq<Envelope>, k: nat, to: nat, k': nat, r: seq<Envelope>, out: seq<Envelope>)
    requires Numbered(ch) && k < to <= k' <= |ch| && r + out == ch[k..k']
    requires forall e <- r :: e.height <= to
    requires forall e <- out :: e.height > to
    ensures r == ch[k..to] && out == ch[to..k']
  {
    hide Numbered;
    var n := to - k;
    if |r| > n {
      assert (r + out)[n] == r[n] && r[n] in r;
      HeightAt(ch, k, k', r + out, n);
    } else if |r| < n {
      assert (r + out)[|r|] == out[0] && out[0] in out;
      HeightAt(ch, k, k', r + out, |r|);
    } else {
      SplitAt(ch, k, to, k', r, out);
    }
  }

  lemma SplitAt(ch: seq<Envelope>, k: nat, to: nat, k': nat, r: seq<Envelope>, out: seq<Envelope>)
    requires k <= to <= k' <= |ch| && r + out == ch[k..k'] && |r| == to - k
    ensures r == ch[k..to] && out == ch[to..k']
  {
    assert r == (r + out)[..|r|] && out == (r + out)[|r|..];
  }

  /** One author's heads emit exactly the author's next blocks if and only if each
      of them is stale or fits. */
  lemma {:induction false} AuthorExactIff(ch: seq<Envelope>, k: nat, hs: seq<DataHead>)
    requires Numbered(ch) && k <= |ch|
    ensures var (k', out) := AuthorRun(k, hs);
            (k' <= |ch| && k <= k' && out == ch[k..k']) <==> AllFit(ch, k, hs)
    decreases |hs|
  {
    hide Numbered, RangeOf, Fits;
    if hs != [] {
      if hs[0].height <= k {
        AuthorExactIff(ch, k, hs[1..]);
      } else {
        AuthorExactHead(ch, k, hs);
      }
    }
  }

  lemma AuthorExactHead(ch: seq<Envelope>, k: nat, hs: seq<DataHead>)
    requires Numbered(ch) && k <= |ch| && hs != [] && hs[0].height > k
    ensures var (k', out) := AuthorRun(k, hs);
            (k' <= |ch| && k <= k' && out == ch[k..k']) <==> AllFit(ch, k, hs)
    decreases |hs|, 0
  {
    hide Numbered, RangeOf, Fits, AuthorRun;
    var to := hs[0].height;
    var r := RangeOf(hs[0].hash, k, to);
    var (k', out) := AuthorRun(to, hs[1..]);
    assert AuthorRun(k, hs) == (k', r + out) by { AuthorRunUnroll(k, hs); }
    AuthorRunHeights(to, hs[1..]);
    RangeIffFits(ch, k, hs[0]);
    if k' <= |ch| {
      AuthorExactIff(ch, to, hs[1..]);
      assert ch[k..k'] == ch[k..to] + ch[to..k'];
      if r + out == ch[k..k'] {
        RangeBelow(hs[0].hash, k, to);
        NoRepair(ch, k, to, k', r, out);
      }
    } else if to <= |ch| {
      AuthorExactIff(ch, to, hs[1..]);
    } else {
      assert !Fits(ch, hs[0]);
    }
  }

  lemma AuthorRunUnroll(k: nat, hs: seq<DataHead>)
    requires hs != [] && hs[0].height > k
    ensures var (k', out) := AuthorRun(hs[0].height, hs[1..]);
            AuthorRun(k, hs) == (k', RangeOf(hs[0].hash, k, hs[0].height) + out)
  {
  }

  lemma RangeBelow(tip: Hash, from: nat, to: nat)
    ensures forall e <- RangeOf(tip, from, to) :: e.height <= to
  {
    ClipHeights(Reverse(Lineage(tip, from)), from, to);
  }

  // ----- The emission of one author within a run -----

  lemma {:induction false} LogOfAppend(x: seq<Emission>, y: seq<Emission>, a: Id)
    ensures LogOf(x + y, a) == LogOf(x, a) + LogOf(y, a)
  {
    if x == [] {
      assert x + y == y;
    } else {
      LogOfAppend(x[1..], y, a);
      TailOfAppend(x, y);
      AppendAssoc(LogOne(x[0], a), LogOf(x[1..], a), LogOf(y, a));
    }
  }

  lemma {:induction false} LogOfSigned(b: Id, es: seq<Envelope>, a: Id)
    ensures LogOf(Signed(b, es), a) == if a == b then es else []
  {
    if es != [] {
      LogOfSigned(b, es[1..], a);
      assert Signed(b, es)[1..] == Signed(b, es[1..]);
    }
  }

  lemma LogOfEmpty(a: Id)
    ensures LogOf([], a) == []
  {
  }

  lemma {:induction false} AuthorRunAppend(k: nat, x: seq<DataHead>, y: seq<DataHead>)
    ensures var (k1, out1) := AuthorRun(k, x); var (k2, out2) := AuthorRun(k1, y);
            AuthorRun(k, x + y) == (k2, out1 + out2)
    decreases |x|
  {
    if x == [] {
      assert x + y == y;
      assert [] + AuthorRun(k, y).1 == AuthorRun(k, y).1;
    } else {
      TailOfAppend(x, y);
      if x[0].height <= k {
        AuthorRunAppend(k, x[1..], y);
      } else {
        var (k1, out1) := AuthorRun(x[0].height, x[1..]);
        AuthorRunAppend(x[0].height, x[1..], y);
        AppendAssoc(RangeOf(x[0].hash, k, x[0].height), out1, AuthorRun(k1, y).1);
      }
    }
  }

  /** For one author, emission sees nothing but that author's heads. */
  lemma {:induction false} ProjectForAuthor(marks: map<Id, nat>, heads: seq<DataHead>, a: Id)
    ensures var (marks', out) := Project(marks, heads);
            (Lookup(marks', a, 0), LogOf(out, a)) == AuthorRun(Lookup(marks, a, 0), OfAuthor(heads, a))
    decreases |heads|
  {
    hide RangeOf, LogOf, Signed, AuthorRun;
    if heads == [] {
      LogOfEmpty(a);
      NoHeads(Lookup(marks, a, 0));
    } else {
      var h := heads[0];
      var from := Lookup(marks, h.author, 0);
      OfAuthorSplit(heads, a);
      if h.height <= from {
        ProjectForAuthor(marks, heads[1..], a);
        if h.author == a {
          StaleHead(from, h, OfAuthor(heads[1..], a));
        }
      } else {
        var marks1 := marks[h.author := h.height];
        var es := RangeOf(h.hash, from, h.height);
        ProjectForAuthor(marks1, heads[1..], a);
        LogOfSigned(h.author, es, a);
        LogOfAppend(Signed(h.author, es), Project(marks1, heads[1..]).1, a);
        if h.author == a {
          FreshHead(from, h, OfAuthor(heads[1..], a));
        } else {
          PrependNothing(AuthorRun(Lookup(marks, a, 0), OfAuthor(heads, a)).1);
        }
      }
    }
  }

  lemma OfAuthorSplit(heads: seq<DataHead>, a: Id)
    requires heads != []
    ensures OfAuthor(heads, a)
         == if heads[0].author == a then [heads[0]] + OfAuthor(heads[1..], a) else OfAuthor(heads[1..], a)
  {
  }

  lemma PrependNothing(es: seq<Envelope>)
    ensures [] + es == es
  {
  }

  lemma NoHeads(k: nat)
    ensures AuthorRun(k, []) == (k, [])
  {
  }

  lemma StaleHead(k: nat, h: DataHead, rest: seq<DataHead>)
    requires h.height <= k
    ensures AuthorRun(k, [h] + rest) == AuthorRun(k, rest)
  {
    assert ([h] + rest)[1..] == rest;
  }

  lemma FreshHead(k: nat, h: DataHead, rest: seq<DataHead>)
    requires h.height > k
    ensures var (k', out) := AuthorRun(h.height, rest);
            AuthorRun(k, [h] + rest) == (k', RangeOf(h.hash, k, h.height) + out)
  {
    assert ([h] + rest)[1..] == rest;
  }

  /** All heads for `a`, in the order in which they are committed. */
  function HeadsFor(atts: seq<MultiAttestation>, a: Id): seq<DataHead>
    decreases |atts|
  {
    if atts == [] then []
    else HeadsFor(atts[..|atts| - 1], a) + OfAuthor(atts[|atts| - 1].envelope.heads, a)
  }

  lemma {:induction false} ProjectAllForAuthor(ids: set<Id>, atts: seq<MultiAttestation>, a: Id)
    ensures var (marks, out) := ProjectAll(ZeroHeights(ids), atts);
            (Lookup(marks, a, 0), LogOf(out, a)) == AuthorRun(0, HeadsFor(atts, a))
    decreases |atts|
  {
    hide LogOf, Project, SortByAuthor, AuthorRun, OfAuthor;
    if atts == [] {
      LogOfEmpty(a);
      NoHeads(0);
    } else {
      var n := |atts| - 1;
      var heads := atts[n].envelope.heads;
      ProjectAllForAuthor(ids, atts[..n], a);
      var (m1, out1) := ProjectAll(ZeroHeights(ids), atts[..n]);
      SortByAuthorCorrect(heads, a);
      ProjectForAuthor(m1, SortByAuthor(heads), a);
      LogOfAppend(out1, Project(m1, SortByAuthor(heads)).1, a);
      AuthorRunAppend(0, HeadsFor(atts[..n], a), OfAuthor(heads, a));
    }
  }

  /** Over any run, everything emitted for an author with a linear chain is
      blocks 1..K in order, each once, where K is the author's watermark, if and
      only if every head committed for the author is stale or fits. */
  lemma ExactlyOnceEmission(ids: set<Id>, es: seq<Event>, a: Id, ch: seq<Envelope>)
    requires Legal(ids, es) && Numbered(ch)
    ensures var n := Run(ids, es); var k := Lookup(n.chain.committedHeights, a, 0);
            (k <= |ch| && LogOf(n.out, a) == ch[..k]) <==> AllFit(ch, 0, HeadsFor(Commits(es), a))
  {
    hide LogOf, AuthorRun, AllFit, Legal;
    RunIsProjection(ids, es);
    ProjectAllForAuthor(ids, Commits(es), a);
    AuthorExactIff(ch, 0, HeadsFor(Commits(es), a));
  }

  lemma {:induction false} HonestAllFit(ch: seq<Envelope>, k: nat, hs: seq<DataHead>)
    requires Numbered(ch) && forall h <- hs :: HonestHead(ch, h)
    ensures AllFit(ch, k, hs)
    decreases |hs|
  {
    hide Numbered, HonestHead, Fits;
    if hs != [] {
      HonestFits(ch, hs[0]);
      HonestAllFit(ch, if hs[0].height <= k then k else hs[0].height, hs[1..]);
    }
  }

  // ----- Accepted runs that fail -----

  /** One block arrives, then an attestation of one head that names it, which is
      accepted and committed. */
  function OneHeadRun(b: Id, y: Envelope, att: MultiAttestation): seq<Event> {
    [Deliver(Block(y, BlockSig(b, SignedBy(b, EnvelopeHash(y))))), Receive(att), Commit(att)]
  }

  predicate FirstBlock(y: Envelope) {
    y.height == 1 && y.parent == GENESIS_HASH
  }

  predicate AttestsOnly(ids: set<Id>, att: MultiAttestation, head: DataHead) {
    att.envelope.heads == [head] && att.signer in ids && Verifies(att.signer, att.envelope, att.raw)
  }

  lemma OneHeadRunLegal(ids: set<Id>, b: Id, y: Envelope, att: MultiAttestation, head: DataHead)
    requires b in ids && FirstBlock(y) && head.hash == EnvelopeHash(y) && AttestsOnly(ids, att, head)
    ensures Legal(ids, OneHeadRun(b, y, att)) && Commits(OneHeadRun(b, y, att)) == [att]
  {
    hide Legal, AttestsOnly, Judge, Run, AcceptedIn;
    var es := OneHeadRun(b, y, att);
    assert [] + [es[0]] == [es[0]] && [es[0]] + [Receive(att)] == [es[0], Receive(att)];
    assert [es[0], Receive(att)] + [Commit(att)] == es;
    NoEventsLegal(ids);
    LegalMore(ids, [], es[0]);
    LegalMore(ids, [es[0]], Receive(att));
    FirstBlockStored(ids, b, y);
    OneHeadJudged(Run(ids, [es[0]]).chain.store, ids, att, head);
    AcceptedAfter(ids, es[0], att);
    LegalMore(ids, [es[0], Receive(att)], Commit(att));
    CommitsOfThree(es[0], es[1], att);
  }

  lemma NoEventsLegal(ids: set<Id>)
    ensures Legal(ids, []) && Commits([]) == []
  {
  }

  lemma LegalMore(ids: set<Id>, es: seq<Event>, e: Event)
    requires Legal(ids, es) && (e.Commit? ==> AcceptedIn(ids, es, e.att))
    ensures Legal(ids, es + [e])
  {
    assert (es + [e])[..|es|] == es;
  }

  lemma AcceptedAfter(ids: set<Id>, e: Event, att: MultiAttestation)
    requires Judge(Run(ids, [e]).chain.store, ids, att) == Accept
    ensures AcceptedIn(ids, [e, Receive(att)], att)
  {
    var es := [e, Receive(att)];
    assert es[..1] == [e] && es[1] == Receive(att);
  }

  lemma FirstBlockStored(ids: set<Id>, b: Id, y: Envelope)
    requires b in ids && FirstBlock(y)
    ensures EnvelopeHash(y)
         in Run(ids, [Deliver(Block(y, BlockSig(b, SignedBy(b, EnvelopeHash(y)))))]).chain.store
  {
    var block := Block(y, BlockSig(b, SignedBy(b, EnvelopeHash(y))));
    InitialValid(ids);
    FirstAdmitStores(ids, b, y);
    var es := [Deliver(block)];
    assert es[..0] == [];
    assert Run(ids, es) == Step(ids, Run(ids, []), es[0]);
  }

  lemma FirstAdmitStores(ids: set<Id>, b: Id, y: Envelope)
    requires b in ids && FirstBlock(y) && Valid(Initial(ids))
    ensures EnvelopeHash(y) in Admit(Initial(ids), Block(y, BlockSig(b, SignedBy(b, EnvelopeHash(y))))).0.store
  {
    AdmitResultMeans(Initial(ids), Block(y, BlockSig(b, SignedBy(b, EnvelopeHash(y)))));
  }

  lemma OneHeadJudged(store: map<Hash, Block>, ids: set<Id>, att: MultiAttestation, head: DataHead)
    requires AttestsOnly(ids, att, head) && head.hash in store
    ensures Judge(store, ids, att) == Accept
  {
  }

  lemma CommitsOfThree(d: Event, r: Event, att: MultiAttestation)
    requires !d.Commit? && !r.Commit?
    ensures Commits([d, r, Commit(att)]) == [att]
  {
    var es := [d, r, Commit(att)];
    assert es[..2] == [d, r] && es[..2][..1] == [d] && es[..1][..0] == [];
    assert Commits([d]) == [] && Commits([d, r]) == [];
  }

  lemma HeadsOfOne(att: MultiAttestation, head: DataHead)
    requires att.envelope.heads == [head]
    ensures HeadsFor([att], head.author) == [head]
  {
    assert [att][..0] == [] && [head][1..] == [];
    assert HeadsFor([att], head.author) == [] + OfAuthor([head], head.author);
  }

  lemma RangeOfFirst(y: Envelope, to: nat)
    requires FirstBlock(y) && to > 0
    ensures RangeOf(EnvelopeHash(y), 0, to) == [y]
  {
    RangeStep(y, 0, to);
    assert RangeOf(GENESIS_HASH, 0, to) == [];
  }

  lemma OneFreshHead(head: DataHead)
    requires head.height > 0
    ensures AuthorRun(0, [head]) == (head.height, RangeOf(head.hash, 0, head.height))
  {
    hide RangeOf;
    FreshHead(0, head, []);
    NoHeads(head.height);
    var es := RangeOf(head.hash, 0, head.height);
    assert [head] + [] == [head] && es + [] == es;
  }

  /** What such a run emits for the author of its head. */
  lemma OneHeadRunEmits(ids: set<Id>, b: Id, y: Envelope, att: MultiAttestation, head: DataHead)
    requires b in ids && FirstBlock(y) && head.hash == EnvelopeHash(y) && AttestsOnly(ids, att, head)
    requires head.height > 0
    ensures var n := Run(ids, OneHeadRun(b, y, att));
            && Legal(ids, OneHeadRun(b, y, att))
            && Lookup(n.chain.committedHeights, head.author, 0) == head.height
            && LogOf(n.out, head.author) == [y]
  {
    hide Legal, LogOf, Run, OneHeadRun, FirstBlock, Commits, ProjectAll, HeadsFor, AuthorRun, RangeOf;
    OneHeadRunLegal(ids, b, y, att, head);
    RunIsProjection(ids, OneHeadRun(b, y, att));
    ProjectAllForAuthor(ids, [att], head.author);
    HeadsOfOne(att, head);
    RangeOfFirst(y, head.height);
    OneFreshHead(head);
  }

  /** A head may name a stored block of another author: it is accepted, and that
      author's block is emitted in place of the attested author's own. */
  lemma ForeignHeadEmitted(ids: set<Id>, a: Id, b: Id, x: Envelope, y: Envelope, att: MultiAttestation)
    requires a in ids && b in ids && a != b && FirstBlock(x) && FirstBlock(y) && x != y
    requires AttestsOnly(ids, att, DataHead(a, EnvelopeHash(y), 1, y.epoch))
    ensures var n := Run(ids, OneHeadRun(b, y, att));
            && Legal(ids, OneHeadRun(b, y, att)) && Numbered([x])
            && Lookup(n.chain.committedHeights, a, 0) == 1 && LogOf(n.out, a) == [y] != [x][..1]
            && !AllFit([x], 0, HeadsFor([att], a))
  {
    hide Legal, LogOf, Run, Numbered, AllFit, HeadsFor, OneHeadRun, Commits, AttestsOnly;
    OneHeadRunEmits(ids, b, y, att, DataHead(a, EnvelopeHash(y), 1, y.epoch));
    OneHeadRunLegal(ids, b, y, att, DataHead(a, EnvelopeHash(y), 1, y.epoch));
    OneNumbered(x);
    ExactlyOnceEmission(ids, OneHeadRun(b, y, att), a, [x]);
  }

  lemma OneNumbered(x: Envelope)
    requires FirstBlock(x)
    ensures Numbered([x]) && [x][..1] == [x]
  {
  }

  /** A head may claim a height above its block's: it is accepted, and the author's
      blocks up to that height are never emitted. */
  lemma OverclaimedHeadSkips(ids: set<Id>, a: Id, ch: seq<Envelope>, height: nat, att: MultiAttestation)
    requires a in ids && Numbered(ch) && 1 < height <= |ch|
    requires AttestsOnly(ids, att, DataHead(a, EnvelopeHash(ch[0]), height, ch[0].epoch))
    ensures var n := Run(ids, OneHeadRun(a, ch[0], att));
            && Legal(ids, OneHeadRun(a, ch[0], att))
            && Lookup(n.chain.committedHeights, a, 0) == height && LogOf(n.out, a) == [ch[0]] != ch[..height]
  {
    hide Legal, LogOf, Run, OneHeadRun, AttestsOnly;
    assert ch[0].parent == Tip(ch, 0) == GENESIS_HASH;
    OneHeadRunEmits(ids, a, ch[0], att, DataHead(a, EnvelopeHash(ch[0]), height, ch[0].epoch));
  }

  lemma ConvergedHeadIsHonest(
    chains: Chains, got: set<Envelope>, c: Chain, a: Id, head: DataHead)
    requires a in chains && Numbered(chains[a])
    requires a in c.heads && c.heads[a] == Tip(chains[a], Prefix(chains[a], got))
    requires c.heads[a] in c.store && WellKeyed(c.store)
    requires head.hash == c.heads[a] && head.height == c.store[c.heads[a]].envelope.height
    ensures HonestHead(chains[a], head) && head.height == Prefix(chains[a], got)
  {
    var k := Prefix(chains[a], got);
    TipDepth(chains[a], k);
    assert c.store[head.hash].Digest() == head.hash;
    assert k > 0 ==> chains[a][k - 1].height == k;
  }

  /** A leader whose chains have converged attests honest heads only, each at
      the end of its author's arrived prefix. */
  lemma MadeHeadsAreHonest(
    chains: Chains, got: set<Envelope>, c: Chain, prev: map<Id, nat>,
    epochS: nat, roundS: nat, parentS: nat, epoch: nat, me: Id)
    requires forall a <- chains :: Numbered(chains[a])
    requires Valid(c) && Converged(chains, got, c) && me in chains
    ensures var att := Made(c, chains.Keys, prev, epochS, roundS, parentS, epoch, me);
            forall h <- att.envelope.heads ::
              && h.author in chains
              && HonestHead(chains[h.author], h) && h.height == Prefix(chains[h.author], got)
  {
    hide ParkedOnlyBeyond, BeyondTips, PrefixHashes, ArrivedBelow, Beyond, Numbered, HonestHead, Made,
         AncestorClosed, WellKeyed, LinksSound, LinksStored, ParkedUnderParent, Prefix;
    var att := Made(c, chains.Keys, prev, epochS, roundS, parentS, epoch, me);
    MadeIsComplete(c, chains.Keys, prev, epochS, roundS, parentS, epoch, me);
    assert WellKeyed(c.store) by { ValidIsWellKeyed(c); }
    forall h | h in att.envelope.heads
      ensures h.author in chains && HonestHead(chains[h.author], h) && h.height == Prefix(chains[h.author], got)
    {
      assert h.author in chains && Prefixes(chains, got)[h.author] == Prefix(chains[h.author], got);
      ConvergedHeadIsHonest(chains, got, c, h.author, h);
    }
  }

  lemma ValidIsWellKeyed(c: Chain)
    requires Valid(c)
    ensures WellKeyed(c.store)
  {
  }
}
