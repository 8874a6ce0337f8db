/** What a node emits for committed attestations: the per-author ranges between
    the committed watermark and the attested head, in author order. */
module HeraEmission {
  import opened Base
  import opened DataBlocks
  import opened HeraChain
  import opened HeraAttestation

  /** One block handed to the application, with the author it was walked for. */
  datatype Emission = Emission(author: Id, envelope: Envelope)

  // ----- Sorting heads by author -----

  function InsertHead(h: DataHead, s: seq<DataHead>): seq<DataHead> {
    if s == [] || h.author <= s[0].author then [h] + s else [s[0]] + InsertHead(h, s[1..])
  }

  function SortByAuthor(s: seq<DataHead>): seq<DataHead> {
    if s == [] then [] else InsertHead(s[0], SortByAuthor(s[1..]))
  }

  predicate SortedByAuthor(s: seq<DataHead>) {
    forall i, j | 0 <= i < j < |s| :: s[i].author <= s[j].author
  }

  function OfAuthor(s: seq<DataHead>, a: Id): seq<DataHead> {
    if s == [] then []
    else (if s[0].author == a then [s[0]] else []) + OfAuthor(s[1..], a)
  }

  lemma {:induction false} InsertHeadMembers(h: DataHead, s: seq<DataHead>)
    ensures multiset(InsertHead(h, s)) == multiset(s) + multiset{h}
    ensures forall x <- InsertHead(h, s) :: x == h || x in s
  {
    if s != [] && s[0].author < h.author {
      InsertHeadMembers(h, s[1..]);
      assert s == [s[0]] + s[1..];
    }
  }

  lemma {:induction false} InsertHeadSorted(h: DataHead, s: seq<DataHead>)
    requires SortedByAuthor(s)
    ensures SortedByAuthor(InsertHead(h, s))
  {
    if s != [] && s[0].author < h.author {
      InsertHeadSorted(h, s[1..]);
      InsertHeadMembers(h, s[1..]);
      var r := InsertHead(h, s[1..]);
      forall k | 0 <= k < |r| ensures s[0].author <= r[k].author {
        assert r[k] in r;
      }
    }
  }

  lemma OfAuthorCons(x: DataHead, s: seq<DataHead>, a: Id)
    ensures OfAuthor([x] + s, a) == if x.author == a then [x] + OfAuthor(s, a) else OfAuthor(s, a)
  {
    assert ([x] + s)[1..] == s;
  }

  lemma {:induction false} InsertHeadStable(h: DataHead, s: seq<DataHead>, a: Id)
    ensures OfAuthor(InsertHead(h, s), a) == (if h.author == a then [h] else []) + OfAuthor(s, a)
  {
    hide OfAuthor;
    if s == [] || h.author <= s[0].author {
      OfAuthorCons(h, s, a);
    } else {
      InsertHeadStable(h, s[1..], a);
      OfAuthorCons(s[0], InsertHead(h, s[1..]), a);
      OfAuthorCons(s[0], s[1..], a);
      assert s == [s[0]] + s[1..];
    }
  }

  lemma NothingToSort()
    ensures SortedByAuthor([])
  {
  }

  /** The result is a stable sort: ordered, a permutation, and with each
      author's heads in their original order. */
  lemma {:induction false} SortByAuthorCorrect(s: seq<DataHead>, a: Id)
    ensures SortedByAuthor(SortByAuthor(s))
    ensures multiset(SortByAuthor(s)) == multiset(s)
    ensures OfAuthor(SortByAuthor(s), a) == OfAuthor(s, a)
  {
    hide InsertHead, SortedByAuthor;
    if s == [] {
      NothingToSort();
    } else {
      SortByAuthorCorrect(s[1..], a);
      InsertHeadSorted(s[0], SortByAuthor(s[1..]));
      InsertHeadMembers(s[0], SortByAuthor(s[1..]));
      InsertHeadStable(s[0], SortByAuthor(s[1..]), a);
      assert s == [s[0]] + s[1..];
    }
  }

  lemma SortByAuthorMembers(s: seq<DataHead>)
    ensures forall h :: h in SortByAuthor(s) <==> h in s
  {
    SortByAuthorCorrect(s, 0);
    assert forall h :: h in multiset(s) <==> h in s;
    assert forall h :: h in multiset(SortByAuthor(s)) <==> h in SortByAuthor(s);
  }

  // ----- Emission against a store -----

  function Tag(a: Id, bs: seq<Block>): seq<Emission> {
    if bs == [] then [] else [Emission(a, bs[0].envelope)] + Tag(a, bs[1..])
  }

  /** Emits one head's range and raises its author's watermark; a head at or
      below the watermark does nothing. */
  function EmitHead(c: Chain, head: DataHead): (Chain, seq<Emission>)
    requires WellKeyed(c.store)
  {
    var from := Lookup(c.committedHeights, head.author, 0);
    if head.height <= from then (c, [])
    else (c.(committedHeights := c.committedHeights[head.author := head.height]),
          Tag(head.author, WalkRange(c.store, head.hash, from, head.height)))
  }

  function EmitHeads(c: Chain, heads: seq<DataHead>): (r: (Chain, seq<Emission>))
    requires WellKeyed(c.store)
    ensures r.0.store == c.store && r.0 == c.(committedHeights := r.0.committedHeights)
    decreases |heads|
  {
    if heads == [] then (c, [])
    else
      var (c1, out1) := EmitHead(c, heads[0]);
      var (c2, out2) := EmitHeads(c1, heads[1..]);
      (c2, out1 + out2)
  }

  function EmitAttestation(c: Chain, att: MultiAttestation): (r: (Chain, seq<Emission>))
    requires WellKeyed(c.store)
    ensures r.0 == c.(committedHeights := r.0.committedHeights)
  {
    EmitHeads(c, SortByAuthor(att.envelope.heads))
  }

  // ----- The same emission, read off the hashes alone -----

  /** Envelopes from `tip` back to, and not including, the first at or below `from`. */
  function Lineage(tip: Hash, from: nat): seq<Envelope> {
    match tip
    case RawHash(_) => []
    case EnvelopeHash(e) => if e.height <= from then [] else [e] + Lineage(e.parent, from)
  }

  function Clip(es: seq<Envelope>, from: nat, to: nat): seq<Envelope> {
    if es == [] then []
    else
      var rest := Clip(es[1..], from, to);
      if from < es[0].height <= to then [es[0]] + rest else rest
  }

  function RangeOf(tip: Hash, from: nat, to: nat): seq<Envelope> {
    if to <= from then [] else Clip(Reverse(Lineage(tip, from)), from, to)
  }

  function Signed(a: Id, es: seq<Envelope>): seq<Emission> {
    if es == [] then [] else [Emission(a, es[0])] + Signed(a, es[1..])
  }

  /** Watermarks after, and blocks emitted by, a sequence of heads. */
  function Project(marks: map<Id, nat>, heads: seq<DataHead>): (map<Id, nat>, seq<Emission>)
    decreases |heads|
  {
    if heads == [] then (marks, [])
    else
      var h := heads[0];
      var from := Lookup(marks, h.author, 0);
      if h.height <= from then Project(marks, heads[1..])
      else
        var (marks', out) := Project(marks[h.author := h.height], heads[1..]);
        (marks', Signed(h.author, RangeOf(h.hash, from, h.height)) + out)
  }

  function ProjectAll(marks: map<Id, nat>, atts: seq<MultiAttestation>): (map<Id, nat>, seq<Emission>)
    decreases |atts|
  {
    if atts == [] then (marks, [])
    else
      var n := |atts| - 1;
      var (m1, out1) := ProjectAll(marks, atts[..n]);
      var (m2, out2) := Project(m1, SortByAuthor(atts[n].envelope.heads));
      (m2, out1 + out2)
  }

  function EnvelopesOf(bs: seq<Block>): (es: seq<Envelope>)
    ensures |es| == |bs|
  {
    if bs == [] then [] else [bs[0].envelope] + EnvelopesOf(bs[1..])
  }

  lemma {:induction false} WalkBackIsLineage(store: map<Hash, Block>, tip: Hash, from: nat)
    requires AncestorClosed(store) && tip in store
    ensures EnvelopesOf(WalkBack(store, tip, from)) == Lineage(tip, from)
    decreases tip
  {
    var e := store[tip].envelope;
    assert tip == EnvelopeHash(e);
    if e.height > from {
      assert tip != GENESIS_HASH;
      WalkBackIsLineage(store, e.parent, from);
      var rest := WalkBack(store, e.parent, from);
      assert WalkBack(store, tip, from) == [store[tip]] + rest;
      assert ([store[tip]] + rest)[1..] == rest;
    }
  }

  lemma {:induction false} EnvelopesOfAppend(a: seq<Block>, b: seq<Block>)
    ensures EnvelopesOf(a + b) == EnvelopesOf(a) + EnvelopesOf(b)
  {
    if a == [] {
      assert a + b == b;
    } else {
      EnvelopesOfAppend(a[1..], b);
      assert (a + b)[1..] == a[1..] + b;
    }
  }

  lemma {:induction false} EnvelopesOfReverse(bs: seq<Block>)
    ensures EnvelopesOf(Reverse(bs)) == Reverse(EnvelopesOf(bs))
  {
    if bs != [] {
      EnvelopesOfReverse(bs[1..]);
      EnvelopesOfAppend(Reverse(bs[1..]), [bs[0]]);
      assert EnvelopesOf([bs[0]]) == [bs[0].envelope];
    }
  }

  lemma {:induction false} EnvelopesOfWithin(bs: seq<Block>, from: nat, to: nat)
    ensures EnvelopesOf(WithinHeights(bs, from, to)) == Clip(EnvelopesOf(bs), from, to)
  {
    if bs != [] {
      EnvelopesOfWithin(bs[1..], from, to);
      var rest := WithinHeights(bs[1..], from, to);
      assert ([bs[0]] + rest)[1..] == rest;
    }
  }

  lemma {:induction false} TagIsSigned(a: Id, bs: seq<Block>)
    ensures Tag(a, bs) == Signed(a, EnvelopesOf(bs))
  {
    if bs != [] {
      TagIsSigned(a, bs[1..]);
    }
  }

  /** On an ancestor-closed store the range walk depends on the tip hash alone. */
  lemma WalkRangeIsRangeOf(store: map<Hash, Block>, tip: Hash, from: nat, to: nat)
    requires AncestorClosed(store) && tip in store
    ensures EnvelopesOf(WalkRange(store, tip, from, to)) == RangeOf(tip, from, to)
  {
    if to > from {
      WalkBackIsLineage(store, tip, from);
      EnvelopesOfReverse(WalkBack(store, tip, from));
      EnvelopesOfWithin(Reverse(WalkBack(store, tip, from)), from, to);
    }
  }

  lemma {:induction false} EmitHeadsIsProject(c: Chain, heads: seq<DataHead>)
    requires AncestorClosed(c.store) && forall h <- heads :: HeadStored(c.store, h)
    ensures var (c', out) := EmitHeads(c, heads);
            (c'.committedHeights, out) == Project(c.committedHeights, heads)
    decreases |heads|
  {
    if heads != [] {
      var h := heads[0];
      var from := Lookup(c.committedHeights, h.author, 0);
      assert h in heads;
      if h.height > from {
        WalkRangeIsRangeOf(c.store, h.hash, from, h.height);
        TagIsSigned(h.author, WalkRange(c.store, h.hash, from, h.height));
      }
      EmitHeadsIsProject(EmitHead(c, h).0, heads[1..]);
      var rest := EmitHeads(EmitHead(c, h).0, heads[1..]).1;
      assert [] + rest == rest;
    }
  }

  // ----- Runs of one node -----

  datatype Event = Deliver(block: Block) | Receive(att: MultiAttestation) | Commit(att: MultiAttestation)

  datatype Node = Node(chain: Chain, out: seq<Emission>)

  predicate SignatureOk(known: set<Id>, b: Block) {
    b.sig.signer in known && Verifies(b.sig.signer, b.Digest(), b.sig.raw)
  }

  function Step(ids: set<Id>, n: Node, e: Event): Node
    requires Valid(n.chain)
  {
    match e
    case Deliver(b) => if SignatureOk(ids, b) then n.(chain := Admit(n.chain, b).0) else n
    case Receive(_) => n
    case Commit(att) =>
      var (c, out) := EmitAttestation(n.chain, att);
      Node(c, n.out + out)
  }

  lemma StepKeepsValid(ids: set<Id>, n: Node, e: Event)
    requires Valid(n.chain)
    ensures Valid(Step(ids, n, e).chain)
    ensures n.chain.store.Keys <= Step(ids, n, e).chain.store.Keys
    ensures !e.Commit? ==> Step(ids, n, e).chain.committedHeights == n.chain.committedHeights
  {
    match e
    case Deliver(b) => AdmitKeepsValid(n.chain, b);
    case Receive(_) =>
    case Commit(att) =>
      assert HeadsStored(Step(ids, n, e).chain);
  }

  function Run(ids: set<Id>, es: seq<Event>): (n: Node)
    ensures Valid(n.chain)
    decreases |es|
  {
    if es == [] then
      InitialValid(ids);
      Node(Initial(ids), [])
    else
      var before := Run(ids, es[..|es| - 1]);
      StepKeepsValid(ids, before, es[|es| - 1]);
      Step(ids, before, es[|es| - 1])
  }

  /** `att` arrived during the run and was judged acceptable on arrival. */
  predicate AcceptedIn(ids: set<Id>, es: seq<Event>, att: MultiAttestation) {
    exists j | 0 <= j < |es| :: es[j] == Receive(att) && Judge(Run(ids, es[..j]).chain.store, ids, att) == Accept
  }

  /** Only attestations accepted earlier are ever committed. */
  predicate Legal(ids: set<Id>, es: seq<Event>)
    decreases |es|
  {
    es == [] ||
    (var n := |es| - 1;
     Legal(ids, es[..n]) && (es[n].Commit? ==> AcceptedIn(ids, es[..n], es[n].att)))
  }

  function Commits(es: seq<Event>): seq<MultiAttestation>
    decreases |es|
  {
    if es == [] then []
    else
      var n := |es| - 1;
      Commits(es[..n]) + (if es[n].Commit? then [es[n].att] else [])
  }

  lemma {:induction false} StoreGrows(ids: set<Id>, es: seq<Event>, j: nat)
    requires j <= |es|
    ensures Run(ids, es[..j]).chain.store.Keys <= Run(ids, es).chain.store.Keys
    decreases |es|
  {
    if j < |es| {
      var n := |es| - 1;
      StoreGrows(ids, es[..n], j);
      assert es[..n][..j] == es[..j];
      StepKeepsValid(ids, Run(ids, es[..n]), es[n]);
    } else {
      assert es[..j] == es;
    }
  }

  /** A node's watermarks and output are a function of its commits alone. */
  lemma {:induction false} RunIsProjection(ids: set<Id>, es: seq<Event>)
    requires Legal(ids, es)
    ensures (Run(ids, es).chain.committedHeights, Run(ids, es).out)
         == ProjectAll(ZeroHeights(ids), Commits(es))
    decreases |es|
  {
    if es != [] {
      var n := |es| - 1;
      var before := Run(ids, es[..n]);
      RunIsProjection(ids, es[..n]);
      StepKeepsValid(ids, before, es[n]);
      if es[n].Commit? {
        var att := es[n].att;
        var j :| 0 <= j < n && es[..n][j] == Receive(att)
                 && Judge(Run(ids, es[..n][..j]).chain.store, ids, att) == Accept;
        StoreGrows(ids, es[..n], j);
        SortByAuthorMembers(att.envelope.heads);
        EmitHeadsIsProject(before.chain, SortByAuthor(att.envelope.heads));
        assert Commits(es)[..|Commits(es)| - 1] == Commits(es[..n]);
      } else {
        assert Commits(es) == Commits(es[..n]);
      }
    }
  }

  lemma {:induction false} ProjectAllPrefix(
    marks: map<Id, nat>, xs: seq<MultiAttestation>, ys: seq<MultiAttestation>)
    requires xs <= ys
    ensures ProjectAll(marks, xs).1 <= ProjectAll(marks, ys).1
    decreases |ys|
  {
    if |xs| < |ys| {
      ProjectAllPrefix(marks, xs, ys[..|ys| - 1]);
    } else {
      assert xs == ys;
    }
  }

  /** Two nodes that received blocks in any orders, equivocations included, and
      committed the same attestations have emitted the same blocks in the same
      order; if one committed fewer, its output is a prefix of the other's. */
  lemma ReplicaAgreement(ids: set<Id>, es: seq<Event>, fs: seq<Event>)
    requires Legal(ids, es) && Legal(ids, fs)
    ensures Commits(es) <= Commits(fs) ==> Run(ids, es).out <= Run(ids, fs).out
    ensures Commits(es) == Commits(fs) ==>
              && Run(ids, es).out == Run(ids, fs).out
              && Run(ids, es).chain.committedHeights == Run(ids, fs).chain.committedHeights
  {
    RunIsProjection(ids, es);
    RunIsProjection(ids, fs);
    if Commits(es) <= Commits(fs) {
      ProjectAllPrefix(ZeroHeights(ids), Commits(es), Commits(fs));
    }
  }
}
