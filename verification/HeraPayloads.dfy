/** What the application and the batcher receive: the transactions of the emitted
    blocks, block by block and in order. */
module HeraPayloads {
  import opened Base
  import opened DataBlocks
  import opened HeraChain
  import opened HeraAttestation
  import opened HeraEmission
  import opened HeraExactlyOnce
  import opened HeraNode

  /** The transactions of some blocks, in order. */
  function TxsOf(es: seq<Envelope>): seq<Tx> {
    if es == [] then [] else es[0].payload + TxsOf(es[1..])
  }

  /** The emitted blocks that have transactions. */
  function Carrying(es: seq<Emission>): seq<Emission> {
    if es == [] then []
    else if es[0].envelope.payload == [] then Carrying(es[1..])
    else [es[0]] + Carrying(es[1..])
  }

  function Blocks(es: seq<Emission>): (r: seq<Envelope>)
    ensures |r| == |es| && forall i | 0 <= i < |r| :: r[i] == es[i].envelope
  {
    seq(|es|, i requires 0 <= i < |es| => es[i].envelope)
  }

  /** The transactions of some batches, in order. */
  function Sent(bs: seq<Batch>): seq<Tx> {
    if bs == [] then [] else bs[0].payload + Sent(bs[1..])
  }

  lemma BatchesCons(e: Emission, es: seq<Emission>)
    ensures Batches([e] + es) == (if e.envelope.payload == [] then [] else [Batch(e.envelope.payload, e.envelope.height)])
                                 + Batches(es)
    ensures Carrying([e] + es) == (if e.envelope.payload == [] then [] else [e]) + Carrying(es)
    ensures TxsOf(Blocks([e] + es)) == e.envelope.payload + TxsOf(Blocks(es))
  {
    assert ([e] + es)[1..] == es;
    assert Blocks([e] + es)[1..] == Blocks(es);
  }

  lemma SentCons(b: Batch, bs: seq<Batch>)
    ensures Sent([b] + bs) == b.payload + Sent(bs)
  {
    assert ([b] + bs)[1..] == bs;
  }

  /** Each emitted block that has transactions is sent as one batch of its own, with
      its transactions and its height; blocks without send nothing. So the
      transactions sent are those emitted, in the same order. */
  lemma {:induction false} BatchesCarry(es: seq<Emission>)
    ensures var bs, full := Batches(es), Carrying(es);
            && |bs| == |full|
            && (forall i | 0 <= i < |bs| ::
                  && bs[i].payload == full[i].envelope.payload != []
                  && bs[i].round == full[i].envelope.height)
            && Sent(bs) == TxsOf(Blocks(es))
  {
    hide Batches, Carrying;
    if es == [] {
      NothingSent();
    } else {
      var e := es[0];
      assert es == [e] + es[1..];
      BatchesCarry(es[1..]);
      BatchesCons(e, es[1..]);
      if e.envelope.payload != [] {
        SentCons(Batch(e.envelope.payload, e.envelope.height), Batches(es[1..]));
      } else {
        NoPrefix(Batches(es[1..]));
        NoPrefix(Carrying(es[1..]));
        NoPrefix(TxsOf(Blocks(es[1..])));
      }
    }
  }

  lemma NoPrefix<T>(s: seq<T>)
    ensures [] + s == s
  {
  }

  lemma NothingSent()
    ensures Batches([]) == [] && Carrying([]) == [] && Sent([]) == [] && TxsOf(Blocks([])) == []
  {
  }

  // ----- By author -----

  /** The transactions of those batches whose blocks were emitted for `a`. */
  function SentFor(bs: seq<Batch>, full: seq<Emission>, a: Id): seq<Tx>
    requires |bs| == |full|
  {
    if bs == [] then []
    else (if full[0].author == a then bs[0].payload else []) + SentFor(bs[1..], full[1..], a)
  }

  lemma {:induction false} TxsOfAppend(x: seq<Envelope>, y: seq<Envelope>)
    ensures TxsOf(x + y) == TxsOf(x) + TxsOf(y)
  {
    if x == [] {
      assert x + y == y;
    } else {
      TailOfAppend(x, y);
      TxsOfAppend(x[1..], y);
      AppendAssoc(x[0].payload, TxsOf(x[1..]), TxsOf(y));
    }
  }

  lemma TxsOfOne(e: Envelope)
    ensures TxsOf([e]) == e.payload
  {
    assert [e][1..] == [];
  }

  lemma SentForCons(b: Batch, bs: seq<Batch>, e: Emission, full: seq<Emission>, a: Id)
    requires |bs| == |full|
    ensures SentFor([b] + bs, [e] + full, a) == (if e.author == a then b.payload else []) + SentFor(bs, full, a)
  {
    assert ([b] + bs)[1..] == bs && ([e] + full)[1..] == full;
  }

  lemma LogOfCons(e: Emission, es: seq<Emission>, a: Id)
    ensures LogOf([e] + es, a) == (if e.author == a then [e.envelope] else []) + LogOf(es, a)
  {
    assert ([e] + es)[1..] == es;
  }

  /** What is sent for one author is the transactions of its emitted blocks. */
  lemma {:induction false} SentForAuthor(es: seq<Emission>, a: Id)
    ensures |Batches(es)| == |Carrying(es)|
    ensures SentFor(Batches(es), Carrying(es), a) == TxsOf(LogOf(es, a))
  {
    hide Batches, Carrying, LogOf, SentFor, TxsOf;
    BatchesCarry(es);
    if es == [] {
      NothingForAuthor(a);
    } else {
      var e, rest := es[0], es[1..];
      assert es == [e] + rest;
      SentForAuthor(rest, a);
      BatchesCons(e, rest);
      LogOfCons(e, rest, a);
      TxsOfOne(e.envelope);
      if e.author == a {
        TxsOfAppend([e.envelope], LogOf(rest, a));
      }
      if e.envelope.payload != [] {
        SentForCons(Batch(e.envelope.payload, e.envelope.height), Batches(rest), e, Carrying(rest), a);
      } else {
        NoPrefix(Batches(rest));
        NoPrefix(Carrying(rest));
      }
      NoPrefix(LogOf(rest, a));
      NoPrefix(TxsOf(LogOf(rest, a)));
    }
  }

  lemma NothingForAuthor(a: Id)
    ensures Batches([]) == [] && Carrying([]) == [] && SentFor([], [], a) == [] && TxsOf(LogOf([], a)) == []
  {
  }

  /** Over a run in which every committed head for an author fits, what is sent for
      that author is the transactions of its blocks 1 up to its watermark, each
      block's once and in order. */
  lemma TransactionsOnce(ids: set<Id>, es: seq<Event>, a: Id, ch: seq<Envelope>)
    requires Legal(ids, es) && Numbered(ch) && AllFit(ch, 0, HeadsFor(Commits(es), a))
    ensures var n := Run(ids, es); var k := Lookup(n.chain.committedHeights, a, 0);
            && |Batches(n.out)| == |Carrying(n.out)| && k <= |ch|
            && SentFor(Batches(n.out), Carrying(n.out), a) == TxsOf(ch[..k])
            && Sent(Batches(n.out)) == TxsOf(Blocks(n.out))
  {
    hide Legal, Numbered, AllFit, HeadsFor, Run, LogOf, Batches, Carrying;
    ExactlyOnceEmission(ids, es, a, ch);
    SentForAuthor(Run(ids, es).out, a);
    BatchesCarry(Run(ids, es).out);
  }

  // ----- Authors in ascending order -----

  predicate AuthorsAscend(out: seq<Emission>) {
    forall i, j | 0 <= i < j < |out| :: out[i].author <= out[j].author
  }

  predicate NoneBelow(out: seq<Emission>, a: Id) {
    forall e <- out :: e.author >= a
  }

  lemma {:induction false} TagIsOwn(a: Id, bs: seq<Block>)
    ensures forall e <- Tag(a, bs) :: e.author == a
  {
    if bs != [] {
      TagIsOwn(a, bs[1..]);
    }
  }

  lemma JoinAscending(x: seq<Emission>, y: seq<Emission>, a: Id)
    requires (forall e <- x :: e.author == a) && AuthorsAscend(y) && NoneBelow(y, a)
    ensures AuthorsAscend(x + y) && NoneBelow(x + y, a)
  {
    var z := x + y;
    forall i | 0 <= i < |z| ensures z[i].author >= a && (i < |x| ==> z[i].author == a) {
      if i < |x| {
        assert z[i] in x;
      } else {
        assert z[i] in y;
      }
    }
  }

  lemma {:induction false} EmitAscends(c: Chain, heads: seq<DataHead>, low: Id)
    requires WellKeyed(c.store) && SortedByAuthor(heads) && forall h <- heads :: h.author >= low
    ensures AuthorsAscend(EmitHeads(c, heads).1) && NoneBelow(EmitHeads(c, heads).1, low)
    decreases |heads|
  {
    hide WalkRange, Tag;
    if heads != [] {
      var h := heads[0];
      var from := Lookup(c.committedHeights, h.author, 0);
      var (c1, out1) := EmitHead(c, h);
      assert forall i | 0 <= i < |heads[1..]| :: heads[1..][i] == heads[i + 1];
      EmitAscends(c1, heads[1..], h.author);
      if h.height > from {
        TagIsOwn(h.author, WalkRange(c.store, h.hash, from, h.height));
      }
      JoinAscending(out1, EmitHeads(c1, heads[1..]).1, h.author);
    }
  }

  /** One committed attestation emits its authors' blocks in ascending order of author. */
  lemma EmissionAscends(c: Chain, att: MultiAttestation)
    requires WellKeyed(c.store)
    ensures AuthorsAscend(EmitAttestation(c, att).1)
  {
    hide EmitHeads;
    SortByAuthorCorrect(att.envelope.heads, 0);
    EmitAscends(c, SortByAuthor(att.envelope.heads), 0);
  }
}
