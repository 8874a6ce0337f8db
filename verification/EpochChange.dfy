/** Zeus' change of eager leader: blames, change certificates, the epoch gate,
    and what a new epoch starts from. */
module EpochChange {
  import opened Base
  import opened DataBlocks
  import opened PrefixLock
  import BlockStore

  datatype Reason = Silence | Equivocation

  datatype Payload = Quiet(lastSeenHeight: nat) | Fork(height: nat, a: Block, b: Block)

  /** What a blamer signs. */
  datatype SignedBlame = SignedSilence(epoch: nat, height: nat) | SignedFork(epoch: nat, a: Hash, b: Hash)

  datatype Blame = Blame(epoch: nat, reason: Reason, payload: Payload, signer: Id, raw: RawSig<SignedBlame>)

  datatype ChangeQC = ChangeQC(epoch: nat, blames: seq<Blame>)

  /** `Aborts` where the source panics. */
  datatype Verdict = Accepts | Refuses | Aborts

  /** Node constants: its id, the known ids, and the committee's size and fault bound. */
  datatype Setup = Setup(me: Id, known: set<Id>, n: nat, faults: nat)

  function Eleader(epoch: nat, n: nat): Id
    requires n > 0
  {
    epoch % n
  }

  // ----- Judging blames -----

  /** A silence blame with a fork payload signs height 0; a fork blame with a
      silence payload cannot be encoded. */
  function SignedContent(epoch: nat, reason: Reason, payload: Payload): Option<SignedBlame> {
    match reason
    case Silence => Some(SignedSilence(epoch, if payload.Quiet? then payload.lastSeenHeight else 0))
    case Equivocation =>
      if payload.Fork? then Some(SignedFork(epoch, payload.a.Digest(), payload.b.Digest())) else None
  }

  function JudgeBlame(setup: Setup, b: Blame): Verdict
    requires setup.n > 0
  {
    if b.signer !in setup.known then Refuses
    else
      match SignedContent(b.epoch, b.reason, b.payload)
      case None => Aborts
      case Some(content) =>
        if !Verifies(b.signer, content, b.raw) then Refuses
        else if b.reason.Silence? then Accepts
        else
          var e := Eleader(b.epoch, setup.n);
          if b.payload.a.Digest() == b.payload.b.Digest() then Refuses
          else if b.payload.a.envelope.height != b.payload.height
               || b.payload.b.envelope.height != b.payload.height then Refuses
          else if e !in setup.known then Refuses
          else if !Verifies(e, b.payload.a.Digest(), b.payload.a.sig.raw) then Refuses
          else if !Verifies(e, b.payload.b.Digest(), b.payload.b.sig.raw) then Refuses
          else Accepts
  }

  /** The eager leader of the blame's epoch signed two blocks for one epoch and height. */
  predicate ProvesFork(setup: Setup, b: Blame)
    requires setup.n > 0
  {
    && b.payload.Fork? && b.payload.a.envelope != b.payload.b.envelope
    && b.payload.a.envelope.height == b.payload.b.envelope.height
    && b.payload.a.envelope.epoch == b.payload.b.envelope.epoch
    && Verifies(Eleader(b.epoch, setup.n), b.payload.a.Digest(), b.payload.a.sig.raw)
    && Verifies(Eleader(b.epoch, setup.n), b.payload.b.Digest(), b.payload.b.sig.raw)
  }

  /** An accepted equivocation blame is a proof of equivocation if and only if its
      two blocks carry one epoch, which the check does not look at. */
  lemma AcceptedForkProvesIff(setup: Setup, b: Blame)
    requires setup.n > 0 && b.reason.Equivocation? && JudgeBlame(setup, b) == Accepts
    ensures ProvesFork(setup, b) <==> b.payload.a.envelope.epoch == b.payload.b.envelope.epoch
  {
  }

  /** A leader of two epochs that signed one block in each, at one height, can be
      blamed for equivocation. */
  lemma HonestLeaderBlamed(setup: Setup, epoch: nat, height: nat, parent: Hash)
    requires setup.n > 0 && setup.me in setup.known && Eleader(epoch, setup.n) in setup.known
    ensures var e := Eleader(epoch, setup.n);
            var x := Envelope(epoch, height, [], parent);
            var y := Envelope(epoch + setup.n, height, [], parent);
            var a := Block(x, BlockSig(e, SignedBy(e, EnvelopeHash(x))));
            var b := Block(y, BlockSig(e, SignedBy(e, EnvelopeHash(y))));
            var blame := Blame(epoch, Equivocation, Fork(height, a, b), setup.me,
                               SignedBy(setup.me, SignedFork(epoch, a.Digest(), b.Digest())));
            && Eleader(epoch + setup.n, setup.n) == e
            && JudgeBlame(setup, blame) == Accepts && !ProvesFork(setup, blame)
  {
    hide Eleader;
    SameEleader(epoch, setup.n);
  }

  /** Leadership comes round every `n` epochs. */
  lemma SameEleader(epoch: nat, n: nat)
    requires n > 0
    ensures Eleader(epoch + n, n) == Eleader(epoch, n)
  {
    var q, r := epoch / n, epoch % n;
    var q', r' := (epoch + n) / n, (epoch + n) % n;
    Multiples(q + 1 - q', n, r' - r);
  }

  lemma Multiples(d: int, n: int, x: int)
    requires d * n == x && -n < x < n
    ensures x == 0
  {
    if d > 0 {
      AtLeastOnce(d, n);
    } else if d < 0 {
      AtLeastOnce(-d, n);
    }
  }

  lemma AtLeastOnce(d: int, n: int)
    requires d > 0 && n > 0
    ensures d * n >= n
  {
    assert d * n == n + (d - 1) * n;
  }

  // ----- Judging certificates -----

  function Signers(blames: seq<Blame>): set<Id> {
    set b | b in blames :: b.signer
  }

  predicate AllGood(setup: Setup, epoch: nat, blames: seq<Blame>)
    requires setup.n > 0
  {
    forall b <- blames :: b.epoch == epoch && JudgeBlame(setup, b) == Accepts
  }

  /** The first blame that is not good decides. */
  function JudgeBlames(setup: Setup, epoch: nat, blames: seq<Blame>): (v: Verdict)
    requires setup.n > 0
    ensures v == Accepts <==> AllGood(setup, epoch, blames)
  {
    if blames == [] then Accepts
    else if blames[0].epoch != epoch then Refuses
    else if JudgeBlame(setup, blames[0]) != Accepts then JudgeBlame(setup, blames[0])
    else JudgeBlames(setup, epoch, blames[1..])
  }

  function JudgeQC(setup: Setup, qc: ChangeQC): Verdict
    requires setup.n > 0
  {
    var v := JudgeBlames(setup, qc.epoch, qc.blames);
    if v == Accepts && |Signers(qc.blames)| <= setup.faults then Refuses else v
  }

  method EleaderChangeQcValid(setup: Setup, qc: ChangeQC) returns (v: Verdict)
    requires setup.n > 0
    ensures v == JudgeQC(setup, qc)
  {
    var seen: set<Id> := {};
    for i := 0 to |qc.blames|
      invariant seen == Signers(qc.blames[..i])
      invariant JudgeBlames(setup, qc.epoch, qc.blames) == JudgeBlames(setup, qc.epoch, qc.blames[i..])
    {
      var b := qc.blames[i];
      assert qc.blames[i..][1..] == qc.blames[i + 1..];
      assert qc.blames[..i + 1] == qc.blames[..i] + [b];
      if b.epoch != qc.epoch {
        return Refuses;
      }
      var ok := JudgeBlame(setup, b);
      if ok != Accepts {
        return ok;
      }
      seen := seen + {b.signer};
    }
    assert qc.blames[..|qc.blames|] == qc.blames;
    return if |seen| > setup.faults then Accepts else Refuses;
  }

  // ----- The state -----

  datatype Pending = Pending(blocks: map<Hash, seq<Block>>, attestations: set<Hash>)

  /** The value of a `ZeusNode` object, as far as a change of epoch touches it. */
  datatype Zeus = Zeus(
    current: nat,
    admitted: map<nat, ChangeQC>,
    blames: map<nat, seq<Blame>>,
    lock: seq<Pin>,
    index: Index,
    head: Hash,
    headHeight: nat,
    proposedHeight: nat,
    lastProposed: Option<Hash>,
    waitingFresh: bool,
    latestHeight: Option<nat>,
    pending: Pending,
    timerArmed: bool,
    newRounds: seq<nat>,
    sentBlames: seq<Blame>,
    sentQCs: seq<ChangeQC>)

  /** Epoch 1 is pre-admitted by a certificate without blames. */
  const SENTINEL: ChangeQC := ChangeQC(0, [])

  function Initial(index: Index): Zeus {
    Zeus(1, map[0 := SENTINEL], map[], [], index, GENESIS_HASH, 0, 0, None, false, None,
         Pending(map[], {}), false, [], [], [])
  }

  function BlamesAt(z: Zeus, epoch: nat): seq<Blame> {
    Lookup(z.blames, epoch, [])
  }

  function LowBlocks(bs: seq<Block>, height: nat): seq<Block> {
    if bs == [] then []
    else if bs[0].envelope.height <= height then [bs[0]] + LowBlocks(bs[1..], height)
    else LowBlocks(bs[1..], height)
  }

  predicate IndexedLow(index: Index, h: Hash, height: nat) {
    h in index && index[h].height <= height
  }

  function PurgedBlocks(m: map<Hash, seq<Block>>, index: Index, height: nat): map<Hash, seq<Block>> {
    map h | h in m && LowBlocks(m[h], height) != [] && IndexedLow(index, h, height) :: LowBlocks(m[h], height)
  }

  function PurgedAttestations(s: set<Hash>, index: Index, height: nat): set<Hash> {
    set h | h in s && IndexedLow(index, h, height)
  }

  function Purge(p: Pending, index: Index, height: nat): Pending {
    Pending(PurgedBlocks(p.blocks, index, height), PurgedAttestations(p.attestations, index, height))
  }

  /** A new epoch that starts from the given block. */
  function StartFrom(z: Zeus, epoch: nat, hash: Hash, height: nat): Zeus {
    z.(current := epoch, head := hash, headHeight := height, proposedHeight := height,
       lastProposed := None, waitingFresh := false, latestHeight := None,
       pending := Purge(z.pending, z.index, height), timerArmed := true)
  }

  /** Truncates to the block that the latest committed attestation pins. */
  function AdvanceTo(setup: Setup, z: Zeus, epoch: nat): Zeus
    requires setup.n > 0
  {
    var top := Latest(z.lock);
    var r := if top.Some? then StartFrom(z, epoch, top.value.hash, top.value.height)
             else StartFrom(z, epoch, GENESIS_HASH, 0);
    if setup.me == Eleader(epoch, setup.n) then r.(newRounds := r.newRounds + [r.headHeight + 1]) else r
  }

  function Admit(setup: Setup, z: Zeus, qc: ChangeQC): Zeus
    requires setup.n > 0
  {
    if z.current <= qc.epoch then AdvanceTo(setup, z, qc.epoch + 1) else z
  }

  /** Forms a certificate from the blames at hand, if they suffice. */
  function TryForm(setup: Setup, z: Zeus, epoch: nat): Zeus
    requires setup.n > 0
  {
    var qc := ChangeQC(epoch, BlamesAt(z, epoch));
    if epoch in z.admitted || epoch !in z.blames then z
    else if |Signers(qc.blames)| < setup.faults + 1 then z
    else if JudgeQC(setup, qc) != Accepts then z
    else Admit(setup, z.(admitted := z.admitted[epoch := qc], sentQCs := z.sentQCs + [qc]), qc)
  }

  predicate HasBlame(blames: seq<Blame>, signer: Id, reason: Reason) {
    exists b <- blames :: b.signer == signer && b.reason == reason
  }

  function AddBlame(z: Zeus, epoch: nat, b: Blame): Zeus {
    z.(blames := z.blames[epoch := BlamesAt(z, epoch) + [b]])
  }

  /** Blames that are new by signer and reason are appended in order. */
  function MergeBlames(local: seq<Blame>, more: seq<Blame>): seq<Blame>
    decreases |more|
  {
    if more == [] then local
    else if HasBlame(local, more[0].signer, more[0].reason) then MergeBlames(local, more[1..])
    else MergeBlames(local + [more[0]], more[1..])
  }

  predicate EpochGateValid(blockEpoch: nat, current: nat, admitted: map<nat, ChangeQC>) {
    blockEpoch >= current && (blockEpoch > current ==> blockEpoch - 1 in admitted)
  }

  /** A proposed block that passes its checks, but whose parent has another stored child. */
  predicate Collides(setup: Setup, z: Zeus, existing: Block, block: Block)
    requires setup.n > 0
  {
    var e := Eleader(block.envelope.epoch, setup.n);
    && e in setup.known && Verifies(e, block.Digest(), block.sig.raw)
    && EpochGateValid(block.envelope.epoch, z.current, z.admitted)
    && block.Digest() !in z.index && existing.Digest() in z.index
    && existing.envelope.parent == block.envelope.parent
  }

  /** `Elsewhere` is any handler that leaves epoch, certificates and blames alone. */
  datatype Event =
    | GotBlame(blame: Blame)
    | GotQC(qc: ChangeQC)
    | SilenceTimer
    | Collided(existing: Block, block: Block)
    | Elsewhere(next: Zeus)

  /** What a node signs against the leader of the new block's epoch. */
  function OwnFork(setup: Setup, existing: Block, block: Block): Blame {
    var epoch := block.envelope.epoch;
    Blame(epoch, Equivocation, Fork(block.envelope.height, existing, block), setup.me,
          SignedBy(setup.me, SignedFork(epoch, existing.Digest(), block.Digest())))
  }

  function OwnSilence(setup: Setup, z: Zeus): Blame {
    var seen := if z.latestHeight.Some? then z.latestHeight.value else 0;
    Blame(z.current, Silence, Quiet(seen), setup.me, SignedBy(setup.me, SignedSilence(z.current, seen)))
  }

  /** One handler call. Refused, aborting and repeated messages change nothing. */
  function Handle(setup: Setup, z: Zeus, e: Event): Zeus
    requires setup.n > 0
  {
    match e
    case GotBlame(b) =>
      if JudgeBlame(setup, b) != Accepts || HasBlame(BlamesAt(z, b.epoch), b.signer, b.reason) then z
      else TryForm(setup, AddBlame(z, b.epoch, b), b.epoch)
    case GotQC(qc) =>
      if qc.epoch in z.admitted || JudgeQC(setup, qc) != Accepts then z
      else Admit(setup, z.(admitted := z.admitted[qc.epoch := qc],
                           blames := z.blames[qc.epoch := MergeBlames(BlamesAt(z, qc.epoch), qc.blames)]), qc)
    case SilenceTimer =>
      var b := OwnSilence(setup, z);
      TryForm(setup, AddBlame(z.(sentBlames := z.sentBlames + [b], timerArmed := false), z.current, b), z.current)
    case Collided(existing, block) =>
      if !Collides(setup, z, existing, block) then z
      else
        var b := OwnFork(setup, existing, block);
        TryForm(setup, AddBlame(z.(sentBlames := z.sentBlames + [b]), b.epoch, b), b.epoch)
    case Elsewhere(next) =>
      next.(current := z.current, admitted := z.admitted, blames := z.blames,
            sentBlames := z.sentBlames, sentQCs := z.sentQCs)
  }

  // ----- The invariant -----

  /** The current epoch is one more than the greatest admitted one. */
  predicate EpochIsNext(z: Zeus) {
    z.current > 0 && z.current - 1 in z.admitted && forall e <- z.admitted :: e < z.current
  }

  /** Every certificate but the sentinel stands on its own. */
  predicate CertificatesGood(setup: Setup, z: Zeus)
    requires setup.n > 0
  {
    forall e <- z.admitted :: z.admitted[e].epoch == e &&
      (e == 0 || JudgeQC(setup, z.admitted[e]) == Accepts)
  }

  /** Enough distinct signers have blamed the epoch's leader. */
  predicate Enough(setup: Setup, blames: seq<Blame>) {
    |Signers(blames)| > setup.faults
  }

  /** No epoch with enough blamers, all of whose blames are accepted, is still
      waiting for its certificate. */
  predicate NothingDue(setup: Setup, z: Zeus)
    requires setup.n > 0
  {
    forall e <- z.blames :: e in z.admitted || !Enough(setup, z.blames[e]) || !AllGood(setup, e, z.blames[e])
  }

  predicate Good(setup: Setup, z: Zeus)
    requires setup.n > 0
  {
    EpochIsNext(z) && CertificatesGood(setup, z) && NothingDue(setup, z)
  }

  lemma InitialGood(setup: Setup, index: Index)
    requires setup.n > 0
    ensures Good(setup, Initial(index))
  {
  }

  /** The blames at hand make a certificate for an epoch that has none. */
  predicate Forms(setup: Setup, z: Zeus, epoch: nat)
    requires setup.n > 0
  {
    && epoch !in z.admitted && epoch in z.blames
    && Enough(setup, z.blames[epoch]) && AllGood(setup, epoch, z.blames[epoch])
  }

  predicate SameRecords(r: Zeus, z: Zeus) {
    && r.admitted == z.admitted && r.blames == z.blames && r.sentQCs == z.sentQCs
    && r.sentBlames == z.sentBlames && r.index == z.index
  }

  lemma StartFromRecords(z: Zeus, epoch: nat, hash: Hash, height: nat)
    ensures SameRecords(StartFrom(z, epoch, hash, height), z) && StartFrom(z, epoch, hash, height).current == epoch
  {
    hide Purge;
  }

  lemma AdvanceRecords(setup: Setup, z: Zeus, epoch: nat)
    requires setup.n > 0
    ensures SameRecords(AdvanceTo(setup, z, epoch), z) && AdvanceTo(setup, z, epoch).current == epoch
  {
    hide StartFrom, Latest, Eleader;
    var top := Latest(z.lock);
    if top.Some? {
      StartFromRecords(z, epoch, top.value.hash, top.value.height);
    } else {
      StartFromRecords(z, epoch, GENESIS_HASH, 0);
    }
  }

  /** What admitting a certificate does to the epoch. */
  lemma AdmitEpoch(setup: Setup, z: Zeus, qc: ChangeQC)
    requires setup.n > 0
    ensures var r := Admit(setup, z, qc);
            SameRecords(r, z) && r.current == (if z.current <= qc.epoch then qc.epoch + 1 else z.current)
  {
    hide AdvanceTo;
    AdvanceRecords(setup, z, qc.epoch + 1);
  }

  /** In any state a certificate is formed, admitted and multicast exactly when
      more than `faults` distinct signers are there and every accumulated blame is
      accepted; otherwise nothing changes at all. */
  lemma FormsExact(setup: Setup, z: Zeus, epoch: nat)
    requires setup.n > 0
    ensures var qc := ChangeQC(epoch, BlamesAt(z, epoch)); var r := TryForm(setup, z, epoch);
            && (!Forms(setup, z, epoch) ==> r == z)
            && (Forms(setup, z, epoch) ==>
                  && r.admitted == z.admitted[epoch := qc] && r.sentQCs == z.sentQCs + [qc]
                  && r.blames == z.blames && r.index == z.index
                  && r.current == (if z.current <= epoch then epoch + 1 else z.current))
  {
    hide AllGood, Signers, Admit;
    var qc := ChangeQC(epoch, BlamesAt(z, epoch));
    if Forms(setup, z, epoch) {
      AdmitEpoch(setup, z.(admitted := z.admitted[epoch := qc], sentQCs := z.sentQCs + [qc]), qc);
    }
  }

  /** Forming restores that nothing is due, and keeps the rest of the invariant. */
  lemma TryFormGood(setup: Setup, z: Zeus, epoch: nat)
    requires setup.n > 0 && EpochIsNext(z) && CertificatesGood(setup, z)
    requires forall e <- z.blames ::
               e == epoch || e in z.admitted || !Enough(setup, z.blames[e]) || !AllGood(setup, e, z.blames[e])
    ensures Good(setup, TryForm(setup, z, epoch))
    ensures TryForm(setup, z, epoch).current >= z.current
    ensures z.admitted.Keys <= TryForm(setup, z, epoch).admitted.Keys
  {
    hide AllGood, Enough, TryForm, JudgeQC;
    FormsExact(setup, z, epoch);
    if Forms(setup, z, epoch) {
      GoodQC(setup, ChangeQC(epoch, z.blames[epoch]));
    }
  }

  lemma GoodQC(setup: Setup, qc: ChangeQC)
    requires setup.n > 0
    ensures JudgeQC(setup, qc) == Accepts <==> Enough(setup, qc.blames) && AllGood(setup, qc.epoch, qc.blames)
  {
  }

  lemma AddBlameDue(setup: Setup, z: Zeus, z1: Zeus, epoch: nat, b: Blame)
    requires setup.n > 0 && Good(setup, z)
    requires z1.current == z.current && z1.admitted == z.admitted && z1.blames == z.blames
    ensures var r := TryForm(setup, AddBlame(z1, epoch, b), epoch);
            Good(setup, r) && r.current >= z.current && z.admitted.Keys <= r.admitted.Keys
  {
    hide TryForm, Enough, AllGood, JudgeQC;
    TryFormGood(setup, AddBlame(z1, epoch, b), epoch);
  }

  lemma {:induction false} MergeGood(setup: Setup, epoch: nat, local: seq<Blame>, more: seq<Blame>)
    requires setup.n > 0 && AllGood(setup, epoch, local) && AllGood(setup, epoch, more)
    ensures AllGood(setup, epoch, MergeBlames(local, more))
    decreases |more|
  {
    if more != [] {
      MergeGood(setup, epoch, if HasBlame(local, more[0].signer, more[0].reason) then local else local + [more[0]],
                more[1..]);
    }
  }

  function CountOf(blames: seq<Blame>, signer: Id, reason: Reason): nat {
    if blames == [] then 0
    else
      var here := if blames[0].signer == signer && blames[0].reason == reason then 1 else 0;
      here + CountOf(blames[1..], signer, reason)
  }

  lemma {:induction false} CountSnoc(bs: seq<Blame>, b: Blame, signer: Id, reason: Reason)
    ensures CountOf(bs + [b], signer, reason)
         == CountOf(bs, signer, reason) + (if b.signer == signer && b.reason == reason then 1 else 0)
  {
    if bs == [] {
      assert [] + [b] == [b] && [b][1..] == [];
    } else {
      CountSnoc(bs[1..], b, signer, reason);
      TailOfAppend(bs, [b]);
    }
  }

  lemma {:induction false} CountIffHas(bs: seq<Blame>, signer: Id, reason: Reason)
    ensures CountOf(bs, signer, reason) > 0 <==> HasBlame(bs, signer, reason)
  {
    if bs != [] {
      CountIffHas(bs[1..], signer, reason);
      HasBlameCons(bs, signer, reason);
    }
  }

  /** A merge keeps the local blames first, takes every signer and reason of the
      certificate, and adds none for a pair at hand and one for any other. */
  lemma {:induction false} MergeCovers(local: seq<Blame>, more: seq<Blame>, signer: Id, reason: Reason)
    ensures local <= MergeBlames(local, more)
    ensures HasBlame(MergeBlames(local, more), signer, reason)
       <==> HasBlame(local, signer, reason) || HasBlame(more, signer, reason)
    ensures CountOf(MergeBlames(local, more), signer, reason)
         == if HasBlame(local, signer, reason) then CountOf(local, signer, reason)
            else if HasBlame(more, signer, reason) then 1 else 0
    decreases |more|
  {
    hide HasBlame, CountOf;
    if more == [] {
      NoBlames(signer, reason);
      CountIffHas(local, signer, reason);
    } else {
      var b := more[0];
      var next := if HasBlame(local, b.signer, b.reason) then local else local + [b];
      MergeCovers(next, more[1..], signer, reason);
      HasBlameCons(more, signer, reason);
      HasBlameSnoc(local, b, signer, reason);
      CountSnoc(local, b, signer, reason);
      CountIffHas(local, signer, reason);
      assert local <= next;
    }
  }

  lemma NoBlames(signer: Id, reason: Reason)
    ensures !HasBlame([], signer, reason)
  {
  }

  lemma HasBlameCons(bs: seq<Blame>, signer: Id, reason: Reason)
    requires bs != []
    ensures HasBlame(bs, signer, reason)
       <==> (bs[0].signer == signer && bs[0].reason == reason) || HasBlame(bs[1..], signer, reason)
  {
    assert bs == [bs[0]] + bs[1..];
  }

  lemma HasBlameSnoc(bs: seq<Blame>, b: Blame, signer: Id, reason: Reason)
    ensures HasBlame(bs + [b], signer, reason)
       <==> HasBlame(bs, signer, reason) || (b.signer == signer && b.reason == reason)
  {
    assert (bs + [b])[|bs|] == b;
    if HasBlame(bs, signer, reason) {
      var x :| x in bs && x.signer == signer && x.reason == reason;
      assert x in bs + [b];
    }
  }

  lemma OwnSilenceAccepted(setup: Setup, z: Zeus)
    requires setup.n > 0 && setup.me in setup.known
    ensures JudgeBlame(setup, OwnSilence(setup, z)) == Accepts && OwnSilence(setup, z).epoch == z.current
  {
  }

  lemma GotQCGood(setup: Setup, z: Zeus, qc: ChangeQC)
    requires setup.n > 0 && Good(setup, z)
    requires qc.epoch !in z.admitted && JudgeQC(setup, qc) == Accepts
    ensures var merged := MergeBlames(BlamesAt(z, qc.epoch), qc.blames);
            var r := Admit(setup, z.(admitted := z.admitted[qc.epoch := qc],
                                     blames := z.blames[qc.epoch := merged]), qc);
            Good(setup, r) && r.current >= z.current && z.admitted.Keys <= r.admitted.Keys
  {
    hide JudgeQC, AllGood, AdvanceTo, Admit, MergeBlames, Enough;
    var merged := MergeBlames(BlamesAt(z, qc.epoch), qc.blames);
    AdmitEpoch(setup, z.(admitted := z.admitted[qc.epoch := qc], blames := z.blames[qc.epoch := merged]), qc);
  }

  /** Every handler keeps the invariant; the epoch never falls and no admitted
      certificate is dropped. */
  lemma HandleGood(setup: Setup, z: Zeus, e: Event)
    requires setup.n > 0 && Good(setup, z)
    ensures Good(setup, Handle(setup, z, e))
    ensures Handle(setup, z, e).current >= z.current
    ensures z.admitted.Keys <= Handle(setup, z, e).admitted.Keys
  {
    hide JudgeQC, JudgeBlame, Admit, TryForm, MergeBlames, HasBlame, Good, AddBlame, OwnSilence, OwnFork, Collides;
    match e
    case GotBlame(b) => AddBlameDue(setup, z, z, b.epoch, b);
    case GotQC(qc) =>
      if qc.epoch !in z.admitted && JudgeQC(setup, qc) == Accepts {
        GotQCGood(setup, z, qc);
      }
    case SilenceTimer =>
      var b := OwnSilence(setup, z);
      AddBlameDue(setup, z, z.(sentBlames := z.sentBlames + [b], timerArmed := false), z.current, b);
    case Collided(existing, block) =>
      var b := OwnFork(setup, existing, block);
      AddBlameDue(setup, z, z.(sentBlames := z.sentBlames + [b]), b.epoch, b);
    case Elsewhere(_) => UnrelatedGood(setup, z, Handle(setup, z, e));
  }

  lemma UnrelatedGood(setup: Setup, z: Zeus, z1: Zeus)
    requires setup.n > 0 && Good(setup, z)
    requires z1.current == z.current && z1.admitted == z.admitted && z1.blames == z.blames
    ensures Good(setup, z1)
  {
    hide JudgeQC, AllGood, Enough;
  }

  // ----- Runs -----

  function Run(setup: Setup, start: Zeus, es: seq<Event>): Zeus
    requires setup.n > 0
    decreases |es|
  {
    if es == [] then start else Handle(setup, Run(setup, start, es[..|es| - 1]), es[|es| - 1])
  }

  /** In every reachable state the current epoch is one more than the greatest
      admitted certificate's, every certificate beyond the sentinel carries accepted
      blames of more than `faults` distinct signers, and an epoch with that many
      waits for its certificate only if it holds a blame that is not accepted. */
  lemma {:induction false} RunGood(setup: Setup, index: Index, es: seq<Event>)
    requires setup.n > 0
    ensures Good(setup, Run(setup, Initial(index), es))
    decreases |es|
  {
    hide Good, Handle;
    if es == [] {
      InitialGood(setup, index);
    } else {
      RunGood(setup, index, es[..|es| - 1]);
      HandleGood(setup, Run(setup, Initial(index), es[..|es| - 1]), es[|es| - 1]);
    }
  }

  lemma {:induction false} EpochNeverFalls(setup: Setup, index: Index, es: seq<Event>, k: nat)
    requires setup.n > 0 && k <= |es|
    ensures Run(setup, Initial(index), es[..k]).current <= Run(setup, Initial(index), es).current
    decreases |es|
  {
    hide Good, Handle;
    if k < |es| {
      assert es[..|es| - 1][..k] == es[..k];
      EpochNeverFalls(setup, index, es[..|es| - 1], k);
      RunGood(setup, index, es[..|es| - 1]);
      HandleGood(setup, Run(setup, Initial(index), es[..|es| - 1]), es[|es| - 1]);
    } else {
      assert es[..k] == es;
    }
  }

  /** With the node's own epoch the gate lets exactly that epoch through. */
  lemma GateAcceptsCurrent(setup: Setup, index: Index, es: seq<Event>, blockEpoch: nat)
    requires setup.n > 0
    ensures var z := Run(setup, Initial(index), es);
            EpochGateValid(blockEpoch, z.current, z.admitted) <==> blockEpoch == z.current
  {
    hide CertificatesGood, NothingDue, Run;
    RunGood(setup, index, es);
  }

  // ----- Blames for collisions -----

  /** The stored block has the new one's height and was signed by the leader of
      the new one's epoch. */
  predicate SameLeaderAndHeight(setup: Setup, existing: Block, block: Block)
    requires setup.n > 0
  {
    && existing.envelope.height == block.envelope.height
    && Verifies(Eleader(block.envelope.epoch, setup.n), existing.Digest(), existing.sig.raw)
  }

  /** A node's own blame for a collision is added unchecked; it would be accepted if
      and only if the stored block has the same height and the same leader's signature. */
  lemma OwnForkAcceptedIff(setup: Setup, z: Zeus, existing: Block, block: Block)
    requires setup.n > 0 && setup.me in setup.known && Collides(setup, z, existing, block)
    ensures JudgeBlame(setup, OwnFork(setup, existing, block)) == Accepts
       <==> SameLeaderAndHeight(setup, existing, block)
  {
    hide Eleader, EpochGateValid;
  }

  predicate BlamesGood(setup: Setup, z: Zeus)
    requires setup.n > 0
  {
    forall e <- z.blames :: AllGood(setup, e, z.blames[e])
  }

  predicate CollisionJust(setup: Setup, z: Zeus, e: Event)
    requires setup.n > 0
  {
    e.Collided? && Collides(setup, z, e.existing, e.block) ==> SameLeaderAndHeight(setup, e.existing, e.block)
  }

  predicate CollisionsJust(setup: Setup, start: Zeus, es: seq<Event>)
    requires setup.n > 0
    decreases |es|
  {
    es == [] ||
    (var n := |es| - 1;
     CollisionsJust(setup, start, es[..n]) && CollisionJust(setup, Run(setup, start, es[..n]), es[n]))
  }

  lemma AddBlameGoodIff(setup: Setup, z: Zeus, z1: Zeus, epoch: nat, b: Blame)
    requires setup.n > 0 && z1.blames == z.blames
    ensures BlamesGood(setup, TryForm(setup, AddBlame(z1, epoch, b), epoch))
       <==> BlamesGood(setup, z) && b.epoch == epoch && JudgeBlame(setup, b) == Accepts
  {
    hide TryForm, JudgeBlame, Forms;
    FormsExact(setup, AddBlame(z1, epoch, b), epoch);
    GoodSnoc(setup, epoch, BlamesAt(z, epoch), b);
    hide AllGood;
    var r := AddBlame(z1, epoch, b);
    assert r.blames[epoch] == BlamesAt(z, epoch) + [b];
    NoneGood(setup, epoch);
    if BlamesGood(setup, r) {
      forall e | e in z.blames ensures AllGood(setup, e, z.blames[e]) {
        assert e != epoch ==> r.blames[e] == z.blames[e];
      }
    }
  }

  lemma GoodSnoc(setup: Setup, epoch: nat, bs: seq<Blame>, b: Blame)
    requires setup.n > 0
    ensures AllGood(setup, epoch, bs + [b])
       <==> AllGood(setup, epoch, bs) && b.epoch == epoch && JudgeBlame(setup, b) == Accepts
  {
    hide JudgeBlame;
    assert b in bs + [b] && forall x <- bs :: x in bs + [b];
  }

  lemma NoneGood(setup: Setup, epoch: nat)
    requires setup.n > 0
    ensures AllGood(setup, epoch, [])
  {
  }

  lemma MergeBlamesGoodIff(setup: Setup, z: Zeus, qc: ChangeQC)
    requires setup.n > 0 && JudgeQC(setup, qc) == Accepts
    ensures BlamesGood(setup, z.(blames := z.blames[qc.epoch := MergeBlames(BlamesAt(z, qc.epoch), qc.blames)]))
       <==> BlamesGood(setup, z)
  {
    hide JudgeQC, JudgeBlame, MergeBlames, HasBlame;
    GoodQC(setup, qc);
    var local := BlamesAt(z, qc.epoch);
    var r := z.(blames := z.blames[qc.epoch := MergeBlames(local, qc.blames)]);
    MergeCovers(local, qc.blames, 0, Silence);
    assert forall x <- local :: x in MergeBlames(local, qc.blames);
    if BlamesGood(setup, z) {
      NoneGood(setup, qc.epoch);
      MergeGood(setup, qc.epoch, local, qc.blames);
    } else {
      var e :| e in z.blames && !AllGood(setup, e, z.blames[e]);
      assert e in r.blames && !AllGood(setup, e, r.blames[e]);
    }
  }

  lemma HandleBlamesGoodIff(setup: Setup, z: Zeus, e: Event)
    requires setup.n > 0 && setup.me in setup.known
    ensures BlamesGood(setup, Handle(setup, z, e)) <==> BlamesGood(setup, z) && CollisionJust(setup, z, e)
  {
    hide JudgeQC, JudgeBlame, Admit, TryForm, MergeBlames, HasBlame, AddBlame, OwnSilence, OwnFork, Collides,
         SameLeaderAndHeight, AllGood;
    match e
    case GotBlame(b) => AddBlameGoodIff(setup, z, z, b.epoch, b);
    case GotQC(qc) =>
      if qc.epoch !in z.admitted && JudgeQC(setup, qc) == Accepts {
        MergeBlamesGoodIff(setup, z, qc);
        AdmitEpoch(setup, z.(admitted := z.admitted[qc.epoch := qc],
                             blames := z.blames[qc.epoch := MergeBlames(BlamesAt(z, qc.epoch), qc.blames)]), qc);
      }
    case SilenceTimer =>
      var b := OwnSilence(setup, z);
      OwnSilenceAccepted(setup, z);
      AddBlameGoodIff(setup, z, z.(sentBlames := z.sentBlames + [b], timerArmed := false), z.current, b);
    case Collided(existing, block) =>
      var b := OwnFork(setup, existing, block);
      if Collides(setup, z, existing, block) {
        OwnForkAcceptedIff(setup, z, existing, block);
        AddBlameGoodIff(setup, z, z.(sentBlames := z.sentBlames + [b]), b.epoch, b);
      }
    case Elsewhere(_) =>
  }

  /** Every accumulated blame is accepted if and only if every collision met was
      between two blocks of one height and one leader. */
  lemma {:induction false} BlamesGoodIff(setup: Setup, index: Index, es: seq<Event>)
    requires setup.n > 0 && setup.me in setup.known
    ensures BlamesGood(setup, Run(setup, Initial(index), es)) <==> CollisionsJust(setup, Initial(index), es)
    decreases |es|
  {
    hide Handle, CollisionJust, AllGood;
    if es != [] {
      BlamesGoodIff(setup, index, es[..|es| - 1]);
      HandleBlamesGoodIff(setup, Run(setup, Initial(index), es[..|es| - 1]), es[|es| - 1]);
    }
  }

  /** Then no epoch with enough blamers waits for its certificate. */
  lemma NoEpochStuck(setup: Setup, index: Index, es: seq<Event>, epoch: nat)
    requires setup.n > 0 && setup.me in setup.known && CollisionsJust(setup, Initial(index), es)
    ensures var z := Run(setup, Initial(index), es);
            epoch in z.blames && Enough(setup, z.blames[epoch]) ==> epoch in z.admitted
  {
    hide Run, CollisionsJust, AllGood, Enough, CertificatesGood, EpochIsNext;
    RunGood(setup, index, es);
    BlamesGoodIff(setup, index, es);
  }

  /** A blame that is not accepted stays, so its node forms no certificate for that
      epoch any more, however many blames arrive. */
  lemma {:induction false} RefusedBlameStays(setup: Setup, start: Zeus, es: seq<Event>, k: nat, epoch: nat)
    requires setup.n > 0 && k <= |es|
    requires !AllGood(setup, epoch, BlamesAt(Run(setup, start, es[..k]), epoch))
    ensures !Forms(setup, Run(setup, start, es), epoch)
    ensures !AllGood(setup, epoch, BlamesAt(Run(setup, start, es), epoch))
    decreases |es|
  {
    hide Handle, AllGood, Enough;
    if k < |es| {
      var n := |es| - 1;
      assert es[..n][..k] == es[..k];
      RefusedBlameStays(setup, start, es[..n], k, epoch);
      BlamesOnlyGrow(setup, Run(setup, start, es[..n]), es[n], epoch);
      RefusedInPrefix(setup, epoch, BlamesAt(Run(setup, start, es[..n]), epoch),
                      BlamesAt(Run(setup, start, es), epoch));
    } else {
      assert es[..k] == es;
    }
  }

  lemma RefusedInPrefix(setup: Setup, epoch: nat, bs: seq<Blame>, more: seq<Blame>)
    requires setup.n > 0 && bs <= more && !AllGood(setup, epoch, bs)
    ensures !AllGood(setup, epoch, more)
  {
    hide JudgeBlame;
    var b :| b in bs && !(b.epoch == epoch && JudgeBlame(setup, b) == Accepts);
    assert b in more;
  }

  lemma BlamesOnlyGrow(setup: Setup, z: Zeus, e: Event, epoch: nat)
    requires setup.n > 0
    ensures BlamesAt(z, epoch) <= BlamesAt(Handle(setup, z, e), epoch)
  {
    hide JudgeQC, JudgeBlame, Admit, TryForm, MergeBlames, HasBlame, OwnSilence, OwnFork, Collides, Forms;
    match e
    case GotBlame(b) => FormsExact(setup, AddBlame(z, b.epoch, b), b.epoch);
    case GotQC(qc) =>
      if qc.epoch !in z.admitted && JudgeQC(setup, qc) == Accepts {
        MergeCovers(BlamesAt(z, qc.epoch), qc.blames, 0, Silence);
        AdmitEpoch(setup, z.(admitted := z.admitted[qc.epoch := qc],
                             blames := z.blames[qc.epoch := MergeBlames(BlamesAt(z, qc.epoch), qc.blames)]), qc);
      }
    case SilenceTimer =>
      var b := OwnSilence(setup, z);
      FormsExact(setup, AddBlame(z.(sentBlames := z.sentBlames + [b], timerArmed := false), z.current, b), z.current);
    case Collided(existing, block) =>
      var b := OwnFork(setup, existing, block);
      FormsExact(setup, AddBlame(z.(sentBlames := z.sentBlames + [b]), b.epoch, b), b.epoch);
    case Elsewhere(_) =>
  }

  // ----- A run with a stuck epoch -----

  function SilenceOf(epoch: nat, signer: Id): Blame {
    Blame(epoch, Silence, Quiet(0), signer, SignedBy(signer, SignedSilence(epoch, 0)))
  }

  function FirstBlock(epoch: nat, leader: Id): Block {
    var x := Envelope(epoch, 1, [], GENESIS_HASH);
    Block(x, BlockSig(leader, SignedBy(leader, EnvelopeHash(x))))
  }

  const FOUR: Setup := Setup(0, {0, 1, 2, 3}, 4, 1)

  const STORED: Index := map[
    GENESIS_HASH := BlockStore.Meta(0, 0, EMPTY_HASH, GENESIS_HASH),
    FirstBlock(1, 1).Digest() := BlockStore.Meta(1, 1, GENESIS_HASH, FirstBlock(1, 1).Digest())]

  /** Epoch 1 ends on two silence blames after its leader's block was stored; the
      leader of epoch 2 then proposes its own first block and falls silent. */
  function StuckRun(): seq<Event> {
    [SilenceTimer, GotBlame(SilenceOf(1, 3)), Collided(FirstBlock(1, 1), FirstBlock(2, 2)),
     GotBlame(SilenceOf(2, 1)), GotBlame(SilenceOf(2, 3))]
  }

  lemma RunMore(setup: Setup, start: Zeus, es: seq<Event>, e: Event)
    requires setup.n > 0
    ensures Run(setup, start, es + [e]) == Handle(setup, Run(setup, start, es), e)
  {
    assert (es + [e])[..|es|] == es;
  }

  /** No leader signed two blocks, and three of four nodes blame epoch 2, but its
      certificate is never formed. */
  lemma EpochCanGetStuck()
    ensures var z := Run(FOUR, Initial(STORED), StuckRun());
            && z.current == 2 && 2 in z.blames && 2 !in z.admitted
            && Signers(z.blames[2]) == {0, 1, 3} && Enough(FOUR, z.blames[2])
            && !BlamesGood(FOUR, z) && !CollisionsJust(FOUR, Initial(STORED), StuckRun())
  {
    hide Run, Handle, BlamesGood, CollisionsJust, Enough, Signers;
    var z0 := Initial(STORED);
    var b0, b1 := OwnSilence(FOUR, z0), SilenceOf(1, 3);
    var fork := OwnFork(FOUR, FirstBlock(1, 1), FirstBlock(2, 2));
    var z1 := Handle(FOUR, z0, SilenceTimer);
    var z2 := Handle(FOUR, z1, GotBlame(b1));
    var z3 := Handle(FOUR, z2, Collided(FirstBlock(1, 1), FirstBlock(2, 2)));
    var z4 := Handle(FOUR, z3, GotBlame(SilenceOf(2, 1)));
    var z5 := Handle(FOUR, z4, GotBlame(SilenceOf(2, 3)));
    FiveSteps(z0, SilenceTimer, GotBlame(b1), Collided(FirstBlock(1, 1), FirstBlock(2, 2)),
              GotBlame(SilenceOf(2, 1)), GotBlame(SilenceOf(2, 3)));
    FirstSilence();
    EpochTwo(z1);
    ForkJoins(z2);
    BlameJoins(z3, [fork], 1);
    BlameJoins(z4, [fork, SilenceOf(2, 1)], 3);
    assert [fork] + [SilenceOf(2, 1)] == [fork, SilenceOf(2, 1)];
    assert [fork, SilenceOf(2, 1)] + [SilenceOf(2, 3)] == [fork, SilenceOf(2, 1), SilenceOf(2, 3)];
    ThreeSigners(fork, SilenceOf(2, 1), SilenceOf(2, 3));
    ForkRefused();
    assert !BlamesGood(FOUR, z5) by { RefusedBlame(FOUR, z5, 2, fork); }
    BlamesGoodIff(FOUR, STORED, StuckRun());
  }

  lemma FiveSteps(z: Zeus, a: Event, b: Event, c: Event, d: Event, e: Event)
    ensures Run(FOUR, z, [a, b, c, d, e])
         == Handle(FOUR, Handle(FOUR, Handle(FOUR, Handle(FOUR, Handle(FOUR, z, a), b), c), d), e)
  {
    hide Handle, Run;
    RunMore(FOUR, z, [], a);
    RunMore(FOUR, z, [a], b);
    RunMore(FOUR, z, [a, b], c);
    RunMore(FOUR, z, [a, b, c], d);
    RunMore(FOUR, z, [a, b, c, d], e);
    assert Run(FOUR, z, []) == z by { RunNone(z); }
    assert [] + [a] == [a] && [a] + [b] == [a, b] && [a, b] + [c] == [a, b, c];
    assert [a, b, c] + [d] == [a, b, c, d] && [a, b, c, d] + [e] == [a, b, c, d, e];
  }

  lemma RunNone(z: Zeus)
    ensures Run(FOUR, z, []) == z
  {
  }

  lemma FirstSilence()
    ensures var z := Handle(FOUR, Initial(STORED), SilenceTimer);
            && z.current == 1 && z.admitted.Keys == {0} && z.index == STORED
            && z.blames == map[1 := [SilenceOf(1, 0)]]
  {
    hide TryForm, Signers;
    var b := OwnSilence(FOUR, Initial(STORED));
    var z := Initial(STORED).(sentBlames := [b], timerArmed := false);
    FormsExact(FOUR, AddBlame(z, 1, b), 1);
    assert AddBlame(z, 1, b).blames[1] == [b];
    OneSigner(b);
  }

  lemma OneSigner(b: Blame)
    ensures Signers([b]) == {b.signer}
  {
  }

  lemma EpochTwo(z: Zeus)
    requires z.current == 1 && z.admitted.Keys == {0} && z.index == STORED
    requires z.blames == map[1 := [SilenceOf(1, 0)]]
    ensures var r := Handle(FOUR, z, GotBlame(SilenceOf(1, 3)));
            && r.current == 2 && r.admitted.Keys == {0, 1} && r.index == STORED && r.blames.Keys == {1}
  {
    hide TryForm, Signers;
    var b := SilenceOf(1, 3);
    FormsExact(FOUR, AddBlame(z, 1, b), 1);
    assert AddBlame(z, 1, b).blames[1] == [SilenceOf(1, 0), b];
    assert Signers([SilenceOf(1, 0), b]) == {0, 3} by { TwoSigners(SilenceOf(1, 0), b); }
  }

  lemma TwoSigners(b: Blame, c: Blame)
    ensures Signers([b, c]) == {b.signer, c.signer}
  {
    assert b in [b, c] && c in [b, c];
  }

  lemma ThreeSigners(b: Blame, c: Blame, d: Blame)
    requires b.signer == 0 && c.signer == 1 && d.signer == 3
    ensures Signers([b, c, d]) == {0, 1, 3} && Enough(FOUR, [b, c, d])
  {
    assert b in [b, c, d] && c in [b, c, d] && d in [b, c, d];
  }

  lemma ForkRefused()
    ensures JudgeBlame(FOUR, OwnFork(FOUR, FirstBlock(1, 1), FirstBlock(2, 2))) == Refuses
  {
  }

  lemma ForkJoins(z: Zeus)
    requires z.current == 2 && z.admitted.Keys == {0, 1} && z.index == STORED && z.blames.Keys == {1}
    ensures var r := Handle(FOUR, z, Collided(FirstBlock(1, 1), FirstBlock(2, 2)));
            && r.current == 2 && r.admitted.Keys == {0, 1}
            && 2 in r.blames && r.blames[2] == [OwnFork(FOUR, FirstBlock(1, 1), FirstBlock(2, 2))]
  {
    hide TryForm, Signers, JudgeBlame, OwnFork;
    var b := OwnFork(FOUR, FirstBlock(1, 1), FirstBlock(2, 2));
    assert Collides(FOUR, z, FirstBlock(1, 1), FirstBlock(2, 2)) && b.epoch == 2 by { CollidesHere(z); }
    var z1 := z.(sentBlames := z.sentBlames + [b]);
    FormsExact(FOUR, AddBlame(z1, 2, b), 2);
    assert AddBlame(z1, 2, b).blames[2] == [b];
    OneSigner(b);
    hide Forms;
    assert |Signers([b])| == 1;
  }

  lemma CollidesHere(z: Zeus)
    requires z.current == 2 && z.index == STORED
    ensures Collides(FOUR, z, FirstBlock(1, 1), FirstBlock(2, 2))
    ensures OwnFork(FOUR, FirstBlock(1, 1), FirstBlock(2, 2)).epoch == 2
  {
  }

  lemma RefusedBlame(setup: Setup, z: Zeus, epoch: nat, b: Blame)
    requires setup.n > 0 && epoch in z.blames && b in z.blames[epoch] && JudgeBlame(setup, b) != Accepts
    ensures !BlamesGood(setup, z)
  {
    hide JudgeBlame;
  }

  /** A further silence blame joins, but the refused one keeps the certificate from forming. */
  lemma BlameJoins(z: Zeus, bs: seq<Blame>, signer: Id)
    requires z.current == 2 && z.admitted.Keys == {0, 1} && 2 in z.blames && z.blames[2] == bs
    requires signer in {1, 3} && (forall b <- bs :: b.signer != signer)
    requires OwnFork(FOUR, FirstBlock(1, 1), FirstBlock(2, 2)) in bs
    ensures var r := Handle(FOUR, z, GotBlame(SilenceOf(2, signer)));
            && r.current == 2 && r.admitted.Keys == {0, 1}
            && 2 in r.blames && r.blames[2] == bs + [SilenceOf(2, signer)]
  {
    hide TryForm, Signers, OwnFork, FirstBlock;
    var b := SilenceOf(2, signer);
    FormsExact(FOUR, AddBlame(z, 2, b), 2);
    assert AddBlame(z, 2, b).blames[2] == bs + [b];
    ForkRefused();
    assert OwnFork(FOUR, FirstBlock(1, 1), FirstBlock(2, 2)) in bs + [b];
  }

  // ----- What a new epoch starts from -----

  /** The new head is the locked block, or genesis, at the height its attestation
      claimed; it passes the conflict check, and has that height, if and only if the
      claim was true. */
  lemma AdvanceTruncates(setup: Setup, z: Zeus, epoch: nat)
    requires setup.n > 0 && Closed(z.index) && |z.lock| <= 1 && forall pin <- z.lock :: pin.hash in z.index
    ensures var r := AdvanceTo(setup, z, epoch); var honest := forall pin <- z.lock :: Genuine(pin);
            && r.head in z.index && r.head == StartHash(z.lock) && r.headHeight == r.proposedHeight
            && (r.headHeight == r.head.envelope.height <==> honest)
            && (!Conflicts(z.index, r.head, r.head.envelope.height, r.head.envelope.parent, r.lock) <==> honest)
            && r.pending == Purge(z.pending, z.index, r.headHeight)
            && r.lastProposed == None && r.latestHeight == None && !r.waitingFresh && r.timerArmed
            && (r.newRounds != z.newRounds <==> setup.me == Eleader(epoch, setup.n))
            && (r.newRounds != z.newRounds ==> r.newRounds == z.newRounds + [r.headHeight + 1])
  {
    hide Conflicts, AncestorOrSelf, Purge, Closed;
    StartPassesIff(z.index, z.lock);
  }

  /** After the change an attestation of a stored block passes if its block descends
      from the new head, also one of an earlier epoch that lies above it. */
  lemma OldAttestationPassesIff(setup: Setup, z: Zeus, epoch: nat, pin: Pin)
    requires setup.n > 0 && Closed(z.index) && |z.lock| <= 1 && pin.hash in z.index
    ensures var r := AdvanceTo(setup, z, epoch); var honest := forall p <- z.lock :: Genuine(p);
            AttestationValid(r.index, r.lock, pin) <==> honest && AncestorOrSelf(r.head, pin.hash)
  {
    hide AncestorOrSelf, Purge, Closed, AttestationValid;
    AttestationValidIff(z.index, z.lock, pin);
  }

  /** A parked block survives exactly when it and its indexed parent are low
      enough, an attestation when its block is; no empty list stays behind. */
  lemma PurgeExact(p: Pending, index: Index, height: nat, h: Hash, b: Block)
    ensures var r := Purge(p, index, height);
            && (h in r.blocks && b in r.blocks[h] <==>
                  h in p.blocks && b in p.blocks[h] && b.envelope.height <= height && IndexedLow(index, h, height))
            && (h in r.attestations <==> h in p.attestations && IndexedLow(index, h, height))
            && (h in r.blocks ==> r.blocks[h] != [])
  {
    if h in p.blocks {
      LowBlocksMembers(p.blocks[h], height, b);
    }
  }

  lemma {:induction false} LowBlocksMembers(bs: seq<Block>, height: nat, b: Block)
    ensures b in LowBlocks(bs, height) <==> b in bs && b.envelope.height <= height
  {
    if bs != [] {
      LowBlocksMembers(bs[1..], height, b);
      assert b in bs <==> b == bs[0] || b in bs[1..];
    }
  }
}
