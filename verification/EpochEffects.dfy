/** What each handler of the change of epoch does, for every state and over runs:
    what a certificate, a blame, the timer and a collision bring about. */
module EpochEffects {
  import opened Base
  import opened DataBlocks
  import opened PrefixLock
  import opened EpochChange

  /** The state is that of a new epoch, which starts from the locked block. */
  predicate StartsEpoch(setup: Setup, z: Zeus, r: Zeus, epoch: nat)
    requires setup.n > 0
  {
    && r.current == epoch
    && r.head == StartHash(z.lock) && r.headHeight == r.proposedHeight == StartHeight(z.lock)
    && r.lastProposed == None && r.latestHeight == None && !r.waitingFresh && r.timerArmed
    && r.pending == Purge(z.pending, z.index, StartHeight(z.lock))
    && r.newRounds == z.newRounds + (if setup.me == epoch % setup.n then [StartHeight(z.lock) + 1] else [])
    && r.lock == z.lock && r.index == z.index
  }

  /** All that a change of epoch touches is as it was. */
  predicate StaysInEpoch(z: Zeus, r: Zeus) {
    && r.current == z.current && r.head == z.head && r.headHeight == z.headHeight
    && r.proposedHeight == z.proposedHeight && r.lastProposed == z.lastProposed
    && r.latestHeight == z.latestHeight && r.waitingFresh == z.waitingFresh
    && r.pending == z.pending && r.newRounds == z.newRounds && r.lock == z.lock && r.index == z.index
  }

  /** After a certificate for `epoch`: its successor is entered unless the node is
      beyond it already. */
  predicate Left(setup: Setup, z: Zeus, r: Zeus, epoch: nat)
    requires setup.n > 0
  {
    if z.current <= epoch then StartsEpoch(setup, z, r, epoch + 1)
    else StaysInEpoch(z, r) && r.timerArmed == z.timerArmed
  }

  lemma AdvanceStarts(setup: Setup, z: Zeus, epoch: nat)
    requires setup.n > 0
    ensures StartsEpoch(setup, z, AdvanceTo(setup, z, epoch), epoch) && SameRecords(AdvanceTo(setup, z, epoch), z)
  {
    hide Purge, Latest;
  }

  lemma AdmitLeaves(setup: Setup, z: Zeus, qc: ChangeQC)
    requires setup.n > 0
    ensures Left(setup, z, Admit(setup, z, qc), qc.epoch) && SameRecords(Admit(setup, z, qc), z)
  {
    hide AdvanceTo, StartsEpoch;
    AdvanceStarts(setup, z, qc.epoch + 1);
  }

  lemma LeftFrom(setup: Setup, z: Zeus, z1: Zeus, r: Zeus, epoch: nat)
    requires setup.n > 0 && Left(setup, z1, r, epoch)
    requires StaysInEpoch(z, z1) && z1.timerArmed == z.timerArmed
    ensures Left(setup, z, r, epoch)
  {
    hide Purge, Latest;
  }

  // ----- A received certificate -----

  predicate Takes(setup: Setup, z: Zeus, qc: ChangeQC)
    requires setup.n > 0
  {
    qc.epoch !in z.admitted && AllGood(setup, qc.epoch, qc.blames) && Enough(setup, qc.blames)
  }

  /** The blames at hand for the certificate's epoch are joined with its own. */
  ghost predicate Joined(local: seq<Blame>, more: seq<Blame>, r: seq<Blame>) {
    && local <= r
    && forall signer: Id, reason: Reason ::
         CountOf(r, signer, reason)
         == if HasBlame(local, signer, reason) then CountOf(local, signer, reason)
            else if HasBlame(more, signer, reason) then 1 else 0
  }

  lemma MergeJoins(local: seq<Blame>, more: seq<Blame>)
    ensures Joined(local, more, MergeBlames(local, more))
  {
    hide MergeBlames, HasBlame, CountOf;
    MergeCovers(local, more, 0, Silence);
    forall signer: Id, reason: Reason
      ensures CountOf(MergeBlames(local, more), signer, reason)
           == if HasBlame(local, signer, reason) then CountOf(local, signer, reason)
              else if HasBlame(more, signer, reason) then 1 else 0
    {
      MergeCovers(local, more, signer, reason);
    }
  }

  /** In any state a certificate of accepted blames by more than `faults` signers is
      admitted unless its epoch has one, its blames are joined in, and the epoch is
      left; any other certificate changes nothing. */
  lemma GotQCExact(setup: Setup, z: Zeus, qc: ChangeQC)
    requires setup.n > 0
    ensures var r := Handle(setup, z, GotQC(qc));
            && (!Takes(setup, z, qc) ==> r == z)
            && (Takes(setup, z, qc) ==>
                  && r.admitted == z.admitted[qc.epoch := qc] && Left(setup, z, r, qc.epoch)
                  && r.current == (if qc.epoch + 1 > z.current then qc.epoch + 1 else z.current)
                  && r.blames.Keys == z.blames.Keys + {qc.epoch}
                  && Joined(BlamesAt(z, qc.epoch), qc.blames, BlamesAt(r, qc.epoch))
                  && (forall e :: e != qc.epoch ==> BlamesAt(r, e) == BlamesAt(z, e))
                  && r.sentBlames == z.sentBlames && r.sentQCs == z.sentQCs)
  {
    hide AllGood, Enough, JudgeQC, Admit, MergeBlames, Joined, StartsEpoch;
    GoodQC(setup, qc);
    if Takes(setup, z, qc) {
      var merged := MergeBlames(BlamesAt(z, qc.epoch), qc.blames);
      var z1 := z.(admitted := z.admitted[qc.epoch := qc], blames := z.blames[qc.epoch := merged]);
      MergeJoins(BlamesAt(z, qc.epoch), qc.blames);
      AdmitLeaves(setup, z1, qc);
      AdmitEpoch(setup, z1, qc);
      LeftFrom(setup, z, z1, Admit(setup, z1, qc), qc.epoch);
    }
  }

  lemma {:induction false} AdmittedStays(setup: Setup, index: Index, es: seq<EpochChange.Event>, k: nat)
    requires setup.n > 0 && k <= |es|
    ensures Run(setup, Initial(index), es[..k]).admitted.Keys <= Run(setup, Initial(index), es).admitted.Keys
    decreases |es|
  {
    hide Good, Handle;
    if k < |es| {
      assert es[..|es| - 1][..k] == es[..k];
      AdmittedStays(setup, index, es[..|es| - 1], k);
      RunGood(setup, index, es[..|es| - 1]);
      HandleGood(setup, Run(setup, Initial(index), es[..|es| - 1]), es[|es| - 1]);
    } else {
      assert es[..k] == es;
    }
  }

  /** Over any run, once a valid certificate has arrived its epoch has one and is
      behind the node for good. */
  lemma CertificateTakesEffect(setup: Setup, index: Index, es: seq<EpochChange.Event>, i: nat, qc: ChangeQC)
    requires setup.n > 0 && i < |es| && es[i] == GotQC(qc)
    requires AllGood(setup, qc.epoch, qc.blames) && Enough(setup, qc.blames)
    ensures var z := Run(setup, Initial(index), es); qc.epoch in z.admitted && z.current > qc.epoch
  {
    hide AllGood, Enough, Left, Joined, CertificatesGood, NothingDue, Run;
    var z := Run(setup, Initial(index), es[..i]);
    assert Run(setup, Initial(index), es[..i + 1]) == Handle(setup, z, GotQC(qc)) by {
      assert es[..i + 1] == es[..i] + [es[i]];
      RunMore(setup, Initial(index), es[..i], es[i]);
    }
    GotQCExact(setup, z, qc);
    AdmittedStays(setup, index, es, i + 1);
    RunGood(setup, index, es);
  }

  // ----- A blame that joins -----

  /** What the node does after adding one blame to those of its epoch. */
  predicate BlameJoined(setup: Setup, z: Zeus, r: Zeus, b: Blame, epoch: nat)
    requires setup.n > 0
  {
    var bs := BlamesAt(z, epoch) + [b];
    && r.blames == z.blames[epoch := bs]
    && (if epoch !in z.admitted && Enough(setup, bs) && AllGood(setup, epoch, bs)
        then r.admitted == z.admitted[epoch := ChangeQC(epoch, bs)]
             && r.sentQCs == z.sentQCs + [ChangeQC(epoch, bs)] && Left(setup, z, r, epoch)
        else r.admitted == z.admitted && r.sentQCs == z.sentQCs && StaysInEpoch(z, r))
  }

  lemma AddBlameJoins(setup: Setup, z: Zeus, epoch: nat, b: Blame)
    requires setup.n > 0
    ensures BlameJoined(setup, z, TryForm(setup, AddBlame(z, epoch, b), epoch), b, epoch)
    ensures TryForm(setup, AddBlame(z, epoch, b), epoch).sentBlames == z.sentBlames
    ensures var bs := BlamesAt(z, epoch) + [b];
            !(epoch !in z.admitted && Enough(setup, bs) && AllGood(setup, epoch, bs))
            ==> TryForm(setup, AddBlame(z, epoch, b), epoch) == z.(blames := z.blames[epoch := bs])
  {
    hide AllGood, Enough, Admit, JudgeQC, StartsEpoch;
    var z1 := AddBlame(z, epoch, b);
    var bs := BlamesAt(z, epoch) + [b];
    var qc := ChangeQC(epoch, bs);
    FormsExact(setup, z1, epoch);
    assert z1.blames[epoch] == bs && BlamesAt(z1, epoch) == bs;
    if Forms(setup, z1, epoch) {
      var z2 := z1.(admitted := z1.admitted[epoch := qc], sentQCs := z1.sentQCs + [qc]);
      GoodQC(setup, qc);
      FormedIsAdmit(setup, z1, epoch);
      AdmitLeaves(setup, z2, qc);
      LeftFrom(setup, z, z2, Admit(setup, z2, qc), epoch);
    }
  }

  lemma FormedIsAdmit(setup: Setup, z: Zeus, epoch: nat)
    requires setup.n > 0 && Forms(setup, z, epoch)
    ensures var qc := ChangeQC(epoch, z.blames[epoch]);
            TryForm(setup, z, epoch) == Admit(setup, z.(admitted := z.admitted[epoch := qc], sentQCs := z.sentQCs + [qc]), qc)
  {
    hide AllGood, Admit;
  }

  /** An accepted blame joins those of its epoch unless its signer gave the same
      reason before; any other changes nothing. */
  lemma GotBlameExact(setup: Setup, z: Zeus, b: Blame)
    requires setup.n > 0
    ensures var r := Handle(setup, z, GotBlame(b));
            if JudgeBlame(setup, b) == Accepts && !HasBlame(BlamesAt(z, b.epoch), b.signer, b.reason)
            then BlameJoined(setup, z, r, b, b.epoch) && r.sentBlames == z.sentBlames
            else r == z
  {
    hide JudgeBlame, HasBlame, TryForm, BlameJoined, AddBlame;
    AddBlameJoins(setup, z, b.epoch, b);
  }

  /** On silence the node blames the current epoch's leader, signs the height it
      has seen from it, or 0, sends the blame, disarms the timer and counts itself. */
  lemma SilenceExact(setup: Setup, z: Zeus)
    requires setup.n > 0
    ensures var r := Handle(setup, z, SilenceTimer);
            var seen := if z.latestHeight.Some? then z.latestHeight.value else 0;
            var b := Blame(z.current, Silence, Quiet(seen), setup.me,
                           SignedBy(setup.me, SignedSilence(z.current, seen)));
            && r.sentBlames == z.sentBlames + [b]
            && BlameJoined(setup, z.(timerArmed := false), r, b, z.current)
            && (r.current == z.current ==> !r.timerArmed)
  {
    hide TryForm, AddBlame, Enough, AllGood, StartsEpoch;
    var b := OwnSilence(setup, z);
    var z1 := z.(sentBlames := z.sentBlames + [b], timerArmed := false);
    AddBlameJoins(setup, z1, z.current, b);
    JoinedFrom(setup, z.(timerArmed := false), z1, TryForm(setup, AddBlame(z1, z.current, b), z.current), b, z.current);
    var bs := BlamesAt(z1, z.current) + [b];
    if z.current !in z1.admitted && Enough(setup, bs) && AllGood(setup, z.current, bs) {
      LeftCurrent(setup, z1, TryForm(setup, AddBlame(z1, z.current, b), z.current));
    }
  }

  lemma LeftCurrent(setup: Setup, z: Zeus, r: Zeus)
    requires setup.n > 0 && Left(setup, z, r, z.current)
    ensures r.current == z.current + 1
  {
  }

  lemma JoinedFrom(setup: Setup, z: Zeus, z1: Zeus, r: Zeus, b: Blame, epoch: nat)
    requires setup.n > 0 && BlameJoined(setup, z1, r, b, epoch) && z1 == z.(sentBlames := z1.sentBlames)
    ensures BlameJoined(setup, z, r, b, epoch)
  {
    hide Enough, AllGood, Purge, Latest;
  }

  /** A collision makes the node sign, send and count a blame for the two blocks;
      a proposal that fails its checks changes nothing. */
  lemma CollidedExact(setup: Setup, z: Zeus, existing: Block, block: Block)
    requires setup.n > 0
    ensures var r := Handle(setup, z, Collided(existing, block));
            var epoch := block.envelope.epoch;
            var b := Blame(epoch, Equivocation, Fork(block.envelope.height, existing, block), setup.me,
                           SignedBy(setup.me, SignedFork(epoch, existing.Digest(), block.Digest())));
            if Collides(setup, z, existing, block)
            then r.sentBlames == z.sentBlames + [b] && BlameJoined(setup, z, r, b, epoch)
            else r == z
  {
    hide TryForm, AddBlame, Enough, AllGood, StartsEpoch, Collides;
    if Collides(setup, z, existing, block) {
      var b := OwnFork(setup, existing, block);
      var z1 := z.(sentBlames := z.sentBlames + [b]);
      AddBlameJoins(setup, z1, b.epoch, b);
      JoinedFrom(setup, z, z1, TryForm(setup, AddBlame(z1, b.epoch, b), b.epoch), b, b.epoch);
    }
  }

  // ----- What an accepted blame vouches for -----

  /** Known signer, its signature on the blame's content, and for an equivocation two
      different blocks at the claimed height under the epoch leader's signature. */
  predicate Vouched(setup: Setup, b: Blame)
    requires setup.n > 0
  {
    && b.signer in setup.known
    && match b.reason
       case Silence =>
         b.raw == SignedBy(b.signer, SignedSilence(b.epoch, if b.payload.Quiet? then b.payload.lastSeenHeight else 0))
       case Equivocation =>
         var e := b.epoch % setup.n;
         && b.payload.Fork?
         && b.raw == SignedBy(b.signer, SignedFork(b.epoch, b.payload.a.Digest(), b.payload.b.Digest()))
         && b.payload.a.envelope != b.payload.b.envelope
         && b.payload.a.envelope.height == b.payload.b.envelope.height == b.payload.height
         && e in setup.known
         && b.payload.a.sig.raw == SignedBy(e, b.payload.a.Digest())
         && b.payload.b.sig.raw == SignedBy(e, b.payload.b.Digest())
  }

  /** The verdict on a blame: accepted exactly when vouched for; the source panics
      exactly on an equivocation by a known id that carries no blocks. */
  lemma AcceptedIff(setup: Setup, b: Blame)
    requires setup.n > 0
    ensures JudgeBlame(setup, b) == Accepts <==> Vouched(setup, b)
    ensures JudgeBlame(setup, b) == Aborts
       <==> b.signer in setup.known && b.reason.Equivocation? && b.payload.Quiet?
  {
  }

  predicate AbortsAt(setup: Setup, epoch: nat, bs: seq<Blame>, i: nat)
    requires setup.n > 0 && i < |bs|
  {
    && (forall j | 0 <= j < i :: bs[j].epoch == epoch && Vouched(setup, bs[j]))
    && bs[i].epoch == epoch && bs[i].signer in setup.known && bs[i].reason.Equivocation? && bs[i].payload.Quiet?
  }

  lemma {:induction false} BlamesAbort(setup: Setup, epoch: nat, bs: seq<Blame>)
    requires setup.n > 0
    ensures JudgeBlames(setup, epoch, bs) == Aborts <==> exists i | 0 <= i < |bs| :: AbortsAt(setup, epoch, bs, i)
    decreases |bs|
  {
    hide JudgeBlame, Vouched;
    if bs != [] {
      var rest := bs[1..];
      AcceptedIff(setup, bs[0]);
      BlamesAbort(setup, epoch, rest);
      AbortsCons(setup, epoch, bs);
    }
  }

  lemma AbortsShift(setup: Setup, epoch: nat, bs: seq<Blame>, i: nat)
    requires setup.n > 0 && bs != [] && i < |bs[1..]|
    ensures AbortsAt(setup, epoch, bs, i + 1)
       <==> bs[0].epoch == epoch && Vouched(setup, bs[0]) && AbortsAt(setup, epoch, bs[1..], i)
  {
    hide Vouched;
    var rest := bs[1..];
    if bs[0].epoch == epoch && Vouched(setup, bs[0]) && AbortsAt(setup, epoch, rest, i) {
      forall j | 0 <= j < i + 1 ensures bs[j].epoch == epoch && Vouched(setup, bs[j]) {
        if j > 0 {
          assert bs[j] == rest[j - 1];
        }
      }
    }
    if AbortsAt(setup, epoch, bs, i + 1) {
      forall j | 0 <= j < i ensures rest[j].epoch == epoch && Vouched(setup, rest[j]) {
        assert rest[j] == bs[j + 1];
      }
    }
  }

  lemma AbortsCons(setup: Setup, epoch: nat, bs: seq<Blame>)
    requires setup.n > 0 && bs != []
    ensures (exists i | 0 <= i < |bs| :: AbortsAt(setup, epoch, bs, i))
       <==> || AbortsAt(setup, epoch, bs, 0)
            || (bs[0].epoch == epoch && Vouched(setup, bs[0]) &&
                exists i | 0 <= i < |bs[1..]| :: AbortsAt(setup, epoch, bs[1..], i))
  {
    hide Vouched, AbortsAt;
    var rest := bs[1..];
    if exists i | 0 <= i < |bs| :: AbortsAt(setup, epoch, bs, i) {
      var i :| 0 <= i < |bs| && AbortsAt(setup, epoch, bs, i);
      if i > 0 {
        AbortsShift(setup, epoch, bs, i - 1);
      }
    }
    if exists i | 0 <= i < |rest| :: AbortsAt(setup, epoch, rest, i) {
      var i :| 0 <= i < |rest| && AbortsAt(setup, epoch, rest, i);
      AbortsShift(setup, epoch, bs, i);
    }
  }

  /** The verdict on a certificate: accepted exactly when all its blames are of its
      epoch and vouched for and their signers suffice; the source panics exactly if
      the first blame that is not is one without blocks. */
  lemma CertificateVerdict(setup: Setup, qc: ChangeQC)
    requires setup.n > 0
    ensures JudgeQC(setup, qc) == Accepts
       <==> |Signers(qc.blames)| > setup.faults && forall b <- qc.blames :: b.epoch == qc.epoch && Vouched(setup, b)
    ensures JudgeQC(setup, qc) == Aborts
       <==> exists i | 0 <= i < |qc.blames| :: AbortsAt(setup, qc.epoch, qc.blames, i)
  {
    hide JudgeBlame, Vouched, Signers, AbortsAt;
    BlamesAbort(setup, qc.epoch, qc.blames);
    forall b | b in qc.blames ensures JudgeBlame(setup, b) == Accepts <==> Vouched(setup, b) {
      AcceptedIff(setup, b);
    }
  }

  /** Over any run every certificate but the sentinel carries, for more than `faults`
      signers, blames that these signed for its epoch. */
  lemma AdmittedVouched(setup: Setup, index: Index, es: seq<EpochChange.Event>, epoch: nat)
    requires setup.n > 0
    ensures var z := Run(setup, Initial(index), es);
            epoch > 0 && epoch in z.admitted ==>
              && z.admitted[epoch].epoch == epoch && |Signers(z.admitted[epoch].blames)| > setup.faults
              && forall b <- z.admitted[epoch].blames :: b.epoch == epoch && Vouched(setup, b)
  {
    hide Run, JudgeBlame, Vouched, Signers, NothingDue, EpochIsNext, JudgeQC;
    RunGood(setup, index, es);
    var z := Run(setup, Initial(index), es);
    if epoch > 0 && epoch in z.admitted {
      var qc := z.admitted[epoch];
      GoodQC(setup, qc);
      forall b | b in qc.blames ensures b.epoch == epoch && Vouched(setup, b) {
        AcceptedIff(setup, b);
      }
    }
  }
}
