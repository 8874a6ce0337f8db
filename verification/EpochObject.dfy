/** The Zeus node as an object, as far as a change of epoch touches it. */
module EpochObject {
  import opened Base
  import opened DataBlocks
  import opened PrefixLock
  import opened EpochChange

  /** The first purging pass filters every list, the second drops keys. */
  function FilterAll(m: map<Hash, seq<Block>>, height: nat): map<Hash, seq<Block>> {
    map h | h in m :: LowBlocks(m[h], height)
  }

  function StaleParents(m: map<Hash, seq<Block>>, index: Index, height: nat): set<Hash> {
    set h | h in m && !(m[h] != [] && IndexedLow(index, h, height))
  }

  lemma TwoPasses(m: map<Hash, seq<Block>>, index: Index, height: nat)
    ensures var low := FilterAll(m, height);
            low - StaleParents(low, index, height) == PurgedBlocks(m, index, height)
  {
  }

  class ZeusNode {
    const setup: Setup
    var currentEpoch: nat
    var admittedChangeQCs: map<nat, ChangeQC>
    var eleaderBlames: map<nat, seq<Blame>>
    var commitLock: seq<Pin>
    var index: Index
    var headHash: Hash
    var headHeight: nat
    var eleaderProposedHeight: nat
    var lastProposed: Option<Hash>
    var waitingFresh: bool
    var latestEleaderHeight: Option<nat>
    var pendingDataBlocks: map<Hash, seq<Block>>
    var pendingAttestations: set<Hash>
    var timerArmed: bool
    var newRounds: seq<nat>
    var sentBlames: seq<Blame>
    var sentQCs: seq<ChangeQC>

    function Model(): Zeus
      reads this
    {
      Zeus(currentEpoch, admittedChangeQCs, eleaderBlames, commitLock, index, headHash, headHeight,
           eleaderProposedHeight, lastProposed, waitingFresh, latestEleaderHeight,
           Pending(pendingDataBlocks, pendingAttestations), timerArmed, newRounds, sentBlames, sentQCs)
    }

    constructor (setup: Setup, index: Index)
      requires setup.n > 0
      ensures this.setup == setup && Model() == Initial(index) && Good(setup, Model())
    {
      this.setup, this.index := setup, index;
      currentEpoch, admittedChangeQCs, eleaderBlames, commitLock := 1, map[0 := SENTINEL], map[], [];
      headHash, headHeight, eleaderProposedHeight, lastProposed := GENESIS_HASH, 0, 0, None;
      waitingFresh, latestEleaderHeight, pendingDataBlocks, pendingAttestations := false, None, map[], {};
      timerArmed, newRounds, sentBlames, sentQCs := false, [], [], [];
    }

    /** Raises the commit lock. */
    method LockCommitted(pin: Pin)
      modifies this`commitLock
      ensures commitLock == Committed(old(commitLock), pin)
    {
      commitLock := Retain(commitLock, pin.height);
      assert commitLock != [] ==> commitLock[0] in commitLock;
      var covered := exists p <- commitLock :: p.height >= pin.height;
      if !covered {
        commitLock := commitLock + [pin];
      }
    }

    method OnEleaderBlame(blame: Blame) returns (ok: bool)
      requires setup.n > 0
      modifies this
      ensures Model() == Handle(setup, old(Model()), GotBlame(blame))
      ensures ok <==> JudgeBlame(setup, blame) != Aborts
    {
      hide TryForm, JudgeBlame;
      var v := JudgeBlame(setup, blame);
      if v != Accepts {
        return v != Aborts;
      }
      var existing := Lookup(eleaderBlames, blame.epoch, []);
      if HasBlame(existing, blame.signer, blame.reason) {
        return true;
      }
      eleaderBlames := eleaderBlames[blame.epoch := existing + [blame]];
      assert Model() == AddBlame(old(Model()), blame.epoch, blame);
      TryFormChangeQc(blame.epoch);
      return true;
    }

    method OnEleaderChangeQc(qc: ChangeQC) returns (ok: bool)
      requires setup.n > 0
      modifies this
      ensures Model() == Handle(setup, old(Model()), GotQC(qc))
      ensures ok <==> qc.epoch in old(admittedChangeQCs) || JudgeQC(setup, qc) != Aborts
    {
      hide AdvanceTo, JudgeQC;
      if qc.epoch in admittedChangeQCs {
        return true;
      }
      var v := EleaderChangeQcValid(setup, qc);
      if v != Accepts {
        return v != Aborts;
      }
      admittedChangeQCs := admittedChangeQCs[qc.epoch := qc];
      var local := Lookup(eleaderBlames, qc.epoch, []);
      ghost var start := local;
      for i := 0 to |qc.blames|
        invariant MergeBlames(local, qc.blames[i..]) == MergeBlames(start, qc.blames)
      {
        var b := qc.blames[i];
        assert qc.blames[i..][1..] == qc.blames[i + 1..];
        if !HasBlame(local, b.signer, b.reason) {
          local := local + [b];
        }
      }
      eleaderBlames := eleaderBlames[qc.epoch := local];
      if currentEpoch <= qc.epoch {
        AdvanceToEpoch(qc.epoch + 1);
      }
      return true;
    }

    /** The silence branch of the data timer. */
    method OnDataTimerExpired()
      requires setup.n > 0
      modifies this
      ensures Model() == Handle(setup, old(Model()), SilenceTimer)
    {
      hide TryForm;
      ghost var before := Model();
      timerArmed := false;
      var seen := if latestEleaderHeight.Some? then latestEleaderHeight.value else 0;
      var blame := Blame(currentEpoch, Silence, Quiet(seen), setup.me,
                         SignedBy(setup.me, SignedSilence(currentEpoch, seen)));
      sentBlames := sentBlames + [blame];
      eleaderBlames := eleaderBlames[currentEpoch := Lookup(eleaderBlames, currentEpoch, []) + [blame]];
      assert Model() == AddBlame(before.(sentBlames := before.sentBlames + [blame], timerArmed := false),
                                 before.current, blame);
      TryFormChangeQc(currentEpoch);
    }

    /** A proposed block that collides with the stored child of its parent. */
    method OnCollision(existing: Block, block: Block)
      requires setup.n > 0
      modifies this
      ensures Model() == Handle(setup, old(Model()), Collided(existing, block))
    {
      hide TryForm, Eleader, EpochGateValid;
      ghost var before := Model();
      var epoch := block.envelope.epoch;
      var leader := Eleader(epoch, setup.n);
      if leader !in setup.known || !Verifies(leader, block.Digest(), block.sig.raw) {
        return;
      }
      if !EpochGateValid(epoch, currentEpoch, admittedChangeQCs) || block.Digest() in index {
        return;
      }
      if existing.Digest() !in index || existing.envelope.parent != block.envelope.parent {
        return;
      }
      var blame := Blame(epoch, Equivocation, Fork(block.envelope.height, existing, block), setup.me,
                         SignedBy(setup.me, SignedFork(epoch, existing.Digest(), block.Digest())));
      sentBlames := sentBlames + [blame];
      eleaderBlames := eleaderBlames[epoch := Lookup(eleaderBlames, epoch, []) + [blame]];
      assert Model() == AddBlame(before.(sentBlames := before.sentBlames + [blame]), epoch, blame);
      TryFormChangeQc(epoch);
    }

    method TryFormChangeQc(epoch: nat)
      requires setup.n > 0
      modifies this
      ensures Model() == TryForm(setup, old(Model()), epoch)
    {
      hide AdvanceTo, JudgeQC;
      if epoch in admittedChangeQCs || epoch !in eleaderBlames {
        return;
      }
      var blames := eleaderBlames[epoch];
      var seen: set<Id> := {};
      for i := 0 to |blames|
        invariant seen == Signers(blames[..i])
      {
        assert blames[..i + 1] == blames[..i] + [blames[i]];
        seen := seen + {blames[i].signer};
      }
      assert blames[..|blames|] == blames;
      if |seen| < setup.faults + 1 {
        return;
      }
      var qc := ChangeQC(epoch, blames);
      var v := EleaderChangeQcValid(setup, qc);
      if v != Accepts {
        return;
      }
      admittedChangeQCs := admittedChangeQCs[epoch := qc];
      sentQCs := sentQCs + [qc];
      if currentEpoch <= epoch {
        AdvanceToEpoch(epoch + 1);
      }
    }

    method AdvanceToEpoch(epoch: nat)
      requires setup.n > 0
      modifies this
      ensures Model() == AdvanceTo(setup, old(Model()), epoch)
    {
      hide StartFrom, Eleader;
      var top := Latest(commitLock);
      if top.Some? {
        Truncate(epoch, top.value.hash, top.value.height);
      } else {
        Truncate(epoch, GENESIS_HASH, 0);
      }
      if setup.me == Eleader(epoch, setup.n) {
        newRounds := newRounds + [eleaderProposedHeight + 1];
      }
    }

    method Truncate(epoch: nat, hash: Hash, height: nat)
      modifies this
      ensures Model() == StartFrom(old(Model()), epoch, hash, height)
      ensures headHeight == eleaderProposedHeight == height
    {
      hide PurgedBlocks, PurgedAttestations;
      ghost var before := Model();
      ResetHead(epoch, hash, height);
      PurgeBlocks(height);
      PurgeAttestations(height);
      assert Pending(pendingDataBlocks, pendingAttestations) == Purge(before.pending, index, height);
    }

    method ResetHead(epoch: nat, hash: Hash, height: nat)
      modifies this`currentEpoch, this`headHash, this`headHeight, this`eleaderProposedHeight, this`lastProposed,
               this`waitingFresh, this`latestEleaderHeight, this`timerArmed
      ensures currentEpoch == epoch && headHash == hash && headHeight == height == eleaderProposedHeight
      ensures lastProposed == None && !waitingFresh && latestEleaderHeight == None && timerArmed
    {
      currentEpoch := epoch;
      headHash := hash;
      headHeight := height;
      eleaderProposedHeight := height;
      lastProposed := None;
      waitingFresh := false;
      latestEleaderHeight := None;
      timerArmed := true;
    }

    method PurgeBlocks(height: nat)
      modifies this`pendingDataBlocks
      ensures pendingDataBlocks == PurgedBlocks(old(pendingDataBlocks), index, height)
    {
      ghost var all := pendingDataBlocks;
      var todo := pendingDataBlocks.Keys;
      while todo != {}
        invariant todo <= all.Keys == pendingDataBlocks.Keys
        invariant forall h <- all ::
          pendingDataBlocks[h] == if h in todo then all[h] else LowBlocks(all[h], height)
        decreases todo
      {
        var h :| h in todo;
        todo := todo - {h};
        pendingDataBlocks := pendingDataBlocks[h := LowBlocks(pendingDataBlocks[h], height)];
      }
      ghost var filtered := pendingDataBlocks;
      assert filtered == FilterAll(all, height);
      TwoPasses(all, index, height);
      var stale := StaleParents(pendingDataBlocks, index, height);
      todo := stale;
      while todo != {}
        invariant todo <= stale && pendingDataBlocks == filtered - (stale - todo)
        decreases todo
      {
        var h :| h in todo;
        todo := todo - {h};
        pendingDataBlocks := pendingDataBlocks - {h};
      }
    }

    method PurgeAttestations(height: nat)
      modifies this`pendingAttestations
      ensures pendingAttestations == PurgedAttestations(old(pendingAttestations), index, height)
    {
      ghost var all := pendingAttestations;
      var stale := set h | h in pendingAttestations && !IndexedLow(index, h, height);
      var todo := stale;
      while todo != {}
        invariant todo <= stale && pendingAttestations == all - (stale - todo)
        decreases todo
      {
        var h :| h in todo;
        todo := todo - {h};
        pendingAttestations := pendingAttestations - {h};
      }
    }
  }
}
