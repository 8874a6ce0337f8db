/** The commit context as an object, updated in place at each end of round. */
module CommitObject {
  import opened Base
  import opened CommitWindow
  import opened CommitChain
  import opened CommitAnyInput

  function Only(m: map<Id, nat>, ids: set<Id>): map<Id, nat> {
    map id | id in m && id in ids :: m[id]
  }

  lemma MergeOne(p: map<Id, nat>, more: map<Id, nat>, todo: set<Id>, id: Id)
    requires id in todo && todo <= more.Keys
    ensures Merge(Bump(p, id, more[id]), Only(more, todo - {id})) == Merge(p, Only(more, todo))
  {
  }

  lemma MergeNone(p: map<Id, nat>, more: map<Id, nat>)
    ensures Merge(p, Only(more, {})) == p
    ensures Only(more, more.Keys) == more
  {
  }

  class CommitContext {
    const len: nat
    var committedHash: ElementHash
    var committed: Element
    var proposers: map<Id, nat>
    var queue: seq<Entry>
    var log: seq<Entry>
    var sent: seq<ToBatcher>
    var panicked: bool

    function Model(): State
      reads this
    {
      State(committedHash, committed, proposers, queue, log, sent, panicked)
    }

    constructor (n: nat, f: nat)
      ensures Model() == INITIAL && len == QuorumLen(n, f)
    {
      len := QuorumLen(n, f);
      committedHash, committed := Digest(GENESIS), GENESIS;
      proposers := map[START_ID := 1];
      queue := [GENESIS_ENTRY];
      log, sent, panicked := [], [], false;
    }

    /** Walks back from the round's element, extends or replaces the queue, and
        commits. A failed unwrap or assertion sets `panicked`. */
    method EndRound(stored: set<Element>, roundElement: Element)
      modifies this
      ensures Model() == CommitWindow.EndRound(old(Model()), stored, roundElement, len)
    {
      hide Upsert, Bump, Extend, OrphanedRounds, Merge;
      if panicked || roundElement.round == 0 {
        return;
      }
      ghost var st := Model();
      ghost var w := Walk(st, stored, roundElement, Digest(roundElement), [], map[]);
      var head, hash := roundElement, Digest(roundElement);
      var localQueue: seq<Entry>, localProposers: map<Id, nat> := [], map[];
      var connected := false;
      while head.round > committed.round
        invariant Model() == st && !connected
        invariant Walk(st, stored, head, hash, localQueue, localProposers) == w
        decreases hash
      {
        if queue != [] && queue[|queue| - 1].key == hash {
          connected := true;
          break;
        }
        if hash == committedHash {
          break;
        }
        localProposers := Bump(localProposers, head.proposer, 1);
        localQueue := Upsert(localQueue, Entry(hash, head));
        if hash.RawDigest? || hash.element !in stored {
          break;
        }
        head := hash.element;
        hash := head.parent;
      }
      assert w == WalkResult(connected, localQueue, localProposers);
      if !connected {
        var orphaned := OrphanedRounds(queue);
        if orphaned != [] {
          sent := sent + [Rollback(orphaned)];
        } else {
          assert st.sent + [] == st.sent;
        }
        queue := localQueue;
        proposers := localProposers;
      } else {
        queue := Extend(queue, localQueue);
        AddCounts(localProposers);
      }
      assert Model() == Absorb(st, w);
      CommitReady();
    }

    method AddCounts(more: map<Id, nat>)
      modifies this`proposers
      ensures proposers == Merge(old(proposers), more)
    {
      hide Merge, Bump, Only;
      var todo := more.Keys;
      MergeNone(proposers, more);
      while todo != {}
        invariant todo <= more.Keys
        invariant Merge(proposers, Only(more, todo)) == Merge(old(proposers), more)
        decreases todo
      {
        var id :| id in todo;
        MergeOne(proposers, more, todo, id);
        proposers := Bump(proposers, id, more[id]);
        todo := todo - {id};
      }
      MergeNone(proposers, more);
    }

    method CommitReady()
      requires !panicked
      modifies this
      ensures Model() == PopAll(old(Model()), len)
    {
      hide Pop;
      while |proposers| >= len && !panicked
        invariant panicked ==> Model() == PopAll(old(Model()), len)
        invariant !panicked ==> PopAll(Model(), len) == PopAll(old(Model()), len)
        decreases |queue|, !panicked
      {
        if queue == [] || queue[0].element.proposer !in proposers || proposers[queue[0].element.proposer] == 0 {
          ghost var before := Model();
          panicked := true;
          assert Model() == before.(panicked := true);
        } else {
          PopTail(Model());
          CommitFront();
        }
      }
    }

    method CommitFront()
      requires CanPop(Model())
      modifies this
      ensures Model() == Pop(old(Model()))
    {
      var e := queue[0];
      var id := e.element.proposer;
      queue := queue[1..];
      if proposers[id] == 1 {
        proposers := proposers - {id};
      } else {
        proposers := proposers[id := proposers[id] - 1];
      }
      sent := sent + [Committed(e.element.batch, e.element.round)];
      log := log + [e];
      committedHash := e.key;
      committed := e.element;
    }
  }

  /** The receive loop: whatever ends of round arrive, no unwrap or assertion
      fails, and fewer than the window's number of proposers stay counted. */
  method Run(n: nat, f: nat, inputs: seq<Input>) returns (c: CommitContext)
    requires n + f >= 1
    ensures c.Model() == RunAll(inputs, QuorumLen(n, f))
    ensures !c.panicked && (|c.proposers| < QuorumLen(n, f) || c.queue == [GENESIS_ENTRY])
    ensures fresh(c)
  {
    c := new CommitContext(n, f);
    for i := 0 to |inputs|
      invariant c.len == QuorumLen(n, f) && fresh(c)
      invariant c.Model() == RunAll(inputs[..i], QuorumLen(n, f))
    {
      c.EndRound(inputs[i].stored, inputs[i].head);
      assert inputs[..i + 1][..i] == inputs[..i];
    }
    assert inputs[..|inputs|] == inputs;
    NeverPanics(inputs, QuorumLen(n, f));
  }
}
