/** What the commit context tells the batcher: every commit once and in order,
    and every orphaned round. */
module CommitSignals {
  import opened Base
  import opened CommitWindow
  import opened CommitChain
  import opened CommitAnyInput

  function Announced(sent: seq<ToBatcher>): seq<ToBatcher> {
    if sent == [] then []
    else (if sent[0].Committed? then [sent[0]] else []) + Announced(sent[1..])
  }

  lemma {:induction false} AnnouncedAppend(x: seq<ToBatcher>, y: seq<ToBatcher>)
    ensures Announced(x + y) == Announced(x) + Announced(y)
  {
    if x == [] {
      assert x + y == y;
    } else {
      TailOfAppend(x, y);
      AnnouncedAppend(x[1..], y);
    }
  }

  lemma AnnouncedOne(m: ToBatcher)
    ensures Announced([m]) == if m.Committed? then [m] else []
  {
    assert [m][1..] == [];
  }

  /** The announcements are the log. */
  predicate InStep(st: State) {
    Announced(st.sent) == CommittedMsgs(st.log)
  }

  lemma PopInStep(st: State)
    requires CanPop(st) && InStep(st)
    ensures InStep(Pop(st))
  {
    var e := st.queue[0];
    var m := Committed(e.element.batch, e.element.round);
    AnnouncedAppend(st.sent, [m]);
    AnnouncedOne(m);
    CommittedMsgsAppend(st.log, [e]);
    assert [e][1..] == [] && CommittedMsgs([e]) == [m] + CommittedMsgs([]);
  }

  lemma {:induction false} PopAllInStep(st: State, len: nat)
    requires InStep(st)
    ensures InStep(PopAll(st, len)) && st.sent <= PopAll(st, len).sent && st.log <= PopAll(st, len).log
    decreases |st.queue|
  {
    hide InStep;
    if |st.proposers| >= len {
      if CanPop(st) {
        PopInStep(st);
        PopAllInStep(Pop(st), len);
        assert st.sent <= Pop(st).sent && st.log <= Pop(st).log;
      } else {
        StillInStep(st, st.(panicked := true));
      }
    }
  }

  lemma StillInStep(st: State, r: State)
    requires InStep(st) && r.log == st.log
    requires r.sent == st.sent || exists rounds :: r.sent == st.sent + [Rollback(rounds)]
    ensures InStep(r)
  {
    if r.sent != st.sent {
      var rounds :| r.sent == st.sent + [Rollback(rounds)];
      AnnouncedAppend(st.sent, [Rollback(rounds)]);
      AnnouncedOne(Rollback(rounds));
    }
  }

  lemma AbsorbInStep(st: State, w: WalkResult)
    requires InStep(st)
    ensures InStep(Absorb(st, w)) && st.sent <= Absorb(st, w).sent && Absorb(st, w).log == st.log
  {
    hide InStep, Extend, Merge;
    var r := Absorb(st, w);
    assert st.sent + [] == st.sent;
    assert r.sent == st.sent || r.sent == st.sent + [Rollback(OrphanedRounds(st.queue))];
    StillInStep(st, r);
  }

  /** Over any run, whatever heads are handed in, the batcher has been told of
      exactly the committed elements, in commit order. */
  lemma {:induction false} AnnouncementsAreLog(inputs: seq<Input>, len: nat)
    ensures var st := RunAll(inputs, len); var told := Announced(st.sent);
            && told == CommittedMsgs(st.log) && |told| == |st.log|
            && forall i | 0 <= i < |told| ::
                 told[i] == Committed(st.log[i].element.batch, st.log[i].element.round)
  {
    hide PopAll, Walk, Absorb;
    CommittedMsgsAt(RunAll(inputs, len).log);
    if inputs != [] {
      var n := |inputs| - 1;
      var st := RunAll(inputs[..n], len);
      AnnouncementsAreLog(inputs[..n], len);
      if !st.panicked && inputs[n].head.round > 0 {
        AbsorbInStep(st, Walk(st, inputs[n].stored, inputs[n].head, Digest(inputs[n].head), [], map[]));
        PopAllInStep(Merged(st, inputs[n].stored, inputs[n].head), len);
      }
    }
  }

  /** A longer run only extends the log, whatever heads are handed in. */
  lemma {:induction false} LogGrows(inputs: seq<Input>, k: nat, len: nat)
    requires k <= |inputs|
    ensures RunAll(inputs[..k], len).log <= RunAll(inputs, len).log
  {
    hide PopAll, Walk, Absorb;
    var n := |inputs| - 1;
    if k == |inputs| {
      assert inputs[..k] == inputs;
    } else {
      var st := RunAll(inputs[..n], len);
      LogGrows(inputs[..n], k, len);
      assert inputs[..n][..k] == inputs[..k];
      AnnouncementsAreLog(inputs[..n], len);
      if !st.panicked && inputs[n].head.round > 0 {
        AbsorbInStep(st, Walk(st, inputs[n].stored, inputs[n].head, Digest(inputs[n].head), [], map[]));
        PopAllInStep(Merged(st, inputs[n].stored, inputs[n].head), len);
      }
    }
  }

  // ----- Nothing queued disappears silently -----

  predicate RolledBack(sent: seq<ToBatcher>, round: nat) {
    exists m <- sent :: m.Rollback? && round in m.rounds
  }

  /** An element that was queued is queued, committed, or named in a rollback;
      genesis is never rolled back. */
  predicate Accounted(st: State, e: Entry) {
    e in st.queue || e in st.log || e.element.round == 0 || RolledBack(st.sent, e.element.round)
  }

  /** A rollback names exactly the rounds of the dropped queue, but genesis'. */
  lemma {:induction false} OrphansNamed(q: seq<Entry>, round: nat)
    ensures round in OrphanedRounds(q) <==> round != 0 && exists e :: e in q && e.element.round == round
  {
    if q != [] {
      OrphansNamed(q[1..], round);
      assert q == [q[0]] + q[1..];
    }
  }

  lemma RolledBackStays(x: seq<ToBatcher>, y: seq<ToBatcher>, round: nat)
    requires RolledBack(x, round) && x <= y
    ensures RolledBack(y, round)
  {
    var m :| m in x && m.Rollback? && round in m.rounds;
    assert m in y;
  }

  lemma AbsorbAccounts(st: State, stored: set<Element>, head: Element, e: Entry)
    requires Sound(st) && OneNewElement(st, stored, head) && head.round > 0
    requires Accounted(st, e)
    ensures Accounted(Merged(st, stored, head), e)
  {
    hide GenesisChain, Exact, Walk, OrphanedRounds, Merge, Extend;
    var w := Walk(st, stored, head, Digest(head), [], map[]);
    var m := Merged(st, stored, head);
    if e in st.queue {
      if w.connected {
        ConnectedKeeps(st, stored, head);
      } else if e.element.round != 0 {
        OrphansNamed(st.queue, e.element.round);
        assert m.sent[|m.sent| - 1] == Rollback(OrphanedRounds(st.queue));
      }
    } else if RolledBack(st.sent, e.element.round) {
      RolledBackStays(st.sent, m.sent, e.element.round);
    }
  }

  lemma ConnectedKeeps(st: State, stored: set<Element>, head: Element)
    requires Sound(st) && OneNewElement(st, stored, head) && head.round > 0
    requires Walk(st, stored, head, Digest(head), [], map[]).connected
    ensures st.queue <= Merged(st, stored, head).queue
  {
    hide GenesisChain, Exact;
    if head.round > st.committed.round {
      if AtBack(st.queue, Digest(head)) {
        WalkFromBack(st, stored, head);
      } else {
        WalkFromChild(st, stored, head);
        BackIs(st);
        AbsorbChild(st, head);
      }
    }
  }

  lemma EndRoundAccounts(st: State, stored: set<Element>, head: Element, len: nat, e: Entry)
    requires Sound(st) && InStep(st) && OneNewElement(st, stored, head) && len > 0 && Accounted(st, e)
    ensures Accounted(EndRound(st, stored, head, len), e)
  {
    hide Sound, Walk, Absorb, PopAll, OneNewElement, InStep;
    assert !st.panicked by { NotPanicked(st); }
    if head.round > 0 {
      var m := Merged(st, stored, head);
      var r := PopAll(m, len);
      AbsorbAccounts(st, stored, head, e);
      AbsorbInStep(st, Walk(st, stored, head, Digest(head), [], map[]));
      PopAllInStep(m, len);
      PopAllKeepsEntries(m, len);
      if e in m.queue || e in m.log {
        assert e in m.log + m.queue;
      } else if RolledBack(m.sent, e.element.round) {
        RolledBackStays(m.sent, r.sent, e.element.round);
      }
    }
  }

  /** Over any run with one new element per round, everything that was ever queued
      is still queued, or was committed, or had its round rolled back. */
  lemma {:induction false} NothingDropped(inputs: seq<Input>, k: nat, len: nat, e: Entry)
    requires OneNewEach(inputs, len) && len > 0 && k <= |inputs|
    requires e in RunAll(inputs[..k], len).queue
    ensures Accounted(RunAll(inputs, len), e)
  {
    hide EndRound, OneNewElement, Sound;
    if k == |inputs| {
      assert inputs[..k] == inputs;
    } else {
      var n := |inputs| - 1;
      assert inputs[..n][..k] == inputs[..k];
      NothingDropped(inputs[..n], k, len, e);
      RunSound(inputs[..n], len);
      AnnouncementsAreLog(inputs[..n], len);
      EndRoundAccounts(RunAll(inputs[..n], len), inputs[n].stored, inputs[n].head, len, e);
    }
  }

  /** A chain switch rolls back exactly the rounds of the queue it drops, and
      these all lie above everything committed so far. */
  lemma SwitchRollsBackQueue(st: State, stored: set<Element>, head: Element, round: nat)
    requires Sound(st) && !Walk(st, stored, head, Digest(head), [], map[]).connected
    ensures var m := Merged(st, stored, head);
            && (RolledBack(m.sent, round) <==>
                  RolledBack(st.sent, round) || (round != 0 && exists e :: e in st.queue && e.element.round == round))
            && (forall e <- st.queue :: st.log != [] ==> e.element.round > st.committed.round)
  {
    hide Exact, Walk, GenesisChain;
    var m := Merged(st, stored, head);
    OrphansNamed(st.queue, round);
    if OrphanedRounds(st.queue) == [] {
      assert m.sent == st.sent + [] == st.sent;
    } else {
      var msg := Rollback(OrphanedRounds(st.queue));
      assert m.sent == st.sent + [msg];
      RolledBackSnoc(st.sent, msg, round);
    }
    if st.log != [] {
      forall e | e in st.queue ensures e.element.round > st.committed.round {
        var i :| 0 <= i < |st.queue| && st.queue[i] == e;
        GenesisChainRises(st.log + st.queue, |st.log| - 1, |st.log| + i);
      }
    }
  }

  lemma RolledBackSnoc(x: seq<ToBatcher>, m: ToBatcher, round: nat)
    requires m.Rollback?
    ensures RolledBack(x + [m], round) <==> RolledBack(x, round) || round in m.rounds
  {
    assert (x + [m])[|x|] == m;
    if RolledBack(x, round) {
      RolledBackStays(x, x + [m], round);
    }
  }
}
