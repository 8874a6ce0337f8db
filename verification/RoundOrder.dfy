/** The order in which a round's messages are handed out, read off the events alone. */
module RoundOrder {
  import opened Base
  import opened RoundBuffer

  /** The round after some events. */
  function RoundOf(es: seq<Event>): nat {
    if es == [] then 1 else RoundOf(es[..|es| - 1]) + (if es[|es| - 1].Advanced? then 1 else 0)
  }

  /** The messages of one kind that came for round `r` before it began, as they came. */
  function Early(es: seq<Event>, r: nat, rank: nat): seq<Msg> {
    if es == [] then []
    else
      var front, e := es[..|es| - 1], es[|es| - 1];
      Early(front, r, rank) +
      (if e.Synced? && e.msg.round == r && r > RoundOf(front) && Rank(e.msg) == rank then [e.msg] else [])
  }

  /** What the current round hands out, in order: what came early, proposals before
      certificates before blames, and then what has come since. */
  function Schedule(es: seq<Event>): seq<Msg> {
    if es == [] then []
    else
      var front, e := es[..|es| - 1], es[|es| - 1];
      var r := RoundOf(es);
      match e
      case Advanced => Early(front, r, 0) + Early(front, r, 1) + Early(front, r, 2)
      case Synced(m) => if m.round == r then Schedule(front) + [m] else Schedule(front)
      case _ => Schedule(front)
  }

  /** What was handed out since the current round began. */
  function HandedOut(depth: nat, es: seq<Event>): seq<Msg> {
    if es == [] then []
    else
      var front, e := es[..|es| - 1], es[|es| - 1];
      var c := Run(depth, front);
      if e.Advanced? then []
      else if e.Polled? && IsReady(c) then HandedOut(depth, front) + [Poll(c).1]
      else HandedOut(depth, front)
  }

  lemma {:induction false} RunRound(depth: nat, es: seq<Event>)
    ensures Run(depth, es).round == RoundOf(es)
  {
    hide Advance, Sync, Poll, AddHandlers;
    if es != [] {
      var c, e := Run(depth, es[..|es| - 1]), es[|es| - 1];
      RunRound(depth, es[..|es| - 1]);
      match e
      case Synced(m) => SyncRound(c, m);
      case Advanced => AdvanceWaits(c, depth, 0);
      case Polled => if IsReady(c) { PollWaits(c); }
      case Sent(hs) => SentRound(c, hs);
    }
  }

  lemma SentRound(c: Context, hs: seq<nat>)
    ensures AddHandlers(c, hs).round == c.round
  {
  }

  // ----- What waits for later rounds -----

  predicate WaitsAs(c: Context, es: seq<Event>, r: nat) {
    r > c.round ==>
      && Lookup(c.proposals, r, []) == Early(es, r, 0)
      && Lookup(c.blameQCs, r, []) == Early(es, r, 1)
      && Lookup(c.blames, r, []) == Early(es, r, 2)
  }

  lemma PushAt(m: map<nat, seq<Msg>>, k: nat, y: Msg, r: nat)
    ensures Lookup(Push(m, k, y), r, []) == Lookup(m, r, []) + (if k == r then [y] else [])
  {
    assert Lookup(m, r, []) + [] == Lookup(m, r, []);
  }

  lemma EarlySnoc(es: seq<Event>, r: nat, rank: nat)
    requires es != []
    ensures var front, e := es[..|es| - 1], es[|es| - 1];
            Early(es, r, rank)
            == if e.Synced? && e.msg.round == r && r > RoundOf(front) && Rank(e.msg) == rank
               then Early(front, r, rank) + [e.msg] else Early(front, r, rank)
  {
  }

  lemma SyncWaits(c: Context, m: Msg, r: nat)
    requires r > c.round
    ensures var n := Sync(c, m);
            && Lookup(n.proposals, r, []) == Lookup(c.proposals, r, []) + (if m.Propose? && m.round == r then [m] else [])
            && Lookup(n.blameQCs, r, []) == Lookup(c.blameQCs, r, []) + (if m.BlameQC? && m.round == r then [m] else [])
            && Lookup(n.blames, r, []) == Lookup(c.blames, r, []) + (if m.Blame? && m.round == r then [m] else [])
  {
    hide Push, Lookup;
    NothingAfter(Lookup(c.proposals, r, []));
    NothingAfter(Lookup(c.blameQCs, r, []));
    NothingAfter(Lookup(c.blames, r, []));
    match m
    case Propose(_, _) => PushAt(c.proposals, m.round, m, r);
    case BlameQC(_, _) => PushAt(c.blameQCs, m.round, m, r);
    case Blame(_, _) => PushAt(c.blames, m.round, m, r);
  }

  lemma NothingAfter(s: seq<Msg>)
    ensures s + [] == s
  {
  }

  /** Messages for a later round wait by kind, each kind as it came. */
  lemma {:induction false} WaitingIsEarly(depth: nat, es: seq<Event>, r: nat)
    ensures WaitsAs(Run(depth, es), es, r)
  {
    hide Advance, Sync, Poll, Early;
    if es == [] {
      NoneEarly(r);
    } else {
      var front, e := es[..|es| - 1], es[|es| - 1];
      var c := Run(depth, front);
      WaitingIsEarly(depth, front, r);
      RunRound(depth, front);
      EarlySnoc(es, r, 0);
      EarlySnoc(es, r, 1);
      EarlySnoc(es, r, 2);
      match e
      case Synced(m) => if r > c.round { SyncRound(c, m); SyncWaits(c, m, r); } else { SyncRound(c, m); }
      case Advanced => AdvanceWaits(c, depth, r);
      case Polled => if IsReady(c) { PollWaits(c); }
      case Sent(hs) =>
    }
  }

  lemma NoneEarly(r: nat)
    ensures WaitsAs(INITIAL, [], r)
  {
  }

  lemma AdvanceWaits(c: Context, depth: nat, r: nat)
    ensures var n := Advance(c, depth);
            && n.round == c.round + 1
            && (r > n.round ==>
                  && Lookup(n.proposals, r, []) == Lookup(c.proposals, r, [])
                  && Lookup(n.blameQCs, r, []) == Lookup(c.blameQCs, r, [])
                  && Lookup(n.blames, r, []) == Lookup(c.blames, r, []))
  {
    hide PushAll;
  }

  lemma PollWaits(c: Context)
    requires IsReady(c)
    ensures var n := Poll(c).0;
            n.round == c.round && n.proposals == c.proposals && n.blameQCs == c.blameQCs && n.blames == c.blames
  {
  }

  // ----- First come, first handed out -----

  function Buffered(c: Context): seq<Msg> {
    Lookup(c.buf, c.round, [])
  }

  lemma PollTakesFirst(c: Context)
    requires IsReady(c)
    ensures Poll(c).0.round == c.round && [Poll(c).1] + Buffered(Poll(c).0) == Buffered(c)
  {
  }

  lemma SyncBuffers(c: Context, m: Msg)
    ensures Buffered(Sync(c, m)) == if m.round == c.round then Buffered(c) + [m] else Buffered(c)
  {
  }

  lemma SentBuffers(c: Context, hs: seq<nat>)
    ensures Buffered(AddHandlers(c, hs)) == Buffered(c)
  {
  }

  lemma AdvanceBuffers(c: Context, depth: nat)
    requires Sorted(c)
    ensures var r := c.round + 1;
            && Advance(c, depth).round == r
            && Buffered(Advance(c, depth))
               == Lookup(c.proposals, r, []) + Lookup(c.blameQCs, r, []) + Lookup(c.blames, r, [])
  {
    hide Later, Advance;
    EntryOrder(c, depth);
  }

  /** Over any run: what was handed out since the round began, followed by what is
      still buffered, is the round's schedule. */
  lemma {:induction false} HandedOutInOrder(depth: nat, es: seq<Event>)
    ensures HandedOut(depth, es) + Buffered(Run(depth, es)) == Schedule(es)
  {
    hide Advance, Sync, Poll, AddHandlers, Buffered, Early, Sorted, IsReady;
    if es == [] {
      NothingBuffered();
    } else {
      var front, e := es[..|es| - 1], es[|es| - 1];
      var c := Run(depth, front);
      HandedOutInOrder(depth, front);
      RunRound(depth, front);
      RunRound(depth, es);
      match e
      case Synced(m) =>
        SyncBuffers(c, m);
        AppendAssoc(HandedOut(depth, front), Buffered(c), [m]);
      case Advanced =>
        RunSorted(depth, front);
        AdvanceBuffers(c, depth);
        WaitingIsEarly(depth, front, c.round + 1);
        NothingBefore(Buffered(Run(depth, es)));
      case Polled =>
        if IsReady(c) {
          PollTakesFirst(c);
          AppendAssoc(HandedOut(depth, front), [Poll(c).1], Buffered(Poll(c).0));
        }
      case Sent(hs) => SentBuffers(c, hs);
    }
  }

  lemma NothingBefore(s: seq<Msg>)
    ensures [] + s == s
  {
  }

  lemma NothingBuffered()
    ensures Buffered(INITIAL) == []
  {
  }

  /** So the next message is the next of the schedule, and there is one exactly when
      the schedule is not done. */
  lemma NextIsScheduled(depth: nat, es: seq<Event>)
    ensures var c, n := Run(depth, es), |HandedOut(depth, es)|;
            && n <= |Schedule(es)| && HandedOut(depth, es) == Schedule(es)[..n]
            && (IsReady(c) <==> n < |Schedule(es)|)
            && (IsReady(c) ==> Poll(c).1 == Schedule(es)[n])
  {
    hide Run, Schedule, HandedOut;
    HandedOutInOrder(depth, es);
  }

  lemma {:induction false} EarlyKind(es: seq<Event>, r: nat, rank: nat)
    ensures OfKind(Early(es, r, rank), rank, r)
  {
    hide Rank;
    if es != [] {
      EarlyKind(es[..|es| - 1], r, rank);
    }
  }

  /** What came early is handed out proposals first, then certificates, then blames. */
  lemma EarlyInOrder(es: seq<Event>, r: nat)
    ensures InOrder(Early(es, r, 0) + Early(es, r, 1) + Early(es, r, 2))
  {
    EarlyKind(es, r, 0);
    EarlyKind(es, r, 1);
    EarlyKind(es, r, 2);
    ThreeKinds(Early(es, r, 0), Early(es, r, 1), Early(es, r, 2), r);
  }
}
