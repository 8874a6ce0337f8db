/** Leto's round context: it holds back future messages, hands out those of the
    current round, and drops what is left of a round when the round ends. */
module RoundBuffer {
  import opened Base

  /** A signature on a round number. */
  datatype Auth = Auth(signer: Id, raw: RawSig<nat>)

  datatype Msg =
    | Propose(round: nat, body: nat)
    | BlameQC(round: nat, qc: seq<Auth>)
    | Blame(round: nat, auth: Auth)

  /** The value of a `RoundContext` object. */
  datatype Context = Context(
    round: nat,
    buf: map<nat, seq<Msg>>,
    proposals: map<nat, seq<Msg>>,
    blameQCs: map<nat, seq<Msg>>,
    blames: map<nat, seq<Msg>>,
    handlers: map<nat, seq<nat>>,
    blameMap: map<Id, Auth>,
    gotQC: bool)

  const INITIAL: Context := Context(1, map[], map[], map[], map[], map[], map[], false)

  /** How many rounds a send handler is kept: 4n, or 16 if never initialized. */
  function GcDepth(n: Option<nat>): nat {
    if n.Some? then 4 * n.value else 16
  }

  // ----- The operations as functions -----

  function Push<V>(m: map<nat, seq<V>>, r: nat, v: V): map<nat, seq<V>> {
    m[r := Lookup(m, r, []) + [v]]
  }

  function Sync(c: Context, m: Msg): Context {
    if m.round < c.round then c
    else if m.round == c.round then c.(buf := Push(c.buf, c.round, m))
    else match m
         case Propose(r, _) => c.(proposals := Push(c.proposals, r, m))
         case Blame(r, _) => c.(blames := Push(c.blames, r, m))
         case BlameQC(r, _) => c.(blameQCs := Push(c.blameQCs, r, m))
  }

  function RetainFrom<V>(m: map<nat, V>, low: nat): map<nat, V> {
    map r | r in m && r >= low :: m[r]
  }

  function Threshold(round: nat, depth: nat): nat {
    if round >= depth then round - depth else 0
  }

  function PushAll(m: map<nat, seq<Msg>>, r: nat, ms: seq<Msg>): map<nat, seq<Msg>>
    decreases |ms|
  {
    if ms == [] then m else PushAll(Push(m, r, ms[0]), r, ms[1..])
  }

  /** What waits for round `r`. */
  function WaitingIn(proposals: map<nat, seq<Msg>>, qcs: map<nat, seq<Msg>>, blames: map<nat, seq<Msg>>,
                     r: nat): seq<Msg>
  {
    Lookup(proposals, r, []) + Lookup(qcs, r, []) + Lookup(blames, r, [])
  }

  function Waiting(c: Context, r: nat): seq<Msg> {
    WaitingIn(c.proposals, c.blameQCs, c.blames, r)
  }

  /** Enters the next round: proposals that waited for it come first, then blame
      certificates, then blames. */
  function Advance(c: Context, depth: nat): Context {
    var r := c.round + 1;
    Context(r, PushAll(RetainFrom(c.buf, r), r, Waiting(c, r)),
            c.proposals - {r}, c.blameQCs - {r}, c.blames - {r},
            RetainFrom(c.handlers, Threshold(r, depth)), map[], false)
  }

  predicate IsReady(c: Context) {
    Lookup(c.buf, c.round, []) != []
  }

  function Poll(c: Context): (Context, Msg)
    requires IsReady(c)
  {
    (c.(buf := c.buf[c.round := c.buf[c.round][1..]]), c.buf[c.round][0])
  }

  function AddHandlers(c: Context, hs: seq<nat>): Context {
    c.(handlers := c.handlers[c.round := Lookup(c.handlers, c.round, []) + hs])
  }

  // ----- Where messages can be -----

  function Rank(m: Msg): nat {
    match m
    case Propose(_, _) => 0
    case BlameQC(_, _) => 1
    case Blame(_, _) => 2
  }

  predicate OfKind(ms: seq<Msg>, rank: nat, round: nat) {
    forall m <- ms :: Rank(m) == rank && m.round == round
  }

  predicate OfRound(ms: seq<Msg>, round: nat) {
    forall m <- ms :: m.round == round
  }

  /** Only the current round's messages are there to be handed out. */
  predicate Current(buf: map<nat, seq<Msg>>, round: nat) {
    forall r <- buf :: r == round && OfRound(buf[r], round)
  }

  /** Messages of one kind wait under their own, later round. */
  predicate Later(m: map<nat, seq<Msg>>, rank: nat, round: nat) {
    forall r <- m :: r > round && OfKind(m[r], rank, r)
  }

  predicate Sorted(c: Context) {
    && Current(c.buf, c.round)
    && Later(c.proposals, 0, c.round) && Later(c.blameQCs, 1, c.round) && Later(c.blames, 2, c.round)
  }

  /** How often `x` occurs under its round. */
  function Count(m: map<nat, seq<Msg>>, x: Msg): nat {
    multiset(Lookup(m, x.round, []))[x]
  }

  function QueueOf(c: Context, m: Msg): map<nat, seq<Msg>> {
    match m
    case Propose(_, _) => c.proposals
    case Blame(_, _) => c.blames
    case BlameQC(_, _) => c.blameQCs
  }

  /** How often `x` is held: in the hand-out buffer or waiting for its round. */
  function Held(c: Context, x: Msg): nat {
    Count(c.buf, x) + Count(QueueOf(c, x), x)
  }

  predicate HandlersRecent(c: Context, depth: nat) {
    forall r <- c.handlers :: Threshold(c.round, depth) <= r <= c.round
  }

  // ----- Preservation and counting -----

  lemma {:induction false} PushAllIs(m: map<nat, seq<Msg>>, r: nat, ms: seq<Msg>)
    ensures PushAll(m, r, ms) == if ms == [] then m else m[r := Lookup(m, r, []) + ms]
    decreases |ms|
  {
    if ms != [] {
      PushAllIs(Push(m, r, ms[0]), r, ms[1..]);
      AppendAssoc(Lookup(m, r, []), [ms[0]], ms[1..]);
      assert [ms[0]] + ms[1..] == ms;
      assert Lookup(m, r, []) + [ms[0]] + [] == Lookup(m, r, []) + [ms[0]];
    }
  }

  lemma PushCount(m: map<nat, seq<Msg>>, y: Msg, x: Msg)
    ensures Count(Push(m, y.round, y), x) == Count(m, x) + (if x == y then 1 else 0)
  {
    var s := Lookup(m, y.round, []);
    assert multiset(s + [y]) == multiset(s) + multiset{y};
  }

  lemma PushLater(m: map<nat, seq<Msg>>, round: nat, y: Msg)
    requires Later(m, Rank(y), round) && y.round > round
    ensures Later(Push(m, y.round, y), Rank(y), round)
  {
  }

  lemma PushCurrent(m: map<nat, seq<Msg>>, y: Msg)
    requires Current(m, y.round)
    ensures Current(Push(m, y.round, y), y.round)
  {
  }

  lemma SyncSorted(c: Context, m: Msg)
    requires Sorted(c)
    ensures Sorted(Sync(c, m))
  {
    hide Push, Later, Current;
    if m.round > c.round {
      match m
      case Propose(_, _) => PushLater(c.proposals, c.round, m);
      case BlameQC(_, _) => PushLater(c.blameQCs, c.round, m);
      case Blame(_, _) => PushLater(c.blames, c.round, m);
    } else if m.round == c.round {
      PushCurrent(c.buf, m);
    }
  }

  /** A message at or above the current round is held once more, any other is
      dropped; nothing else changes. */
  lemma SyncHeld(c: Context, m: Msg, x: Msg)
    ensures Held(Sync(c, m), x) == Held(c, x) + (if x == m && m.round >= c.round then 1 else 0)
  {
    hide Push, Count;
    if m.round > c.round {
      match m
      case Propose(_, _) => PushCount(c.proposals, m, x);
      case BlameQC(_, _) => PushCount(c.blameQCs, m, x);
      case Blame(_, _) => PushCount(c.blames, m, x);
    } else if m.round == c.round {
      PushCount(c.buf, m, x);
    }
  }

  lemma LaterAt(m: map<nat, seq<Msg>>, rank: nat, round: nat, r: nat)
    requires Later(m, rank, round)
    ensures OfKind(Lookup(m, r, []), rank, r)
  {
  }

  lemma LaterDrop(m: map<nat, seq<Msg>>, rank: nat, round: nat)
    requires Later(m, rank, round)
    ensures Later(m - {round + 1}, rank, round + 1)
  {
  }

  predicate InOrder(ms: seq<Msg>) {
    forall i, j | 0 <= i < j < |ms| :: Rank(ms[i]) <= Rank(ms[j])
  }

  lemma ThreeKinds(p: seq<Msg>, q: seq<Msg>, b: seq<Msg>, r: nat)
    requires OfKind(p, 0, r) && OfKind(q, 1, r) && OfKind(b, 2, r)
    ensures OfRound(p + q + b, r) && InOrder(p + q + b)
  {
    hide Rank;
    var all := p + q + b;
    forall i | 0 <= i < |all|
      ensures all[i].round == r && Rank(all[i]) == (if i < |p| then 0 else if i < |p| + |q| then 1 else 2)
    {
      if i < |p| {
        assert all[i] in p;
      } else if i < |p| + |q| {
        assert all[i] in q;
      } else {
        assert all[i] in b;
      }
    }
  }

  /** The buffer after entering round `r`. */
  lemma EnteredBuf(c: Context, depth: nat)
    requires Current(c.buf, c.round)
    ensures var r := c.round + 1; var w := Waiting(c, r);
            Advance(c, depth).buf == if w == [] then map[] else map[r := w]
  {
    hide PushAll;
    var r := c.round + 1;
    assert RetainFrom(c.buf, r) == map[];
    PushAllIs(map[], r, Waiting(c, r));
    assert [] + Waiting(c, r) == Waiting(c, r);
  }

  /** On entry to a round the buffer holds exactly what waited for it: proposals,
      then certificates, then blames, each kind in arrival order. */
  lemma EntryOrder(c: Context, depth: nat)
    requires Sorted(c)
    ensures var n := Advance(c, depth); var w := Waiting(c, n.round);
            && n.round == c.round + 1
            && Lookup(n.buf, n.round, []) == w && n.buf.Keys <= {n.round}
            && InOrder(w) && OfRound(w, n.round)
  {
    hide Later, OfKind, InOrder, OfRound, Waiting, PushAll;
    var r := c.round + 1;
    EnteredBuf(c, depth);
    LaterAt(c.proposals, 0, c.round, r);
    LaterAt(c.blameQCs, 1, c.round, r);
    LaterAt(c.blames, 2, c.round, r);
    ThreeKinds(Lookup(c.proposals, r, []), Lookup(c.blameQCs, r, []), Lookup(c.blames, r, []), r);
    WaitingIs(c, r);
  }

  lemma WaitingIs(c: Context, r: nat)
    ensures Waiting(c, r) == Lookup(c.proposals, r, []) + Lookup(c.blameQCs, r, []) + Lookup(c.blames, r, [])
  {
  }

  lemma AdvanceSorted(c: Context, depth: nat)
    requires Sorted(c)
    ensures Sorted(Advance(c, depth))
  {
    hide Later, OfKind, InOrder, OfRound, Waiting, PushAll;
    EntryOrder(c, depth);
    EnteredBuf(c, depth);
    LaterDrop(c.proposals, 0, c.round);
    LaterDrop(c.blameQCs, 1, c.round);
    LaterDrop(c.blames, 2, c.round);
  }

  lemma DropCount(m: map<nat, seq<Msg>>, r: nat, x: Msg)
    ensures Count(m - {r}, x) == if x.round == r then 0 else Count(m, x)
  {
  }

  lemma LaterCount(m: map<nat, seq<Msg>>, rank: nat, round: nat, x: Msg)
    requires Later(m, rank, round) && x.round <= round
    ensures Count(m, x) == 0
  {
  }

  lemma CurrentCount(buf: map<nat, seq<Msg>>, round: nat, x: Msg)
    requires Current(buf, round) && x.round != round
    ensures Count(buf, x) == 0
  {
  }

  /** Ending a round drops exactly what is left of it. */
  lemma AdvanceHeld(c: Context, depth: nat, x: Msg)
    requires Sorted(c)
    ensures Held(Advance(c, depth), x) == if x.round <= c.round then 0 else Held(c, x)
  {
    hide PushAll, Waiting, Later, Current, Count;
    var r := c.round + 1;
    var n := Advance(c, depth);
    EnteredBuf(c, depth);
    AdvanceSorted(c, depth);
    assert QueueOf(n, x) == QueueOf(c, x) - {r};
    DropCount(QueueOf(c, x), r, x);
    if x.round == r {
      WaitingCount(c, r, x);
      CurrentCount(c.buf, c.round, x);
      BufCount(n.buf, Waiting(c, r), r, x);
    } else {
      CurrentCount(n.buf, r, x);
      if x.round <= c.round {
        QueueLater(c, x);
        LaterCount(QueueOf(c, x), Rank(x), c.round, x);
      } else {
        CurrentCount(c.buf, c.round, x);
      }
    }
  }

  lemma BufCount(buf: map<nat, seq<Msg>>, w: seq<Msg>, r: nat, x: Msg)
    requires buf == (if w == [] then map[] else map[r := w]) && x.round == r
    ensures Count(buf, x) == multiset(w)[x]
  {
  }

  lemma QueueLater(c: Context, x: Msg)
    requires Sorted(c)
    ensures Later(QueueOf(c, x), Rank(x), c.round)
  {
  }

  lemma OtherKind(ms: seq<Msg>, rank: nat, r: nat, x: Msg)
    requires OfKind(ms, rank, r) && Rank(x) != rank
    ensures multiset(ms)[x] == 0
  {
    assert x !in ms;
  }

  /** A message waits in the queue of its own kind only. */
  lemma WaitingCount(c: Context, r: nat, x: Msg)
    requires Sorted(c) && x.round == r
    ensures multiset(Waiting(c, r))[x] == Count(QueueOf(c, x), x)
  {
    hide Later, OfKind;
    var p, q, b := Lookup(c.proposals, r, []), Lookup(c.blameQCs, r, []), Lookup(c.blames, r, []);
    assert multiset(p + q + b) == multiset(p) + multiset(q) + multiset(b);
    LaterAt(c.proposals, 0, c.round, r);
    LaterAt(c.blameQCs, 1, c.round, r);
    LaterAt(c.blames, 2, c.round, r);
    if !x.Propose? { OtherKind(p, 0, r, x); }
    if !x.BlameQC? { OtherKind(q, 1, r, x); }
    if !x.Blame? { OtherKind(b, 2, r, x); }
  }

  lemma TailCount(s: seq<Msg>, x: Msg)
    requires s != []
    ensures multiset(s)[x] == multiset(s[1..])[x] + (if x == s[0] then 1 else 0)
  {
    assert s == [s[0]] + s[1..];
  }

  /** What is handed out belongs to the current round and is held once less. */
  lemma PollHeld(c: Context, x: Msg)
    requires Sorted(c) && IsReady(c)
    ensures var (n, m) := Poll(c);
            && Sorted(n) && m.round == c.round && n.round == c.round
            && Held(c, x) == Held(n, x) + (if x == m then 1 else 0)
  {
    hide Later;
    var s := c.buf[c.round];
    TailCount(s, x);
    assert s[0] in s && OfRound(s, c.round);
    assert OfRound(s[1..], c.round) by { TailOfRound(s, c.round); }
  }

  lemma TailOfRound(s: seq<Msg>, round: nat)
    requires s != [] && OfRound(s, round)
    ensures OfRound(s[1..], round)
  {
    assert forall m <- s[1..] :: m in s;
  }

  // ----- Runs -----

  datatype Event = Synced(msg: Msg) | Advanced | Polled | Sent(handlers: seq<nat>)

  function Step(c: Context, depth: nat, e: Event): Context {
    match e
    case Synced(m) => Sync(c, m)
    case Advanced => Advance(c, depth)
    case Polled => if IsReady(c) then Poll(c).0 else c
    case Sent(hs) => AddHandlers(c, hs)
  }

  function Run(depth: nat, es: seq<Event>): Context {
    if es == [] then INITIAL else Step(Run(depth, es[..|es| - 1]), depth, es[|es| - 1])
  }

  /** How often `x` was synced at or above the round of the time. */
  function Accepted(depth: nat, es: seq<Event>, x: Msg): nat {
    if es == [] then 0
    else
      var c, e := Run(depth, es[..|es| - 1]), es[|es| - 1];
      Accepted(depth, es[..|es| - 1], x) + (if e.Synced? && e.msg == x && x.round >= c.round then 1 else 0)
  }

  /** How often `x` was handed out. */
  function Delivered(depth: nat, es: seq<Event>, x: Msg): nat {
    if es == [] then 0
    else
      var c, e := Run(depth, es[..|es| - 1]), es[|es| - 1];
      Delivered(depth, es[..|es| - 1], x) + (if e.Polled? && IsReady(c) && Poll(c).1 == x then 1 else 0)
  }

  /** How many copies of `x` were dropped when its round ended. */
  function Discarded(depth: nat, es: seq<Event>, x: Msg): nat {
    if es == [] then 0
    else
      var c, e := Run(depth, es[..|es| - 1]), es[|es| - 1];
      Discarded(depth, es[..|es| - 1], x)
      + (if e.Advanced? && x.round < c.round + 1 then Count(c.buf, x) else 0)
  }

  lemma BelowIsBuffered(c: Context, x: Msg)
    requires Sorted(c)
    ensures x.round <= c.round ==> Held(c, x) == Count(c.buf, x)
    ensures x.round < c.round ==> Held(c, x) == 0
  {
    hide Later, Current, Count;
    QueueLater(c, x);
    if x.round <= c.round {
      LaterCount(QueueOf(c, x), Rank(x), c.round, x);
    }
    if x.round < c.round {
      CurrentCount(c.buf, c.round, x);
    }
  }

  lemma {:induction false} RunSorted(depth: nat, es: seq<Event>)
    ensures Sorted(Run(depth, es)) && HandlersRecent(Run(depth, es), depth)
  {
    hide Advance, Poll, Sync, Sorted, HandlersRecent;
    if es == [] {
      InitialSorted(depth);
    } else {
      var c := Run(depth, es[..|es| - 1]);
      RunSorted(depth, es[..|es| - 1]);
      match es[|es| - 1]
      case Synced(m) => SyncSorted(c, m); SyncHandlers(c, m, depth);
      case Advanced => AdvanceSorted(c, depth); AdvanceHandlers(c, depth);
      case Polled => if IsReady(c) { PollHeld(c, Poll(c).1); PollHandlers(c, depth); }
      case Sent(hs) => SentSorted(c, hs, depth);
    }
  }

  lemma InitialSorted(depth: nat)
    ensures Sorted(INITIAL) && HandlersRecent(INITIAL, depth)
  {
  }

  lemma SyncHandlers(c: Context, m: Msg, depth: nat)
    ensures HandlersRecent(Sync(c, m), depth) == HandlersRecent(c, depth)
  {
    hide Push, HandlersRecent;
    assert Sync(c, m).handlers == c.handlers && Sync(c, m).round == c.round;
    SameHandlers(c, Sync(c, m), depth);
  }

  lemma SameHandlers(c: Context, d: Context, depth: nat)
    requires c.handlers == d.handlers && c.round == d.round
    ensures HandlersRecent(c, depth) == HandlersRecent(d, depth)
  {
  }

  lemma SentSorted(c: Context, hs: seq<nat>, depth: nat)
    requires Sorted(c) && HandlersRecent(c, depth)
    ensures Sorted(AddHandlers(c, hs)) && HandlersRecent(AddHandlers(c, hs), depth)
  {
  }

  lemma PollHandlers(c: Context, depth: nat)
    requires IsReady(c)
    ensures HandlersRecent(Poll(c).0, depth) == HandlersRecent(c, depth)
  {
  }

  lemma AdvanceHandlers(c: Context, depth: nat)
    requires HandlersRecent(c, depth)
    ensures HandlersRecent(Advance(c, depth), depth)
  {
  }

  /** Conservation, message by message: every copy accepted so far has been
      handed out, is still held, or was dropped when its round ended. Copies for
      later rounds are all still held; copies for past rounds are not. */
  lemma {:induction false} Conservation(depth: nat, es: seq<Event>, x: Msg)
    ensures var c := Run(depth, es);
            && Accepted(depth, es, x) == Delivered(depth, es, x) + Held(c, x) + Discarded(depth, es, x)
            && (x.round > c.round ==> Delivered(depth, es, x) == 0)
            && (x.round >= c.round ==> Discarded(depth, es, x) == 0)
            && (x.round < c.round ==> Held(c, x) == 0)
  {
    hide Advance, Poll, Sync, Held, Sorted;
    RunSorted(depth, es);
    BelowIsBuffered(Run(depth, es), x);
    if es == [] {
      InitialHoldsNone(x);
    } else {
      var c, e := Run(depth, es[..|es| - 1]), es[|es| - 1];
      Conservation(depth, es[..|es| - 1], x);
      RunSorted(depth, es[..|es| - 1]);
      match e
      case Synced(m) => SyncHeld(c, m, x); SyncRound(c, m);
      case Advanced => AdvanceHeld(c, depth, x); EntryOrder(c, depth); BelowIsBuffered(c, x);
      case Polled => if IsReady(c) { PollHeld(c, x); }
      case Sent(hs) => SentHeld(c, hs, x);
    }
  }

  lemma InitialHoldsNone(x: Msg)
    ensures Held(INITIAL, x) == 0
  {
  }

  lemma SyncRound(c: Context, m: Msg)
    ensures Sync(c, m).round == c.round
  {
  }

  lemma SentHeld(c: Context, hs: seq<nat>, x: Msg)
    ensures Held(AddHandlers(c, hs), x) == Held(c, x)
  {
  }

  /** Whatever is handed out belongs to the round in which it is handed out. */
  lemma DeliveredInRound(depth: nat, es: seq<Event>)
    requires es != [] && es[|es| - 1].Polled? && IsReady(Run(depth, es[..|es| - 1]))
    ensures Poll(Run(depth, es[..|es| - 1])).1.round == Run(depth, es).round
  {
    hide Sorted;
    var c := Run(depth, es[..|es| - 1]);
    RunSorted(depth, es[..|es| - 1]);
    PollHeld(c, Poll(c).1);
  }

  /** Send handlers are kept for at most 4n + 1 rounds. */
  lemma HandlersBounded(n: Option<nat>, es: seq<Event>)
    ensures |Run(GcDepth(n), es).handlers| <= if n.Some? then 4 * n.value + 1 else 17
  {
    var depth := GcDepth(n);
    var c := Run(depth, es);
    RunSorted(depth, es);
    RangeSize(Threshold(c.round, depth), c.round + 1, c.handlers.Keys);
    assert |c.handlers.Keys| == |c.handlers|;
  }

  /** The handlers added while the round was `r`. */
  function Added(depth: nat, es: seq<Event>, r: nat): seq<nat> {
    if es == [] then []
    else
      var c, e := Run(depth, es[..|es| - 1]), es[|es| - 1];
      Added(depth, es[..|es| - 1], r) + (if e.Sent? && c.round == r then e.handlers else [])
  }

  predicate HandlersAre(c: Context, depth: nat, r: nat, added: seq<nat>) {
    && (r > c.round ==> added == [])
    && Lookup(c.handlers, r, []) == if r >= Threshold(c.round, depth) then added else []
  }

  lemma AdvanceHandlersAre(c: Context, depth: nat, r: nat, added: seq<nat>)
    requires HandlersAre(c, depth, r, added)
    ensures HandlersAre(Advance(c, depth), depth, r, added)
  {
  }

  lemma AddHandlersAre(c: Context, depth: nat, r: nat, added: seq<nat>, hs: seq<nat>)
    requires HandlersAre(c, depth, r, added)
    ensures HandlersAre(AddHandlers(c, hs), depth, r, added + (if c.round == r then hs else []))
  {
    assert added + [] == added;
  }

  /** Exactly the handlers of the last depth + 1 rounds are kept, in order. */
  lemma {:induction false} HandlersExact(depth: nat, es: seq<Event>, r: nat)
    ensures HandlersAre(Run(depth, es), depth, r, Added(depth, es, r))
  {
    hide Advance, Poll, Sync, AddHandlers, HandlersAre;
    if es == [] {
      NoHandlers(depth, r);
    } else {
      var c, e := Run(depth, es[..|es| - 1]), es[|es| - 1];
      var added := Added(depth, es[..|es| - 1], r);
      HandlersExact(depth, es[..|es| - 1], r);
      assert added + [] == added;
      match e
      case Synced(m) => SyncHandlersSame(c, m); OtherHandlersAre(c, Sync(c, m), depth, r, added);
      case Advanced => AdvanceHandlersAre(c, depth, r, added);
      case Polled => if IsReady(c) { PollHandlersSame(c); OtherHandlersAre(c, Poll(c).0, depth, r, added); }
      case Sent(hs) => AddHandlersAre(c, depth, r, added, hs);
    }
  }

  /** With n nodes these are the handlers of the last 4n rounds and the current one,
      or of the last 16 if the size was never set. */
  lemma HandlersKept(n: Option<nat>, es: seq<Event>, r: nat)
    ensures var depth := GcDepth(n); var c := Run(depth, es);
            Lookup(c.handlers, r, [])
            == if r + (if n.Some? then 4 * n.value else 16) >= c.round then Added(depth, es, r) else []
  {
    hide Run, Added;
    HandlersExact(GcDepth(n), es, r);
  }

  lemma NoHandlers(depth: nat, r: nat)
    ensures HandlersAre(INITIAL, depth, r, [])
  {
  }

  lemma SyncHandlersSame(c: Context, m: Msg)
    ensures Sync(c, m).handlers == c.handlers && Sync(c, m).round == c.round
  {
    hide Push;
  }

  lemma PollHandlersSame(c: Context)
    requires IsReady(c)
    ensures Poll(c).0.handlers == c.handlers && Poll(c).0.round == c.round
  {
  }

  lemma OtherHandlersAre(c: Context, d: Context, depth: nat, r: nat, added: seq<nat>)
    requires HandlersAre(c, depth, r, added) && d.handlers == c.handlers && d.round == c.round
    ensures HandlersAre(d, depth, r, added)
  {
  }

  lemma {:induction false} RangeSize(low: nat, high: nat, s: set<nat>)
    requires low <= high && forall r <- s :: low <= r < high
    ensures |s| <= high - low
    decreases high
  {
    if low == high {
      assert s == {};
    } else {
      RangeSize(low, high - 1, s - {high - 1});
    }
  }

  // ----- The object -----

  class RoundContext {
    const depth: nat
    var currentRound: nat
    var msgBuf: map<nat, seq<Msg>>
    var proposalsReady: map<nat, seq<Msg>>
    var blameQCReady: map<nat, seq<Msg>>
    var blameReady: map<nat, seq<Msg>>
    var cancelHandlers: map<nat, seq<nat>>
    var blameMap: map<Id, Auth>
    var gotQC: bool

    function Model(): Context
      reads this
    {
      Context(currentRound, msgBuf, proposalsReady, blameQCReady, blameReady, cancelHandlers, blameMap, gotQC)
    }

    constructor (depth: nat)
      ensures Model() == INITIAL && this.depth == depth
    {
      this.depth := depth;
      currentRound, msgBuf, proposalsReady, blameQCReady, blameReady := 1, map[], map[], map[], map[];
      cancelHandlers, blameMap, gotQC := map[], map[], false;
    }

    method SyncMsg(m: Msg)
      modifies this
      ensures Model() == Sync(old(Model()), m)
    {
      if m.round < currentRound {
        return;
      }
      if m.round > currentRound {
        match m
        case Propose(r, _) => proposalsReady := Push(proposalsReady, r, m);
        case Blame(r, _) => blameReady := Push(blameReady, r, m);
        case BlameQC(r, _) => blameQCReady := Push(blameQCReady, r, m);
      } else {
        msgBuf := Push(msgBuf, currentRound, m);
      }
    }

    method Next() returns (m: Msg)
      requires IsReady(Model())
      modifies this
      ensures (Model(), m) == Poll(old(Model()))
    {
      m := msgBuf[currentRound][0];
      msgBuf := msgBuf[currentRound := msgBuf[currentRound][1..]];
    }

    method Track(hs: seq<nat>)
      modifies this
      ensures Model() == AddHandlers(old(Model()), hs)
    {
      cancelHandlers := cancelHandlers[currentRound := Lookup(cancelHandlers, currentRound, []) + hs];
    }

    method AdvanceRound()
      modifies this
      ensures Model() == Advance(old(Model()), depth)
    {
      hide PushAll, WaitingIn, RetainFrom;
      currentRound := currentRound + 1;
      var threshold := if currentRound >= depth then currentRound - depth else 0;
      cancelHandlers := RetainFrom(cancelHandlers, threshold);
      msgBuf := RetainFrom(msgBuf, currentRound);
      blameMap, gotQC := map[], false;
      Release();
    }

    /** Moves what waited for the new round into the buffer, kind by kind. */
    method Release()
      modifies this`msgBuf, this`proposalsReady, this`blameQCReady, this`blameReady
      ensures msgBuf == PushAll(old(msgBuf), currentRound,
                                WaitingIn(old(proposalsReady), old(blameQCReady), old(blameReady), currentRound))
      ensures proposalsReady == old(proposalsReady) - {currentRound}
      ensures blameQCReady == old(blameQCReady) - {currentRound}
      ensures blameReady == old(blameReady) - {currentRound}
    {
      hide PushAll;
      ghost var start := msgBuf;
      var ps := Lookup(proposalsReady, currentRound, []);
      proposalsReady := proposalsReady - {currentRound};
      Reschedule(ps);
      var qs := Lookup(blameQCReady, currentRound, []);
      blameQCReady := blameQCReady - {currentRound};
      Reschedule(qs);
      var bs := Lookup(blameReady, currentRound, []);
      blameReady := blameReady - {currentRound};
      Reschedule(bs);
      PushAllAppend(start, currentRound, ps, qs);
      PushAllAppend(start, currentRound, ps + qs, bs);
    }

    method Reschedule(ms: seq<Msg>)
      modifies this`msgBuf
      ensures msgBuf == PushAll(old(msgBuf), currentRound, ms)
    {
      for i := 0 to |ms|
        invariant PushAll(msgBuf, currentRound, ms[i..]) == PushAll(old(msgBuf), currentRound, ms)
      {
        assert ms[i..][1..] == ms[i + 1..];
        msgBuf := Push(msgBuf, currentRound, ms[i]);
      }
    }
  }

  lemma PushAllAppend(m: map<nat, seq<Msg>>, r: nat, x: seq<Msg>, y: seq<Msg>)
    ensures PushAll(PushAll(m, r, x), r, y) == PushAll(m, r, x + y)
  {
    hide PushAll;
    PushAllIs(m, r, x);
    PushAllIs(PushAll(m, r, x), r, y);
    PushAllIs(m, r, x + y);
    AppendAssoc(Lookup(m, r, []), x, y);
    if x == [] {
      assert x + y == y;
    } else if y == [] {
      assert x + y == x;
    }
  }
}
