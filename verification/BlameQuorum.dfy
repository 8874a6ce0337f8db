/** Leto's blame quorum on top of the round buffer: how blames of the current
    round become a certificate, and what any two certificates share. */
module BlameQuorum {
  import opened Base
  import opened RoundBuffer

  /** Node constants: committee size, fault bound, known ids, handler depth. */
  datatype Setup = Setup(n: nat, f: nat, known: set<Id>, depth: nat)

  datatype Certificate = Certificate(round: nat, auths: seq<Auth>)

  /** The value of a `LetoBlames` object. `formed` are the certificates that this
      node assembled from single blames. */
  datatype Leto = Leto(
    ctx: Context, highest: nat, qcs: map<nat, seq<Auth>>, sent: seq<Msg>, formed: seq<Certificate>)

  const START: Leto := Leto(RoundBuffer.INITIAL, 0, map[], [], [])

  predicate SignedBlame(setup: Setup, round: nat, a: Auth) {
    a.signer in setup.known && Verifies(a.signer, round, a.raw)
  }

  function Least(ids: set<Id>): (m: Id)
    requires ids != {}
    ensures IsLeast(m, ids)
  {
    LeastExists(ids);
    var m :| IsLeast(m, ids);
    m
  }

  /** The signatures of a map, one for each key. */
  function Values(m: map<Id, Auth>): (r: seq<Auth>)
    ensures |r| == |m|
    decreases |m|
  {
    if m == map[] then []
    else
      var id := Least(m.Keys);
      RemoveShrinks(m, id);
      assert m.Keys == (m - {id}).Keys + {id} && |(m - {id}).Keys| == |m - {id}| && |m.Keys| == |m|;
      [m[id]] + Values(m - {id})
  }

  function Signers(auths: seq<Auth>): set<Id> {
    set a | a in auths :: a.signer
  }

  // ----- The handlers as functions -----

  function HandleBlameQC(setup: Setup, l: Leto, round: nat, qc: seq<Auth>, hs: seq<nat>): Leto {
    var ctx := AddHandlers(l.ctx.(gotQC := true), hs);
    l.(sent := l.sent + [BlameQC(round, qc)], qcs := l.qcs[round := qc], ctx := Advance(ctx, setup.depth))
  }

  function HandleBlame(setup: Setup, l: Leto, round: nat, auth: Auth, hs: seq<nat>): Leto {
    if l.highest == round || l.ctx.gotQC || !SignedBlame(setup, round, auth) then l
    else
      var blames := l.ctx.blameMap[auth.signer := auth];
      if |blames| != QuorumLen(setup.n, setup.f) then l.(ctx := l.ctx.(blameMap := blames))
      else
        var qc := Values(blames);
        HandleBlameQC(setup, l.(ctx := l.ctx.(gotQC := true, blameMap := map[]),
                                formed := l.formed + [Certificate(round, qc)]), round, qc, hs)
  }

  /** A received certificate is checked signature by signature. */
  function OnBlameQC(setup: Setup, l: Leto, round: nat, qc: seq<Auth>, hs: seq<nat>): Leto {
    if l.ctx.gotQC || exists a <- qc :: !SignedBlame(setup, round, a) then l
    else HandleBlameQC(setup, l, round, qc, hs)
  }

  /** An accepted proposal ends the round. */
  function Accepted(setup: Setup, l: Leto, round: nat): Leto {
    l.(highest := round, ctx := Advance(l.ctx, setup.depth))
  }

  /** The leader broadcasts its proposal and then handles it directly, past the buffer. */
  function ProposeOwn(setup: Setup, l: Leto, accept: bool, hs: seq<nat>): Leto {
    var l1 := l.(ctx := AddHandlers(l.ctx, hs));
    if accept then Accepted(setup, l1, l1.ctx.round) else l1
  }

  /** Whether a proposal is accepted is decided elsewhere. A round timeout has the
      effect of `OwnProposal(false, _)`: it broadcasts, and its own blame comes back
      through the buffer. */
  datatype Event =
    | Received(msg: Msg)
    | Handed(accept: bool, handlers: seq<nat>)
    | OwnProposal(accept: bool, handlers: seq<nat>)

  function Step(setup: Setup, l: Leto, e: Event): Leto {
    match e
    case Received(m) => l.(ctx := Sync(l.ctx, m))
    case OwnProposal(accept, hs) => ProposeOwn(setup, l, accept, hs)
    case Handed(accept, hs) =>
      if !IsReady(l.ctx) then l
      else
        var (ctx, m) := Poll(l.ctx);
        var l1 := l.(ctx := ctx);
        match m
        case Blame(round, auth) => HandleBlame(setup, l1, round, auth, hs)
        case BlameQC(round, qc) => OnBlameQC(setup, l1, round, qc, hs)
        case Propose(round, _) => if accept then Accepted(setup, l1, round) else l1
  }

  function Run(setup: Setup, es: seq<Event>): Leto {
    if es == [] then START else Step(setup, Run(setup, es[..|es| - 1]), es[|es| - 1])
  }

  // ----- The invariant -----

  /** Blames at hand are by known ids, each on the current round. */
  predicate BlamesCurrent(setup: Setup, round: nat, blames: map<Id, Auth>) {
    forall id <- blames :: blames[id].signer == id && SignedBlame(setup, round, blames[id])
  }

  predicate Complete(setup: Setup, c: Certificate) {
    && |c.auths| == QuorumLen(setup.n, setup.f) == |Signers(c.auths)|
    && forall a <- c.auths :: SignedBlame(setup, c.round, a)
  }

  /** Between two handlers fewer blames than a quorum are at hand, and every
      certificate formed so far is complete, sent, and of an earlier round. */
  predicate Good(setup: Setup, l: Leto) {
    && Sorted(l.ctx) && !l.ctx.gotQC
    && BlamesCurrent(setup, l.ctx.round, l.ctx.blameMap)
    && |l.ctx.blameMap| < QuorumLen(setup.n, setup.f)
    && FormedGood(setup, l)
  }

  predicate FormedGood(setup: Setup, l: Leto) {
    && (forall c <- l.formed :: Complete(setup, c) && c.round < l.ctx.round && BlameQC(c.round, c.auths) in l.sent)
    && (forall i, j | 0 <= i < j < |l.formed| :: l.formed[i].round < l.formed[j].round)
  }

  lemma StartGood(setup: Setup)
    requires setup.n > 0
    ensures Good(setup, START)
  {
  }

  predicate OwnSigners(m: map<Id, Auth>) {
    forall id <- m :: m[id].signer == id
  }

  lemma {:induction false} ValuesMembers(m: map<Id, Auth>)
    requires OwnSigners(m)
    ensures Signers(Values(m)) == m.Keys
    ensures forall a <- Values(m) :: a.signer in m && m[a.signer] == a
    decreases |m|
  {
    hide Least;
    if m == map[] {
      assert Signers([]) == {};
    } else {
      var id := Least(m.Keys);
      var rest := m - {id};
      RemoveShrinks(m, id);
      ValuesMembers(rest);
      SignersCons(m[id], Values(rest));
      assert Values(m) == [m[id]] + Values(rest);
      assert m.Keys == {id} + rest.Keys;
    }
  }

  lemma SignersCons(a: Auth, auths: seq<Auth>)
    ensures Signers([a] + auths) == {a.signer} + Signers(auths)
  {
    assert forall x <- auths :: x in [a] + auths;
  }

  /** The certificate made of a map has one signature of each key. */
  lemma ValuesComplete(setup: Setup, round: nat, blames: map<Id, Auth>)
    requires BlamesCurrent(setup, round, blames) && |blames| == QuorumLen(setup.n, setup.f)
    ensures Complete(setup, Certificate(round, Values(blames)))
    ensures Signers(Values(blames)) == blames.Keys
  {
    hide Values, Signers;
    ValuesMembers(blames);
    assert |blames.Keys| == |blames|;
  }

  lemma InsertSize(blames: map<Id, Auth>, id: Id, a: Auth)
    ensures blames[id := a].Keys == blames.Keys + {id}
    ensures |blames| <= |blames[id := a]| <= |blames| + 1
  {
    var m := blames[id := a];
    assert m.Keys == blames.Keys + {id};
    assert |m.Keys| == |m| && |blames.Keys| == |blames|;
  }

  lemma AdvanceFields(c: Context, depth: nat)
    ensures var r := Advance(c, depth);
            r.round == c.round + 1 && r.blameMap == map[] && !r.gotQC
  {
  }

  /** Moving to the next round after a certificate or a proposal. */
  lemma NextRoundGood(setup: Setup, l: Leto, l': Leto, ctx: Context)
    requires setup.n > 0 && Sorted(ctx) && l'.ctx == Advance(ctx, setup.depth) && ctx.round == l.ctx.round
    requires FormedGood(setup, l'.(ctx := Advance(ctx, setup.depth)))
    ensures Good(setup, l')
  {
    hide Advance, Sorted, FormedGood;
    AdvanceSorted(ctx, setup.depth);
    AdvanceFields(ctx, setup.depth);
  }

  lemma BlameMapSorted(c: Context, blames: map<Id, Auth>, got: bool, hs: seq<nat>)
    requires Sorted(c)
    ensures Sorted(AddHandlers(c.(blameMap := blames, gotQC := got), hs))
  {
  }

  /** The `!=` test cannot step over the quorum: a valid blame for the current
      round forms a certificate if and only if it completes a quorum. */
  lemma FormsIff(setup: Setup, l: Leto, auth: Auth, hs: seq<nat>)
    requires setup.n > 0 && Good(setup, l)
    requires SignedBlame(setup, l.ctx.round, auth) && l.highest != l.ctx.round
    ensures var r := HandleBlame(setup, l, l.ctx.round, auth, hs);
            var blamers := l.ctx.blameMap.Keys + {auth.signer};
            && |blamers| <= QuorumLen(setup.n, setup.f)
            && (|r.formed| > |l.formed| <==> |blamers| >= QuorumLen(setup.n, setup.f))
            && (|r.formed| > |l.formed| ==>
                  && Signers(r.formed[|l.formed|].auths) == blamers
                  && r.formed[|l.formed|].round == l.ctx.round && r.ctx.round == l.ctx.round + 1)
            && (|r.formed| == |l.formed| ==> r.ctx.blameMap.Keys == blamers && r.ctx.round == l.ctx.round)
  {
    hide Sorted, Advance, FormedGood, Complete, Signers, Values, AddHandlers, SignedBlame;
    InsertSize(l.ctx.blameMap, auth.signer, auth);
    var blames := l.ctx.blameMap[auth.signer := auth];
    assert |blames.Keys| == |blames|;
    if |blames| == QuorumLen(setup.n, setup.f) {
      InsertCurrent(setup, l.ctx.round, l.ctx.blameMap, auth);
      ValuesComplete(setup, l.ctx.round, blames);
      var ctx := l.ctx.(gotQC := true, blameMap := map[]);
      HandlersKeepRound(ctx.(gotQC := true), hs);
      AdvanceFields(AddHandlers(ctx.(gotQC := true), hs), setup.depth);
    }
  }

  lemma InsertCurrent(setup: Setup, round: nat, blames: map<Id, Auth>, auth: Auth)
    requires BlamesCurrent(setup, round, blames) && SignedBlame(setup, round, auth)
    ensures BlamesCurrent(setup, round, blames[auth.signer := auth])
  {
  }

  lemma FormedOneMore(setup: Setup, l: Leto, l': Leto, c: Certificate)
    requires FormedGood(setup, l) && Complete(setup, c) && c.round == l.ctx.round
    requires l'.formed == l.formed + [c] && l'.sent == l.sent + [BlameQC(c.round, c.auths)]
    requires l'.ctx.round == l.ctx.round + 1
    ensures FormedGood(setup, l')
  {
    hide Complete;
  }

  lemma FormedSame(setup: Setup, l: Leto, l': Leto)
    requires FormedGood(setup, l) && l'.formed == l.formed && l.sent <= l'.sent && l'.ctx.round >= l.ctx.round
    ensures FormedGood(setup, l')
  {
    hide Complete;
    assert forall m <- l.sent :: m in l'.sent;
  }

  lemma HandleBlameGood(setup: Setup, l: Leto, auth: Auth, hs: seq<nat>)
    requires setup.n > 0 && Good(setup, l)
    ensures Good(setup, HandleBlame(setup, l, l.ctx.round, auth, hs))
  {
    hide Sorted, Advance, FormedGood, Complete, AddHandlers, Values, SignedBlame, BlamesCurrent;
    var round := l.ctx.round;
    var l' := HandleBlame(setup, l, round, auth, hs);
    if l.highest != round && SignedBlame(setup, round, auth) {
      var blames := l.ctx.blameMap[auth.signer := auth];
      InsertSize(l.ctx.blameMap, auth.signer, auth);
      InsertCurrent(setup, round, l.ctx.blameMap, auth);
      if |blames| == QuorumLen(setup.n, setup.f) {
        var ctx := AddHandlers(l.ctx.(gotQC := true, blameMap := map[]), hs);
        HandlersKeepRound(l.ctx.(gotQC := true, blameMap := map[]), hs);
        BlameMapSorted(l.ctx, map[], true, hs);
        ValuesComplete(setup, round, blames);
        AdvanceFields(ctx, setup.depth);
        FormedOneMore(setup, l, l', Certificate(round, Values(blames)));
        NextRoundGood(setup, l, l', ctx);
      } else {
        BlameMapSortedOnly(l.ctx, blames);
        FormedSame(setup, l, l');
      }
    }
  }

  lemma BlameMapSortedOnly(c: Context, blames: map<Id, Auth>)
    requires Sorted(c)
    ensures Sorted(c.(blameMap := blames))
  {
  }

  lemma HandlersKeepRound(c: Context, hs: seq<nat>)
    ensures AddHandlers(c, hs).round == c.round
  {
  }

  lemma OnBlameQCGood(setup: Setup, l: Leto, round: nat, qc: seq<Auth>, hs: seq<nat>)
    requires setup.n > 0 && Good(setup, l)
    ensures Good(setup, OnBlameQC(setup, l, round, qc, hs))
  {
    hide Sorted, Advance, FormedGood, AddHandlers;
    var l' := OnBlameQC(setup, l, round, qc, hs);
    if l' != l {
      var ctx := AddHandlers(l.ctx.(gotQC := true), hs);
      HandlersKeepRound(l.ctx.(gotQC := true), hs);
      BlameMapSorted(l.ctx, l.ctx.blameMap, true, hs);
      AdvanceFields(ctx, setup.depth);
      FormedSame(setup, l, l');
      NextRoundGood(setup, l, l', ctx);
    }
  }

  lemma PolledGood(setup: Setup, l: Leto)
    requires Good(setup, l) && IsReady(l.ctx)
    ensures Good(setup, l.(ctx := Poll(l.ctx).0)) && Poll(l.ctx).1.round == l.ctx.round
    ensures Poll(l.ctx).0.round == l.ctx.round
  {
    hide Sorted;
    PollHeld(l.ctx, Poll(l.ctx).1);
    FormedSame(setup, l, l.(ctx := Poll(l.ctx).0));
  }

  lemma ReceivedGood(setup: Setup, l: Leto, m: Msg)
    requires Good(setup, l)
    ensures Good(setup, l.(ctx := Sync(l.ctx, m)))
  {
    hide Sorted, Push;
    SyncSorted(l.ctx, m);
    FormedSame(setup, l, l.(ctx := Sync(l.ctx, m)));
  }

  lemma StepGood(setup: Setup, l: Leto, e: Event)
    requires setup.n > 0 && Good(setup, l)
    ensures Good(setup, Step(setup, l, e))
  {
    hide Good, HandleBlame, OnBlameQC, Sync, Advance, Poll, Accepted, AddHandlers;
    match e
    case Received(m) => ReceivedGood(setup, l, m);
    case OwnProposal(accept, hs) =>
      var l1 := l.(ctx := AddHandlers(l.ctx, hs));
      HandlersGood(setup, l, hs);
      AcceptedGood(setup, l1, l1.ctx.round);
    case Handed(accept, hs) =>
      if IsReady(l.ctx) {
        PolledGood(setup, l);
        var (ctx, m) := Poll(l.ctx);
        var l1 := l.(ctx := ctx);
        match m
        case Blame(round, auth) => HandleBlameGood(setup, l1, auth, hs);
        case BlameQC(round, qc) => OnBlameQCGood(setup, l1, round, qc, hs);
        case Propose(round, _) => AcceptedGood(setup, l1, round);
      }
  }

  lemma HandlersGood(setup: Setup, l: Leto, hs: seq<nat>)
    requires Good(setup, l)
    ensures Good(setup, l.(ctx := AddHandlers(l.ctx, hs)))
  {
    hide Sorted, FormedGood;
    BlameMapSorted(l.ctx, l.ctx.blameMap, l.ctx.gotQC, hs);
    FormedSame(setup, l, l.(ctx := AddHandlers(l.ctx, hs)));
  }

  lemma AcceptedGood(setup: Setup, l: Leto, round: nat)
    requires setup.n > 0 && Good(setup, l)
    ensures Good(setup, Accepted(setup, l, round))
  {
    hide Sorted, Advance, FormedGood;
    var l' := Accepted(setup, l, round);
    AdvanceFields(l.ctx, setup.depth);
    FormedSame(setup, l, l');
    NextRoundGood(setup, l, l', l.ctx);
  }

  /** Over any run of received messages, every certificate the node formed carries
      exactly (n + f + 1) / 2 distinct known signers, all on the round it was
      formed in, was sent, and no round has two. */
  lemma {:induction false} RunGood(setup: Setup, es: seq<Event>)
    requires setup.n > 0
    ensures Good(setup, Run(setup, es))
  {
    hide Good, Step;
    if es == [] {
      StartGood(setup);
    } else {
      RunGood(setup, es[..|es| - 1]);
      StepGood(setup, Run(setup, es[..|es| - 1]), es[|es| - 1]);
    }
  }

  /** The same for one certificate, spelled out. */
  lemma CertificateComplete(setup: Setup, es: seq<Event>, i: nat)
    requires setup.n > 0 && i < |Run(setup, es).formed|
    ensures var l := Run(setup, es); var c := l.formed[i];
            && |c.auths| == |Signers(c.auths)| == QuorumLen(setup.n, setup.f)
            && Signers(c.auths) <= setup.known
            && (forall a <- c.auths :: Verifies(a.signer, c.round, a.raw))
            && BlameQC(c.round, c.auths) in l.sent
            && (forall j | i < j < |l.formed| :: c.round < l.formed[j].round)
  {
    hide Run, Sorted, BlamesCurrent;
    RunGood(setup, es);
    var l := Run(setup, es);
    assert l.formed[i] in l.formed;
  }

  // ----- Received certificates -----

  predicate DistinctSigners(auths: seq<Auth>) {
    forall i, j | 0 <= i < j < |auths| :: auths[i].signer != auths[j].signer
  }

  lemma SignersSnoc(auths: seq<Auth>, a: Auth)
    ensures Signers(auths + [a]) == Signers(auths) + {a.signer}
    ensures DistinctSigners(auths + [a]) <==> DistinctSigners(auths) && a.signer !in Signers(auths)
  {
    var more := auths + [a];
    assert forall x <- auths :: x in more;
    assert more[|auths|] == a && forall i | 0 <= i < |auths| :: more[i] == auths[i];
    if DistinctSigners(more) {
      forall i, j | 0 <= i < j < |auths| ensures auths[i].signer != auths[j].signer {
        assert more[i].signer != more[j].signer;
      }
    }
  }

  lemma {:induction false} SignersCount(auths: seq<Auth>)
    ensures |Signers(auths)| <= |auths|
    ensures |Signers(auths)| == |auths| <==> DistinctSigners(auths)
  {
    hide Signers, DistinctSigners;
    if auths == [] {
      NoSigners();
    } else {
      var n := |auths| - 1;
      SignersCount(auths[..n]);
      assert auths == auths[..n] + [auths[n]];
      SignersSnoc(auths[..n], auths[n]);
    }
  }

  lemma NoSigners()
    ensures Signers([]) == {} && DistinctSigners([])
  {
  }

  /** A received certificate is adopted, and the round left, exactly when each of its
      signatures is good; how many there are, and by whom, is not looked at. It is
      complete if and only if it has a quorum of signatures, no two by one signer. */
  lemma AdoptedCompleteIff(setup: Setup, l: Leto, round: nat, qc: seq<Auth>, hs: seq<nat>)
    requires setup.n > 0 && Good(setup, l)
    ensures var r := OnBlameQC(setup, l, round, qc, hs);
            var valid := forall a <- qc :: SignedBlame(setup, round, a);
            && (!valid ==> r == l)
            && (valid ==> r.ctx.round == l.ctx.round + 1 && r.qcs == l.qcs[round := qc]
                          && r.sent == l.sent + [BlameQC(round, qc)])
            && (valid ==> Complete(setup, Certificate(round, qc))
                          == (|qc| == QuorumLen(setup.n, setup.f) && DistinctSigners(qc)))
  {
    hide Advance, AddHandlers, Signers, DistinctSigners, SignedBlame;
    SignersCount(qc);
    HandlersKeepRound(l.ctx.(gotQC := true), hs);
    AdvanceFields(AddHandlers(l.ctx.(gotQC := true), hs), setup.depth);
  }

  /** So one without a single signature ends the round. */
  lemma EmptyCertificateAdopted(setup: Setup, l: Leto, round: nat, hs: seq<nat>)
    requires setup.n > 0 && Good(setup, l)
    ensures var r := OnBlameQC(setup, l, round, [], hs);
            && r.ctx.round == l.ctx.round + 1 && round in r.qcs && r.qcs[round] == []
            && !Complete(setup, Certificate(round, []))
  {
    hide Good, OnBlameQC;
    AdoptedCompleteIff(setup, l, round, [], hs);
  }

  // ----- Intersection -----

  function Range(low: nat, high: nat): (r: set<Id>)
    ensures forall i :: i in r <==> low <= i < high
    decreases high
  {
    if low >= high then {} else Range(low, high - 1) + {high - 1}
  }

  lemma {:induction false} RangeCount(low: nat, high: nat)
    requires low <= high
    ensures |Range(low, high)| == high - low
    decreases high
  {
    if low < high {
      RangeCount(low, high - 1);
    }
  }

  function Committee(n: nat): set<Id> {
    Range(0, n)
  }

  predicate IsQuorum(n: nat, f: nat, q: set<Id>) {
    q <= Committee(n) && |q| == QuorumLen(n, f)
  }

  lemma Overlap(n: nat, f: nat, p: set<Id>, q: set<Id>)
    requires IsQuorum(n, f, p) && IsQuorum(n, f, q)
    ensures |p * q| >= 2 * QuorumLen(n, f) - n
  {
    RangeCount(0, n);
    assert |p + q| + |p * q| == |p| + |q|;
    SubsetSize(p + q, Committee(n));
  }

  lemma SubsetSize(x: set<Id>, y: set<Id>)
    requires x <= y
    ensures |x| <= |y|
  {
    assert y == x + (y - x);
  }

  /** Two quorums always share a member outside any f faulty ones. */
  ghost predicate AlwaysShareHonest(n: nat, f: nat) {
    forall p: set<Id>, q: set<Id>, faulty: set<Id> ::
      IsQuorum(n, f, p) && IsQuorum(n, f, q) && |faulty| <= f ==> exists h :: h in p * q && h !in faulty
  }

  lemma SharedBeyond(p: set<Id>, q: set<Id>, faulty: set<Id>)
    requires |p * q| > |faulty|
    ensures exists h :: h in p * q && h !in faulty
  {
    if p * q <= faulty {
      SubsetSize(p * q, faulty);
      assert false;
    }
  }

  lemma QuorumDouble(n: nat, f: nat)
    ensures 2 * QuorumLen(n, f) == n + f + (n + f) % 2
  {
  }

  lemma OddShares(n: nat, f: nat, p: set<Id>, q: set<Id>, faulty: set<Id>)
    requires (n + f) % 2 == 1 && IsQuorum(n, f, p) && IsQuorum(n, f, q) && |faulty| <= f
    ensures exists h :: h in p * q && h !in faulty
  {
    hide IsQuorum, QuorumLen;
    QuorumDouble(n, f);
    Overlap(n, f, p, q);
    SharedBeyond(p, q, faulty);
  }

  /** Two quorums from opposite ends of the committee meet in exactly f members. */
  lemma EvenSplits(n: nat, f: nat) returns (p: set<Id>, q: set<Id>, faulty: set<Id>)
    requires (n + f) % 2 == 0 && f <= n
    ensures IsQuorum(n, f, p) && IsQuorum(n, f, q) && |faulty| == f && p * q == faulty
  {
    hide QuorumLen, Range;
    QuorumDouble(n, f);
    var len := QuorumLen(n, f);
    p, q, faulty := Range(0, len), Range(n - len, n), Range(n - len, len);
    RangeCount(0, len);
    RangeCount(n - len, n);
    RangeCount(n - len, len);
  }

  /** Any two blame quorums share an honest member if and only if n + f is odd. */
  lemma ShareHonestIff(n: nat, f: nat)
    requires f <= n
    ensures AlwaysShareHonest(n, f) <==> (n + f) % 2 == 1
  {
    hide IsQuorum, QuorumLen, Range;
    if (n + f) % 2 == 1 {
      forall p, q, faulty: set<Id> | IsQuorum(n, f, p) && IsQuorum(n, f, q) && |faulty| <= f
        ensures exists h :: h in p * q && h !in faulty
      {
        OddShares(n, f, p, q, faulty);
      }
    } else {
      var p, q, faulty := EvenSplits(n, f);
      assert forall h :: h in p * q ==> h in faulty;
    }
  }

  /** With n = 3f + 1 a quorum is 2f + 1, and two of them share an honest member. */
  lemma ThirdFaulty(f: nat)
    ensures QuorumLen(3 * f + 1, f) == 2 * f + 1
    ensures AlwaysShareHonest(3 * f + 1, f)
  {
    ShareHonestIff(3 * f + 1, f);
  }

  // ----- The object -----

  class LetoBlames {
    const setup: Setup
    const ctx: RoundContext
    var highestRound: nat
    var qcMap: map<nat, seq<Auth>>
    var sent: seq<Msg>
    ghost var formed: seq<Certificate>

    ghost predicate Valid()
      reads this
    {
      ctx.depth == setup.depth
    }

    ghost function Model(): Leto
      reads this, ctx
    {
      Leto(ctx.Model(), highestRound, qcMap, sent, formed)
    }

    constructor (setup: Setup)
      ensures Valid() && Model() == START && this.setup == setup && fresh(ctx)
    {
      this.setup := setup;
      ctx := new RoundContext(setup.depth);
      highestRound, qcMap, sent, formed := 0, map[], [], [];
    }

    method OnBlame(round: nat, auth: Auth, hs: seq<nat>)
      requires Valid()
      modifies this, ctx
      ensures Valid() && Model() == HandleBlame(setup, old(Model()), round, auth, hs)
    {
      hide Advance;
      if highestRound == round {
        return;
      }
      var qcLen := QuorumLen(setup.n, setup.f);
      if ctx.gotQC {
        return;
      }
      if auth.signer !in setup.known || !Verifies(auth.signer, round, auth.raw) {
        return;
      }
      ctx.blameMap := ctx.blameMap[auth.signer := auth];
      if |ctx.blameMap| != qcLen {
        return;
      }
      ctx.gotQC := true;
      var qc := Values(ctx.blameMap);
      ctx.blameMap := map[];
      formed := formed + [Certificate(round, qc)];
      AdoptQC(round, qc, hs);
    }

    method OnQC(round: nat, qc: seq<Auth>, hs: seq<nat>)
      requires Valid()
      modifies this, ctx
      ensures Valid() && Model() == OnBlameQC(setup, old(Model()), round, qc, hs)
    {
      if ctx.gotQC {
        return;
      }
      for i := 0 to |qc|
        invariant forall j | 0 <= j < i :: SignedBlame(setup, round, qc[j])
        invariant Model() == old(Model()) && Valid()
      {
        if qc[i].signer !in setup.known || !Verifies(qc[i].signer, round, qc[i].raw) {
          assert qc[i] in qc;
          return;
        }
      }
      AdoptQC(round, qc, hs);
    }

    /** The end of a proposal of one's own, once it was broadcast. */
    method OnOwnProposal(accept: bool, hs: seq<nat>)
      requires Valid()
      modifies this, ctx
      ensures Valid() && Model() == ProposeOwn(setup, old(Model()), accept, hs)
    {
      hide Advance;
      ctx.Track(hs);
      if accept {
        highestRound := ctx.currentRound;
        ctx.AdvanceRound();
      }
    }

    method AdoptQC(round: nat, qc: seq<Auth>, hs: seq<nat>)
      requires Valid()
      modifies this, ctx
      ensures Valid() && Model() == HandleBlameQC(setup, old(Model()), round, qc, hs)
    {
      hide Advance;
      ctx.gotQC := true;
      sent := sent + [BlameQC(round, qc)];
      ctx.Track(hs);
      qcMap := qcMap[round := qc];
      ctx.AdvanceRound();
    }
  }
}
