/** What one step of the blame quorum does with the message it is handed. */
module QuorumSteps {
  import opened Base
  import RB = RoundBuffer
  import opened BlameQuorum

  /** The message handed out next. */
  function NextMsg(l: Leto): RB.Msg
    requires RB.IsReady(l.ctx)
  {
    l.ctx.buf[l.ctx.round][0]
  }

  function Taken(l: Leto): Leto
    requires RB.IsReady(l.ctx)
  {
    l.(ctx := l.ctx.(buf := l.ctx.buf[l.ctx.round := l.ctx.buf[l.ctx.round][1..]]))
  }

  /** The next round is entered with what waited for it, and nothing of the old one
      is at hand. */
  predicate Entered(l: Leto, r: Leto) {
    var next := l.ctx.round + 1;
    && r.ctx.round == next && r.ctx.blameMap == map[] && !r.ctx.gotQC
    && Lookup(r.ctx.buf, next, [])
       == Lookup(l.ctx.proposals, next, []) + Lookup(l.ctx.blameQCs, next, []) + Lookup(l.ctx.blames, next, [])
    && r.ctx.proposals == l.ctx.proposals - {next} && r.ctx.blameQCs == l.ctx.blameQCs - {next}
    && r.ctx.blames == l.ctx.blames - {next}
  }

  lemma AdvanceEnters(l: Leto, ctx: RB.Context, depth: nat, r: Leto)
    requires RB.Sorted(l.ctx) && r.ctx == RB.Advance(ctx, depth)
    requires ctx.round == l.ctx.round && ctx.buf.Keys <= l.ctx.buf.Keys
    requires ctx.proposals == l.ctx.proposals && ctx.blameQCs == l.ctx.blameQCs && ctx.blames == l.ctx.blames
    ensures Entered(l, r)
  {
    hide RB.PushAll, RB.Later, RB.OfRound;
    var next := l.ctx.round + 1;
    assert RB.RetainFrom(ctx.buf, next) == map[];
    RB.PushAllIs(map[], next, RB.Waiting(ctx, next));
    assert [] + RB.Waiting(ctx, next) == RB.Waiting(ctx, next);
  }

  predicate GoodBlame(setup: Setup, l: Leto, auth: RB.Auth) {
    auth.signer in setup.known && auth.raw == SignedBy(auth.signer, l.ctx.round)
  }

  // ----- The round accepted last is over -----

  lemma StepHighest(setup: Setup, l: Leto, e: Event)
    requires Good(setup, l) && l.highest < l.ctx.round
    ensures Step(setup, l, e).highest < Step(setup, l, e).ctx.round
  {
    hide RB.Advance, RB.AddHandlers, RB.Sync, RB.Poll, Values, RB.Sorted, FormedGood, SignedBlame;
    match e
    case Received(m) => RB.SyncRound(l.ctx, m);
    case OwnProposal(accept, hs) =>
      HandlersKeepRound(l.ctx, hs);
      AdvanceFields(RB.AddHandlers(l.ctx, hs), setup.depth);
    case Handed(accept, hs) =>
      if RB.IsReady(l.ctx) {
        RB.PollHeld(l.ctx, RB.Poll(l.ctx).1);
        HandedHighest(setup, l.(ctx := RB.Poll(l.ctx).0), RB.Poll(l.ctx).1, accept, hs);
      }
  }

  lemma HandedHighest(setup: Setup, l: Leto, m: RB.Msg, accept: bool, hs: seq<nat>)
    requires m.round == l.ctx.round && l.highest < l.ctx.round
    ensures m.Blame? ==> HandleBlame(setup, l, m.round, m.auth, hs).highest
                         < HandleBlame(setup, l, m.round, m.auth, hs).ctx.round
    ensures m.BlameQC? ==> OnBlameQC(setup, l, m.round, m.qc, hs).highest
                           < OnBlameQC(setup, l, m.round, m.qc, hs).ctx.round
    ensures Accepted(setup, l, m.round).highest < Accepted(setup, l, m.round).ctx.round
  {
    hide RB.Advance, RB.AddHandlers, Values, SignedBlame;
    var c1 := l.ctx.(gotQC := true);
    var c2 := l.ctx.(gotQC := true, blameMap := map[]);
    HandlersKeepRound(c1, hs);
    HandlersKeepRound(c2, hs);
    AdvanceFields(RB.AddHandlers(c1, hs), setup.depth);
    AdvanceFields(RB.AddHandlers(c2, hs), setup.depth);
    AdvanceFields(l.ctx, setup.depth);
  }

  /** Over any run the round of the last accepted proposal is behind, so that no
      blame is ever ignored for its sake. */
  lemma {:induction false} HighestBehind(setup: Setup, es: seq<Event>)
    requires setup.n > 0
    ensures Run(setup, es).highest < Run(setup, es).ctx.round
  {
    hide Good, Step;
    if es != [] {
      HighestBehind(setup, es[..|es| - 1]);
      RunGood(setup, es[..|es| - 1]);
      StepHighest(setup, Run(setup, es[..|es| - 1]), es[|es| - 1]);
    }
  }

  // ----- One handed-out message -----

  /** A blame whose signature is good joins the others; with the one that completes
      a quorum the certificate of all of them is formed, sent and stored, and the
      next round is entered. Any other blame is dropped. */
  lemma BlameTurn(setup: Setup, l: Leto, accept: bool, hs: seq<nat>)
    requires setup.n > 0 && Good(setup, l) && l.highest < l.ctx.round
    requires RB.IsReady(l.ctx) && NextMsg(l).Blame?
    ensures var r := Step(setup, l, Handed(accept, hs)); var auth := NextMsg(l).auth;
            var blamers := l.ctx.blameMap.Keys + {auth.signer};
            if !GoodBlame(setup, l, auth) then r == Taken(l)
            else if |blamers| < (setup.n + setup.f + 1) / 2 then
              r == Taken(l).(ctx := Taken(l).ctx.(blameMap := l.ctx.blameMap[auth.signer := auth]))
            else
              && Entered(l, r) && |r.formed| == |l.formed| + 1
              && var qc := r.formed[|l.formed|];
                 && r.formed == l.formed + [qc] && qc.round == l.ctx.round
                 && Signers(qc.auths) == blamers
                 && r.sent == l.sent + [RB.BlameQC(qc.round, qc.auths)] && r.qcs == l.qcs[qc.round := qc.auths]
  {
    hide RB.Sorted, RB.Advance, FormedGood, Complete, Signers, Values, RB.AddHandlers;
    var l1, auth := Taken(l), NextMsg(l).auth;
    PolledGood(setup, l);
    RB.PollHeld(l.ctx, NextMsg(l));
    if GoodBlame(setup, l, auth) {
      FormsIff(setup, l1, auth, hs);
      InsertSize(l.ctx.blameMap, auth.signer, auth);
      assert |l.ctx.blameMap[auth.signer := auth].Keys| == |l.ctx.blameMap[auth.signer := auth]|;
      var ctx := l1.ctx.(gotQC := true, blameMap := map[]);
      HandlersOnly(ctx.(gotQC := true), hs);
      var r := Step(setup, l, Handed(accept, hs));
      if |r.formed| > |l.formed| {
        AdvanceEnters(l, RB.AddHandlers(ctx.(gotQC := true), hs), setup.depth, r);
      }
    }
  }

  lemma HandlersOnly(c: RB.Context, hs: seq<nat>)
    ensures var d := RB.AddHandlers(c, hs);
            && d.round == c.round && d.buf == c.buf && d.proposals == c.proposals && d.blameQCs == c.blameQCs
            && d.blames == c.blames
  {
  }

  /** A certificate whose signatures are all good is passed on and stored and ends
      the round; any other is dropped. */
  lemma CertificateTurn(setup: Setup, l: Leto, accept: bool, hs: seq<nat>)
    requires setup.n > 0 && Good(setup, l)
    requires RB.IsReady(l.ctx) && NextMsg(l).BlameQC?
    ensures var r := Step(setup, l, Handed(accept, hs)); var qc := NextMsg(l).qc;
            if exists a <- qc :: !GoodBlame(setup, l, a) then r == Taken(l)
            else Entered(l, r) && r.formed == l.formed && r.highest == l.highest
                 && r.sent == l.sent + [RB.BlameQC(l.ctx.round, qc)] && r.qcs == l.qcs[l.ctx.round := qc]
  {
    hide RB.Sorted, RB.Advance, FormedGood, RB.AddHandlers;
    var l1 := Taken(l);
    RB.PollHeld(l.ctx, NextMsg(l));
    HandlersOnly(l1.ctx.(gotQC := true), hs);
    if forall a <- NextMsg(l).qc :: GoodBlame(setup, l, a) {
      AdvanceEnters(l, RB.AddHandlers(l1.ctx.(gotQC := true), hs), setup.depth, Step(setup, l, Handed(accept, hs)));
    }
  }

  /** An accepted proposal is the highest and ends the round; a refused one is dropped. */
  lemma ProposalTurn(setup: Setup, l: Leto, accept: bool, hs: seq<nat>)
    requires setup.n > 0 && Good(setup, l)
    requires RB.IsReady(l.ctx) && NextMsg(l).Propose?
    ensures var r := Step(setup, l, Handed(accept, hs));
            if !accept then r == Taken(l)
            else Entered(l, r) && r.highest == l.ctx.round
                 && r == l.(highest := r.highest, ctx := r.ctx)
  {
    hide RB.Sorted, RB.Advance, FormedGood;
    RB.PollHeld(l.ctx, NextMsg(l));
    if accept {
      AdvanceEnters(l, Taken(l).ctx, setup.depth, Step(setup, l, Handed(accept, hs)));
    }
  }

  /** The same for a proposal of one's own, which also files the send handlers. */
  lemma OwnProposalTurn(setup: Setup, l: Leto, accept: bool, hs: seq<nat>)
    requires RB.Sorted(l.ctx)
    ensures var r := Step(setup, l, OwnProposal(accept, hs));
            && r == l.(highest := r.highest, ctx := r.ctx)
            && (accept ==> Entered(l, r) && r.highest == l.ctx.round)
            && (!accept ==>
                  && r.highest == l.highest
                  && r.ctx == l.ctx.(handlers := l.ctx.handlers[l.ctx.round := Lookup(l.ctx.handlers, l.ctx.round, []) + hs]))
  {
    hide RB.Advance, RB.Sorted;
    HandlersOnly(l.ctx, hs);
    if accept {
      AdvanceEnters(l, RB.AddHandlers(l.ctx, hs), setup.depth, Step(setup, l, OwnProposal(accept, hs)));
    }
  }
}
