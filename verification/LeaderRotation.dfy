/** Leto's leader rotation: a leader that has just led waits in a history of
    (n + f + 1) / 2 places before it may be drawn again. */
module LeaderRotation {
  import opened Base

  /** The value of a `LeaderContext` object; `history[0]` is its front. */
  datatype Rotation = Rotation(
    round: nat, eligible: set<Id>, history: seq<Id>, current: Id, next: Id)

  function Members(s: seq<Id>): set<Id> {
    set x | x in s
  }

  /** Who may be drawn when the round advances. */
  function Freed(r: Rotation): set<Id>
    requires r.history != []
  {
    r.eligible + {r.history[|r.history| - 1]} - {r.next}
  }

  /** The round advances and `pick` is drawn as the leader after it. */
  function Advance(r: Rotation, pick: Id): Rotation
    requires r.history != []
  {
    Rotation(r.round + 1, Freed(r), [r.next] + r.history[..|r.history| - 1], r.next, pick)
  }

  /** Before the first advance: the last `limit` ids are the history. */
  function Start(ids: seq<Id>, limit: nat): Rotation
    requires limit <= |ids|
  {
    Rotation(0, Members(ids[..|ids| - limit]), ids[|ids| - limit..], START_ID, START_ID)
  }

  predicate Panics(ids: seq<Id>, limit: nat) {
    limit > |ids| || limit == 0 || Freed(Start(ids, limit)) == {}
  }

  // ----- The invariant -----

  predicate NoDuplicates(s: seq<Id>) {
    forall i, j | 0 <= i < j < |s| :: s[i] != s[j]
  }

  /** The ids of `history` are distinct and are those of `committee` that are
      not eligible. */
  predicate Partition(history: seq<Id>, eligible: set<Id>, committee: set<Id>) {
    && NoDuplicates(history)
    && Members(history) !! eligible && Members(history) + eligible == committee
  }

  /** History and eligible ids partition the committee, the current leader is
      the history's front, and the next one is eligible. */
  predicate Fair(r: Rotation, committee: set<Id>, limit: nat) {
    && |r.history| == limit && limit > 0
    && Partition(r.history, r.eligible, committee)
    && r.current == r.history[0] && r.next in r.eligible
  }

  lemma DropLast(s: seq<Id>)
    requires s != []
    ensures var rest, last := s[..|s| - 1], s[|s| - 1];
            && Members(s) == Members(rest) + {last}
            && (NoDuplicates(s) ==> NoDuplicates(rest) && last !in Members(rest))
  {
    assert s == s[..|s| - 1] + [s[|s| - 1]];
  }

  lemma Prepend(x: Id, s: seq<Id>)
    ensures Members([x] + s) == {x} + Members(s)
    ensures NoDuplicates([x] + s) <==> x !in Members(s) && NoDuplicates(s)
  {
    var t := [x] + s;
    assert t[1..] == s;
    if NoDuplicates(t) {
      forall i, j | 0 <= i < j < |s| ensures s[i] != s[j] {
        assert t[1..][i] != t[1..][j];
      }
      forall i | 0 <= i < |s| ensures s[i] != x {
        assert t[1..][i] != t[0];
      }
    }
  }

  lemma {:induction false} MembersSize(s: seq<Id>)
    requires NoDuplicates(s)
    ensures |Members(s)| == |s|
  {
    if s != [] {
      DropLast(s);
      MembersSize(s[..|s| - 1]);
    }
  }

  lemma PartitionSize(history: seq<Id>, eligible: set<Id>, committee: set<Id>)
    requires Partition(history, eligible, committee)
    ensures |eligible| == |committee| - |history|
  {
    MembersSize(history);
  }

  lemma MoveKeepsPartition(history: seq<Id>, eligible: set<Id>, committee: set<Id>, next: Id)
    requires Partition(history, eligible, committee) && history != [] && next in eligible
    ensures var last, kept := history[|history| - 1], history[..|history| - 1];
            Partition([next] + kept, eligible + {last} - {next}, committee)
  {
    hide Members, NoDuplicates;
    DropLast(history);
    Prepend(next, history[..|history| - 1]);
  }

  /** Whatever is drawn, an advance keeps the partition, and it leaves committee
      minus history many to draw from, which is never none. */
  lemma AdvanceKeepsFair(r: Rotation, committee: set<Id>, limit: nat, pick: Id)
    requires Fair(r, committee, limit) && pick in Freed(r)
    ensures Fair(Advance(r, pick), committee, limit)
    ensures |Advance(r, pick).eligible| == |committee| - limit > 0
  {
    hide Partition;
    MoveKeepsPartition(r.history, r.eligible, committee, r.next);
    PartitionSize(Advance(r, pick).history, Advance(r, pick).eligible, committee);
  }

  /** Something can always be drawn: the id leaving the history. */
  lemma FreedNonempty(r: Rotation, committee: set<Id>, limit: nat)
    requires Fair(r, committee, limit)
    ensures r.history[limit - 1] in Freed(r)
  {
    assert r.history[limit - 1] in Members(r.history);
  }

  // ----- Construction -----

  /** The rotation starts out fair, whatever is drawn, if and only if the start
      id is initially eligible or is the last of the ids. */
  lemma NewFairIff(ids: seq<Id>, limit: nat, pick: Id)
    requires NoDuplicates(ids) && !Panics(ids, limit) && pick in Freed(Start(ids, limit))
    ensures Fair(Advance(Start(ids, limit), pick), Members(ids), limit)
       <==> START_ID in ids[..|ids| - limit] || START_ID == ids[|ids| - 1]
  {
    hide NoDuplicates, Members;
    var n := |ids|;
    var front, mid, last := ids[..n - limit], ids[n - limit..n - 1], ids[n - 1];
    var s := Start(ids, limit);
    assert s.history[limit - 1] == last && s.history[..limit - 1] == mid;
    ThreeParts(ids, n - limit);
    Prepend(START_ID, mid);
    assert START_ID in front <==> START_ID in Members(front) by { MembersIff(front); }
  }

  lemma MembersIff(s: seq<Id>)
    ensures forall x :: x in s <==> x in Members(s)
  {
  }

  lemma ThreeParts(ids: seq<Id>, cut: nat)
    requires NoDuplicates(ids) && cut < |ids|
    ensures var n := |ids|; var front, mid, last := ids[..cut], ids[cut..n - 1], ids[n - 1];
            && Members(ids) == Members(front) + Members(mid) + {last}
            && Members(front) !! Members(mid) && NoDuplicates(mid)
            && last !in Members(front) + Members(mid)
  {
    var n := |ids|;
    DropLast(ids);
    assert ids[..n - 1] == ids[..cut] + ids[cut..n - 1];
  }

  /** With f = (n - 1) / 3 faults and at least two nodes the constructor never panics. */
  lemma QuorumLeavesEligible(ids: seq<Id>)
    requires NoDuplicates(ids) && |ids| >= 2
    ensures var limit := QuorumLen(|ids|, (|ids| - 1) / 3);
            0 < limit < |ids| && !Panics(ids, limit)
  {
    var n := |ids|;
    var limit := QuorumLen(n, (n - 1) / 3);
    assert 0 < limit < n;
    var s := Start(ids, limit);
    assert ids[0] in ids[..n - limit] && ids[0] in s.eligible;
    assert s.history[limit - 1] == ids[n - 1] && ids[0] != ids[n - 1];
    assert ids[0] in Freed(s) || ids[n - 1] in Freed(s);
  }

  // ----- Runs -----

  predicate Steps(r: Rotation, r': Rotation) {
    r.history != [] && r'.next in Freed(r) && r' == Advance(r, r'.next)
  }

  predicate IsRun(rs: seq<Rotation>) {
    forall i, j | 0 <= i < |rs| && j == i + 1 < |rs| :: Steps(rs[i], rs[j])
  }

  lemma {:induction false} RunFair(rs: seq<Rotation>, committee: set<Id>, limit: nat, i: nat)
    requires IsRun(rs) && i < |rs| && Fair(rs[0], committee, limit)
    ensures Fair(rs[i], committee, limit) && rs[i].round == rs[0].round + i
    ensures |rs[i].eligible| == |committee| - limit > 0
  {
    hide Partition;
    if i > 0 {
      RunFair(rs, committee, limit, i - 1);
      assert Steps(rs[i - 1], rs[i]);
      AdvanceKeepsFair(rs[i - 1], committee, limit, rs[i].next);
    } else {
      PartitionSize(rs[0].history, rs[0].eligible, committee);
    }
  }

  /** The history at step `j` lists the latest leaders, newest first. */
  lemma {:induction false} HistoryIsLeaders(
      rs: seq<Rotation>, committee: set<Id>, limit: nat, i: nat, j: nat)
    requires IsRun(rs) && i <= j < |rs| && j < i + limit && Fair(rs[0], committee, limit)
    ensures |rs[j].history| == limit && rs[j].history[j - i] == rs[i].current
    decreases j
  {
    hide Partition;
    RunFair(rs, committee, limit, j);
    if i < j {
      assert Steps(rs[j - 1], rs[j]);
      HistoryIsLeaders(rs, committee, limit, i, j - 1);
    }
  }

  /** Over any run and any draws, any `limit` + 1 consecutive leaders are distinct. */
  lemma LeadersDistinct(rs: seq<Rotation>, committee: set<Id>, limit: nat, i: nat, j: nat)
    requires IsRun(rs) && i < j < |rs| && j <= i + limit && Fair(rs[0], committee, limit)
    ensures rs[i].current != rs[j].current
  {
    hide NoDuplicates;
    HistoryIsLeaders(rs, committee, limit, i, j - 1);
    RunFair(rs, committee, limit, j - 1);
    assert Steps(rs[j - 1], rs[j]);
    assert rs[i].current in Members(rs[j - 1].history);
  }

  // ----- Starts from which a leader can repeat -----

  /** In no run from `r` does a leader lead again within `limit` rounds. */
  ghost predicate AlwaysDistinct(r: Rotation, limit: nat) {
    forall rs: seq<Rotation>, i: nat, j: nat ::
      IsRun(rs) && i < j < |rs| && rs[0] == r && j <= i + limit ==> rs[i].current != rs[j].current
  }

  lemma RunSnoc(rs: seq<Rotation>, r: Rotation)
    requires rs != [] && IsRun(rs) && Steps(rs[|rs| - 1], r)
    ensures IsRun(rs + [r])
  {
    hide Steps;
    var more := rs + [r];
    forall i, j | 0 <= i < |more| && j == i + 1 < |more| ensures Steps(more[i], more[j]) {
      if j < |rs| {
        assert Steps(rs[i], rs[j]);
      }
    }
  }

  /** An id that is eligible at the start, is not drawn first, and is in no history. */
  lemma BystanderExists(ids: seq<Id>, limit: nat, pick: Id) returns (z: Id)
    requires NoDuplicates(ids) && 0 < limit < |ids| && START_ID in ids[|ids| - limit..|ids| - 1]
    ensures z in Freed(Start(ids, limit)) && z != pick && z != START_ID && z !in ids[|ids| - limit..|ids| - 1]
  {
    var n := |ids|;
    var s := Start(ids, limit);
    z := if pick == ids[n - 1] then ids[0] else ids[n - 1];
    assert ids[..n - limit][0] == ids[0] && ids[0] in s.eligible && s.history[limit - 1] == ids[n - 1];
  }

  /** After `k` draws of whoever leaves the history `h0`. */
  predicate Driven(r: Rotation, h0: seq<Id>, pick: Id, z: Id, k: nat)
    requires k <= |h0|
  {
    && |r.history| == |h0| && (forall q | k <= q < |h0| :: r.history[q] == h0[q - k])
    && z in r.eligible && z != r.next
    && r.next == if k == 0 then pick else h0[|h0| - k]
  }

  lemma DriveStep(r: Rotation, h0: seq<Id>, pick: Id, z: Id, k: nat)
    requires k + 1 < |h0| && Driven(r, h0, pick, z, k)
    requires NoDuplicates(h0[1..]) && pick !in h0[1..] && z !in h0[1..]
    ensures var r' := Advance(r, r.history[|h0| - 1]);
            Steps(r, r') && Driven(r', h0, pick, z, k + 1)
  {
    hide NoDuplicates, Steps;
    var last := r.history[|h0| - 1];
    var rest := h0[1..];
    assert last == h0[|h0| - 1 - k] == rest[|h0| - 2 - k];
    assert last != r.next by {
      if k > 0 {
        assert h0[|h0| - k] == rest[|h0| - 1 - k];
        TwoOf(rest, |h0| - 2 - k, |h0| - 1 - k);
      }
    }
    DrawStep(r, last);
  }

  lemma DrawStep(r: Rotation, pick: Id)
    requires r.history != [] && pick in Freed(r)
    ensures Steps(r, Advance(r, pick))
  {
  }

  lemma TwoOf(s: seq<Id>, i: nat, j: nat)
    requires NoDuplicates(s) && i < j < |s|
    ensures s[i] != s[j]
  {
  }

  /** If the start id is also in the history, drawing whoever leaves the history
      brings it back too soon. */
  lemma RepeatingRun(ids: seq<Id>, limit: nat, pick: Id) returns (rs: seq<Rotation>)
    requires NoDuplicates(ids) && 0 < limit < |ids| && pick in Freed(Start(ids, limit))
    requires START_ID in ids[|ids| - limit..|ids| - 1]
    ensures 1 < |rs| <= limit + 1 && IsRun(rs) && rs[0] == Advance(Start(ids, limit), pick)
    ensures rs[0].current == rs[|rs| - 1].current
  {
    hide NoDuplicates, Members, Freed, IsRun, Steps, Driven;
    var mid := ids[|ids| - limit..|ids| - 1];
    var z := BystanderExists(ids, limit, pick);
    assert NoDuplicates(mid) by { ThreeParts(ids, |ids| - limit); }
    var r := Advance(Start(ids, limit), pick);
    var h0 := r.history;
    StartDriven(ids, limit, pick, z);
    var m :| 0 <= m < |mid| && mid[m] == START_ID;
    NotDrawnFromMid(ids, limit, pick);
    rs := Drive(r, h0, pick, z, limit - 1 - m);
    var l := rs[|rs| - 1];
    DrivenNext(l, h0, pick, z, limit - 1 - m);
    DrawStep(l, z);
    RunSnoc(rs, Advance(l, z));
    rs := rs + [Advance(l, z)];
  }

  lemma StartDriven(ids: seq<Id>, limit: nat, pick: Id, z: Id)
    requires 0 < limit < |ids| && z in Freed(Start(ids, limit)) && z != pick
    ensures var r := Advance(Start(ids, limit), pick); var mid := ids[|ids| - limit..|ids| - 1];
            && |r.history| == limit && r.history == [START_ID] + mid && r.history[1..] == mid
            && r.current == START_ID && Driven(r, r.history, pick, z, 0)
  {
    assert Start(ids, limit).history[..limit - 1] == ids[|ids| - limit..|ids| - 1];
  }

  lemma DrivenNext(r: Rotation, h0: seq<Id>, pick: Id, z: Id, k: nat)
    requires 0 < k <= |h0| && Driven(r, h0, pick, z, k)
    ensures r.history != [] && z in Freed(r) && r.next == h0[|h0| - k]
  {
  }

  lemma Drive(r: Rotation, h0: seq<Id>, pick: Id, z: Id, n: nat) returns (rs: seq<Rotation>)
    requires n < |h0| && Driven(r, h0, pick, z, 0)
    requires NoDuplicates(h0[1..]) && pick !in h0[1..] && z !in h0[1..]
    ensures |rs| == n + 1 && rs[0] == r && IsRun(rs) && Driven(rs[n], h0, pick, z, n)
  {
    hide Driven, NoDuplicates, Steps;
    rs := [r];
    for k := 0 to n
      invariant |rs| == k + 1 && rs[0] == r && IsRun(rs) && Driven(rs[k], h0, pick, z, k)
    {
      DriveStep(rs[k], h0, pick, z, k);
      assert rs[k].history != [] && |rs[k].history| == |h0| by { DrivenSize(rs[k], h0, pick, z, k); }
      var next := Advance(rs[k], rs[k].history[|h0| - 1]);
      RunSnoc(rs, next);
      rs := rs + [next];
    }
  }

  lemma DrivenSize(r: Rotation, h0: seq<Id>, pick: Id, z: Id, k: nat)
    requires k <= |h0| && Driven(r, h0, pick, z, k)
    ensures |r.history| == |h0|
  {
  }

  lemma NotDrawnFromMid(ids: seq<Id>, limit: nat, pick: Id)
    requires NoDuplicates(ids) && 0 < limit < |ids| && pick in Freed(Start(ids, limit))
    ensures pick !in ids[|ids| - limit..|ids| - 1]
  {
  }

  /** An unknown start id joins the committee. */
  lemma StrangerFair(ids: seq<Id>, limit: nat, pick: Id)
    requires NoDuplicates(ids) && 0 < limit < |ids| && pick in Freed(Start(ids, limit)) && START_ID !in ids
    ensures Fair(Advance(Start(ids, limit), pick), Members(ids) + {START_ID}, limit)
  {
    hide NoDuplicates, Members;
    var n := |ids|;
    var front, mid, last := ids[..n - limit], ids[n - limit..n - 1], ids[n - 1];
    var s := Start(ids, limit);
    assert s.history[limit - 1] == last && s.history[..limit - 1] == mid;
    ThreeParts(ids, n - limit);
    Prepend(START_ID, mid);
    MembersIff(ids);
  }

  /** From a new rotation every run keeps any `limit` + 1 consecutive leaders
      distinct if and only if the start id is not among the ids that begin in the
      history, the last of them aside. */
  lemma DistinctLeadersIff(ids: seq<Id>, limit: nat, pick: Id)
    requires NoDuplicates(ids) && 0 < limit < |ids| && pick in Freed(Start(ids, limit))
    ensures AlwaysDistinct(Advance(Start(ids, limit), pick), limit)
       <==> START_ID !in ids[|ids| - limit..|ids| - 1]
  {
    hide NoDuplicates, Members, Fair, IsRun, Freed;
    var n := |ids|;
    var r := Advance(Start(ids, limit), pick);
    if START_ID in ids[n - limit..n - 1] {
      var rs := RepeatingRun(ids, limit, pick);
      assert rs[0].current == rs[|rs| - 1].current;
    } else {
      var committee := StartCommittee(ids, limit, pick);
      forall rs: seq<Rotation>, i: nat, j: nat | IsRun(rs) && i < j < |rs| && rs[0] == r && j <= i + limit
        ensures rs[i].current != rs[j].current
      {
        LeadersDistinct(rs, committee, limit, i, j);
      }
    }
  }

  lemma StartCommittee(ids: seq<Id>, limit: nat, pick: Id) returns (committee: set<Id>)
    requires NoDuplicates(ids) && 0 < limit < |ids| && pick in Freed(Start(ids, limit))
    requires START_ID !in ids[|ids| - limit..|ids| - 1]
    ensures Fair(Advance(Start(ids, limit), pick), committee, limit)
  {
    hide NoDuplicates, Members, Fair;
    var n := |ids|;
    if START_ID in ids {
      committee := Members(ids);
      assert ids == ids[..n - limit] + ids[n - limit..n - 1] + [ids[n - 1]];
      NewFairIff(ids, limit, pick);
    } else {
      committee := Members(ids) + {START_ID};
      StrangerFair(ids, limit, pick);
    }
  }

  /** The bound is exact: who may lead next are all but the last `limit` leaders. */
  lemma EligibleExactly(rs: seq<Rotation>, committee: set<Id>, limit: nat, j: nat)
    requires IsRun(rs) && j < |rs| && j + 1 >= limit && Fair(rs[0], committee, limit)
    ensures rs[j].eligible == committee - set k | j + 1 - limit <= k <= j :: rs[k].current
  {
    RunFair(rs, committee, limit, j);
    RecentAreHistory(rs, committee, limit, j);
  }

  lemma RecentAreHistory(rs: seq<Rotation>, committee: set<Id>, limit: nat, j: nat)
    requires IsRun(rs) && j < |rs| && j + 1 >= limit && Fair(rs[0], committee, limit)
    ensures Members(rs[j].history) == set k | j + 1 - limit <= k <= j :: rs[k].current
  {
    hide IsRun, NoDuplicates, Fair;
    assert |rs[j].history| == limit by { RunFair(rs, committee, limit, j); FairSize(rs[j], committee, limit); }
    var recent := set k | j + 1 - limit <= k <= j :: rs[k].current;
    var h := rs[j].history;
    forall k: int | j + 1 - limit <= k <= j ensures h[j - k] == rs[k].current {
      HistoryIsLeaders(rs, committee, limit, k, j);
    }
    forall x | x in Members(h) ensures x in recent {
      var p :| 0 <= p < |h| && h[p] == x;
      assert h[j - (j - p)] == rs[j - p].current;
    }
  }

  lemma FairSize(r: Rotation, committee: set<Id>, limit: nat)
    requires Fair(r, committee, limit)
    ensures |r.history| == limit
  {
  }

  // ----- The object -----

  class LeaderContext {
    var round: nat
    var eligible: set<Id>
    var history: seq<Id>
    var current: Id
    var next: Id

    function Model(): Rotation
      reads this
    {
      Rotation(round, eligible, history, current, next)
    }

    constructor FromParts(eligible: set<Id>, history: seq<Id>)
      ensures Model() == Rotation(0, eligible, history, START_ID, START_ID)
    {
      this.eligible, this.history := eligible, history;
      round, current, next := 0, START_ID, START_ID;
    }

    /** `None` where the source's unwraps fail. */
    static method New(allIds: seq<Id>, f: nat) returns (r: Option<LeaderContext>)
      ensures r.None? <==> Panics(allIds, QuorumLen(|allIds|, f))
      ensures r.Some? ==>
                var s := Start(allIds, QuorumLen(|allIds|, f));
                var c := r.value.Model();
                fresh(r.value) && c.next in Freed(s) && c == Advance(s, c.next).(round := 0)
    {
      var limit := QuorumLen(|allIds|, f);
      var ids, history := allIds, [];
      for i := 0 to limit
        invariant i <= |allIds|
        invariant ids == allIds[..|allIds| - i] && history == allIds[|allIds| - i..]
      {
        if ids == [] {
          return None;
        }
        history := [ids[|ids| - 1]] + history;
        ids := ids[..|ids| - 1];
      }
      if history == [] {
        return None;
      }
      var ctx := new LeaderContext.FromParts(Members(ids), history);
      if ctx.eligible + {history[|history| - 1]} - {ctx.next} == {} {
        return None;
      }
      ctx.AdvanceRound();
      ctx.round := 0;
      return Some(ctx);
    }

    method AdvanceRound()
      requires history != [] && Freed(Model()) != {}
      modifies this
      ensures next in Freed(old(Model())) && Model() == Advance(old(Model()), next)
    {
      round := round + 1;
      current := next;
      var newEligible := history[|history| - 1];
      history := history[..|history| - 1];
      eligible := eligible + {newEligible};
      eligible := eligible - {current};
      history := [current] + history;
      assert eligible == Freed(old(Model()));
      var pick :| pick in eligible;
      next := pick;
    }
  }
}
