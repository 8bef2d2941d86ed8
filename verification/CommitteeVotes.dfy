/**
 Whose majority decides a committee step. All ballots of the step are counted against the present number of
 members, so the outcome has the present members behind it exactly as long as not too many voters have left.
*/
module CommitteeVotes {
  import opened Wrappers
  import opened ApprovalChain
  import opened Applications
  import opened ApplicationProgress

  /** The members a vote is measured against. */
  function Electorate(s: State, c: Call): set<UserId>
    requires c.CastVote? && c.id in s.apps && CurrentStep(s.apps[c.id].rows).Some?
  {
    ActiveMembers(s.committees, CommitteeOf(CurrentStep(s.apps[c.id].rows).value), c.uni)
  }

  /** Who stands on one side once the vote is recorded, members or not. */
  function Side(s: State, c: Call, approves: bool): set<UserId>
    requires c.CastVote? && c.id in s.apps && CurrentStep(s.apps[c.id].rows).Some?
  {
    var current := CurrentStep(s.apps[c.id].rows).value;
    Voters(BeforeDeciding(s, c).ballots, c.id, current.step, CommitteeOf(current), approves)
  }

  lemma SidesAreDisjoint(b: Ballots, id: AppId, step: int, committee: string)
    ensures Voters(b, id, step, committee, true) !! Voters(b, id, step, committee, false)
  {
  }

  lemma SubsetIsNoLarger(a: set<UserId>, b: set<UserId>)
    requires a <= b
    ensures |a| <= |b|
  {
    assert b == a + (b - a);
  }

  /** A side above the threshold has a majority of the members unless it lost more voters than it has votes to spare. */
  lemma MajorityIffEnoughStayed(members: set<UserId>, side: set<UserId>)
    requires |side| >= MajorityThreshold(|members|)
    ensures 2 * |side * members| > |members| <==> |side - members| <= |side| - MajorityThreshold(|members|)
  {
    assert side == side * members + (side - members);
    assert |side| == |side * members| + |side - members|;
    MajorityDecides(|members|, |side * members|, 0);
  }

  /**
   A vote that settles a step is cast by a member on a committee step. It settles for the side that reached the
   threshold, approval first; a majority of the present members is on that side if and only if no more of
   its voters have left the committee than it has votes above the threshold.
  */
  lemma SettledByPresentMajorityIff(s: State, c: Call) returns (k: nat)
    requires Settles(s, c) && c.CastVote?
    ensures c.id in s.apps && CurrentStep(s.apps[c.id].rows).Some? && c.voter in Electorate(s, c)
    ensures IsCommitteeMajorityStep(CurrentStep(s.apps[c.id].rows).value)
    ensures c.id in Step(s, c).apps && k < |Step(s, c).apps[c.id].rows|
    ensures var members, verdict := Electorate(s, c), Step(s, c).apps[c.id].rows[k].status;
            var side := Side(s, c, verdict == Approved);
            && verdict in {Approved, Rejected} && |side| >= MajorityThreshold(|members|)
            && (verdict == Approved <==> 2 * |Side(s, c, true)| > |members|)
            && (2 * |side * members| > |members| <==> |side - members| <= |side| - MajorityThreshold(|members|))
  {
    var d;
    k, d := DecisionFinalizes(s, c);
    FinalizeEffects(BeforeDeciding(s, c), c.id, k, d, c.voter, c.clubId);
    var members := Electorate(s, c);
    MajorityDecides(|members|, |Side(s, c, true)|, |Side(s, c, false)|);
    MajorityIffEnoughStayed(members, Side(s, c, d == Approved));
  }

  /** While all voters are members, a step is settled exactly when a majority of the members agrees, for its side. */
  lemma MembersDecide(s: State, c: Call)
    requires c.CastVote? && VoteRule(s, c.uni, c.id, c.voter, c.approves, c.hasReason).None?
    requires Side(s, c, true) + Side(s, c, false) <= Electorate(s, c)
    ensures var current := CurrentStep(s.apps[c.id].rows).value;
            var verdict := Tally(BeforeDeciding(s, c), c.uni, c.id, current.step, CommitteeOf(current));
            && (verdict == Some(Approved) <==> 2 * |Side(s, c, true)| > |Electorate(s, c)|)
            && (verdict == Some(Rejected) <==> 2 * |Side(s, c, false)| > |Electorate(s, c)|)
  {
    var current := CurrentStep(s.apps[c.id].rows).value;
    SidesAreDisjoint(BeforeDeciding(s, c).ballots, c.id, current.step, CommitteeOf(current));
    var a, r := Side(s, c, true), Side(s, c, false);
    assert |a + r| == |a| + |r|;
    SubsetIsNoLarger(a + r, Electorate(s, c));
    MajorityDecides(|Electorate(s, c)|, |a|, |r|);
  }

  // ---------------------------------------------------------------- runs in which nobody leaves a committee

  /** Every ballot is one of a member of its committee. */
  ghost predicate VotersAreMembers(s: State) {
    forall b | b in s.ballots ::
      s.ballots[b].committee in s.committees && b.2 in s.committees[s.ballots[b].committee].members
  }

  predicate KeepsMembers(s: State, c: Call) {
    c.UpdateCommittee? && c.newMembers.Some? && c.committee in s.committees ==>
      s.committees[c.committee].members <= c.newMembers.value
  }

  predicate NobodyLeaves(s: State, calls: seq<Call>)
    decreases |calls|
  {
    calls == [] || (KeepsMembers(s, calls[0]) && NobodyLeaves(Step(s, calls[0]), calls[1..]))
  }

  lemma BallotKeepsVoters(s: State, id: AppId, step: int, committee: string, voter: UserId, approves: bool)
    requires VotersAreMembers(s) && committee in s.committees && voter in s.committees[committee].members
    ensures VotersAreMembers(WithBallot(s, id, step, committee, voter, approves))
  {
  }

  lemma VoteKeepsVoters(s: State, c: Call)
    requires VotersAreMembers(s) && c.CastVote? && VoteRule(s, c.uni, c.id, c.voter, c.approves, c.hasReason).None?
    ensures VotersAreMembers(BeforeDeciding(s, c))
  {
    var current := CurrentStep(s.apps[c.id].rows).value;
    BallotKeepsVoters(s, c.id, current.step, CommitteeOf(current), c.voter, c.approves);
  }

  predicate Grown(before: map<string, Committee>, after: map<string, Committee>) {
    forall x | x in before :: x in after && before[x].members <= after[x].members
  }

  lemma CommitteesGrow(s: State, c: Call)
    requires Callable(s, c) && KeepsMembers(s, c) && IsSetting(c)
    ensures Step(s, c).ballots == s.ballots && Grown(s.committees, Step(s, c).committees)
  {
    if c.UpdateCommittee? {
      assert Apply(s, c) == UpdateCommitteeOn(s, c.uni, c.committee, c.newActive, c.newMembers);
    } else if c.SetAppealPeriod? {
      assert Apply(s, c) == SetAppealPeriodOn(s, c.uni, c.days);
    }
  }

  lemma GrownKeepsVoters(s: State, t: State)
    requires VotersAreMembers(s) && Grown(s.committees, t.committees)
    requires forall b | b in t.ballots :: b in s.ballots && t.ballots[b] == s.ballots[b]
    ensures VotersAreMembers(t)
  {
  }

  lemma StepKeepsVoters(s: State, c: Call)
    requires VotersAreMembers(s) && Callable(s, c) && KeepsMembers(s, c)
    ensures VotersAreMembers(Step(s, c))
  {
    if Settles(s, c) {
      var k, d := DecisionFinalizes(s, c);
      FinalizeEffects(BeforeDeciding(s, c), c.id, k, d, ActorOf(c), c.clubId);
      if c.CastVote? {
        VoteKeepsVoters(s, c);
      }
    } else if IsDecision(c) && Step(s, c) != s {
      UnsettledIsRecorded(s, c);
      VoteKeepsVoters(s, c);
    } else if IsSetting(c) {
      CommitteesGrow(s, c);
      GrownKeepsVoters(s, Step(s, c));
    } else if !IsDecision(c) {
      SettingsAreKept(s, c);
      GrownKeepsVoters(s, Step(s, c));
    }
  }

  lemma {:induction false} RunKeepsVoters(s: State, calls: seq<Call>)
    requires VotersAreMembers(s) && Runs(s, calls) && NobodyLeaves(s, calls)
    ensures VotersAreMembers(After(s, calls))
    decreases |calls|
  {
    if calls != [] {
      StepKeepsVoters(s, calls[0]);
      RunKeepsVoters(Step(s, calls[0]), calls[1..]);
    }
  }

  /** In a run in which nobody leaves a committee, a majority of the present members is on the side a vote settles for. */
  lemma MajorityDecidesWhileNobodyLeaves(s0: State, calls: seq<Call>, c: Call) returns (k: nat)
    requires Initial(s0) && Runs(s0, calls) && NobodyLeaves(s0, calls)
    requires c.CastVote? && Settles(After(s0, calls), c)
    ensures var s := After(s0, calls);
            && c.id in s.apps && CurrentStep(s.apps[c.id].rows).Some?
            && c.id in Step(s, c).apps && k < |Step(s, c).apps[c.id].rows|
            && var side := Side(s, c, Step(s, c).apps[c.id].rows[k].status == Approved);
               side <= Electorate(s, c) && 2 * |side| > |Electorate(s, c)|
  {
    var s := After(s0, calls);
    RunKeepsVoters(s0, calls);
    k := SettledByPresentMajorityIff(s, c);
    var k', d := DecisionFinalizes(s, c);
    VoteKeepsVoters(s, c);
    var members, side := Electorate(s, c), Side(s, c, Step(s, c).apps[c.id].rows[k].status == Approved);
    assert side <= members;
    MajorityDecides(|members|, |side|, 0);
  }

  // ---------------------------------------------------------------- former members decide

  const PROPOSAL := Proposal("Chess", "chess", None)

  function CommitteeRow(status: Status): Row {
    Row(1, CommitteeMajority, None, Some("board"), status)
  }

  function Board(members: set<UserId>, ballots: Ballots): State {
    EMPTY.(apps := map[0 := Application(0, 9, PROPOSAL, Pending, [CommitteeRow(Pending)], None, None, NoAppeal)],
    committees := map["board" := Committee(0, true, members)], ballots := ballots)
  }

  lemma BoardStep(members: set<UserId>, ballots: Ballots)
    ensures var s := Board(members, ballots);
            && CurrentStep(s.apps[0].rows) == Some(CommitteeRow(Pending)) && IndexOfStep(s.apps[0].rows, 1) == 0
            && ActiveMembers(s.committees, "board", 0) == members
  {
    SortOfOrdered([CommitteeRow(Pending)]);
    FirstOpenAt([CommitteeRow(Pending)], 0);
  }

  const ONE: Ballots := map[(0, 1, 1) := Ballot("board", true)]
  const TWO: Ballots := map[(0, 1, 1) := Ballot("board", true), (0, 1, 2) := Ballot("board", true)]
  const THREE: Ballots := TWO[(0, 1, 3) := Ballot("board", false)]

  lemma Counts()
    ensures Voters(ONE, 0, 1, "board", true) == {1} && Voters(ONE, 0, 1, "board", false) == {}
    ensures Voters(TWO, 0, 1, "board", true) == {1, 2} && Voters(TWO, 0, 1, "board", false) == {}
    ensures Voters(THREE, 0, 1, "board", true) == {1, 2} && Voters(THREE, 0, 1, "board", false) == {3}
  {
    assert (0, 1, 1) in ONE && (0, 1, 1) in TWO && (0, 1, 2) in TWO;
    assert (0, 1, 1) in THREE && (0, 1, 2) in THREE && (0, 1, 3) in THREE;
    forall u: UserId
      ensures u in Voters(ONE, 0, 1, "board", true) <==> u == 1
      ensures u in Voters(TWO, 0, 1, "board", true) <==> u in {1, 2}
      ensures u in Voters(THREE, 0, 1, "board", true) <==> u in {1, 2}
      ensures u in Voters(THREE, 0, 1, "board", false) <==> u == 3
    {
    }
  }

  const BEFORE: set<UserId> := {1, 2, 3, 4, 5}
  const NOW: set<UserId> := {3, 4, 5}

  function Favour(voter: UserId): Call {
    CastVote(0, 0, voter, true, false, 0)
  }

  /** A vote in favour that does not reach the threshold is recorded. */
  lemma RecordedVote(before: Ballots, after: Ballots, voter: UserId)
    requires voter in BEFORE && (0, 1, voter) !in before && after == before[(0, 1, voter) := Ballot("board", true)]
    requires |Voters(after, 0, 1, "board", true)| <= 2 && |Voters(after, 0, 1, "board", false)| <= 2
    ensures Callable(Board(BEFORE, before), Favour(voter))
    ensures Step(Board(BEFORE, before), Favour(voter)) == Board(BEFORE, after)
  {
    var s := Board(BEFORE, before);
    BoardStep(BEFORE, before);
    assert |BEFORE| == 5;
    var t := WithBallot(s, 0, 1, "board", voter, true);
    assert t == Board(BEFORE, after);
    MajorityDecides(5, |Voters(after, 0, 1, "board", true)|, |Voters(after, 0, 1, "board", false)|);
    assert Tally(t, 0, 0, 1, "board").None?;
  }

  lemma LastVote()
    ensures var s, c := Board(NOW, TWO), CastVote(0, 0, 3, false, true, 0);
            Settles(s, c) && Side(s, c, true) == {1, 2} && Side(s, c, false) == {3} && Electorate(s, c) == NOW
            && 0 in Step(s, c).apps && Step(s, c).apps[0].status == Approved
  {
    var s, c := Board(NOW, TWO), CastVote(0, 0, 3, false, true, 0);
    BoardStep(NOW, TWO);
    Counts();
    assert WithBallot(s, 0, 1, "board", 3, false).ballots == THREE;
    MajorityDecides(3, 2, 1);
    var rows := [CommitteeRow(Pending)][0 := CommitteeRow(Approved)];
    assert DeriveStatus(rows) == Approved by {
      assert rows[0] in rows;
    }
    assert Taken(s.clubs, 0) == {};
    FirstOfFiveCandidates({}, "chess", "chess");
    assert Candidate("chess", 0) == "chess";
  }

  lemma BoardIsReached() returns (calls: seq<Call>)
    ensures Reached(calls, Board(BEFORE, map[]))
  {
    var s1 := EMPTY.(committees := map["board" := Committee(0, true, BEFORE)]);
    var create := CreateCommittee("board", 0, true, BEFORE);
    calls := Next([], EMPTY, create, s1);
    assert BuildApprovalInsertRows([CommitteeStep("board")]) == [CommitteeRow(Pending)];
    var submit := Submit(0, 0, 9, PROPOSAL, [CommitteeStep("board")]);
    calls := Next(calls, s1, submit, Board(BEFORE, map[]));
  }

  lemma ReplacedBoardIsReached() returns (calls: seq<Call>)
    ensures Reached(calls, Board(NOW, TWO))
  {
    calls := BoardIsReached();
    Counts();
    RecordedVote(map[], ONE, 1);
    calls := Next(calls, Board(BEFORE, map[]), Favour(1), Board(BEFORE, ONE));
    RecordedVote(ONE, TWO, 2);
    calls := Next(calls, Board(BEFORE, ONE), Favour(2), Board(BEFORE, TWO));
    var update := UpdateCommittee(0, "board", None, Some(NOW));
    ReplacedBoard(update);
    calls := Next(calls, Board(BEFORE, TWO), update, Board(NOW, TWO));
  }

  lemma ReplacedBoard(c: Call)
    requires c == UpdateCommittee(0, "board", None, Some(NOW))
    ensures Callable(Board(BEFORE, TWO), c) && Step(Board(BEFORE, TWO), c) == Board(NOW, TWO)
  {
  }

  /**
   Two of five members approve, the committee is then replaced by the other three, and one of them votes
   against: the application is approved with none of the present members in favour.
  */
  lemma FormerMembersDecide() returns (calls: seq<Call>, s: State, c: Call)
    ensures Initial(EMPTY) && Reached(calls, s) && c.CastVote? && !c.approves && Settles(s, c)
    ensures c.id in s.apps && CurrentStep(s.apps[c.id].rows).Some?
    ensures Side(s, c, true) * Electorate(s, c) == {}
    ensures c.id in Step(s, c).apps && Step(s, c).apps[c.id].status == Approved
  {
    calls := ReplacedBoardIsReached();
    s, c := Board(NOW, TWO), CastVote(0, 0, 3, false, true, 0);
    LastVote();
  }
}
