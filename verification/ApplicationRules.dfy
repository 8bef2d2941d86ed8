/** What each call about club applications needs and does, said of the rows, ballots and entries themselves. */
module ApplicationRules {
  import opened Wrappers
  import opened Checks
  import opened ApprovalChain
  import opened Applications
  import opened ApplicationProgress
  import opened ApplicationSafety

  // ---------------------------------------------------------------- the chain of an application

  lemma SubmittedIs(s: State, c: Call)
    requires c.Submit?
    ensures
      var t := Step(s, c);
      && c.id in t.apps && t == s.(apps := s.apps[c.id := t.apps[c.id]])
      && t.apps[c.id] == Application(c.uni, c.applicant, c.proposal, Pending, t.apps[c.id].rows, None, None, NoAppeal)
      && FollowsChain(t.apps[c.id].rows, c.chain) && forall r | r in t.apps[c.id].rows :: r.status == Pending
  {
    ApplicationProgress.SubmitIs(s, c);
  }

  lemma StepKeepsChain(s: State, c: Call, id: AppId, chain: seq<ChainStep>)
    requires Callable(s, c) && id in s.apps && id in Step(s, c).apps && FollowsChain(s.apps[id].rows, chain)
    ensures FollowsChain(Step(s, c).apps[id].rows, chain)
  {
    if Settles(s, c) {
      var k, d := DecisionFinalizes(s, c);
      FinalizeEffects(BeforeDeciding(s, c), c.id, k, d, ActorOf(c), c.clubId);
    } else if IsRevival(c) {
      if Step(s, c) != s {
        var app, e := RevivalIs(s, c);
      }
    } else if c.Withdraw? {
      if Step(s, c) != s {
        WithdrawalIs(s, c);
      }
    } else if c.Submit? {
      ApplicationProgress.SubmitIs(s, c);
    } else {
      OthersLeaveApplications(s, c);
    }
  }

  /** The application is not withdrawn on the way. */
  predicate StaysFiled(s: State, calls: seq<Call>, id: AppId)
    decreases |calls|
  {
    id in s.apps && (calls == [] || StaysFiled(Step(s, calls[0]), calls[1..], id))
  }

  lemma {:induction false} RunKeepsChain(s: State, calls: seq<Call>, id: AppId, chain: seq<ChainStep>)
    requires Runs(s, calls) && StaysFiled(s, calls, id) && FollowsChain(s.apps[id].rows, chain)
    ensures id in After(s, calls).apps && FollowsChain(After(s, calls).apps[id].rows, chain)
    decreases |calls|
  {
    if calls != [] {
      StepKeepsChain(s, calls[0], id, chain);
      RunKeepsChain(Step(s, calls[0]), calls[1..], id, chain);
    }
  }

  /**
   From its submission on, row `i` of an application asks for what step `i` of the submitted chain says, and
   the approvals in its log are the first `k` of these steps, in the order of the chain.
  */
  lemma ApprovalsFollowTheChain(s0: State, before: seq<Call>, c: Call, later: seq<Call>) returns (k: nat)
    requires Initial(s0) && Runs(s0, before) && c.Submit? && Callable(After(s0, before), c)
    requires Runs(Step(After(s0, before), c), later) && StaysFiled(Step(After(s0, before), c), later, c.id)
    ensures var s := After(Step(After(s0, before), c), later);
            && c.id in s.apps && FollowsChain(s.apps[c.id].rows, c.chain) && k <= |c.chain|
            && ApprovedSteps(LogOf(s.log, c.id)) == FirstSteps(k)
            && forall i | 0 <= i < |c.chain| :: s.apps[c.id].rows[i].status == Approved <==> i < k
  {
    var u := After(s0, before);
    var t := Step(u, c);
    RunKeepsCoherence(s0, before);
    SubmittedIs(u, c);
    StepKeepsCoherence(u, c);
    RunKeepsCoherence(t, later);
    RunKeepsChain(t, later, c.id, c.chain);
    var s := After(t, later);
    k := CoherentLogIsInStepOrder(s.apps[c.id], LogOf(s.log, c.id));
  }

  // ---------------------------------------------------------------- direct decisions

  /** Row `k` is the first that is not approved. */
  predicate IsFirstOpen(rows: seq<Row>, k: nat) {
    k < |rows| && rows[k].status != Approved && forall i | 0 <= i < k :: rows[i].status == Approved
  }

  /** An active committee of the university has the user as a member. */
  predicate Sits(s: State, committee: Option<string>, u: Uni, user: UserId) {
    && committee.Some? && committee.value in s.committees && s.committees[committee.value].uni == u
    && s.committees[committee.value].active && user in s.committees[committee.value].members
  }

  lemma DueRow(s: State, c: Call) returns (k: nat)
    requires AllCoherent(s) && c.Decide? && Awaits(s, c)
    ensures IsFirstOpen(s.apps[c.id].rows, k) && s.apps[c.id].rows[k].status == Pending
    ensures CurrentStep(s.apps[c.id].rows) == Some(s.apps[c.id].rows[k])
    ensures Apply(s, c).Done? || Apply(s, c) == Refused(SlugGenerationFailed) <==>
            Entitled(s.apps[c.id].rows, k, c, IsSeated(s, c, k))
  {
    k := DecideUnfolds(s, c);
    RuleIsEntitlement(s.apps[c.id].rows, k, c, IsSeated(s, c, k));
    FinalizeEnds(s, c.id, k, c.decision, c.actor, c.clubId);
  }

  /** A due step that names a role is decided by exactly these actors; club approval stands in for no role token. */
  lemma RoleStepIsDecidedIff(s: State, c: Call, role: Option<string>) returns (k: nat)
    requires AllCoherent(s) && c.Decide? && Awaits(s, c)
    ensures IsFirstOpen(s.apps[c.id].rows, k) && s.apps[c.id].rows[k].status == Pending
    ensures
      var row, n := s.apps[c.id].rows[k], |s.apps[c.id].rows|;
      var taken := Apply(s, c).Done? || Apply(s, c) == Refused(SlugGenerationFailed);
      row.kind == RoleSequential && row.committeeId == None && row.approverRole == role ==>
        match role
        case None => !taken
        case Some("") => !taken
        case Some("club_approver") => taken <==> c.auth.clubApprove
        case Some("advisor") => taken <==> if n == 1 then c.auth.clubApprove else "advisor" in c.auth.roles
        case Some(name) =>
          if name in {"student_affairs", "university_admin", "academic_affairs", "content_moderator", "auditor"}
          then taken <==> name in c.auth.roles
          else taken <==> c.auth.clubApprove
  {
    k := DueRow(s, c);
  }

  /** On a due committee step the only direct decision is a member's request for revision. */
  lemma CommitteeStepIsDecidedIff(s: State, c: Call) returns (k: nat)
    requires AllCoherent(s) && c.Decide? && Awaits(s, c)
    ensures IsFirstOpen(s.apps[c.id].rows, k) && s.apps[c.id].rows[k].status == Pending
    ensures
      var row := s.apps[c.id].rows[k];
      row.kind == CommitteeMajority || (row.committeeId != None && row.approverRole == None) ==>
        (Apply(s, c).Done? || Apply(s, c) == Refused(SlugGenerationFailed) <==>
          c.decision == RevisionRequested && row.committeeId != Some("") && Sits(s, row.committeeId, c.uni, c.actor))
  {
    k := DueRow(s, c);
  }

  // ---------------------------------------------------------------- votes

  predicate MayVote(s: State, c: Call, k: nat)
    requires c.CastVote? && c.id in s.apps && k < |s.apps[c.id].rows|
  {
    var row := s.apps[c.id].rows[k];
    && (c.approves || c.hasReason) && s.apps[c.id].uni == c.uni && s.apps[c.id].status == Pending
    && (row.kind == CommitteeMajority || (row.committeeId != None && row.approverRole == None))
    && row.committeeId != Some("") && Sits(s, row.committeeId, c.uni, c.voter)
  }

  /** An application's first open row is where its scan stops. */
  lemma ScanOf(s: State, id: AppId, k: nat)
    requires AllCoherent(s) && id in s.apps && IsFirstOpen(s.apps[id].rows, k)
    ensures var app := s.apps[id];
            && (app.status == Pending <==> app.rows[k].status == Pending)
            && (app.status == Pending ==> CurrentStep(app.rows) == Some(app.rows[k]))
            && IndexOfStep(app.rows, app.rows[k].step) == k && app.rows[k].step == k + 1
            && (app.status == Pending ==> Due(app, LogOf(s.log, id), k))
  {
    var app := s.apps[id];
    var p := ProgressOf(app, LogOf(s.log, id));
    DerivedFromProgress(app.rows, p);
    CurrentFromProgress(app.rows, p);
    IndexFromProgress(app.rows, k);
    assert p.approved == k;
  }

  /** The checks of a vote on row `k`, in order. */
  function VoteReason(s: State, c: Call, k: nat): Option<Refusal>
    requires c.CastVote?
  {
    if !c.approves && !c.hasReason then Some(ReasonRequired)
    else if c.id !in s.apps || s.apps[c.id].uni != c.uni then Some(ApplicationNotFound)
    else if s.apps[c.id].status != Pending || k >= |s.apps[c.id].rows| then Some(AlreadyDecided)
    else
      var row := s.apps[c.id].rows[k];
      Unless(!IsCommitteeRow(row) || row.committeeId in {None, Some("")}, CommitteeStepNotActive,
      Unless(row.committeeId.Some? && (row.committeeId.value !in s.committees || s.committees[row.committeeId.value].uni != c.uni),
             CommitteeNotFound,
      Unless(!Sits(s, row.committeeId, c.uni, c.voter), VoteForbidden, None)))
  }

  lemma VoteRuleReason(s: State, c: Call, k: nat)
    requires c.CastVote?
    requires c.id in s.apps && s.apps[c.id].status == Pending ==>
               var rows := s.apps[c.id].rows;
               k < |rows| && CurrentStep(rows) == Some(rows[k]) && IndexOfStep(rows, rows[k].step) == k
    ensures VoteRule(s, c.uni, c.id, c.voter, c.approves, c.hasReason) == VoteReason(s, c, k)
  {
  }

  lemma RecordingEnds(s: State, u: Uni, id: AppId, voter: UserId, approves: bool, clubId: ClubId)
    requires id in s.apps && CurrentStep(s.apps[id].rows).Some?
    requires IndexOfStep(s.apps[id].rows, CurrentStep(s.apps[id].rows).value.step) < |s.apps[id].rows|
    ensures var o := RecordVoteOn(s, u, id, voter, approves, clubId); o.Done? || o == Refused(SlugGenerationFailed)
  {
    var current := CurrentStep(s.apps[id].rows).value;
    var t := WithBallot(s, id, current.step, CommitteeOf(current), voter, approves);
    var d := Tally(t, u, id, current.step, CommitteeOf(current));
    if d.Some? {
      FinalizeEnds(t, id, IndexOfStep(s.apps[id].rows, current.step), d.value, voter, clubId);
    }
  }

  lemma VoteUnfolds(s: State, c: Call)
    requires c.CastVote?
    ensures
      var why := VoteRule(s, c.uni, c.id, c.voter, c.approves, c.hasReason);
      Apply(s, c) == if why.Some? then Refused(why.value) else RecordVoteOn(s, c.uni, c.id, c.voter, c.approves, c.clubId)
  {
    assert Apply(s, c) == CastVoteOn(s, c.uni, c.id, c.voter, c.approves, c.hasReason, c.clubId);
  }

  lemma RuleNeverFailsTheSlug(s: State, c: Call)
    requires c.CastVote?
    ensures VoteRule(s, c.uni, c.id, c.voter, c.approves, c.hasReason) != Some(SlugGenerationFailed)
  {
  }

  /** Why it is refused, apart from the search for a slug. */
  function EarlyRefusal(o: Outcome): Option<Refusal> {
    if o.Refused? && o.why != SlugGenerationFailed then Some(o.why) else None
  }

  lemma EarlyRefusalOfVote(s: State, c: Call)
    requires c.CastVote?
    ensures EarlyRefusal(Apply(s, c)) == VoteRule(s, c.uni, c.id, c.voter, c.approves, c.hasReason)
  {
    VoteUnfolds(s, c);
    RuleNeverFailsTheSlug(s, c);
    if VoteRule(s, c.uni, c.id, c.voter, c.approves, c.hasReason).None? {
      RecordingEnds(s, c.uni, c.id, c.voter, c.approves, c.clubId);
    }
  }

  lemma VoteIsRefusedFor(s: State, c: Call, k: nat)
    requires AllCoherent(s) && c.CastVote?
    requires c.id in s.apps && s.apps[c.id].status != Approved ==> IsFirstOpen(s.apps[c.id].rows, k)
    ensures EarlyRefusal(Apply(s, c)) == VoteReason(s, c, k)
  {
    EarlyRefusalOfVote(s, c);
    if c.id in s.apps && s.apps[c.id].status != Approved {
      ScanOf(s, c.id, k);
    }
    VoteRuleReason(s, c, k);
  }

  /** A vote counts if the voter sits on the committee of the due step, and gives a reason for a vote against. */
  lemma VotedIff(s: State, c: Call, k: nat)
    requires AllCoherent(s) && c.CastVote? && c.id in s.apps && IsFirstOpen(s.apps[c.id].rows, k)
    ensures Apply(s, c).Done? || Apply(s, c) == Refused(SlugGenerationFailed) <==> MayVote(s, c, k)
  {
    VoteIsRefusedFor(s, c, k);
    NoReasonIffMayVote(s, c, k);
  }

  lemma NoReasonIffMayVote(s: State, c: Call, k: nat)
    requires c.CastVote? && c.id in s.apps && k < |s.apps[c.id].rows|
    ensures VoteReason(s, c, k) == None <==> MayVote(s, c, k)
  {
  }

  lemma BallotGoesIn(s: State, c: Call, row: Row)
    requires c.CastVote? && c.id in s.apps && CurrentStep(s.apps[c.id].rows) == Some(row) && row.committeeId.Some?
    ensures
      var key := (c.id, row.step, c.voter);
      var committee := if key in s.ballots then s.ballots[key].committee else row.committeeId.value;
      BeforeDeciding(s, c) == s.(ballots := s.ballots[key := Ballot(committee, c.approves)])
  {
  }

  lemma RecordingKeepsBallot(s: State, u: Uni, id: AppId, voter: UserId, approves: bool, clubId: ClubId)
    requires id in s.apps && CurrentStep(s.apps[id].rows).Some?
    requires IndexOfStep(s.apps[id].rows, CurrentStep(s.apps[id].rows).value.step) < |s.apps[id].rows|
    ensures
      var o, current := RecordVoteOn(s, u, id, voter, approves, clubId), CurrentStep(s.apps[id].rows).value;
      o.Done? ==> o.s.ballots == WithBallot(s, id, current.step, CommitteeOf(current), voter, approves).ballots
  {
    var current := CurrentStep(s.apps[id].rows).value;
    var t := WithBallot(s, id, current.step, CommitteeOf(current), voter, approves);
    var d := Tally(t, u, id, current.step, CommitteeOf(current));
    if d.Some? && RecordVoteOn(s, u, id, voter, approves, clubId).Done? {
      FinalizeEffects(t, id, IndexOfStep(s.apps[id].rows, current.step), d.value, voter, clubId);
    }
  }

  /** A ballot that goes in is the voter's only one at the step; an earlier one keeps its committee. */
  lemma BallotIsRecorded(s: State, c: Call, k: nat)
    requires AllCoherent(s) && c.CastVote? && c.id in s.apps && IsFirstOpen(s.apps[c.id].rows, k)
    requires MayVote(s, c, k)
    ensures
      var key := (c.id, k + 1, c.voter);
      var committee := if key in s.ballots then s.ballots[key].committee else s.apps[c.id].rows[k].committeeId.value;
      && BeforeDeciding(s, c) == s.(ballots := s.ballots[key := Ballot(committee, c.approves)])
      && (Apply(s, c).Done? ==> Step(s, c).ballots == BeforeDeciding(s, c).ballots)
  {
    ScanOf(s, c.id, k);
    BallotGoesIn(s, c, s.apps[c.id].rows[k]);
    VoteUnfolds(s, c);
    RecordingKeepsBallot(s, c.uni, c.id, c.voter, c.approves, c.clubId);
  }

  /** The members that count, and the voters of one side, read off the tables. */
  lemma SidesAre(s: State, id: AppId, step: int, committee: string, approves: bool, u: Uni, user: UserId)
    ensures user in Voters(s.ballots, id, step, committee, approves) <==>
            (id, step, user) in s.ballots && s.ballots[(id, step, user)] == Ballot(committee, approves)
    ensures user in ActiveMembers(s.committees, committee, u) <==> Sits(s, Some(committee), u, user)
  {
  }

  // ---------------------------------------------------------------- what a settled step changes

  /** The application after row `k` was decided; it is approved with the last approval only. */
  function AfterDecision(app: Application, k: nat, d: Decision, actor: UserId, now: nat): Application
    requires k < |app.rows|
  {
    var status := if d == Approved && k < |app.rows| - 1 then Pending else d;
    app.(rows := app.rows[k := app.rows[k].(status := d)], status := status,
    rejectedBy := if d == Rejected then Some(actor) else app.rejectedBy,
    rejectedAt := if d == Rejected then Some(now) else app.rejectedAt)
  }

  lemma FinalizeWrites(s: State, id: AppId, k: nat, d: Decision, actor: UserId, clubId: ClubId)
    requires id in s.apps && Due(s.apps[id], LogOf(s.log, id), k) && FinalizeStep(s, id, k, d, actor, clubId).Done?
    ensures
      var t, app := FinalizeStep(s, id, k, d, actor, clubId).s, s.apps[id];
      && t.apps == s.apps[id := AfterDecision(app, k, d, actor, s.now)]
      && t.log == s.log + [LogEntry(id, k + 1, Decided(d), actor)]
      && t.ballots == s.ballots && t.committees == s.committees && t.periods == s.periods && t.now == s.now
      && (d != Approved || k < |app.rows| - 1 ==> t.clubs == s.clubs && t.members == s.members && t.founded == s.founded)
      && (d == Approved && k == |app.rows| - 1 ==> FoundClub(Recorded(s, id, k, d, actor), id, clubId) == Done(t))
  {
    FinalizeEffects(s, id, k, d, actor, clubId);
    StatusAfter(s.apps[id], LogOf(s.log, id), k, d, actor, s.now);
  }

  /** A decision or vote that settles a step changes the first open row, logs it, and leaves all other applications alone. */
  lemma SettlingWrites(s: State, c: Call) returns (k: nat, d: Decision)
    requires AllCoherent(s) && Settles(s, c)
    ensures c.id in s.apps && IsFirstOpen(s.apps[c.id].rows, k) && s.apps[c.id].rows[k].status == Pending
    ensures c.Decide? ==> d == c.decision
    ensures
      var t, app := Step(s, c), s.apps[c.id];
      && t.apps == s.apps[c.id := AfterDecision(app, k, d, ActorOf(c), s.now)]
      && t.log == s.log + [LogEntry(c.id, k + 1, Decided(d), ActorOf(c))]
      && t.ballots == BeforeDeciding(s, c).ballots
      && (d != Approved || k < |app.rows| - 1 ==> t.clubs == s.clubs && t.members == s.members)
  {
    k, d := DecisionFinalizes(s, c);
    DecisionIsDue(s.apps[c.id], LogOf(s.log, c.id), k);
    FinalizeWrites(BeforeDeciding(s, c), c.id, k, d, ActorOf(c), c.clubId);
  }

  /** A club of the university has the slug. */
  predicate IsTaken(clubs: map<ClubId, Club>, u: Uni, slug: string) {
    exists c :: c in clubs && clubs[c].uni == u && clubs[c].slug == slug
  }

  /** The founded club is the one proposed, under the first of its slugs that no club of the university has. */
  lemma FoundingWrites(s: State, id: AppId, clubId: ClubId) returns (i: nat)
    requires id in s.apps
    ensures
      var o, app := FoundClub(s, id, clubId), s.apps[id];
      && (o.Refused? <==> forall j: nat | j < 5 :: IsTaken(s.clubs, app.uni, Candidate(app.proposal.slugBase, j)))
      && (o.Done? ==>
            && i < 5 && !IsTaken(s.clubs, app.uni, Candidate(app.proposal.slugBase, i))
            && (forall j: nat | j < i :: IsTaken(s.clubs, app.uni, Candidate(app.proposal.slugBase, j)))
            && o.s == s.(clubs := s.clubs[clubId := Club(app.uni, app.proposal.name, Candidate(app.proposal.slugBase, i),
                                                         app.proposal.description, true, app.applicant)],
                         members := s.members[(clubId, app.applicant) := Member(app.uni, President, true)],
                         founded := o.s.founded))
  {
    i := 0;
    var app := s.apps[id];
    var taken := Taken(s.clubs, app.uni);
    forall slug
      ensures slug in taken <==> IsTaken(s.clubs, app.uni, slug)
    {
    }
    FirstOfFiveCandidates(taken, app.proposal.slugBase, "");
    if FoundClub(s, id, clubId).Done? {
      var slug := FirstFree(taken, app.proposal.slugBase, 0).value;
      FirstOfFiveCandidates(taken, app.proposal.slugBase, slug);
      i :| i < MAX_SLUG_ATTEMPTS && slug == Candidate(app.proposal.slugBase, i) && slug !in taken
           && forall j: nat | j < i :: Candidate(app.proposal.slugBase, j) in taken;
    }
  }

  lemma StatusAfter(app: Application, log: seq<LogEntry>, k: nat, d: Decision, actor: UserId, now: nat)
    requires Due(app, log, k)
    ensures WithDecision(app, k, d, actor, now) == AfterDecision(app, k, d, actor, now)
  {
    var e := LogEntry(0, app.rows[k].step, Decided(d), actor);
    DecisionKeepsCoherence(app, log, k, d, actor, now, e);
    var after := WithDecision(app, k, d, actor, now);
    DerivedFromProgress(after.rows, ProgressOf(after, log + [e]));
  }

  /** The slugs tried are the proposal's own and then it with the suffixes 2 to 5. */
  lemma CandidatesAre(base: string)
    ensures Candidate(base, 0) == base && Candidate(base, 1) == base + "-2" && Candidate(base, 2) == base + "-3"
    ensures Candidate(base, 3) == base + "-4" && Candidate(base, 4) == base + "-5" && MAX_SLUG_ATTEMPTS == 5
  {
  }

  // ---------------------------------------------------------------- resubmission, appeal, withdrawal

  lemma ResubmittedIff(s: State, c: Call, k: nat)
    requires AllCoherent(s) && c.Resubmit? && (c.id in s.apps && s.apps[c.id].status != Approved ==> IsFirstOpen(s.apps[c.id].rows, k))
    ensures
      && (Apply(s, c).Done? <==>
            c.id in s.apps && s.apps[c.id].applicant == c.applicant && s.apps[c.id].status == RevisionRequested)
      && (Apply(s, c).Done? ==>
            var app := s.apps[c.id];
            && app.rows[k].status == RevisionRequested
            && Step(s, c) == s.(apps := s.apps[c.id := app.(proposal := c.proposal, status := Pending,
                                                            rows := app.rows[k := app.rows[k].(status := Pending)])],
                                log := s.log + [LogEntry(c.id, k + 1, Resubmitted, c.applicant)]))
  {
    if c.id in s.apps && s.apps[c.id].status == RevisionRequested {
      var p := ProgressOf(s.apps[c.id], LogOf(s.log, c.id));
      DerivedFromProgress(s.apps[c.id].rows, p);
      RevisionFromProgress(s.apps[c.id].rows, p);
    }
  }

  /** The time until which a rejection can be appealed: so many days of 24 hours, and 14 unless the university says otherwise. */
  function AppealableUntil(s: State, app: Application): nat
    requires app.rejectedAt.Some?
  {
    var days: nat := if app.uni in s.periods then s.periods[app.uni] else 14;
    app.rejectedAt.value + days * 86_400_000
  }

  lemma AppealedIff(s: State, c: Call)
    requires AllCoherent(s) && c.SubmitAppeal?
    ensures
      && (Apply(s, c).Done? <==>
            && c.id in s.apps && s.apps[c.id].applicant == c.applicant && s.apps[c.id].status == Rejected
            && s.apps[c.id].appeal == NoAppeal && s.apps[c.id].rejectedAt.Some? && s.now <= AppealableUntil(s, s.apps[c.id]))
      && (Apply(s, c).Done? ==>
            Step(s, c) == s.(apps := s.apps[c.id := s.apps[c.id].(appeal := AppealPending)],
                             log := s.log + [LogEntry(c.id, 0, AppealSubmitted, c.applicant)]))
  {
    assert Apply(s, c) == SubmitAppealOn(s, c.id, c.applicant);
    AppealIsRefusedFor(s, c);
  }

  function AppealReason(s: State, c: Call): Option<Refusal>
    requires c.SubmitAppeal?
  {
    if c.id !in s.apps || s.apps[c.id].applicant != c.applicant then Some(ApplicationNotFound)
    else
      Unless(s.apps[c.id].status != Rejected, AppealNotAllowed,
      Unless(s.apps[c.id].appeal != NoAppeal, AppealAlreadySubmitted,
      Unless(s.apps[c.id].rejectedAt.None?, AppealNotAllowed,
      Unless(s.apps[c.id].rejectedAt.Some? && s.now > AppealableUntil(s, s.apps[c.id]), AppealDeadlinePassed, None))))
  }

  lemma AppealIsRefusedFor(s: State, c: Call)
    requires c.SubmitAppeal?
    ensures AppealReason(s, c) == var o := SubmitAppealOn(s, c.id, c.applicant); if o.Refused? then Some(o.why) else None
  {
  }

  /** A review is the rejected row's business; whoever rejected it may uphold it only as the sole reviewer. */
  lemma ReviewedIff(s: State, c: Call, k: nat)
    requires AllCoherent(s) && c.ReviewAppeal? && (c.id in s.apps && s.apps[c.id].status != Approved ==> IsFirstOpen(s.apps[c.id].rows, k))
    ensures
      && (Apply(s, c).Done? <==>
            && c.id in s.apps && s.apps[c.id].uni == c.uni && s.apps[c.id].appeal == AppealPending
            && k < |s.apps[c.id].rows| && Meets(c.auth, s.apps[c.id].rows[k], |s.apps[c.id].rows|)
            && (s.apps[c.id].rejectedBy != Some(c.reviewer) || c.others == 0))
      && (Apply(s, c).Done? ==>
            var app := s.apps[c.id];
            && app.rows[k].status == Rejected
            && Step(s, c) == s.(apps := s.apps[c.id :=
                                  if c.upheld then
                                    app.(appeal := AppealUpheld, status := Pending, rejectedBy := None, rejectedAt := None,
                                         rows := app.rows[k := app.rows[k].(status := Pending)])
                                  else app.(appeal := AppealDismissed)],
                                log := s.log + [LogEntry(c.id, 0, AppealReviewed(c.upheld), c.reviewer)]))
  {
    assert Apply(s, c) == ReviewAppealOn(s, c.uni, c.id, c.reviewer, c.auth, c.others, c.upheld);
    if c.id in s.apps && s.apps[c.id].appeal == AppealPending {
      RejectedRow(s, c.id, k);
      ReviewRuleReason(s.apps[c.id], c, k);
    }
  }

  /** While an appeal is pending, the first open row is the rejected one. */
  lemma RejectedRow(s: State, id: AppId, k: nat)
    requires AllCoherent(s) && id in s.apps && s.apps[id].appeal == AppealPending
    requires s.apps[id].status != Approved ==> IsFirstOpen(s.apps[id].rows, k)
    ensures k < |s.apps[id].rows| && s.apps[id].rows[k].status == Rejected && RejectionIndex(s.apps[id].rows) == k
  {
    var p := ProgressOf(s.apps[id], LogOf(s.log, id));
    DerivedFromProgress(s.apps[id].rows, p);
    RejectionFromProgress(s.apps[id].rows, p);
  }

  /** The checks of a review, in order; row `k` is the rejected one. */
  function ReviewReason(app: Application, c: Call, k: nat): Option<Refusal>
    requires c.ReviewAppeal? && k < |app.rows|
  {
    Unless(app.appeal != AppealPending, AppealNotFound,
    Unless(!Meets(c.auth, app.rows[k], |app.rows|), AppealReviewForbidden,
    Unless(app.rejectedBy == Some(c.reviewer) && c.others > 0, AppealSameReviewer, None)))
  }

  lemma ReviewRuleReason(app: Application, c: Call, k: nat)
    requires c.ReviewAppeal? && RejectionIndex(app.rows) == k < |app.rows|
    ensures ReviewRule(app, c.reviewer, c.auth, c.others) == ReviewReason(app, c, k)
  {
    CanDecideIff(c.auth, app.rows[k], |app.rows|);
  }

  lemma ReviewIsRefusedFor(s: State, c: Call, k: nat)
    requires AllCoherent(s) && c.ReviewAppeal?
    requires c.id in s.apps && s.apps[c.id].status != Approved ==> IsFirstOpen(s.apps[c.id].rows, k)
    ensures
      var known := c.id in s.apps && s.apps[c.id].uni == c.uni;
      (if Apply(s, c).Refused? then Some(Apply(s, c).why) else None) ==
      (if !known then Some(ApplicationNotFound)
       else if s.apps[c.id].appeal != AppealPending || k >= |s.apps[c.id].rows| then Some(AppealNotFound)
       else ReviewReason(s.apps[c.id], c, k))
  {
    assert Apply(s, c) == ReviewAppealOn(s, c.uni, c.id, c.reviewer, c.auth, c.others, c.upheld);
    if c.id in s.apps && s.apps[c.id].appeal == AppealPending {
      RejectedRow(s, c.id, k);
      ReviewRuleReason(s.apps[c.id], c, k);
    }
  }

  /** A withdrawal takes a pending application away with all that is recorded of it, and nothing of any other. */
  lemma WithdrawnIff(s: State, c: Call, x: AppId)
    requires c.Withdraw?
    ensures
      && (Apply(s, c).Done? <==> c.id in s.apps && s.apps[c.id].applicant == c.applicant && s.apps[c.id].status == Pending)
      && (Apply(s, c).Done? ==>
            var t := Step(s, c);
            && t == s.(apps := s.apps - {c.id}, log := t.log, ballots := t.ballots)
            && LogOf(t.log, x) == (if x == c.id then [] else LogOf(s.log, x))
            && (forall b | b in t.ballots :: b in s.ballots && b.0 != c.id && t.ballots[b] == s.ballots[b])
            && (forall b | b in s.ballots && b.0 != c.id :: b in t.ballots))
  {
    WithoutEntriesOf(s.log, c.id, x);
  }

  // ---------------------------------------------------------------- committees and periods

  /** What is asked for, or what there is. */
  function Or<T>(asked: Option<T>, current: T): T {
    if asked.Some? then asked.value else current
  }

  lemma CommitteeWrites(s: State, c: Call)
    requires c.CreateCommittee? || c.UpdateCommittee?
    ensures Apply(s, c).Done? <==>
            c.CreateCommittee? || (c.committee in s.committees && s.committees[c.committee].uni == c.uni)
    ensures Apply(s, c).Done? ==>
              Step(s, c) == s.(committees := s.committees[c.committee :=
                if c.CreateCommittee? then Committee(c.uni, c.active, c.members)
                else Committee(c.uni, Or(c.newActive, s.committees[c.committee].active),
                               Or(c.newMembers, s.committees[c.committee].members))])
  {
  }

  /** From 1 to 60 days, or back to 14; the clock only goes forward. */
  lemma SettingWrites(s: State, c: Call, u: Uni)
    requires c.SetAppealPeriod? || c.Wait?
    ensures Apply(s, c).Done? <==> (c.SetAppealPeriod? && c.days.Some? ==> 1 <= c.days.value <= 60)
    ensures
      var t := Step(s, c);
      && t == s.(periods := t.periods, now := t.now) && t.now == s.now + (if c.Wait? then c.elapsed else 0)
      && PeriodOf(t.periods, u) == (if c.SetAppealPeriod? && c.uni == u && Apply(s, c).Done? then Or(c.days, 14)
                                    else if u in s.periods then s.periods[u] else 14)
  {
    if c.SetAppealPeriod? {
      assert Apply(s, c) == SetAppealPeriodOn(s, c.uni, c.days);
    }
  }

  // ---------------------------------------------------------------- why a call is refused

  /** The checks of a direct decision on row `k` by an actor who sits on its committee or not, in order. */
  function RowReason(rows: seq<Row>, k: nat, c: Call, seated: bool): Option<Refusal>
    requires c.Decide? && k < |rows|
  {
    if IsCommitteeRow(rows[k]) then
      Unless(c.decision != RevisionRequested, UseVoteEndpoint,
      Unless(rows[k].committeeId in {None, Some("")}, AlreadyDecided,
      Unless(!seated, StepForbidden, None)))
    else
      Unless(!Meets(c.auth, rows[k], |rows|),
             if exists j :: k < j < |rows| && Meets(c.auth, rows[j], |rows|) then StepNotReady else StepForbidden, None)
  }

  function DecisionReason(s: State, c: Call, k: nat): Option<Refusal>
    requires c.Decide?
  {
    if c.id !in s.apps || s.apps[c.id].uni != c.uni then Some(ApplicationNotFound)
    else if s.apps[c.id].status != Pending || k >= |s.apps[c.id].rows| then Some(AlreadyDecided)
    else RowReason(s.apps[c.id].rows, k, c, Sits(s, s.apps[c.id].rows[k].committeeId, c.uni, c.actor))
  }

  lemma DecisionIsRefusedFor(s: State, c: Call, k: nat)
    requires AllCoherent(s) && c.Decide?
    requires c.id in s.apps && s.apps[c.id].status != Approved ==> IsFirstOpen(s.apps[c.id].rows, k)
    ensures EarlyRefusal(Apply(s, c)) == DecisionReason(s, c, k)
  {
    if Awaits(s, c) {
      var j := DecideUnfolds(s, c);
      ScanOf(s, c.id, k);
      assert j == k;
      RuleReason(s.apps[c.id].rows, k, c, IsSeated(s, c, k));
      FinalizeEnds(s, c.id, k, c.decision, c.actor, c.clubId);
      NoOtherSlugFailure(s.apps[c.id].rows, k, c, IsSeated(s, c, k));
    } else {
      NotAwaitingIsRefused(s, c);
      assert Apply(s, c) == DecideOn(s, c.uni, c.id, c.actor, c.auth, c.decision, c.clubId);
    }
  }

  lemma RuleReason(rows: seq<Row>, k: nat, c: Call, seated: bool)
    requires c.Decide? && k < |rows| && Numbered(rows)
    requires forall i | k < i < |rows| :: rows[i].status == Pending
    ensures DirectRule(rows, k, rows[k], c.auth, seated, c.decision) == RowReason(rows, k, c, seated)
  {
    RuleIsEntitlement(rows, k, c, seated);
  }

  /** The checks of the other calls, in order; `k` is the first open row. */
  function OtherReason(s: State, c: Call, k: nat): Option<Refusal>
    requires !IsDecision(c)
  {
    match c
    case Resubmit(id, applicant, _) =>
      Unless(!(id in s.apps && s.apps[id].applicant == applicant && s.apps[id].status == RevisionRequested), NotResubmittable, None)
    case SubmitAppeal(_, _) => AppealReason(s, c)
    case ReviewAppeal(u, id, _, _, _, _) =>
      if id !in s.apps || s.apps[id].uni != u then Some(ApplicationNotFound)
      else if k >= |s.apps[id].rows| then Some(AppealNotFound)
      else ReviewReason(s.apps[id], c, k)
    case Withdraw(id, applicant) =>
      if id !in s.apps || s.apps[id].applicant != applicant then Some(ApplicationNotFound)
      else Unless(s.apps[id].status != Pending, NotWithdrawable, None)
    case UpdateCommittee(u, committee, _, _) =>
      Unless(!(committee in s.committees && s.committees[committee].uni == u), CommitteeNotFound, None)
    case SetAppealPeriod(_, days) => Unless(days.Some? && !(1 <= days.value <= 60), InvalidSetting, None)
    case Submit(_, _, _, _, _) => None
    case CreateCommittee(_, _, _, _) => None
    case Wait(_) => None
  }

  lemma OthersAreRefusedFor(s: State, c: Call, k: nat)
    requires AllCoherent(s) && !IsDecision(c)
    requires c.ReviewAppeal? || c.Resubmit? ==>
               c.id in s.apps && s.apps[c.id].status != Approved ==> IsFirstOpen(s.apps[c.id].rows, k)
    ensures OtherReason(s, c, k) == if Apply(s, c).Refused? then Some(Apply(s, c).why) else None
  {
    if c.Resubmit? {
      ResubmittedIff(s, c, k);
    } else if c.ReviewAppeal? {
      ReviewIsRefusedFor(s, c, k);
    } else if c.SubmitAppeal? {
      assert Apply(s, c) == SubmitAppealOn(s, c.id, c.applicant);
      AppealIsRefusedFor(s, c);
    }
  }
}
