/**
 The transactions on club applications over their tables. Each method writes as it goes and is proved to
 leave exactly the specified outcome; a refusal met after the first write rolls the tables back.
*/
module ApplicationService {
  import opened Wrappers
  import opened ApprovalChain
  import opened Applications

  function WhyRefused(o: Outcome): Option<Refusal> {
    if o.Refused? then Some(o.why) else None
  }

  class ApplicationTables {
    var apps: map<AppId, Application>
    var log: seq<LogEntry>
    var ballots: Ballots
    var committees: map<string, Committee>
    var clubs: map<ClubId, Club>
    var members: map<(ClubId, UserId), Member>
    var periods: map<Uni, Days>
    var now: nat
    ghost var founded: map<AppId, Founding>

    ghost function Whole(): State
      reads this
    {
      State(apps, log, ballots, committees, clubs, members, founded, periods, now)
    }

    method InsertApplicationWithApprovals(id: AppId, u: Uni, applicant: UserId, p: Proposal, chain: seq<ChainStep>)
      requires id !in apps && |chain| > 0
      modifies this`apps
      ensures Whole() == Step(old(Whole()), Submit(id, u, applicant, p, chain))
      ensures id in apps && apps[id].status == Pending && FollowsChain(apps[id].rows, chain)
      ensures forall r | r in apps[id].rows :: r.status == Pending
    {
      var rows := [];
      for i := 0 to |chain|
        invariant |rows| == i
        invariant forall j | 0 <= j < i :: rows[j] == RowFor(chain[j], j + 1)
      {
        rows := rows + [RowFor(chain[i], i + 1)];
      }
      assert rows == BuildApprovalInsertRows(chain);
      apps := apps[id := Application(u, applicant, p, Pending, rows, None, None, NoAppeal)];
    }

    method SlugIsTaken(u: Uni, slug: string) returns (taken: bool)
      ensures taken <==> slug in Taken(clubs, u)
    {
      taken := exists c :: c in clubs && clubs[c].uni == u && clubs[c].slug == slug;
    }

    /** Try the candidates in turn and take the first that no club of the university has. */
    method FindFreeSlug(u: Uni, base: string) returns (slug: Option<string>)
      ensures slug == FirstFree(Taken(clubs, u), base, 0)
    {
      var attempt := 0;
      while attempt < MAX_SLUG_ATTEMPTS
        invariant attempt <= MAX_SLUG_ATTEMPTS
        invariant FirstFree(Taken(clubs, u), base, 0) == FirstFree(Taken(clubs, u), base, attempt)
      {
        var candidate := Candidate(base, attempt);
        var taken := SlugIsTaken(u, candidate);
        if !taken {
          return Some(candidate);
        }
        attempt := attempt + 1;
      }
      return None;
    }

    /** Found the club and its presidency; on failure nothing is inserted. */
    method InsertClub(id: AppId, clubId: ClubId) returns (why: Option<Refusal>)
      requires id in apps && clubId !in clubs
      modifies this`clubs, this`members, this`founded
      ensures why == WhyRefused(FoundClub(old(Whole()), id, clubId))
      ensures why.None? ==> Whole() == FoundClub(old(Whole()), id, clubId).s
      ensures why.Some? ==> Whole() == old(Whole())
    {
      var app := apps[id];
      var slug := FindFreeSlug(app.uni, app.proposal.slugBase);
      if slug.None? {
        return Some(SlugGenerationFailed);
      }
      var club := Club(app.uni, app.proposal.name, slug.value, app.proposal.description, true, app.applicant);
      clubs := clubs[clubId := club];
      members := members[(clubId, app.applicant) := Member(club.uni, President, true)];
      founded := founded[id := Founding(clubId, club)];
      return None;
    }

    /** Record a decision on row `k` and its log entry, and store the derived status. */
    method RecordDecision(id: AppId, k: nat, d: Decision, actor: UserId)
      requires id in apps && k < |apps[id].rows|
      modifies this`apps, this`log
      ensures Whole() == Recorded(old(Whole()), id, k, d, actor)
    {
      var app := apps[id];
      app := app.(rows := app.rows[k := app.rows[k].(status := d)]);
      log := log + [LogEntry(id, app.rows[k].step, Decided(d), actor)];
      var status := DeriveStatus(app.rows);
      if status == Rejected {
        app := app.(rejectedBy := Some(actor), rejectedAt := Some(now));
      }
      apps := apps[id := app.(status := status)];
    }

    /** Inside a transaction: after a refusal the tables are partly written and must be rolled back. */
    method FinalizeApplicationStep(id: AppId, k: nat, d: Decision, actor: UserId, clubId: ClubId)
      returns (why: Option<Refusal>)
      requires id in apps && k < |apps[id].rows| && clubId !in clubs
      modifies this`apps, this`log, this`clubs, this`members, this`founded
      ensures why == WhyRefused(FinalizeStep(old(Whole()), id, k, d, actor, clubId))
      ensures why.None? ==> Whole() == FinalizeStep(old(Whole()), id, k, d, actor, clubId).s
    {
      RecordDecision(id, k, d, actor);
      if apps[id].status != Approved {
        return None;
      }
      why := InsertClub(id, clubId);
    }

    method FindRow(rows: seq<Row>, step: int) returns (k: nat)
      ensures k == IndexOfStep(rows, step)
    {
      k := 0;
      while k < |rows| && rows[k].step != step
        invariant k <= |rows|
        invariant IndexOfStep(rows, step) == k + IndexOfStep(rows[k..], step)
      {
        k := k + 1;
      }
    }

    method IsActiveMember(committee: string, u: Uni, user: UserId) returns (yes: bool)
      ensures yes <==> user in ActiveMembers(committees, committee, u)
    {
      if committee !in committees || committees[committee].uni != u || !committees[committee].active {
        return false;
      }
      return user in committees[committee].members;
    }

    method ApplyApplicationStepDecision(
      u: Uni, id: AppId, actor: UserId, auth: Authz, d: Decision, clubId: ClubId)
      returns (why: Option<Refusal>)
      requires clubId !in clubs
      modifies this`apps, this`log, this`clubs, this`members, this`founded
      ensures why == WhyRefused(DecideOn(old(Whole()), u, id, actor, auth, d, clubId))
      ensures why.None? ==> Whole() == DecideOn(old(Whole()), u, id, actor, auth, d, clubId).s
    {
      if id !in apps || apps[id].uni != u {
        return Some(ApplicationNotFound);
      }
      var rows := apps[id].rows;
      if apps[id].status != Pending {
        return Some(AlreadyDecided);
      }
      var current := FindCurrentApprovalStep(rows);
      if current.None? {
        return Some(AlreadyDecided);
      }
      var k := FindRow(rows, current.value.step);
      if k == |rows| {
        return Some(AlreadyDecided);
      }
      var isMember := IsActiveMember(CommitteeOf(rows[k]), u, actor);
      why := CheckDirectDecision(rows, k, current.value, auth, isMember, d);
      if why.None? {
        why := FinalizeApplicationStep(id, k, d, actor, clubId);
      }
    }

    method CheckDirectDecision(rows: seq<Row>, k: nat, current: Row, auth: Authz, isMember: bool, d: Decision)
      returns (why: Option<Refusal>)
      requires k < |rows|
      ensures why == DirectRule(rows, k, current, auth, isMember, d)
    {
      if IsCommitteeMajorityStep(current) {
        if d == RevisionRequested {
          if rows[k].committeeId.None? || rows[k].committeeId.value == "" {
            return Some(AlreadyDecided);
          }
          if !isMember {
            return Some(StepForbidden);
          }
        } else {
          return Some(UseVoteEndpoint);
        }
        return None;
      }
      match DecideVerdict(auth, rows, current) {
        case Allowed => return None;
        case NotReady => return Some(StepNotReady);
        case Forbidden => return Some(StepForbidden);
      }
    }

    /** The whole decision as a transaction. */
    method DecideClubApplication(
      u: Uni, id: AppId, actor: UserId, auth: Authz, d: Decision, clubId: ClubId)
      returns (why: Option<Refusal>)
      requires clubId !in clubs
      modifies this`apps, this`log, this`clubs, this`members, this`founded
      ensures why == WhyRefused(DecideOn(old(Whole()), u, id, actor, auth, d, clubId))
      ensures Whole() == Step(old(Whole()), Decide(u, id, actor, auth, d, clubId))
    {
      var apps0, log0, clubs0, members0 := apps, log, clubs, members;
      ghost var founded0 := founded;
      why := ApplyApplicationStepDecision(u, id, actor, auth, d, clubId);
      if why.Some? {
        apps, log, clubs, members := apps0, log0, clubs0, members0;
        founded := founded0;
      }
    }

    method CheckVote(u: Uni, id: AppId, voter: UserId, approves: bool, hasReason: bool) returns (why: Option<Refusal>)
      ensures why == VoteRule(Whole(), u, id, voter, approves, hasReason)
    {
      if !approves && !hasReason {
        return Some(ReasonRequired);
      }
      if id !in apps || apps[id].uni != u {
        return Some(ApplicationNotFound);
      }
      if apps[id].status != Pending {
        return Some(AlreadyDecided);
      }
      var current := FindCurrentApprovalStep(apps[id].rows);
      if current.None? || !IsCommitteeMajorityStep(current.value) || CommitteeOf(current.value) == "" {
        return Some(CommitteeStepNotActive);
      }
      var k := FindRow(apps[id].rows, current.value.step);
      if k == |apps[id].rows| {
        return Some(AlreadyDecided);
      }
      var committee := CommitteeOf(current.value);
      if committee !in committees || committees[committee].uni != u {
        return Some(CommitteeNotFound);
      }
      var isMember := IsActiveMember(committee, u, voter);
      return if isMember then None else Some(VoteForbidden);
    }

    /** Insert the ballot, or change the side of the voter's earlier one. */
    method UpsertBallot(id: AppId, step: int, committee: string, voter: UserId, approves: bool)
      modifies this`ballots
      ensures Whole() == WithBallot(old(Whole()), id, step, committee, voter, approves)
    {
      var key := (id, step, voter);
      if key in ballots {
        ballots := ballots[key := ballots[key].(approves := approves)];
      } else {
        ballots := ballots[key := Ballot(committee, approves)];
      }
    }

    /** Inside the transaction: record the ballot, count, and finalize the step once a side has enough. */
    method RecordVote(u: Uni, id: AppId, k: nat, current: Row, voter: UserId, approves: bool, clubId: ClubId)
      returns (why: Option<Refusal>)
      requires id in apps && k < |apps[id].rows| && clubId !in clubs
      modifies this`apps, this`log, this`ballots, this`clubs, this`members, this`founded
      ensures var t := WithBallot(old(Whole()), id, current.step, CommitteeOf(current), voter, approves);
              var verdict := Tally(t, u, id, current.step, CommitteeOf(current));
              var o := if verdict.None? then Done(t) else FinalizeStep(t, id, k, verdict.value, voter, clubId);
              why == WhyRefused(o) && (why.None? ==> Whole() == o.s)
    {
      var committee := CommitteeOf(current);
      UpsertBallot(id, current.step, committee, voter, approves);
      var memberCount := |ActiveMembers(committees, committee, u)|;
      var approveCount := |Voters(ballots, id, current.step, committee, true)|;
      var rejectCount := |Voters(ballots, id, current.step, committee, false)|;
      if approveCount >= MajorityThreshold(memberCount) {
        why := FinalizeApplicationStep(id, k, Approved, voter, clubId);
      } else if rejectCount >= MajorityThreshold(memberCount) {
        why := FinalizeApplicationStep(id, k, Rejected, voter, clubId);
      } else {
        why := None;
      }
    }

    /** Inside the transaction: look the current step up and record the vote on it. */
    method VoteOnCurrentStep(u: Uni, id: AppId, voter: UserId, approves: bool, clubId: ClubId)
      returns (why: Option<Refusal>)
      requires id in apps && CurrentStep(apps[id].rows).Some? && clubId !in clubs
      requires IndexOfStep(apps[id].rows, CurrentStep(apps[id].rows).value.step) < |apps[id].rows|
      modifies this`apps, this`log, this`ballots, this`clubs, this`members, this`founded
      ensures var o := RecordVoteOn(old(Whole()), u, id, voter, approves, clubId);
              why == WhyRefused(o) && (why.None? ==> Whole() == o.s)
    {
      var current := FindCurrentApprovalStep(apps[id].rows);
      var k := FindRow(apps[id].rows, current.value.step);
      why := RecordVote(u, id, k, current.value, voter, approves, clubId);
    }

    /** Inside the transaction: after a refusal the ballot is written and must be rolled back. */
    method CheckAndVote(u: Uni, id: AppId, voter: UserId, approves: bool, hasReason: bool, clubId: ClubId)
      returns (why: Option<Refusal>)
      requires clubId !in clubs
      modifies this`apps, this`log, this`ballots, this`clubs, this`members, this`founded
      ensures var o := CastVoteOn(old(Whole()), u, id, voter, approves, hasReason, clubId);
              why == WhyRefused(o) && (why.None? ==> Whole() == o.s)
    {
      why := CheckVote(u, id, voter, approves, hasReason);
      if why.None? {
        why := VoteOnCurrentStep(u, id, voter, approves, clubId);
      }
    }

    /** A vote as a transaction: a failed founding takes the ballot back as well. */
    method CastCommitteeVote(u: Uni, id: AppId, voter: UserId, approves: bool, hasReason: bool, clubId: ClubId)
      returns (why: Option<Refusal>)
      requires clubId !in clubs
      modifies this`apps, this`log, this`ballots, this`clubs, this`members, this`founded
      ensures var o := CastVoteOn(old(Whole()), u, id, voter, approves, hasReason, clubId);
              why == WhyRefused(o) && Whole() == (if o.Done? then o.s else old(Whole()))
    {
      var apps0, log0, ballots0, clubs0, members0 := apps, log, ballots, clubs, members;
      ghost var founded0 := founded;
      why := CheckAndVote(u, id, voter, approves, hasReason, clubId);
      if why.Some? {
        apps, log, ballots, clubs, members := apps0, log0, ballots0, clubs0, members0;
        founded := founded0;
      }
    }

    method ReplaceCommittee(u: Uni, committee: string, active: Option<bool>, newMembers: Option<set<UserId>>)
      returns (why: Option<Refusal>)
      modifies this`committees
      ensures why == WhyRefused(UpdateCommitteeOn(old(Whole()), u, committee, active, newMembers))
      ensures Whole() == Step(old(Whole()), UpdateCommittee(u, committee, active, newMembers))
    {
      if committee !in committees || committees[committee].uni != u {
        return Some(CommitteeNotFound);
      }
      if active.Some? {
        committees := committees[committee := committees[committee].(active := active.value)];
      }
      if newMembers.Some? {
        committees := committees[committee := committees[committee].(members := newMembers.value)];
      }
      return None;
    }

    /** The university's own period; one equal to the default is not stored. */
    method PatchAppealPeriod(u: Uni, days: Option<int>) returns (why: Option<Refusal>)
      modifies this`periods
      ensures why == WhyRefused(SetAppealPeriodOn(old(Whole()), u, days))
      ensures Whole() == Step(old(Whole()), SetAppealPeriod(u, days))
      ensures PeriodOf(periods, u) ==
              if why.Some? then PeriodOf(old(periods), u) else if days.Some? then days.value else DEFAULT_APPEAL_DAYS
      ensures forall v | v != u :: PeriodOf(periods, v) == PeriodOf(old(periods), v)
    {
      if days.None? {
        periods := periods - {u};
        return None;
      }
      if days.value < 1 || days.value > MAX_APPEAL_DAYS {
        return Some(InvalidSetting);
      }
      if days.value == DEFAULT_APPEAL_DAYS {
        periods := periods - {u};
      } else {
        periods := periods[u := days.value];
      }
      return None;
    }

    method FileAppeal(id: AppId, applicant: UserId) returns (why: Option<Refusal>)
      modifies this`apps, this`log
      ensures why == WhyRefused(SubmitAppealOn(old(Whole()), id, applicant))
      ensures Whole() == Step(old(Whole()), SubmitAppeal(id, applicant))
    {
      if id !in apps || apps[id].applicant != applicant {
        return Some(ApplicationNotFound);
      }
      if apps[id].status != Rejected {
        return Some(AppealNotAllowed);
      }
      if apps[id].appeal != NoAppeal {
        return Some(AppealAlreadySubmitted);
      }
      if apps[id].rejectedAt.None? {
        return Some(AppealNotAllowed);
      }
      var deadline := apps[id].rejectedAt.value + PeriodOf(periods, apps[id].uni) * DAY;
      if now > deadline {
        return Some(AppealDeadlinePassed);
      }
      apps := apps[id := apps[id].(appeal := AppealPending)];
      log := log + [LogEntry(id, 0, AppealSubmitted, applicant)];
      return None;
    }

    method FindRejected(rows: seq<Row>) returns (k: nat)
      ensures k == RejectionIndex(rows)
    {
      k := 0;
      while k < |rows| && rows[k].status != Rejected
        invariant k <= |rows|
        invariant RejectionIndex(rows) == k + RejectionIndex(rows[k..])
      {
        k := k + 1;
      }
    }

    method DecideAppeal(u: Uni, id: AppId, reviewer: UserId, auth: Authz, others: nat, upheld: bool)
      returns (why: Option<Refusal>)
      modifies this`apps, this`log
      ensures why == WhyRefused(ReviewAppealOn(old(Whole()), u, id, reviewer, auth, others, upheld))
      ensures Whole() == Step(old(Whole()), ReviewAppeal(u, id, reviewer, auth, others, upheld))
    {
      if id !in apps || apps[id].uni != u {
        return Some(ApplicationNotFound);
      }
      var app := apps[id];
      var k := FindRejected(app.rows);
      if app.appeal != AppealPending || k == |app.rows| {
        return Some(AppealNotFound);
      }
      if !CanDecide(auth, app.rows[k].approverRole, |app.rows|) {
        return Some(AppealReviewForbidden);
      }
      if app.rejectedBy == Some(reviewer) && others > 0 {
        return Some(AppealSameReviewer);
      }
      app := app.(appeal := if upheld then AppealUpheld else AppealDismissed);
      log := log + [LogEntry(id, 0, AppealReviewed(upheld), reviewer)];
      if upheld {
        app := app.(rows := app.rows[k := app.rows[k].(status := Pending)]);
        app := app.(status := Pending, rejectedBy := None, rejectedAt := None);
      }
      apps := apps[id := app];
      return None;
    }

    method WithdrawApplication(id: AppId, applicant: UserId) returns (why: Option<Refusal>)
      modifies this`apps, this`log, this`ballots
      ensures why == WhyRefused(WithdrawOn(old(Whole()), id, applicant))
      ensures Whole() == Step(old(Whole()), Withdraw(id, applicant))
    {
      if id !in apps || apps[id].applicant != applicant {
        return Some(ApplicationNotFound);
      }
      if apps[id].status != Pending {
        return Some(NotWithdrawable);
      }
      log := WithoutEntries(log, id);
      ballots := map b | b in ballots && b.0 != id :: ballots[b];
      apps := apps - {id};
      return None;
    }

    method ResubmitApplication(id: AppId, applicant: UserId, p: Proposal) returns (why: Option<Refusal>)
      modifies this`apps, this`log
      ensures why == WhyRefused(ResubmitOn(old(Whole()), id, applicant, p))
      ensures Whole() == Step(old(Whole()), Resubmit(id, applicant, p))
    {
      if id !in apps || apps[id].applicant != applicant || apps[id].status != RevisionRequested {
        return Some(NotResubmittable);
      }
      var app := apps[id];
      var k := 0;
      while k < |app.rows| && app.rows[k].status != RevisionRequested
        invariant k <= |app.rows|
        invariant RevisionIndex(app.rows) == k + RevisionIndex(app.rows[k..])
      {
        k := k + 1;
      }
      if k == |app.rows| {
        return Some(NotResubmittable);
      }
      app := app.(proposal := p, status := Pending);
      app := app.(rows := app.rows[k := app.rows[k].(status := Pending)]);
      apps := apps[id := app];
      log := log + [LogEntry(id, app.rows[k].step, Resubmitted, applicant)];
      return None;
    }
  }
}
