/**
 Which outcomes of an application are final. Approval is; a rejection is undone exactly by an upheld
 appeal, which an application can have once, in time, and only where its rejected step names a role.
*/
module ApplicationAppeals {
  import opened Wrappers
  import opened ApprovalChain
  import opened Applications
  import opened ApplicationProgress

  lemma OthersKeepTheirLog(s: State, t: State, e: LogEntry, id: AppId)
    requires t.log == s.log + [e] && e.app != id
    ensures LogOf(t.log, id) == LogOf(s.log, id)
  {
    LogOfExtended(s.log, e, id);
  }

  // ---------------------------------------------------------------- calls about other applications

  lemma OtherDecisionsKeep(s: State, c: Call, id: AppId)
    requires Settles(s, c) && id in s.apps && c.id != id
    ensures id in Step(s, c).apps && Step(s, c).apps[id] == s.apps[id]
    ensures LogOf(Step(s, c).log, id) == LogOf(s.log, id)
  {
    var k, d := DecisionFinalizes(s, c);
    FinalizeEffects(BeforeDeciding(s, c), c.id, k, d, ActorOf(c), c.clubId);
    OthersKeepTheirLog(s, Step(s, c), LogEntry(c.id, s.apps[c.id].rows[k].step, Decided(d), ActorOf(c)), id);
  }

  lemma OtherCallsKeep(s: State, c: Call, id: AppId)
    requires Callable(s, c) && id in s.apps
    requires IsSetting(c) || c.id != id
    ensures id in Step(s, c).apps && Step(s, c).apps[id] == s.apps[id]
    ensures LogOf(Step(s, c).log, id) == LogOf(s.log, id)
  {
    if c.Withdraw? {
      if Step(s, c) != s {
        WithdrawalIs(s, c);
        WithoutEntriesOf(s.log, c.id, id);
      }
    } else if Settles(s, c) {
      OtherDecisionsKeep(s, c, id);
    } else if IsRevival(c) {
      if Step(s, c) != s {
        var app, e := RevivalIs(s, c);
        OthersKeepTheirLog(s, Step(s, c), e, id);
      }
    } else if c.Submit? {
      SubmitIs(s, c);
    } else {
      OthersLeaveApplications(s, c);
    }
  }

  /** What can happen to an application that is not pending: a resubmission or a step of its appeal. */
  lemma DecidedCallsKeep(s: State, c: Call, id: AppId)
    requires Callable(s, c) && id in s.apps && s.apps[id].status != Pending && !IsRevival(c)
    ensures id in Step(s, c).apps && Step(s, c).apps[id] == s.apps[id]
    ensures LogOf(Step(s, c).log, id) == LogOf(s.log, id)
  {
    if IsSetting(c) || c.id != id {
      OtherCallsKeep(s, c, id);
    } else if Settles(s, c) {
      var k, d := DecisionFinalizes(s, c);
      assert false;
    } else if IsDecision(c) {
      OthersLeaveApplications(s, c);
    }
  }

  // ---------------------------------------------------------------- approval

  lemma ApprovedStep(s: State, c: Call, id: AppId)
    requires AllCoherent(s) && Callable(s, c) && id in s.apps && s.apps[id].status == Approved
    ensures id in Step(s, c).apps && Step(s, c).apps[id] == s.apps[id]
    ensures LogOf(Step(s, c).log, id) == LogOf(s.log, id)
  {
    if !IsRevival(c) {
      DecidedCallsKeep(s, c, id);
    } else if c.id != id {
      OtherCallsKeep(s, c, id);
    } else if Step(s, c) != s {
      var app, e := RevivalIs(s, c);
      DerivedFromProgress(s.apps[id].rows, ProgressOf(s.apps[id], LogOf(s.log, id)));
      assert false;
    }
  }

  /** Approval is final: no later call changes the application or its log. */
  lemma {:induction false} ApprovalIsFinal(s: State, calls: seq<Call>, id: AppId)
    requires AllCoherent(s) && Runs(s, calls) && id in s.apps && s.apps[id].status == Approved
    ensures id in After(s, calls).apps && After(s, calls).apps[id] == s.apps[id]
    ensures LogOf(After(s, calls).log, id) == LogOf(s.log, id)
    decreases |calls|
  {
    if calls != [] {
      ApprovedStep(s, calls[0], id);
      StepKeepsCoherence(s, calls[0]);
      ApprovalIsFinal(Step(s, calls[0]), calls[1..], id);
    }
  }

  // ---------------------------------------------------------------- rejection

  /** The call upholds the application's pending appeal, by somebody entitled to the rejected step. */
  predicate Upholds(app: Application, c: Call, id: AppId) {
    && c.ReviewAppeal? && c.id == id && c.upheld && c.uni == app.uni
    && app.appeal == AppealPending && RejectionIndex(app.rows) < |app.rows|
    && Meets(c.auth, app.rows[RejectionIndex(app.rows)], |app.rows|)
    && !(app.rejectedBy == Some(c.reviewer) && c.others > 0)
  }

  lemma RejectedHasRow(app: Application, log: seq<LogEntry>)
    requires Coherent(app, log) && app.status == Rejected
    ensures RejectionIndex(app.rows) < |app.rows|
  {
    var p := ProgressOf(app, log);
    DerivedFromProgress(app.rows, p);
    RejectionFromProgress(app.rows, p);
  }

  /** The application can still be appealed if the period is `days`. */
  predicate InTime(app: Application, now: nat, days: Days) {
    app.rejectedAt.Some? && now <= Deadline(app.rejectedAt.value, days)
  }

  lemma UpheldIsPending(app: Application)
    ensures AfterReview(app, true).status == Pending
    ensures AfterReview(app, true).appeal == AppealUpheld
    ensures AfterReview(app, false) == app.(appeal := AppealDismissed)
  {
  }

  /** A rejected application changes in three ways, and stops being rejected exactly by an upheld appeal. */
  lemma RejectedStep(s: State, c: Call, id: AppId)
    requires AllCoherent(s) && Callable(s, c) && id in s.apps && s.apps[id].status == Rejected
    ensures id in Step(s, c).apps
    ensures var app, app' := s.apps[id], Step(s, c).apps[id];
            || app' == app
            || (&& app.appeal == NoAppeal && InTime(app, s.now, PeriodOf(s.periods, app.uni))
                && app' == app.(appeal := AppealPending))
            || (app.appeal == AppealPending && app' == app.(appeal := AppealDismissed))
            || (Upholds(app, c, id) && app' == AfterReview(app, true))
    ensures Step(s, c).apps[id].status != Rejected <==> Upholds(s.apps[id], c, id)
  {
    RejectedHasRow(s.apps[id], LogOf(s.log, id));
    UpheldIsPending(s.apps[id]);
    if !IsRevival(c) {
      DecidedCallsKeep(s, c, id);
    } else if c.id != id {
      OtherCallsKeep(s, c, id);
    } else if Step(s, c) != s {
      var app, e := RevivalIs(s, c);
    } else if c.ReviewAppeal? {
      NothingIsRefusal(s, c);
    }
    if c.ReviewAppeal? {
      CanDecideIff(c.auth, s.apps[id].rows[RejectionIndex(s.apps[id].rows)], |s.apps[id].rows|);
    }
  }

  /** A reviewed appeal is logged, so a review that changes nothing was refused. */
  lemma NothingIsRefusal(s: State, c: Call)
    requires c.ReviewAppeal? && Step(s, c) == s
    ensures Apply(s, c).Refused?
  {
    assert Apply(s, c).Done? ==> |Step(s, c).log| == |s.log| + 1;
  }

  /** The rejected step names a role by which somebody can review an appeal. */
  predicate Reviewable(app: Application) {
    var k := RejectionIndex(app.rows);
    k < |app.rows| && app.rows[k].approverRole.Some? && app.rows[k].approverRole.value != ""
  }

  /** The appeal is pending, or there is none and it is in time for a period of `days`. */
  predicate Reopenable(app: Application, now: nat, days: Days) {
    Reviewable(app) && (app.appeal == AppealPending || (app.appeal == NoAppeal && InTime(app, now, days)))
  }

  /** The call sets the university's period to more than `most` days. */
  predicate Lengthens(c: Call, u: Uni, most: Days) {
    && c.SetAppealPeriod? && c.uni == u
    && most < (if c.days.Some? then c.days.value else DEFAULT_APPEAL_DAYS) <= MAX_APPEAL_DAYS
  }

  predicate StaysWithin(calls: seq<Call>, u: Uni, most: Days) {
    forall c | c in calls :: !Lengthens(c, u, most)
  }

  lemma ClockAndPeriod(s: State, c: Call, u: Uni, most: Days)
    requires PeriodOf(s.periods, u) <= most && !Lengthens(c, u, most)
    ensures PeriodOf(Step(s, c).periods, u) <= most && Step(s, c).now >= s.now
  {
    if Settles(s, c) {
      var k, d := DecisionFinalizes(s, c);
      FinalizeEffects(BeforeDeciding(s, c), c.id, k, d, ActorOf(c), c.clubId);
    } else if IsDecision(c) && Step(s, c) != s {
      UnsettledIsRecorded(s, c);
    } else if !IsDecision(c) && !IsSetting(c) {
      SettingsAreKept(s, c);
    }
  }

  lemma UnreviewableIsNotUpheld(app: Application, c: Call, id: AppId)
    requires !Reviewable(app)
    ensures !Upholds(app, c, id)
  {
  }

  lemma {:induction false} StaysRejected(s: State, calls: seq<Call>, id: AppId, most: Days)
    requires AllCoherent(s) && Runs(s, calls) && id in s.apps
    requires PeriodOf(s.periods, s.apps[id].uni) <= most && StaysWithin(calls, s.apps[id].uni, most)
    requires s.apps[id].status == Rejected && !Reopenable(s.apps[id], s.now, most)
    ensures id in After(s, calls).apps && After(s, calls).apps[id].status == Rejected
    ensures After(s, calls).apps[id].rows == s.apps[id].rows
    decreases |calls|
  {
    if calls != [] {
      if !Reviewable(s.apps[id]) {
        UnreviewableIsNotUpheld(s.apps[id], calls[0], id);
      }
      RejectedStep(s, calls[0], id);
      ClockAndPeriod(s, calls[0], s.apps[id].uni, most);
      StepKeepsCoherence(s, calls[0]);
      StaysRejected(Step(s, calls[0]), calls[1..], id, most);
    }
  }

  /** Somebody with club approval and the role, who did not reject it, upholds the appeal. */
  function Upholding(app: Application, id: AppId): Call
    requires Reviewable(app)
  {
    ReviewAppeal(app.uni, id, 0, Authz(true, {app.rows[RejectionIndex(app.rows)].approverRole.value}), 0, true)
  }

  lemma UpholdingUpholds(app: Application, id: AppId)
    requires Reviewable(app) && app.appeal == AppealPending
    ensures Upholds(app, Upholding(app, id), id)
  {
  }

  lemma PendingCanBeUpheld(s: State, id: AppId)
    requires AllCoherent(s) && id in s.apps && s.apps[id].status == Rejected
    requires Reviewable(s.apps[id]) && s.apps[id].appeal == AppealPending
    ensures var t := Step(s, Upholding(s.apps[id], id)); id in t.apps && t.apps[id].status != Rejected
  {
    UpholdingUpholds(s.apps[id], id);
    RejectedStep(s, Upholding(s.apps[id], id), id);
  }

  lemma TwoCalls(s: State, a: Call, b: Call)
    requires Callable(s, a) && Callable(Step(s, a), b)
    ensures Runs(s, [a, b]) && After(s, [a, b]) == Step(Step(s, a), b)
  {
    assert [a, b][1..] == [b] && [b][1..] == [];
    assert Runs(Step(s, a), [b]) && After(Step(s, a), [b]) == Step(Step(s, a), b);
  }

  lemma PatchedPeriod(s: State, u: Uni, days: Days)
    ensures var t := Step(s, SetAppealPeriod(u, Some(days)));
            t == s.(periods := t.periods) && PeriodOf(t.periods, u) == days
  {
    assert Apply(s, SetAppealPeriod(u, Some(days))) == SetAppealPeriodOn(s, u, Some(days));
  }

  lemma AppealInTime(s: State, id: AppId)
    requires IsRejected(s, id) && s.apps[id].appeal == NoAppeal
    requires InTime(s.apps[id], s.now, PeriodOf(s.periods, s.apps[id].uni))
    ensures var t := Step(s, SubmitAppeal(id, s.apps[id].applicant));
            id in t.apps && t.apps[id] == s.apps[id].(appeal := AppealPending)
  {
  }

  /** With the period set to `most` days an appeal in time for these can be submitted. */
  lemma CanBeAppealed(s: State, id: AppId, most: Days) returns (calls: seq<Call>, t: State)
    requires AllCoherent(s) && id in s.apps && s.apps[id].status == Rejected
    requires s.apps[id].appeal == NoAppeal && InTime(s.apps[id], s.now, most)
    ensures Runs(s, calls) && After(s, calls) == t && AllCoherent(t) && StaysWithin(calls, s.apps[id].uni, most)
    ensures id in t.apps && t.apps[id] == s.apps[id].(appeal := AppealPending)
  {
    var patch, appeal := SetAppealPeriod(s.apps[id].uni, Some(most)), SubmitAppeal(id, s.apps[id].applicant);
    var s1 := Step(s, patch);
    PatchedPeriod(s, s.apps[id].uni, most);
    StepKeepsCoherence(s, patch);
    AppealInTime(s1, id);
    StepKeepsCoherence(s1, appeal);
    TwoCalls(s, patch, appeal);
    calls, t := [patch, appeal], Step(s1, appeal);
  }

  lemma CanBeUpheld(s: State, id: AppId, most: Days) returns (calls: seq<Call>)
    requires AllCoherent(s) && id in s.apps && s.apps[id].status == Rejected && Reopenable(s.apps[id], s.now, most)
    ensures Runs(s, calls) && StaysWithin(calls, s.apps[id].uni, most)
    ensures id in After(s, calls).apps && After(s, calls).apps[id].status != Rejected
  {
    calls := [];
    var t := s;
    if s.apps[id].appeal == NoAppeal {
      calls, t := CanBeAppealed(s, id, most);
    }
    PendingCanBeUpheld(t, id);
    RunExtends(s, calls, Upholding(t.apps[id], id));
    calls := calls + [Upholding(t.apps[id], id)];
  }

  ghost predicate IsRejected(s: State, id: AppId) {
    id in s.apps && s.apps[id].status == Rejected
  }

  /**
   While the university's period is never set beyond `most` days, a rejection is final if and only if the
   appeal is used up, or it is too late for it even then, or the rejected step names no role.
  */
  lemma RejectionIsFinalWithinIff(s: State, id: AppId, most: Days)
    requires AllCoherent(s) && IsRejected(s, id) && PeriodOf(s.periods, s.apps[id].uni) <= most
    ensures (forall calls | Runs(s, calls) && StaysWithin(calls, s.apps[id].uni, most) :: IsRejected(After(s, calls), id))
            <==> !Reopenable(s.apps[id], s.now, most)
  {
    if Reopenable(s.apps[id], s.now, most) {
      var calls := CanBeUpheld(s, id, most);
    } else {
      forall calls | Runs(s, calls) && StaysWithin(calls, s.apps[id].uni, most)
        ensures IsRejected(After(s, calls), id)
      {
        StaysRejected(s, calls, id, most);
      }
    }
  }

  /**
   A rejection is final, whatever the settings become, if and only if the appeal is used up, or the longest
   period there is has passed without one, or the rejected step names no role: a committee's rejection is
   final, and so is a second rejection.
  */
  lemma RejectionIsFinalIff(s: State, id: AppId)
    requires AllCoherent(s) && IsRejected(s, id)
    ensures (forall calls | Runs(s, calls) :: IsRejected(After(s, calls), id))
            <==> !Reopenable(s.apps[id], s.now, MAX_APPEAL_DAYS)
  {
    RejectionIsFinalWithinIff(s, id, MAX_APPEAL_DAYS);
    assert forall calls :: StaysWithin(calls, s.apps[id].uni, MAX_APPEAL_DAYS);
  }

  /** A run in which nobody upholds the application's appeal leaves it rejected. */
  ghost predicate NeverUpheld(s: State, calls: seq<Call>, id: AppId)
    decreases |calls|
  {
    calls == [] || (!(id in s.apps && Upholds(s.apps[id], calls[0], id)) && NeverUpheld(Step(s, calls[0]), calls[1..], id))
  }

  lemma {:induction false} RejectedUntilUpheld(s: State, calls: seq<Call>, id: AppId)
    requires AllCoherent(s) && Runs(s, calls) && id in s.apps && s.apps[id].status == Rejected
    requires NeverUpheld(s, calls, id)
    ensures id in After(s, calls).apps && After(s, calls).apps[id].status == Rejected
    ensures After(s, calls).apps[id].rows == s.apps[id].rows
    decreases |calls|
  {
    if calls != [] {
      RejectedStep(s, calls[0], id);
      StepKeepsCoherence(s, calls[0]);
      RejectedUntilUpheld(Step(s, calls[0]), calls[1..], id);
    }
  }

  // ---------------------------------------------------------------- a rejection that is undone

  const PROPOSAL := Proposal("Chess", "chess", None)
  const APPROVER := Authz(true, {})

  function OneStep(status: Status): seq<Row> {
    [Row(1, RoleSequential, Some("club_approver"), None, status)]
  }

  function Chess(status: Status, rejectedBy: Option<UserId>, appeal: Appeal, log: seq<LogEntry>): State {
    var rejectedAt := if rejectedBy.Some? then Some(0) else None;
    EMPTY.(apps := map[0 := Application(0, 9, PROPOSAL, status, OneStep(status), rejectedBy, rejectedAt, appeal)],
    log := log)
  }

  /** The step's status is the application's. */
  lemma OneStepFacts(status: Status)
    ensures DeriveStatus(OneStep(status)) == status
    ensures CurrentStep(OneStep(status)) == if status == Pending then Some(OneStep(status)[0]) else None
    ensures RejectionIndex(OneStep(status)) == if status == Rejected then 0 else 1
    ensures IndexOfStep(OneStep(status), 1) == 0
  {
    assert OneStep(status)[0] in OneStep(status);
    SortOfOrdered(OneStep(status));
    if status == Approved {
      FirstOpenAt(OneStep(status), 1);
    } else {
      FirstOpenAt(OneStep(status), 0);
    }
  }

  lemma RejectedIsReached() returns (calls: seq<Call>, s: State)
    ensures Reached(calls, s) && s == Chess(Rejected, Some(1), NoAppeal, [LogEntry(0, 1, Decided(Rejected), 1)])
  {
    var s1 := Chess(Pending, None, NoAppeal, []);
    s := Chess(Rejected, Some(1), NoAppeal, [LogEntry(0, 1, Decided(Rejected), 1)]);
    var submit := Submit(0, 0, 9, PROPOSAL, [RoleStep("club_approver")]);
    SubmittedChess(submit, s1);
    calls := Next([], EMPTY, submit, s1);
    var reject := Decide(0, 0, 1, APPROVER, Rejected, 0);
    RejectedChess(reject, s1, s);
    calls := Next(calls, s1, reject, s);
  }

  /** User 1 rejects, the applicant appeals, user 2 upholds the appeal and approves. */
  lemma RejectedThenApproved() returns (before: seq<Call>, calls: seq<Call>, s: State, t: State)
    ensures Initial(EMPTY) && Reached(before, s) && Reached(calls, t) && before < calls
    ensures 0 in s.apps && s.apps[0].status == Rejected
    ensures 0 in t.apps && t.apps[0].status == Approved
  {
    before, s := RejectedIsReached();
    var s3 := Chess(Rejected, Some(1), AppealPending, s.log + [LogEntry(0, 0, AppealSubmitted, 9)]);
    var s4 := Chess(Pending, None, AppealUpheld, s3.log + [LogEntry(0, 0, AppealReviewed(true), 2)]);
    var appeal, uphold := SubmitAppeal(0, 9), ReviewAppeal(0, 0, 2, APPROVER, 1, true);
    AppealedChess(appeal, s, s3);
    calls := Next(before, s, appeal, s3);
    UpheldChess(uphold, s3, s4);
    calls := Next(calls, s3, uphold, s4);
    var approve := Decide(0, 0, 2, APPROVER, Approved, 0);
    ApprovedChess(approve, s4);
    t := Step(s4, approve);
    calls := Next(calls, s4, approve, t);
  }

  lemma SubmittedChess(c: Call, s1: State)
    requires c == Submit(0, 0, 9, PROPOSAL, [RoleStep("club_approver")]) && s1 == Chess(Pending, None, NoAppeal, [])
    ensures Callable(EMPTY, c) && Step(EMPTY, c) == s1
  {
    assert BuildApprovalInsertRows([RoleStep("club_approver")]) == OneStep(Pending);
  }

  lemma RejectedChess(c: Call, s1: State, s2: State)
    requires c == Decide(0, 0, 1, APPROVER, Rejected, 0) && s1 == Chess(Pending, None, NoAppeal, [])
    requires s2 == Chess(Rejected, Some(1), NoAppeal, [LogEntry(0, 1, Decided(Rejected), 1)])
    ensures Callable(s1, c) && Step(s1, c) == s2
  {
    OneStepFacts(Pending);
    OneStepFacts(Rejected);
    assert OneStep(Pending)[0 := OneStep(Pending)[0].(status := Rejected)] == OneStep(Rejected);
  }

  lemma AppealedChess(c: Call, s2: State, s3: State)
    requires c == SubmitAppeal(0, 9) && |s2.log| > 0 && s2 == Chess(Rejected, Some(1), NoAppeal, s2.log)
    requires s3 == Chess(Rejected, Some(1), AppealPending, s2.log + [LogEntry(0, 0, AppealSubmitted, 9)])
    ensures Callable(s2, c) && Step(s2, c) == s3
  {
  }

  lemma UpheldChess(c: Call, s3: State, s4: State)
    requires c == ReviewAppeal(0, 0, 2, APPROVER, 1, true) && s3 == Chess(Rejected, Some(1), AppealPending, s3.log)
    requires s4 == Chess(Pending, None, AppealUpheld, s3.log + [LogEntry(0, 0, AppealReviewed(true), 2)])
    ensures Callable(s3, c) && Step(s3, c) == s4
  {
    OneStepFacts(Rejected);
    assert OneStep(Rejected)[0 := OneStep(Rejected)[0].(status := Pending)] == OneStep(Pending);
  }

  lemma ApprovedChess(c: Call, s4: State)
    requires c == Decide(0, 0, 2, APPROVER, Approved, 0) && s4 == Chess(Pending, None, AppealUpheld, s4.log)
    ensures Callable(s4, c) && 0 in Step(s4, c).apps && Step(s4, c).apps[0].status == Approved
  {
    OneStepFacts(Pending);
    OneStepFacts(Approved);
    assert OneStep(Pending)[0 := OneStep(Pending)[0].(status := Approved)] == OneStep(Approved);
    FirstOfFiveCandidates({}, "chess", "chess");
    assert Taken(s4.clubs, 0) == {};
    assert Candidate("chess", 0) == "chess";
  }
}
