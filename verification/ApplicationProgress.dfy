/**
 How far an application's chain has come, read off its event log: the steps approved so far and the
 standing of the next one. Every row of a reachable application follows from it.
*/
module ApplicationProgress {
  import opened Wrappers
  import opened ApprovalChain
  import opened Applications

  datatype Progress = Progress(approved: nat, next: Status, appeal: Appeal)

  const START := Progress(0, Pending, NoAppeal)

  /** The progress after one more log entry; an entry out of turn has none. */
  function Advance(n: nat, p: Progress, e: LogEntry): Option<Progress> {
    if p.approved >= n then None
    else
      match e.kind
      case Decided(d) =>
        if e.step != p.approved + 1 || p.next != Pending then None
        else if d == Approved then Some(p.(approved := p.approved + 1))
        else Some(p.(next := d))
      case Resubmitted =>
        if e.step == p.approved + 1 && p.next == RevisionRequested then Some(p.(next := Pending)) else None
      case AppealSubmitted =>
        if e.step == 0 && p.next == Rejected && p.appeal == NoAppeal then Some(p.(appeal := AppealPending)) else None
      case AppealReviewed(upheld) =>
        if e.step != 0 || p.next != Rejected || p.appeal != AppealPending then None
        else if upheld then Some(p.(next := Pending, appeal := AppealUpheld))
        else Some(p.(appeal := AppealDismissed))
  }

  /** The progress a whole log of one application amounts to. */
  function Follow(n: nat, log: seq<LogEntry>): Option<Progress> {
    if log == [] then Some(START)
    else
      var before := Follow(n, log[..|log| - 1]);
      if before.None? then None else Advance(n, before.value, log[|log| - 1])
  }

  function LogOf(log: seq<LogEntry>, id: AppId): seq<LogEntry> {
    if log == [] then []
    else
      var e := log[|log| - 1];
      LogOf(log[..|log| - 1], id) + (if e.app == id then [e] else [])
  }

  lemma LogOfExtended(log: seq<LogEntry>, e: LogEntry, id: AppId)
    ensures LogOf(log + [e], id) == if e.app == id then LogOf(log, id) + [e] else LogOf(log, id)
  {
  }

  /** Approved rows, then the next one, then rows nobody has looked at. */
  predicate Matches(rows: seq<Row>, p: Progress) {
    && p.approved <= |rows|
    && p.next != Approved
    && (p.approved == |rows| ==> p.next == Pending)
    && (p.appeal == AppealPending ==> p.next == Rejected)
    && (forall i | 0 <= i < p.approved :: rows[i].status == Approved)
    && (p.approved < |rows| ==> rows[p.approved].status == p.next)
    && (forall i | p.approved < i < |rows| :: rows[i].status == Pending)
  }

  function Standing(n: nat, p: Progress): Status {
    if p.approved == n then Approved else p.next
  }

  lemma DerivedFromProgress(rows: seq<Row>, p: Progress)
    requires |rows| > 0 && Matches(rows, p)
    ensures DeriveStatus(rows) == Standing(|rows|, p)
  {
  }

  lemma CurrentFromProgress(rows: seq<Row>, p: Progress)
    requires Numbered(rows) && Matches(rows, p)
    ensures CurrentStep(rows) == if p.approved < |rows| && p.next == Pending then Some(rows[p.approved]) else None
  {
    SortOfOrdered(rows);
    FirstOpenAt(rows, p.approved);
  }

  lemma IndexFromProgress(rows: seq<Row>, k: nat)
    requires Numbered(rows) && k < |rows|
    ensures IndexOfStep(rows, rows[k].step) == k
  {
  }

  lemma RevisionFromProgress(rows: seq<Row>, p: Progress)
    requires Matches(rows, p)
    ensures p.approved < |rows| && p.next == RevisionRequested ==> RevisionIndex(rows) == p.approved
    ensures !(p.approved < |rows| && p.next == RevisionRequested) ==> RevisionIndex(rows) == |rows|
  {
    var k := RevisionIndex(rows);
    if k < |rows| {
      assert rows[k].status == RevisionRequested;
    }
  }

  lemma RejectionFromProgress(rows: seq<Row>, p: Progress)
    requires Matches(rows, p)
    ensures p.approved < |rows| && p.next == Rejected ==> RejectionIndex(rows) == p.approved
    ensures !(p.approved < |rows| && p.next == Rejected) ==> RejectionIndex(rows) == |rows|
  {
    var k := RejectionIndex(rows);
    if k < |rows| {
      assert rows[k].status == Rejected;
    }
  }

  /**
   One application and its log: the log is in turn, rows and appeal follow from it, the stored status is
   derived, and a rejection has its time.
  */
  ghost predicate Coherent(app: Application, log: seq<LogEntry>) {
    && |app.rows| > 0 && Numbered(app.rows)
    && Follow(|app.rows|, log).Some?
    && Matches(app.rows, Follow(|app.rows|, log).value)
    && app.appeal == Follow(|app.rows|, log).value.appeal
    && app.status == DeriveStatus(app.rows)
    && (app.status == Rejected ==> app.rejectedAt.Some?)
  }

  function ProgressOf(app: Application, log: seq<LogEntry>): (p: Progress)
    requires Coherent(app, log)
    ensures Matches(app.rows, p)
  {
    Follow(|app.rows|, log).value
  }

  /** Row `k` is the one whose decision is due. */
  ghost predicate Due(app: Application, log: seq<LogEntry>, k: nat) {
    Coherent(app, log) && k < |app.rows| && ProgressOf(app, log) == Progress(k, Pending, app.appeal)
  }

  /** A decision is only possible on the step that is due. */
  lemma DecisionIsDue(app: Application, log: seq<LogEntry>, k: nat)
    requires Coherent(app, log) && app.status == Pending
    requires CurrentStep(app.rows).Some? && k == IndexOfStep(app.rows, CurrentStep(app.rows).value.step)
    ensures Due(app, log, k) && CurrentStep(app.rows).value == app.rows[k]
  {
    var p := ProgressOf(app, log);
    CurrentFromProgress(app.rows, p);
    IndexFromProgress(app.rows, p.approved);
  }

  lemma DecisionKeepsCoherence(
    app: Application, log: seq<LogEntry>, k: nat, d: Decision, actor: UserId, now: nat, e: LogEntry)
    requires Due(app, log, k)
    requires e.step == app.rows[k].step && e.kind == Decided(d)
    ensures Coherent(WithDecision(app, k, d, actor, now), log + [e])
    ensures ProgressOf(WithDecision(app, k, d, actor, now), log + [e]) ==
            if d == Approved then Progress(k + 1, Pending, app.appeal) else Progress(k, d, app.appeal)
  {
  }

  lemma ResubmissionKeepsCoherence(app: Application, log: seq<LogEntry>, p: Proposal, e: LogEntry, k: nat)
    requires Coherent(app, log) && app.status == RevisionRequested && k == RevisionIndex(app.rows)
    requires k < |app.rows| && e.step == app.rows[k].step && e.kind == Resubmitted
    ensures Coherent(app.(proposal := p, status := Pending, rows := app.rows[k := app.rows[k].(status := Pending)]), log + [e])
  {
  }

  lemma AppealKeepsCoherence(app: Application, log: seq<LogEntry>, e: LogEntry)
    requires Coherent(app, log) && app.status == Rejected && app.appeal == NoAppeal
    requires e.step == 0 && e.kind == AppealSubmitted
    ensures Coherent(app.(appeal := AppealPending), log + [e])
  {
    DerivedFromProgress(app.rows, ProgressOf(app, log));
  }

  lemma ReviewKeepsCoherence(app: Application, log: seq<LogEntry>, upheld: bool, e: LogEntry)
    requires Coherent(app, log) && app.appeal == AppealPending
    requires e.step == 0 && e.kind == AppealReviewed(upheld)
    ensures Coherent(AfterReview(app, upheld), log + [e])
  {
    var p := ProgressOf(app, log);
    RejectionFromProgress(app.rows, p);
    DerivedFromProgress(app.rows, p);
    if upheld {
      DerivedFromProgress(AfterReview(app, upheld).rows, Progress(p.approved, Pending, AppealUpheld));
    }
  }

  // ---------------------------------------------------------------- whole runs

  /** Every application is coherent with its log, and no log entry is about an unknown application. */
  ghost predicate AllCoherent(s: State) {
    && (forall id | id in s.apps :: Coherent(s.apps[id], LogOf(s.log, id)))
    && (forall e | e in s.log :: e.app in s.apps)
  }

  lemma UnknownHasNoLog(log: seq<LogEntry>, id: AppId)
    requires forall e | e in log :: e.app != id
    ensures LogOf(log, id) == []
  {
  }

  lemma SubmitKeepsCoherence(s: State, id: AppId, u: Uni, applicant: UserId, p: Proposal, chain: seq<ChainStep>)
    requires AllCoherent(s) && id !in s.apps && |chain| > 0
    ensures AllCoherent(SubmitOn(s, id, u, applicant, p, chain).s)
  {
    var rows := BuildApprovalInsertRows(chain);
    UnknownHasNoLog(s.log, id);
    forall i | 0 <= i < |rows|
      ensures rows[i].status == Pending
    {
      assert rows[i] in rows;
    }
    assert Matches(rows, START);
    DerivedFromProgress(rows, START);
  }

  /** Replacing one application and logging one entry about it. */
  lemma UpdateKeepsCoherence(s: State, t: State, id: AppId, app: Application, e: LogEntry)
    requires AllCoherent(s) && id in s.apps && e.app == id
    requires Coherent(app, LogOf(s.log, id) + [e])
    requires t.apps == s.apps[id := app] && t.log == s.log + [e]
    ensures AllCoherent(t)
  {
    forall x | x in t.apps
      ensures Coherent(t.apps[x], LogOf(t.log, x))
    {
      LogOfExtended(s.log, e, x);
      if x != id {
        assert t.apps[x] == s.apps[x] && LogOf(t.log, x) == LogOf(s.log, x);
      }
    }
    forall f | f in t.log
      ensures f.app in t.apps
    {
      assert f in s.log || f == e;
    }
  }

  lemma WithoutEntriesOf(log: seq<LogEntry>, id: AppId, x: AppId)
    ensures LogOf(WithoutEntries(log, id), x) == if x == id then [] else LogOf(log, x)
    ensures forall e | e in WithoutEntries(log, id) :: e in log && e.app != id
  {
    if log != [] {
      var before, e := log[..|log| - 1], log[|log| - 1];
      WithoutEntriesOf(before, id, x);
      if e.app != id {
        LogOfExtended(WithoutEntries(before, id), e, x);
      } else {
        assert WithoutEntries(log, id) == WithoutEntries(before, id);
      }
    }
  }

  lemma WithdrawalKeepsCoherence(s: State, t: State, id: AppId)
    requires AllCoherent(s) && t.apps == s.apps - {id} && t.log == WithoutEntries(s.log, id)
    ensures AllCoherent(t)
  {
    forall x | x in t.apps
      ensures Coherent(t.apps[x], LogOf(t.log, x))
    {
      WithoutEntriesOf(s.log, id, x);
    }
    forall e | e in t.log
      ensures e.app in t.apps
    {
      WithoutEntriesOf(s.log, id, e.app);
    }
  }

  /** What finalizing a step does to the applications and the log, whether or not it founds a club. */
  lemma FinalizeEffects(s: State, id: AppId, k: nat, d: Decision, actor: UserId, clubId: ClubId)
    requires id in s.apps && k < |s.apps[id].rows| && FinalizeStep(s, id, k, d, actor, clubId).Done?
    ensures var t := FinalizeStep(s, id, k, d, actor, clubId).s;
            && t.apps == s.apps[id := WithDecision(s.apps[id], k, d, actor, s.now)]
            && t.log == s.log + [LogEntry(id, s.apps[id].rows[k].step, Decided(d), actor)]
            && t.ballots == s.ballots && t.committees == s.committees
            && t.periods == s.periods && t.now == s.now
  {
  }

  lemma FinalizeKeepsCoherence(s: State, id: AppId, k: nat, d: Decision, actor: UserId, clubId: ClubId)
    requires AllCoherent(s) && id in s.apps && Due(s.apps[id], LogOf(s.log, id), k)
    requires FinalizeStep(s, id, k, d, actor, clubId).Done?
    ensures AllCoherent(FinalizeStep(s, id, k, d, actor, clubId).s)
  {
    var e := LogEntry(id, s.apps[id].rows[k].step, Decided(d), actor);
    DecisionKeepsCoherence(s.apps[id], LogOf(s.log, id), k, d, actor, s.now, e);
    FinalizeEffects(s, id, k, d, actor, clubId);
    UpdateKeepsCoherence(s, FinalizeStep(s, id, k, d, actor, clubId).s, id, WithDecision(s.apps[id], k, d, actor, s.now), e);
  }

  // ---------------------------------------------------------------- what an effective call does

  predicate IsDecision(c: Call) {
    c.Decide? || c.CastVote?
  }

  function ActorOf(c: Call): UserId
    requires IsDecision(c)
  {
    if c.Decide? then c.actor else c.voter
  }

  /** The state a decision is taken in: a vote is on record before it is counted. */
  function BeforeDeciding(s: State, c: Call): State
    requires IsDecision(c)
  {
    if c.CastVote? && c.id in s.apps && CurrentStep(s.apps[c.id].rows).Some? then
      var current := CurrentStep(s.apps[c.id].rows).value;
      WithBallot(s, c.id, current.step, CommitteeOf(current), c.voter, c.approves)
    else s
  }

  /** A decision or vote that settles a step; a vote can also just be recorded. */
  predicate Settles(s: State, c: Call) {
    IsDecision(c) && Step(s, c).log != s.log
  }

  /** It finalizes the step that the scan finds on a pending application. */
  lemma DecisionFinalizes(s: State, c: Call) returns (k: nat, d: Decision)
    requires Settles(s, c)
    ensures c.id in s.apps && s.apps[c.id].status == Pending && CurrentStep(s.apps[c.id].rows).Some?
    ensures k == IndexOfStep(s.apps[c.id].rows, CurrentStep(s.apps[c.id].rows).value.step) && k < |s.apps[c.id].rows|
    ensures BeforeDeciding(s, c).apps == s.apps && BeforeDeciding(s, c).log == s.log
    ensures BeforeDeciding(s, c).clubs == s.clubs && BeforeDeciding(s, c).members == s.members
    ensures BeforeDeciding(s, c).founded == s.founded && BeforeDeciding(s, c).committees == s.committees
    ensures FinalizeStep(BeforeDeciding(s, c), c.id, k, d, ActorOf(c), c.clubId) == Done(Step(s, c))
    ensures c.Decide? ==> d == c.decision
    ensures c.CastVote? ==>
              var current := CurrentStep(s.apps[c.id].rows).value;
              && VoteRule(s, c.uni, c.id, c.voter, c.approves, c.hasReason).None?
              && Tally(BeforeDeciding(s, c), c.uni, c.id, current.step, CommitteeOf(current)) == Some(d)
  {
    k := IndexOfStep(s.apps[c.id].rows, CurrentStep(s.apps[c.id].rows).value.step);
    d := if c.Decide? then c.decision else
      var current := CurrentStep(s.apps[c.id].rows).value;
      Tally(BeforeDeciding(s, c), c.uni, c.id, current.step, CommitteeOf(current)).value;
  }

  /** That step is the one that is due. */
  lemma DecisionIs(s: State, c: Call) returns (k: nat, d: Decision)
    requires AllCoherent(s) && Settles(s, c)
    ensures c.id in s.apps && s.apps[c.id].status == Pending && Due(s.apps[c.id], LogOf(s.log, c.id), k)
    ensures s.apps[c.id].rows[k].status == Pending
    ensures BeforeDeciding(s, c).apps == s.apps && BeforeDeciding(s, c).log == s.log
    ensures FinalizeStep(BeforeDeciding(s, c), c.id, k, d, ActorOf(c), c.clubId) == Done(Step(s, c))
  {
    k, d := DecisionFinalizes(s, c);
    DecisionIsDue(s.apps[c.id], LogOf(s.log, c.id), k);
  }

  /** Resubmissions and appeals rewrite one application and log one entry about it. */
  predicate IsRevival(c: Call) {
    c.Resubmit? || c.SubmitAppeal? || c.ReviewAppeal?
  }

  /** An effective one, with the status it needs; only a resubmission and an upheld appeal change the status. */
  lemma RevivalIs(s: State, c: Call) returns (app: Application, e: LogEntry)
    requires IsRevival(c) && Step(s, c) != s
    ensures c.id in s.apps && e.app == c.id
    ensures Step(s, c) == s.(apps := s.apps[c.id := app], log := s.log + [e])
    ensures c.Resubmit? ==>
              var k := RevisionIndex(s.apps[c.id].rows);
              && s.apps[c.id].status == RevisionRequested && k < |s.apps[c.id].rows|
              && e == LogEntry(c.id, s.apps[c.id].rows[k].step, Resubmitted, c.applicant)
              && app == s.apps[c.id].(proposal := c.proposal, status := Pending,
                                      rows := s.apps[c.id].rows[k := s.apps[c.id].rows[k].(status := Pending)])
    ensures c.SubmitAppeal? ==>
              && s.apps[c.id].status == Rejected && s.apps[c.id].appeal == NoAppeal && s.apps[c.id].rejectedAt.Some?
              && s.now <= Deadline(s.apps[c.id].rejectedAt.value, PeriodOf(s.periods, s.apps[c.id].uni))
              && app == s.apps[c.id].(appeal := AppealPending) && e == LogEntry(c.id, 0, AppealSubmitted, c.applicant)
    ensures c.ReviewAppeal? ==>
              && s.apps[c.id].appeal == AppealPending && app == AfterReview(s.apps[c.id], c.upheld)
              && e == LogEntry(c.id, 0, AppealReviewed(c.upheld), c.reviewer)
  {
    app := Step(s, c).apps[c.id];
    e := Step(s, c).log[|s.log|];
  }

  lemma RevivalKeepsCoherence(s: State, c: Call)
    requires AllCoherent(s) && IsRevival(c) && Step(s, c) != s
    ensures AllCoherent(Step(s, c))
  {
    var app, e := RevivalIs(s, c);
    var log := LogOf(s.log, c.id);
    if c.Resubmit? {
      ResubmissionKeepsCoherence(s.apps[c.id], log, c.proposal, e, RevisionIndex(s.apps[c.id].rows));
    } else if c.SubmitAppeal? {
      AppealKeepsCoherence(s.apps[c.id], log, e);
    } else {
      ReviewKeepsCoherence(s.apps[c.id], log, c.upheld, e);
    }
    UpdateKeepsCoherence(s, Step(s, c), c.id, app, e);
  }

  /** Changes of committees and settings, and the passing of time. */
  predicate IsSetting(c: Call) {
    c.CreateCommittee? || c.UpdateCommittee? || c.SetAppealPeriod? || c.Wait?
  }

  /** These, and votes that settle nothing, leave applications and log alone. */
  lemma OthersLeaveApplications(s: State, c: Call)
    requires IsSetting(c) || (IsDecision(c) && !Settles(s, c))
    ensures Step(s, c).apps == s.apps && Step(s, c).log == s.log && Step(s, c).founded == s.founded
    ensures Step(s, c).clubs == s.clubs && Step(s, c).members == s.members
  {
    if IsDecision(c) && Step(s, c) != s {
      UnsettledIsRecorded(s, c);
    }
  }

  /** Settling logs an entry, so what does not settle was at most recorded. */
  lemma UnsettledIsRecorded(s: State, c: Call)
    requires IsDecision(c) && !Settles(s, c) && Step(s, c) != s
    ensures c.CastVote? && Step(s, c) == BeforeDeciding(s, c)
  {
    if c.Decide? {
      DecisionIsLogged(s, c);
    }
  }

  lemma DecisionIsLogged(s: State, c: Call)
    requires c.Decide? && Step(s, c) != s
    ensures |Step(s, c).log| == |s.log| + 1
  {
  }

  lemma SubmitIs(s: State, c: Call)
    requires c.Submit?
    ensures Step(s, c) == SubmitOn(s, c.id, c.uni, c.applicant, c.proposal, c.chain).s
  {
  }

  lemma WithdrawalIs(s: State, c: Call)
    requires c.Withdraw? && Step(s, c) != s
    ensures c.id in s.apps && s.apps[c.id].status == Pending
    ensures Step(s, c).apps == s.apps - {c.id} && Step(s, c).log == WithoutEntries(s.log, c.id)
    ensures Step(s, c).founded == s.founded && Step(s, c).clubs == s.clubs && Step(s, c).members == s.members
  {
    assert Apply(s, c) == WithdrawOn(s, c.id, c.applicant);
  }

  /** Only a change of settings touches committees, periods and clock, and no such call touches a ballot but a vote. */
  lemma SettingsAreKept(s: State, c: Call)
    requires !IsSetting(c) && !IsDecision(c)
    ensures Step(s, c).committees == s.committees && Step(s, c).periods == s.periods && Step(s, c).now == s.now
    ensures forall b | b in Step(s, c).ballots :: b in s.ballots && Step(s, c).ballots[b] == s.ballots[b]
  {
    if IsRevival(c) && Step(s, c) != s {
      var app, e := RevivalIs(s, c);
    } else if c.Submit? {
      SubmitIs(s, c);
    }
  }

  lemma StepKeepsCoherence(s: State, c: Call)
    requires AllCoherent(s) && Callable(s, c)
    ensures AllCoherent(Step(s, c))
  {
    if c.Submit? {
      SubmitKeepsCoherence(s, c.id, c.uni, c.applicant, c.proposal, c.chain);
    } else if c.Withdraw? {
      if Step(s, c) != s {
        WithdrawalIs(s, c);
        WithdrawalKeepsCoherence(s, Step(s, c), c.id);
      }
    } else if Settles(s, c) {
      var k, d := DecisionIs(s, c);
      FinalizeKeepsCoherence(BeforeDeciding(s, c), c.id, k, d, ActorOf(c), c.clubId);
    } else if IsRevival(c) {
      if Step(s, c) != s {
        RevivalKeepsCoherence(s, c);
      }
    } else {
      OthersLeaveApplications(s, c);
    }
  }

  lemma {:induction false} RunKeepsCoherence(s: State, calls: seq<Call>)
    requires AllCoherent(s) && Runs(s, calls)
    ensures AllCoherent(After(s, calls))
    decreases |calls|
  {
    if calls != [] {
      StepKeepsCoherence(s, calls[0]);
      RunKeepsCoherence(Step(s, calls[0]), calls[1..]);
    }
  }
}
