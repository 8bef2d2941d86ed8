/**
 Club applications as a transactional state machine: step decisions and committee votes with an event log,
 a status derived from the step rows, resubmissions, appeals, and the club that the last approval founds.
*/
module Applications {
  import opened Wrappers
  import opened ApprovalChain

  type AppId = nat
  type ClubId = nat
  type UserId = nat
  type Uni = nat

  type Decision = d: Status | d != Pending witness Approved

  /** What the applicant proposes; `slugBase` is the slug form of the name. */
  datatype Proposal = Proposal(name: string, slugBase: string, description: Option<string>)

  /** The one appeal an application can have. */
  datatype Appeal = NoAppeal | AppealPending | AppealUpheld | AppealDismissed

  datatype Application = Application(
    uni: Uni, applicant: UserId, proposal: Proposal, status: Status, rows: seq<Row>,
    rejectedBy: Option<UserId>, rejectedAt: Option<nat>, appeal: Appeal)

  /** Entries about an appeal carry step 0. */
  datatype EntryKind = Decided(decision: Decision) | Resubmitted | AppealSubmitted | AppealReviewed(upheld: bool)

  datatype LogEntry = LogEntry(app: AppId, step: int, kind: EntryKind, actor: UserId)

  datatype Club = Club(
    uni: Uni, name: string, slug: string, description: Option<string>, approved: bool, createdBy: UserId)

  datatype MemberRole = President | Officer | Plain

  datatype Member = Member(uni: Uni, role: MemberRole, approved: bool)

  /** The club an application led to, as it was inserted. */
  datatype Founding = Founding(clubId: ClubId, club: Club)

  /** A committee and the ballots cast at committee steps; a ballot outlives its voter's membership. */
  datatype Committee = Committee(uni: Uni, active: bool, members: set<UserId>)

  datatype Ballot = Ballot(committee: string, approves: bool)

  type Ballots = map<(AppId, int, UserId), Ballot>

  // ---------------------------------------------------------------- the appeal period

  const MAX_APPEAL_DAYS := 60

  /** A university's setting for how long a rejection can be appealed. */
  type Days = d: int | 1 <= d <= MAX_APPEAL_DAYS witness 14

  const DEFAULT_APPEAL_DAYS: Days := 14

  /** In milliseconds, as are all times here. */
  const DAY: nat := 86_400_000

  function Deadline(rejectedAt: nat, days: Days): nat {
    rejectedAt + days * DAY
  }

  /** The period in force, which is the default unless the university overrides it. */
  function PeriodOf(overrides: map<Uni, Days>, u: Uni): Days {
    if u in overrides then overrides[u] else DEFAULT_APPEAL_DAYS
  }

  /** `now` is the clock; `founded` is a record kept by the model alone: which application founded which club. */
  datatype State = State(
    apps: map<AppId, Application>, log: seq<LogEntry>,
    ballots: Ballots, committees: map<string, Committee>,
    clubs: map<ClubId, Club>, members: map<(ClubId, UserId), Member>, founded: map<AppId, Founding>,
    periods: map<Uni, Days>, now: nat)

  // ---------------------------------------------------------------- slugs

  const MAX_SLUG_ATTEMPTS: nat := 5

  function Candidate(base: string, attempt: nat): string
    requires attempt < MAX_SLUG_ATTEMPTS
  {
    if attempt == 0 then base else base + ['-', '0' + (attempt + 1) as char]
  }

  function FirstFree(taken: set<string>, base: string, attempt: nat): Option<string>
    requires attempt <= MAX_SLUG_ATTEMPTS
    decreases MAX_SLUG_ATTEMPTS - attempt
  {
    if attempt == MAX_SLUG_ATTEMPTS then None
    else if Candidate(base, attempt) !in taken then Some(Candidate(base, attempt))
    else FirstFree(taken, base, attempt + 1)
  }

  function Taken(clubs: map<ClubId, Club>, u: Uni): set<string> {
    set c | c in clubs && clubs[c].uni == u :: clubs[c].slug
  }

  lemma CandidatesAreDistinct(base: string, i: nat, j: nat)
    requires i < j < MAX_SLUG_ATTEMPTS
    ensures Candidate(base, i) != Candidate(base, j)
  {
    assert Candidate(base, j)[|base| + 1] == '0' + (j + 1) as char;
    if i > 0 {
      assert Candidate(base, i)[|base| + 1] == '0' + (i + 1) as char;
    }
  }

  /** The slug is the first of the five candidates that is free, and none is found only if all are taken. */
  lemma FirstOfFiveCandidates(taken: set<string>, base: string, slug: string)
    ensures FirstFree(taken, base, 0) == Some(slug) <==>
            exists i: nat :: i < MAX_SLUG_ATTEMPTS && slug == Candidate(base, i) && slug !in taken
                             && forall j: nat | j < i :: Candidate(base, j) in taken
    ensures FirstFree(taken, base, 0) == None <==>
            forall i: nat | i < MAX_SLUG_ATTEMPTS :: Candidate(base, i) in taken
  {
  }

  // ---------------------------------------------------------------- operations

  datatype Refusal =
    | ApplicationNotFound | AlreadyDecided | UseVoteEndpoint | StepForbidden | StepNotReady
    | ReasonRequired | CommitteeStepNotActive | CommitteeNotFound | VoteForbidden
    | SlugGenerationFailed | NotResubmittable | NotWithdrawable
    | AppealNotAllowed | AppealAlreadySubmitted | AppealDeadlinePassed
    | AppealNotFound | AppealReviewForbidden | AppealSameReviewer | InvalidSetting

  /** A refusal aborts the transaction. */
  datatype Outcome = Done(s: State) | Refused(why: Refusal)

  /** `others` counts the further reviewers there are; no `days` take the university back to the default period. */
  datatype Call =
    | Submit(id: AppId, uni: Uni, applicant: UserId, proposal: Proposal, chain: seq<ChainStep>)
    | Withdraw(id: AppId, applicant: UserId)
    | Decide(uni: Uni, id: AppId, actor: UserId, auth: Authz, decision: Decision, clubId: ClubId)
    | CastVote(uni: Uni, id: AppId, voter: UserId, approves: bool, hasReason: bool, clubId: ClubId)
    | Resubmit(id: AppId, applicant: UserId, proposal: Proposal)
    | SubmitAppeal(id: AppId, applicant: UserId)
    | ReviewAppeal(uni: Uni, id: AppId, reviewer: UserId, auth: Authz, others: nat, upheld: bool)
    | CreateCommittee(committee: string, uni: Uni, active: bool, members: set<UserId>)
    | UpdateCommittee(uni: Uni, committee: string, newActive: Option<bool>, newMembers: Option<set<UserId>>)
    | SetAppealPeriod(uni: Uni, days: Option<int>)
    | Wait(elapsed: nat)

  function SubmitOn(s: State, id: AppId, u: Uni, applicant: UserId, p: Proposal, chain: seq<ChainStep>): Outcome {
    Done(s.(apps := s.apps[id :=
      Application(u, applicant, p, Pending, BuildApprovalInsertRows(chain), None, None, NoAppeal)]))
  }

  /** The club of a fully approved application, with the applicant as its president. */
  function FoundClub(s: State, id: AppId, clubId: ClubId): Outcome
    requires id in s.apps
  {
    var app := s.apps[id];
    match FirstFree(Taken(s.clubs, app.uni), app.proposal.slugBase, 0)
    case None => Refused(SlugGenerationFailed)
    case Some(slug) =>
      var club := Club(app.uni, app.proposal.name, slug, app.proposal.description, true, app.applicant);
      Done(s.(clubs := s.clubs[clubId := club],
           members := s.members[(clubId, app.applicant) := Member(app.uni, President, true)],
           founded := s.founded[id := Founding(clubId, club)]))
  }

  /** The application after step row `k` was decided. */
  function WithDecision(app: Application, k: nat, d: Decision, actor: UserId, now: nat): Application
    requires k < |app.rows|
  {
    var rows := app.rows[k := app.rows[k].(status := d)];
    var status := DeriveStatus(rows);
    var decided := app.(rows := rows, status := status);
    if status == Rejected then decided.(rejectedBy := Some(actor), rejectedAt := Some(now)) else decided
  }

  function Recorded(s: State, id: AppId, k: nat, d: Decision, actor: UserId): State
    requires id in s.apps && k < |s.apps[id].rows|
  {
    s.(apps := s.apps[id := WithDecision(s.apps[id], k, d, actor, s.now)],
    log := s.log + [LogEntry(id, s.apps[id].rows[k].step, Decided(d), actor)])
  }

  function FinalizeStep(s: State, id: AppId, k: nat, d: Decision, actor: UserId, clubId: ClubId): Outcome
    requires id in s.apps && k < |s.apps[id].rows|
  {
    var t := Recorded(s, id, k, d, actor);
    if t.apps[id].status != Approved then Done(t) else FoundClub(t, id, clubId)
  }

  /** The first row with a step number, or the number of rows. */
  function IndexOfStep(rows: seq<Row>, step: int): (k: nat)
    ensures k <= |rows|
    ensures k < |rows| ==> rows[k].step == step
    ensures forall i | 0 <= i < k :: rows[i].step != step
  {
    if rows == [] || rows[0].step == step then 0 else 1 + IndexOfStep(rows[1..], step)
  }

  /** Who may decide a step directly: committees vote instead, though a member may ask for a revision. */
  function DirectRule(rows: seq<Row>, k: nat, current: Row, auth: Authz, isMember: bool, d: Decision): Option<Refusal>
    requires k < |rows|
  {
    if IsCommitteeMajorityStep(current) then
      if d != RevisionRequested then Some(UseVoteEndpoint)
      else if rows[k].committeeId.None? || rows[k].committeeId.value == "" then Some(AlreadyDecided)
      else if !isMember then Some(StepForbidden)
      else None
    else
      match DecideVerdict(auth, rows, current)
      case Allowed => None
      case NotReady => Some(StepNotReady)
      case Forbidden => Some(StepForbidden)
  }

  /** The committee a row names, or nothing. */
  function CommitteeOf(row: Row): string {
    if row.committeeId.Some? then row.committeeId.value else ""
  }

  /** The members of a committee that count: those of an active one of the university. */
  function ActiveMembers(committees: map<string, Committee>, committee: string, u: Uni): set<UserId> {
    if committee in committees && committees[committee].uni == u && committees[committee].active
    then committees[committee].members else {}
  }

  function DecideOn(
    s: State, u: Uni, id: AppId, actor: UserId, auth: Authz, d: Decision, clubId: ClubId): Outcome
  {
    if id !in s.apps || s.apps[id].uni != u then Refused(ApplicationNotFound)
    else
      var rows := s.apps[id].rows;
      var current := CurrentStep(rows);
      if s.apps[id].status != Pending || current.None? then Refused(AlreadyDecided)
      else
        var k := IndexOfStep(rows, current.value.step);
        if k == |rows| then Refused(AlreadyDecided)
        else
          var isMember := actor in ActiveMembers(s.committees, CommitteeOf(rows[k]), u);
          var why := DirectRule(rows, k, current.value, auth, isMember, d);
          if why.Some? then Refused(why.value) else FinalizeStep(s, id, k, d, actor, clubId)
  }

  // ---------------------------------------------------------------- committee votes

  /** Who voted one way at a step, whether or not still a member. */
  function Voters(ballots: Ballots, id: AppId, step: int, committee: string, approves: bool): set<UserId> {
    set b | b in ballots && b.0 == id && b.1 == step && ballots[b] == Ballot(committee, approves) :: b.2
  }

  /** The verdict of all ballots of a step, measured against the present members. */
  function Tally(s: State, u: Uni, id: AppId, step: int, committee: string): Option<Status> {
    TallyDecision(|ActiveMembers(s.committees, committee, u)|,
                  |Voters(s.ballots, id, step, committee, true)|, |Voters(s.ballots, id, step, committee, false)|)
  }

  /** Why a vote is refused; a vote that is not finds a current committee step. */
  function VoteRule(s: State, u: Uni, id: AppId, voter: UserId, approves: bool, hasReason: bool): (why: Option<Refusal>)
    ensures why.None? ==>
              && id in s.apps && s.apps[id].status == Pending && CurrentStep(s.apps[id].rows).Some?
              && IndexOfStep(s.apps[id].rows, CurrentStep(s.apps[id].rows).value.step) < |s.apps[id].rows|
              && voter in ActiveMembers(s.committees, CommitteeOf(CurrentStep(s.apps[id].rows).value), u)
              && s.apps[id].uni == u
  {
    if !approves && !hasReason then Some(ReasonRequired)
    else if id !in s.apps || s.apps[id].uni != u then Some(ApplicationNotFound)
    else if s.apps[id].status != Pending then Some(AlreadyDecided)
    else
      var rows := s.apps[id].rows;
      var current := CurrentStep(rows);
      if current.None? || !IsCommitteeMajorityStep(current.value) || CommitteeOf(current.value) == "" then
        Some(CommitteeStepNotActive)
      else if IndexOfStep(rows, current.value.step) == |rows| then Some(AlreadyDecided)
      else
        var committee := CommitteeOf(current.value);
        if committee !in s.committees || s.committees[committee].uni != u then Some(CommitteeNotFound)
        else if voter !in ActiveMembers(s.committees, committee, u) then Some(VoteForbidden)
        else None
  }

  /** A voter's earlier ballot at the step keeps its committee and changes its side. */
  function WithBallot(s: State, id: AppId, step: int, committee: string, voter: UserId, approves: bool): State {
    var key := (id, step, voter);
    s.(ballots := s.ballots[key := if key in s.ballots then s.ballots[key].(approves := approves)
                                   else Ballot(committee, approves)])
  }

  /** The vote is recorded, and when a side then reaches the threshold the current step is decided. */
  function RecordVoteOn(s: State, u: Uni, id: AppId, voter: UserId, approves: bool, clubId: ClubId): Outcome
    requires id in s.apps && CurrentStep(s.apps[id].rows).Some?
    requires IndexOfStep(s.apps[id].rows, CurrentStep(s.apps[id].rows).value.step) < |s.apps[id].rows|
  {
    var rows := s.apps[id].rows;
    var current := CurrentStep(rows).value;
    var t := WithBallot(s, id, current.step, CommitteeOf(current), voter, approves);
    var d := Tally(t, u, id, current.step, CommitteeOf(current));
    if d.None? then Done(t) else FinalizeStep(t, id, IndexOfStep(rows, current.step), d.value, voter, clubId)
  }

  function CastVoteOn(
    s: State, u: Uni, id: AppId, voter: UserId, approves: bool, hasReason: bool, clubId: ClubId): Outcome
  {
    var why := VoteRule(s, u, id, voter, approves, hasReason);
    if why.Some? then Refused(why.value) else RecordVoteOn(s, u, id, voter, approves, clubId)
  }

  // ---------------------------------------------------------------- resubmission, appeal, withdrawal

  function RevisionIndex(rows: seq<Row>): (k: nat)
    ensures k <= |rows|
    ensures k < |rows| ==> rows[k].status == RevisionRequested
    ensures forall i | 0 <= i < k :: rows[i].status != RevisionRequested
  {
    if rows == [] || rows[0].status == RevisionRequested then 0 else 1 + RevisionIndex(rows[1..])
  }

  function ResubmitOn(s: State, id: AppId, applicant: UserId, p: Proposal): Outcome {
    if id !in s.apps || s.apps[id].applicant != applicant || s.apps[id].status != RevisionRequested then
      Refused(NotResubmittable)
    else
      var app := s.apps[id];
      var k := RevisionIndex(app.rows);
      if k == |app.rows| then Refused(NotResubmittable)
      else
        var rows := app.rows[k := app.rows[k].(status := Pending)];
        Done(s.(apps := s.apps[id := app.(proposal := p, status := Pending, rows := rows)],
             log := s.log + [LogEntry(id, rows[k].step, Resubmitted, applicant)]))
  }

  function SubmitAppealOn(s: State, id: AppId, applicant: UserId): Outcome {
    if id !in s.apps || s.apps[id].applicant != applicant then Refused(ApplicationNotFound)
    else if s.apps[id].status != Rejected then Refused(AppealNotAllowed)
    else if s.apps[id].appeal != NoAppeal then Refused(AppealAlreadySubmitted)
    else if s.apps[id].rejectedAt.None? then Refused(AppealNotAllowed)
    else if s.now > Deadline(s.apps[id].rejectedAt.value, PeriodOf(s.periods, s.apps[id].uni)) then
      Refused(AppealDeadlinePassed)
    else
      Done(s.(apps := s.apps[id := s.apps[id].(appeal := AppealPending)],
           log := s.log + [LogEntry(id, 0, AppealSubmitted, applicant)]))
  }

  function RejectionIndex(rows: seq<Row>): (k: nat)
    ensures k <= |rows|
    ensures k < |rows| ==> rows[k].status == Rejected
    ensures forall i | 0 <= i < k :: rows[i].status != Rejected
  {
    if rows == [] || rows[0].status == Rejected then 0 else 1 + RejectionIndex(rows[1..])
  }

  /** Why an appeal is not reviewed; the rejector reviews it only where there is nobody else. */
  function ReviewRule(app: Application, reviewer: UserId, auth: Authz, others: nat): Option<Refusal> {
    var k := RejectionIndex(app.rows);
    if app.appeal != AppealPending || k == |app.rows| then Some(AppealNotFound)
    else if !CanDecide(auth, app.rows[k].approverRole, |app.rows|) then Some(AppealReviewForbidden)
    else if app.rejectedBy == Some(reviewer) && others > 0 then Some(AppealSameReviewer)
    else None
  }

  /** An upheld appeal makes the rejected step pending again; a dismissed one leaves the rejection. */
  function AfterReview(app: Application, upheld: bool): Application {
    var k := RejectionIndex(app.rows);
    if !upheld then app.(appeal := AppealDismissed)
    else if k == |app.rows| then app.(appeal := AppealUpheld, status := Pending, rejectedBy := None, rejectedAt := None)
    else
      app.(appeal := AppealUpheld, status := Pending, rejectedBy := None, rejectedAt := None,
      rows := app.rows[k := app.rows[k].(status := Pending)])
  }

  function ReviewAppealOn(
    s: State, u: Uni, id: AppId, reviewer: UserId, auth: Authz, others: nat, upheld: bool): Outcome
  {
    if id !in s.apps || s.apps[id].uni != u then Refused(ApplicationNotFound)
    else
      var why := ReviewRule(s.apps[id], reviewer, auth, others);
      if why.Some? then Refused(why.value)
      else
        Done(s.(apps := s.apps[id := AfterReview(s.apps[id], upheld)],
             log := s.log + [LogEntry(id, 0, AppealReviewed(upheld), reviewer)]))
  }

  function WithoutEntries(log: seq<LogEntry>, id: AppId): seq<LogEntry> {
    if log == [] then []
    else
      var e := log[|log| - 1];
      WithoutEntries(log[..|log| - 1], id) + if e.app == id then [] else [e]
  }

  /** Withdrawal deletes a pending application with its entries and ballots. */
  function WithdrawOn(s: State, id: AppId, applicant: UserId): Outcome {
    if id !in s.apps || s.apps[id].applicant != applicant then Refused(ApplicationNotFound)
    else if s.apps[id].status != Pending then Refused(NotWithdrawable)
    else
      Done(s.(apps := s.apps - {id}, log := WithoutEntries(s.log, id),
           ballots := (map b | b in s.ballots && b.0 != id :: s.ballots[b])))
  }

  // ---------------------------------------------------------------- committees

  function UpdateCommitteeOn(
    s: State, u: Uni, committee: string, active: Option<bool>, members: Option<set<UserId>>): Outcome
  {
    if committee !in s.committees || s.committees[committee].uni != u then Refused(CommitteeNotFound)
    else
      var before := s.committees[committee];
      var after := Committee(before.uni, if active.Some? then active.value else before.active,
                             if members.Some? then members.value else before.members);
      Done(s.(committees := s.committees[committee := after]))
  }

  /** A period that is the default is not stored. */
  function WithPeriod(overrides: map<Uni, Days>, u: Uni, days: Days): map<Uni, Days> {
    if days == DEFAULT_APPEAL_DAYS then overrides - {u} else overrides[u := days]
  }

  /** Only a whole number of days from the catalogue's range is accepted. */
  function SetAppealPeriodOn(s: State, u: Uni, days: Option<int>): Outcome {
    if days.Some? && !(1 <= days.value <= MAX_APPEAL_DAYS) then Refused(InvalidSetting)
    else Done(s.(periods := WithPeriod(s.periods, u, if days.Some? then days.value else DEFAULT_APPEAL_DAYS)))
  }

  /** New rows get new ids, and a parsed chain is never empty. */
  predicate Callable(s: State, c: Call) {
    match c
    case Submit(id, _, _, _, chain) => id !in s.apps && |chain| > 0
    case Withdraw(_, _) => true
    case Decide(_, _, _, _, _, clubId) => clubId !in s.clubs
    case CastVote(_, _, _, _, _, clubId) => clubId !in s.clubs
    case Resubmit(_, _, _) => true
    case SubmitAppeal(_, _) => true
    case ReviewAppeal(_, _, _, _, _, _) => true
    case CreateCommittee(committee, _, _, _) => committee !in s.committees
    case UpdateCommittee(_, _, _, _) => true
    case SetAppealPeriod(_, _) => true
    case Wait(_) => true
  }

  function Apply(s: State, c: Call): Outcome {
    match c
    case Submit(id, u, applicant, p, chain) => SubmitOn(s, id, u, applicant, p, chain)
    case Withdraw(id, applicant) => WithdrawOn(s, id, applicant)
    case Decide(u, id, actor, auth, d, clubId) => DecideOn(s, u, id, actor, auth, d, clubId)
    case CastVote(u, id, voter, approves, hasReason, clubId) => CastVoteOn(s, u, id, voter, approves, hasReason, clubId)
    case Resubmit(id, applicant, p) => ResubmitOn(s, id, applicant, p)
    case SubmitAppeal(id, applicant) => SubmitAppealOn(s, id, applicant)
    case ReviewAppeal(u, id, reviewer, auth, others, upheld) => ReviewAppealOn(s, u, id, reviewer, auth, others, upheld)
    case CreateCommittee(committee, u, active, members) =>
      Done(s.(committees := s.committees[committee := Committee(u, active, members)]))
    case UpdateCommittee(u, committee, active, members) => UpdateCommitteeOn(s, u, committee, active, members)
    case SetAppealPeriod(u, days) => SetAppealPeriodOn(s, u, days)
    case Wait(elapsed) => Done(s.(now := s.now + elapsed))
  }

  function Step(s: State, c: Call): State {
    match Apply(s, c)
    case Done(t) => t
    case Refused(_) => s
  }

  predicate Runs(s: State, calls: seq<Call>)
    decreases |calls|
  {
    calls == [] || (Callable(s, calls[0]) && Runs(Step(s, calls[0]), calls[1..]))
  }

  function After(s: State, calls: seq<Call>): State
    decreases |calls|
  {
    if calls == [] then s else After(Step(s, calls[0]), calls[1..])
  }

  /** No applications and ballots yet; any committees, and any clubs with their members, slugs being unique within each university. */
  predicate Initial(s: State) {
    && s.apps == map[] && s.log == [] && s.ballots == map[] && s.founded == map[]
    && SlugsUnique(s.clubs) && HaveClubs(s.members, s.clubs)
  }

  predicate SlugsUnique(clubs: map<ClubId, Club>) {
    forall c, e | c in clubs && e in clubs && clubs[c].uni == clubs[e].uni && clubs[c].slug == clubs[e].slug :: c == e
  }

  predicate HaveClubs(members: map<(ClubId, UserId), Member>, clubs: map<ClubId, Club>) {
    forall m | m in members :: m.0 in clubs
  }

  // ---------------------------------------------------------------- building runs

  const EMPTY := State(map[], [], map[], map[], map[], map[], map[], map[], 0)

  lemma {:induction false} RunExtends(s: State, calls: seq<Call>, c: Call)
    requires Runs(s, calls) && Callable(After(s, calls), c)
    ensures Runs(s, calls + [c]) && After(s, calls + [c]) == Step(After(s, calls), c)
    decreases |calls|
  {
    if calls == [] {
      assert [] + [c] == [c] && [c][1..] == [];
    } else {
      RunExtends(Step(s, calls[0]), calls[1..], c);
      assert (calls + [c])[1..] == calls[1..] + [c];
    }
  }

  ghost predicate Reached(calls: seq<Call>, s: State) {
    Runs(EMPTY, calls) && After(EMPTY, calls) == s
  }

  lemma Next(calls: seq<Call>, s: State, c: Call, t: State) returns (longer: seq<Call>)
    requires Reached(calls, s) && Callable(s, c) && Step(s, c) == t
    ensures longer == calls + [c] && Reached(longer, t)
  {
    RunExtends(EMPTY, calls, c);
    longer := calls + [c];
  }
}
