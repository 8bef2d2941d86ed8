/** What holds of club applications in every reachable state, and what decisions do along a run. */
module ApplicationSafety {
  import opened Wrappers
  import opened ApprovalChain
  import opened Applications
  import opened ApplicationProgress

  lemma Reachable(s0: State, calls: seq<Call>)
    requires Initial(s0) && Runs(s0, calls)
    ensures AllCoherent(After(s0, calls))
  {
    RunKeepsCoherence(s0, calls);
  }

  // ---------------------------------------------------------------- shape, status, current step

  /**
   The rows are `k` approved steps, then at most one rejected or revision-requested step, then pending
   steps; the stored status is the derived one; and it is pending exactly when a current step is found,
   which is then the first row that is not approved.
  */
  lemma ReachableShape(s0: State, calls: seq<Call>, id: AppId) returns (k: nat)
    requires Initial(s0) && Runs(s0, calls) && id in After(s0, calls).apps
    ensures var app := After(s0, calls).apps[id]; var rows := app.rows;
            && k <= |rows|
            && (forall i | 0 <= i < k :: rows[i].status == Approved)
            && (k < |rows| ==> rows[k].status != Approved)
            && (forall i | k < i < |rows| :: rows[i].status == Pending)
            && app.status == DeriveStatus(rows)
            && (app.status == Pending <==> CurrentStep(rows).Some?)
            && (CurrentStep(rows).Some? ==> k < |rows| && CurrentStep(rows).value == rows[k])
            && (app.status == Approved <==> k == |rows|)
  {
    Reachable(s0, calls);
    var s := After(s0, calls);
    var p := ProgressOf(s.apps[id], LogOf(s.log, id));
    k := p.approved;
    DerivedFromProgress(s.apps[id].rows, p);
    CurrentFromProgress(s.apps[id].rows, p);
  }

  // ---------------------------------------------------------------- the event log

  function ApprovedSteps(log: seq<LogEntry>): seq<int> {
    if log == [] then []
    else
      var e := log[|log| - 1];
      ApprovedSteps(log[..|log| - 1]) + (if e.kind == Decided(Approved) then [e.step] else [])
  }

  function FirstSteps(k: nat): seq<int> {
    if k == 0 then [] else FirstSteps(k - 1) + [k]
  }

  lemma {:induction false} ApprovalsFollowed(n: nat, log: seq<LogEntry>)
    requires Follow(n, log).Some?
    ensures ApprovedSteps(log) == FirstSteps(Follow(n, log).value.approved)
  {
    if log != [] {
      ApprovalsFollowed(n, log[..|log| - 1]);
    }
  }

  lemma CoherentLogIsInStepOrder(app: Application, log: seq<LogEntry>) returns (k: nat)
    requires Coherent(app, log)
    ensures ApprovedSteps(log) == FirstSteps(k) && k <= |app.rows|
    ensures forall i | 0 <= i < |app.rows| :: app.rows[i].status == Approved <==> i < k
  {
    ApprovalsFollowed(|app.rows|, log);
    k := ProgressOf(app, log).approved;
  }

  /** The approvals in an application's log are its steps from the first on, in order, once each. */
  lemma LogIsInStepOrder(s0: State, calls: seq<Call>, id: AppId) returns (k: nat)
    requires Initial(s0) && Runs(s0, calls) && id in After(s0, calls).apps
    ensures ApprovedSteps(LogOf(After(s0, calls).log, id)) == FirstSteps(k)
    ensures k <= |After(s0, calls).apps[id].rows|
    ensures forall i | 0 <= i < |After(s0, calls).apps[id].rows| ::
              After(s0, calls).apps[id].rows[i].status == Approved <==> i < k
  {
    Reachable(s0, calls);
    var s := After(s0, calls);
    k := CoherentLogIsInStepOrder(s.apps[id], LogOf(s.log, id));
  }

  // ---------------------------------------------------------------- clubs

  predicate IsCandidate(base: string, slug: string) {
    exists i: nat :: i < MAX_SLUG_ATTEMPTS && slug == Candidate(base, i)
  }

  /** The club an application asks for, under one of its candidate slugs. */
  predicate IsClubOf(app: Application, club: Club) {
    && club.uni == app.uni && club.name == app.proposal.name && club.description == app.proposal.description
    && club.createdBy == app.applicant && club.approved
    && IsCandidate(app.proposal.slugBase, club.slug)
  }

  /** The approved applications are those that founded a club, and it is the club they ask for. */
  ghost predicate Titles(apps: map<AppId, Application>, founded: map<AppId, Founding>) {
    && (forall a | a in founded :: a in apps && apps[a].status == Approved && IsClubOf(apps[a], founded[a].club))
    && (forall a | a in apps && apps[a].status == Approved :: a in founded)
  }

  ghost predicate IsFounded(founded: map<AppId, Founding>, c: ClubId) {
    exists a :: a in founded && founded[a].clubId == c
  }

  ghost predicate IsPresidency(founded: map<AppId, Founding>, m: (ClubId, UserId)) {
    exists a :: a in founded && m == (founded[a].clubId, founded[a].club.createdBy)
  }

  predicate OneEach(founded: map<AppId, Founding>) {
    forall a, b | a in founded && b in founded && founded[a].clubId == founded[b].clubId :: a == b
  }

  /** Beyond the initial clubs, which stay as they are, there are the founded ones and no others. */
  ghost predicate ClubTable(clubs0: map<ClubId, Club>, founded: map<AppId, Founding>, clubs: map<ClubId, Club>) {
    && (forall a | a in founded ::
          founded[a].clubId !in clubs0 && founded[a].clubId in clubs && clubs[founded[a].clubId] == founded[a].club)
    && OneEach(founded)
    && (forall c | c in clubs0 :: c in clubs && clubs[c] == clubs0[c])
    && (forall c | c in clubs && c !in clubs0 :: IsFounded(founded, c))
  }

  predicate Presides(f: Founding, members: map<(ClubId, UserId), Member>) {
    && (f.clubId, f.club.createdBy) in members
    && members[(f.clubId, f.club.createdBy)] == Member(f.club.uni, President, true)
  }

  /** Beyond the initial members, who stay as they are, there are the founded clubs' presidents and no others. */
  ghost predicate MemberTable(
    members0: map<(ClubId, UserId), Member>, founded: map<AppId, Founding>, members: map<(ClubId, UserId), Member>)
  {
    && (forall a | a in founded :: Presides(founded[a], members))
    && (forall m | m in members0 :: m in members && members[m] == members0[m])
    && (forall m | m in members && m !in members0 :: IsPresidency(founded, m))
  }

  ghost predicate Chartered(s0: State, s: State) {
    && Titles(s.apps, s.founded)
    && ClubTable(s0.clubs, s.founded, s.clubs)
    && MemberTable(s0.members, s.founded, s.members)
    && HaveClubs(s.members, s.clubs)
  }

  lemma FoundingKeepsOneEach(founded: map<AppId, Founding>, id: AppId, f: Founding)
    requires OneEach(founded) && id !in founded
    requires forall a | a in founded :: founded[a].clubId != f.clubId
    ensures OneEach(founded[id := f])
  {
  }

  lemma FoundingKeepsFounded(founded: map<AppId, Founding>, id: AppId, f: Founding, c: ClubId)
    requires id !in founded && (IsFounded(founded, c) || c == f.clubId)
    ensures IsFounded(founded[id := f], c)
  {
    var founded' := founded[id := f];
    if c == f.clubId {
      assert founded'[id].clubId == c;
    } else {
      var a :| a in founded && founded[a].clubId == c;
      assert founded'[a].clubId == c;
    }
  }

  lemma FoundingKeepsClubTable(
    clubs0: map<ClubId, Club>, founded: map<AppId, Founding>, clubs: map<ClubId, Club>, id: AppId, f: Founding)
    requires ClubTable(clubs0, founded, clubs) && id !in founded && f.clubId !in clubs
    ensures ClubTable(clubs0, founded[id := f], clubs[f.clubId := f.club])
  {
    forall a | a in founded
      ensures founded[a].clubId != f.clubId
    {
      assert founded[a].clubId in clubs;
    }
    FoundingKeepsOneEach(founded, id, f);
    forall c | c in clubs[f.clubId := f.club] && c !in clubs0
      ensures IsFounded(founded[id := f], c)
    {
      FoundingKeepsFounded(founded, id, f, c);
    }
  }

  lemma FoundingKeepsMemberTable(
    members0: map<(ClubId, UserId), Member>, founded: map<AppId, Founding>, members: map<(ClubId, UserId), Member>,
    id: AppId, f: Founding)
    requires MemberTable(members0, founded, members) && id !in founded
    requires (f.clubId, f.club.createdBy) !in members
    ensures MemberTable(members0, founded[id := f],
                        members[(f.clubId, f.club.createdBy) := Member(f.club.uni, President, true)])
  {
    var founded' := founded[id := f];
    var members' := members[(f.clubId, f.club.createdBy) := Member(f.club.uni, President, true)];
    assert id in founded' && (f.clubId, f.club.createdBy) == (founded'[id].clubId, founded'[id].club.createdBy);
    forall a | a in founded'
      ensures Presides(founded'[a], members')
    {
      assert a != id ==> Presides(founded[a], members);
    }
    forall m | m in members && m !in members0
      ensures IsPresidency(founded', m)
    {
      var a :| a in founded && m == (founded[a].clubId, founded[a].club.createdBy);
      assert a in founded' && m == (founded'[a].clubId, founded'[a].club.createdBy);
    }
  }

  lemma FoundingKeepsTitles(
    apps: map<AppId, Application>, founded: map<AppId, Founding>, id: AppId, app: Application, f: Founding)
    requires Titles(apps, founded) && app.status == Approved && IsClubOf(app, f.club)
    ensures Titles(apps[id := app], founded[id := f])
  {
  }

  lemma FirstFreeIsCandidate(taken: set<string>, base: string)
    ensures FirstFree(taken, base, 0).Some? ==> IsCandidate(base, FirstFree(taken, base, 0).value)
  {
  }

  lemma FoundClubKeepsCharter(s0: State, s: State, id: AppId, app: Application, clubId: ClubId)
    requires Chartered(s0, s) && id !in s.founded && app.status == Approved && clubId !in s.clubs
    requires FoundClub(s.(apps := s.apps[id := app]), id, clubId).Done?
    ensures Chartered(s0, FoundClub(s.(apps := s.apps[id := app]), id, clubId).s)
  {
    var t := FoundClub(s.(apps := s.apps[id := app]), id, clubId).s;
    var f := t.founded[id];
    assert t.founded == s.founded[id := f] && f.clubId == clubId;
    assert t.apps == s.apps[id := app];
    assert t.clubs == s.clubs[clubId := f.club];
    assert t.members == s.members[(clubId, f.club.createdBy) := Member(f.club.uni, President, true)];
    assert IsClubOf(app, f.club) by {
      FirstFreeIsCandidate(Taken(s.clubs, app.uni), app.proposal.slugBase);
    }
    FoundingKeepsTitles(s.apps, s.founded, id, app, f);
    FoundingKeepsClubTable(s0.clubs, s.founded, s.clubs, id, f);
    assert (clubId, f.club.createdBy) !in s.members;
    FoundingKeepsMemberTable(s0.members, s.founded, s.members, id, f);
    assert HaveClubs(t.members, t.clubs);
  }

  /** An application that is not approved, before and after, has no part in the charter. */
  lemma OtherwiseKeepsCharter(s0: State, s: State, t: State, id: AppId, app: Application)
    requires Chartered(s0, s) && id !in s.founded && app.status != Approved
    requires t.apps == s.apps[id := app] && t.founded == s.founded && t.clubs == s.clubs && t.members == s.members
    ensures Chartered(s0, t)
  {
  }

  lemma WithdrawalKeepsTitles(apps: map<AppId, Application>, founded: map<AppId, Founding>, id: AppId)
    requires Titles(apps, founded) && id !in founded
    ensures Titles(apps - {id}, founded)
  {
  }

  lemma WithdrawalKeepsCharter(s0: State, s: State, t: State, id: AppId)
    requires Chartered(s0, s) && id !in s.founded
    requires t.apps == s.apps - {id} && t.founded == s.founded && t.clubs == s.clubs && t.members == s.members
    ensures Chartered(s0, t)
  {
    WithdrawalKeepsTitles(s.apps, s.founded, id);
  }

  lemma FinalizeKeepsCharter(s0: State, s: State, id: AppId, k: nat, d: Decision, actor: UserId, clubId: ClubId)
    requires Chartered(s0, s)
    requires id in s.apps && k < |s.apps[id].rows| && s.apps[id].status == Pending && clubId !in s.clubs
    requires FinalizeStep(s, id, k, d, actor, clubId).Done?
    ensures Chartered(s0, FinalizeStep(s, id, k, d, actor, clubId).s)
  {
    var t := Recorded(s, id, k, d, actor);
    var app := t.apps[id];
    if app.status == Approved {
      var logged := s.(log := t.log);
      assert t == logged.(apps := logged.apps[id := app]);
      FoundClubKeepsCharter(s0, logged, id, app, clubId);
    } else {
      OtherwiseKeepsCharter(s0, s, t, id, app);
    }
  }

  /** No revival makes or unmakes an approved application. */
  lemma RevivedIsUnapproved(s: State, c: Call)
    requires AllCoherent(s) && IsRevival(c) && Step(s, c) != s
    ensures c.id in s.apps && s.apps[c.id].status in {Rejected, RevisionRequested}
    ensures c.id in Step(s, c).apps && Step(s, c).apps[c.id].status != Approved
  {
    var app, e := RevivalIs(s, c);
    DerivedFromProgress(s.apps[c.id].rows, ProgressOf(s.apps[c.id], LogOf(s.log, c.id)));
  }

  lemma StepKeepsCharter(s0: State, s: State, c: Call)
    requires Chartered(s0, s) && AllCoherent(s) && Callable(s, c)
    ensures Chartered(s0, Step(s, c))
  {
    if c.Submit? {
      SubmitIs(s, c);
      OtherwiseKeepsCharter(s0, s, Step(s, c), c.id, Step(s, c).apps[c.id]);
    } else if c.Withdraw? {
      if Step(s, c) != s {
        WithdrawalIs(s, c);
        WithdrawalKeepsCharter(s0, s, Step(s, c), c.id);
      }
    } else if Settles(s, c) {
      var k, d := DecisionFinalizes(s, c);
      FinalizeKeepsCharter(s0, BeforeDeciding(s, c), c.id, k, d, ActorOf(c), c.clubId);
    } else if IsRevival(c) {
      if Step(s, c) != s {
        RevivedIsUnapproved(s, c);
        var app, e := RevivalIs(s, c);
        OtherwiseKeepsCharter(s0, s, Step(s, c), c.id, app);
      }
    } else {
      OthersLeaveApplications(s, c);
    }
  }

  lemma {:induction false} RunKeepsCharter(s0: State, s: State, calls: seq<Call>)
    requires Chartered(s0, s) && AllCoherent(s) && Runs(s, calls)
    ensures Chartered(s0, After(s, calls))
    decreases |calls|
  {
    if calls != [] {
      StepKeepsCharter(s0, s, calls[0]);
      StepKeepsCoherence(s, calls[0]);
      RunKeepsCharter(s0, Step(s, calls[0]), calls[1..]);
    }
  }

  function AllApproved(apps: map<AppId, Application>): set<AppId> {
    set id | id in apps && forall r | r in apps[id].rows :: r.status == Approved
  }

  lemma ApprovedIffAllRows(app: Application)
    requires |app.rows| > 0 && app.status == DeriveStatus(app.rows)
    ensures app.status == Approved <==> forall r | r in app.rows :: r.status == Approved
  {
    assert app.rows[0] in app.rows;
  }

  lemma FoundedIsAllApproved(s: State)
    requires AllCoherent(s) && Titles(s.apps, s.founded)
    ensures s.founded.Keys == AllApproved(s.apps)
  {
    forall id | id in s.apps
      ensures s.apps[id].status == Approved <==> id in AllApproved(s.apps)
    {
      assert Coherent(s.apps[id], LogOf(s.log, id));
      ApprovedIffAllRows(s.apps[id]);
    }
  }

  lemma WithoutOneFounding(clubs0: map<ClubId, Club>, founded: map<AppId, Founding>, clubs: map<ClubId, Club>, a: AppId)
    requires ClubTable(clubs0, founded, clubs) && a in founded
    ensures ClubTable(clubs0, founded - {a}, clubs - {founded[a].clubId})
  {
    var c := founded[a].clubId;
    var fewer, less := founded - {a}, clubs - {c};
    forall x | x in less && x !in clubs0
      ensures IsFounded(fewer, x)
    {
      var b :| b in founded && founded[b].clubId == x;
      assert b in fewer && fewer[b].clubId == x;
    }
    assert forall b | b in fewer :: founded[b].clubId != c;
  }

  lemma ClubsCount(clubs0: map<ClubId, Club>, founded: map<AppId, Founding>, clubs: map<ClubId, Club>)
    requires ClubTable(clubs0, founded, clubs)
    ensures |clubs.Keys| == |clubs0.Keys| + |founded.Keys|
    decreases |founded.Keys|
  {
    if founded.Keys == {} {
      assert clubs.Keys == clubs0.Keys;
    } else {
      var a :| a in founded.Keys;
      var c := founded[a].clubId;
      WithoutOneFounding(clubs0, founded, clubs, a);
      assert (founded - {a}).Keys == founded.Keys - {a} && (clubs - {c}).Keys == clubs.Keys - {c};
      ClubsCount(clubs0, founded - {a}, clubs - {c});
    }
  }

  /**
   Exactly one club, with the applicant as its president, is founded for each application all of whose
   steps were approved, and none for any other; no other club or membership appears or changes.
  */
  lemma OneClubPerApprovedApplication(s0: State, calls: seq<Call>)
    requires Initial(s0) && Runs(s0, calls)
    ensures var s := After(s0, calls);
            && s.founded.Keys == AllApproved(s.apps)
            && (forall id | id in s.founded :: IsClubOf(s.apps[id], s.founded[id].club))
            && ClubTable(s0.clubs, s.founded, s.clubs)
            && MemberTable(s0.members, s.founded, s.members)
            && |s.clubs.Keys| == |s0.clubs.Keys| + |AllApproved(s.apps)|
  {
    Reachable(s0, calls);
    RunKeepsCharter(s0, s0, calls);
    var s := After(s0, calls);
    FoundedIsAllApproved(s);
    ClubsCount(s0.clubs, s.founded, s.clubs);
  }

  // ---------------------------------------------------------------- slugs

  lemma FoundingKeepsSlugs(s: State, id: AppId, clubId: ClubId)
    requires SlugsUnique(s.clubs) && id in s.apps && clubId !in s.clubs && FoundClub(s, id, clubId).Done?
    ensures SlugsUnique(FoundClub(s, id, clubId).s.clubs)
  {
    var clubs := FoundClub(s, id, clubId).s.clubs;
    FirstOfFiveCandidates(Taken(s.clubs, s.apps[id].uni), s.apps[id].proposal.slugBase, clubs[clubId].slug);
    forall c | c in s.clubs && s.clubs[c].uni == s.apps[id].uni
      ensures s.clubs[c].slug != clubs[clubId].slug
    {
      assert s.clubs[c].slug in Taken(s.clubs, s.apps[id].uni);
    }
  }

  lemma UnsettledKeepsClubs(s: State, c: Call)
    requires !Settles(s, c)
    ensures Step(s, c).clubs == s.clubs
  {
    if IsDecision(c) {
      OthersLeaveApplications(s, c);
    }
  }

  /** No run lets two clubs of one university share a slug. */
  lemma {:induction false} SlugsStayUnique(s: State, calls: seq<Call>)
    requires SlugsUnique(s.clubs) && Runs(s, calls)
    ensures SlugsUnique(After(s, calls).clubs)
    decreases |calls|
  {
    if calls != [] {
      var c := calls[0];
      if Settles(s, c) {
        var k, d := DecisionFinalizes(s, c);
        var t := Recorded(BeforeDeciding(s, c), c.id, k, d, ActorOf(c));
        if t.apps[c.id].status == Approved {
          FoundingKeepsSlugs(t, c.id, c.clubId);
        }
      } else {
        UnsettledKeepsClubs(s, c);
      }
      SlugsStayUnique(Step(s, c), calls[1..]);
    }
  }

  predicate Awaits(s: State, c: Call)
    requires c.Decide?
  {
    c.id in s.apps && s.apps[c.id].uni == c.uni && s.apps[c.id].status == Pending
  }

  /** Whether the actor has a seat on the committee of row `k`. */
  predicate IsSeated(s: State, c: Call, k: nat)
    requires c.Decide? && c.id in s.apps && k < |s.apps[c.id].rows|
  {
    c.actor in ActiveMembers(s.committees, CommitteeOf(s.apps[c.id].rows[k]), c.uni)
  }

  /** The application waits on step row `k` and the actor may decide it. */
  predicate MayDecide(s: State, c: Call, k: int)
    requires c.Decide?
  {
    && Awaits(s, c) && 0 <= k < |s.apps[c.id].rows|
    && CurrentStep(s.apps[c.id].rows) == Some(s.apps[c.id].rows[k])
    && DirectRule(s.apps[c.id].rows, k, s.apps[c.id].rows[k], c.auth, IsSeated(s, c, k), c.decision) == None
  }

  lemma NotAwaitingIsRefused(s: State, c: Call)
    requires c.Decide? && !Awaits(s, c)
    ensures Apply(s, c) in {Refused(ApplicationNotFound), Refused(AlreadyDecided)}
  {
  }

  lemma FinalizeFailsIff(s: State, id: AppId, k: nat, d: Decision, actor: UserId, clubId: ClubId)
    requires id in s.apps && Due(s.apps[id], LogOf(s.log, id), k)
    ensures FinalizeStep(s, id, k, d, actor, clubId) == Refused(SlugGenerationFailed) <==>
            && d == Approved && k == |s.apps[id].rows| - 1
            && forall i: nat | i < MAX_SLUG_ATTEMPTS ::
                 Candidate(s.apps[id].proposal.slugBase, i) in Taken(s.clubs, s.apps[id].uni)
  {
    var app, log := s.apps[id], LogOf(s.log, id);
    var e := LogEntry(id, app.rows[k].step, Decided(d), actor);
    DecisionKeepsCoherence(app, log, k, d, actor, s.now, e);
    var after := WithDecision(app, k, d, actor, s.now);
    DerivedFromProgress(after.rows, ProgressOf(after, log + [e]));
    FirstOfFiveCandidates(Taken(s.clubs, app.uni), app.proposal.slugBase, "");
  }

  /** On a pending application a decision is about the step its progress points at. */
  lemma DecideUnfolds(s: State, c: Call) returns (k: nat)
    requires AllCoherent(s) && c.Decide? && Awaits(s, c)
    ensures Due(s.apps[c.id], LogOf(s.log, c.id), k)
    ensures CurrentStep(s.apps[c.id].rows) == Some(s.apps[c.id].rows[k])
    ensures var why := DirectRule(s.apps[c.id].rows, k, s.apps[c.id].rows[k], c.auth, IsSeated(s, c, k), c.decision);
            Apply(s, c) == if why.Some? then Refused(why.value) else FinalizeStep(s, c.id, k, c.decision, c.actor, c.clubId)
  {
    var app := s.apps[c.id];
    var p := ProgressOf(app, LogOf(s.log, c.id));
    DerivedFromProgress(app.rows, p);
    CurrentFromProgress(app.rows, p);
    k := p.approved;
    assert Due(app, LogOf(s.log, c.id), k) && CurrentStep(app.rows) == Some(app.rows[k]);
    IndexFromProgress(app.rows, k);
    assert Apply(s, c) == DecideOn(s, c.uni, c.id, c.actor, c.auth, c.decision, c.clubId);
  }

  /**
   A decision fails for want of a slug exactly when it would approve the last step and all five candidates
   are taken; the transaction then leaves every table as it was.
  */
  lemma SlugFailureIffAllTaken(s: State, c: Call)
    requires AllCoherent(s) && c.Decide? && Callable(s, c)
    ensures Apply(s, c) == Refused(SlugGenerationFailed) <==>
            && c.id in s.apps && MayDecide(s, c, |s.apps[c.id].rows| - 1) && c.decision == Approved
            && forall i: nat | i < MAX_SLUG_ATTEMPTS ::
                 Candidate(s.apps[c.id].proposal.slugBase, i) in Taken(s.clubs, c.uni)
    ensures Apply(s, c).Refused? ==> Step(s, c) == s
  {
    if Awaits(s, c) {
      var k := DecideUnfolds(s, c);
      var rows := s.apps[c.id].rows;
      FinalizeFailsIff(s, c.id, k, c.decision, c.actor, c.clubId);
      NoOtherSlugFailure(rows, k, c, IsSeated(s, c, k));
      assert rows[k].step == k + 1 && rows[|rows| - 1].step == |rows|;
    } else {
      NotAwaitingIsRefused(s, c);
    }
  }

  lemma NoOtherSlugFailure(rows: seq<Row>, k: nat, c: Call, seated: bool)
    requires c.Decide? && k < |rows|
    ensures DirectRule(rows, k, rows[k], c.auth, seated, c.decision) != Some(SlugGenerationFailed)
  {
  }

  // ---------------------------------------------------------------- decisions along a run

  function PendingCount(rows: seq<Row>): nat {
    if rows == [] then 0 else PendingCount(rows[1..]) + if rows[0].status == Pending then 1 else 0
  }

  lemma PendingCountOfUpdate(rows: seq<Row>, k: nat, r: Row)
    requires k < |rows| && rows[k].status == Pending && r.status != Pending
    ensures PendingCount(rows[k := r]) == PendingCount(rows) - 1
  {
    if k > 0 {
      assert rows[k := r][1..] == rows[1..][k - 1 := r];
      PendingCountOfUpdate(rows[1..], k - 1, r);
    }
  }

  /** An effective decision settles exactly one pending step, logs it once, and touches no other application. */
  lemma DecisionSettlesOneStep(s: State, c: Call)
    requires AllCoherent(s) && Settles(s, c)
    ensures c.id in s.apps && c.id in Step(s, c).apps
    ensures PendingCount(Step(s, c).apps[c.id].rows) == PendingCount(s.apps[c.id].rows) - 1
    ensures exists e: LogEntry :: e.app == c.id && Step(s, c).log == s.log + [e]
    ensures forall id | id in s.apps && id != c.id :: id in Step(s, c).apps && Step(s, c).apps[id] == s.apps[id]
  {
    var k, d := DecisionIs(s, c);
    var rows := s.apps[c.id].rows;
    FinalizeEffects(BeforeDeciding(s, c), c.id, k, d, ActorOf(c), c.clubId);
    PendingCountOfUpdate(rows, k, rows[k].(status := d));
    assert Step(s, c).log == s.log + [LogEntry(c.id, rows[k].step, Decided(d), ActorOf(c))];
  }

  // ---------------------------------------------------------------- who decides

  /** A committee votes on it: its kind says so, or it names a committee and no role. */
  predicate IsCommitteeRow(row: Row) {
    row.kind == CommitteeMajority || (row.committeeId != None && row.approverRole == None)
  }

  /** Entitled to this decision on this row: the role it asks for, or, to send it back, a seat on its committee. */
  predicate Entitled(rows: seq<Row>, k: nat, c: Call, seated: bool)
    requires c.Decide? && k < |rows|
  {
    if IsCommitteeRow(rows[k]) then
      c.decision == RevisionRequested && seated && rows[k].committeeId !in {None, Some("")}
    else Meets(c.auth, rows[k], |rows|)
  }

  /** Entitled not to this row's decision but to a later one. */
  predicate IsEarly(rows: seq<Row>, k: nat, c: Call)
    requires c.Decide? && k < |rows|
  {
    && !IsCommitteeRow(rows[k]) && !Meets(c.auth, rows[k], |rows|)
    && exists j :: k < j < |rows| && Meets(c.auth, rows[j], |rows|)
  }

  lemma RuleIsEntitlement(rows: seq<Row>, k: nat, c: Call, seated: bool)
    requires c.Decide? && k < |rows| && Numbered(rows)
    requires forall i | k < i < |rows| :: rows[i].status == Pending
    ensures var why := DirectRule(rows, k, rows[k], c.auth, seated, c.decision);
            && (why == None <==> Entitled(rows, k, c, seated))
            && (why == Some(StepNotReady) <==> IsEarly(rows, k, c))
            && (why.Some? ==> why.value in {StepNotReady, StepForbidden, UseVoteEndpoint, AlreadyDecided})
  {
    CanDecideIff(c.auth, rows[k], |rows|);
    LaterStepIff(rows, k, c);
  }

  lemma LaterStepIff(rows: seq<Row>, k: nat, c: Call)
    requires c.Decide? && k < |rows| && Numbered(rows)
    requires forall i | k < i < |rows| :: rows[i].status == Pending
    ensures (exists r :: r in rows && r.step > rows[k].step && r.status == Pending && CanDecide(c.auth, r.approverRole, |rows|))
            <==> exists j :: k < j < |rows| && Meets(c.auth, rows[j], |rows|)
  {
    if r :| r in rows && r.step > rows[k].step && r.status == Pending && CanDecide(c.auth, r.approverRole, |rows|) {
      var j :| 0 <= j < |rows| && rows[j] == r;
      CanDecideIff(c.auth, rows[j], |rows|);
      assert k < j < |rows| && Meets(c.auth, rows[j], |rows|);
    }
    if j :| k < j < |rows| && Meets(c.auth, rows[j], |rows|) {
      CanDecideIff(c.auth, rows[j], |rows|);
      assert rows[j] in rows && rows[j].step > rows[k].step;
    }
  }

  lemma FinalizeEnds(s: State, id: AppId, k: nat, d: Decision, actor: UserId, clubId: ClubId)
    requires id in s.apps && k < |s.apps[id].rows|
    ensures var o := FinalizeStep(s, id, k, d, actor, clubId); o.Done? || o == Refused(SlugGenerationFailed)
  {
  }

  /**
   On a pending application the first step that is not approved is the one decided, by exactly the entitled;
   those entitled only to a later step are told that it is not their turn.
  */
  lemma DecidedByTheEntitled(s: State, c: Call) returns (k: nat)
    requires AllCoherent(s) && c.Decide? && Awaits(s, c)
    ensures k < |s.apps[c.id].rows| && CurrentStep(s.apps[c.id].rows) == Some(s.apps[c.id].rows[k])
    ensures Apply(s, c).Done? || Apply(s, c) == Refused(SlugGenerationFailed) <==>
            Entitled(s.apps[c.id].rows, k, c, IsSeated(s, c, k))
    ensures Apply(s, c) == Refused(StepNotReady) <==> IsEarly(s.apps[c.id].rows, k, c)
  {
    k := DecideUnfolds(s, c);
    RuleIsEntitlement(s.apps[c.id].rows, k, c, IsSeated(s, c, k));
    FinalizeEnds(s, c.id, k, c.decision, c.actor, c.clubId);
  }

  /** While an application is not pending, every decision about it is refused, as is a vote. */
  lemma DecidedIsRefused(s: State, c: Call)
    requires IsDecision(c) && c.id in s.apps && s.apps[c.id].uni == c.uni && s.apps[c.id].status != Pending
    ensures Apply(s, c) == Refused(if c.CastVote? && !c.approves && !c.hasReason then ReasonRequired else AlreadyDecided)
  {
  }

  lemma ReopenedIsDue(app: Application, log: seq<LogEntry>, k: nat)
    requires Coherent(app, log) && k == RevisionIndex(app.rows) && k < |app.rows|
    ensures app.rows[k].status == RevisionRequested
    ensures CurrentStep(app.rows[k := app.rows[k].(status := Pending)]) == Some(app.rows[k].(status := Pending))
    ensures forall i | 0 <= i < k :: app.rows[i].status == Approved
  {
    RevisionFromProgress(app.rows, ProgressOf(app, log));
    CurrentFromProgress(app.rows[k := app.rows[k].(status := Pending)], Progress(k, Pending, app.appeal));
  }

  /**
   A resubmission keeps the approvals given so far, and the ballots of the step that asked for the
   revision, and makes that step due again.
  */
  lemma ResubmissionResumes(s: State, c: Call) returns (k: nat)
    requires AllCoherent(s) && c.Resubmit? && Step(s, c) != s
    ensures c.id in s.apps && c.id in Step(s, c).apps && k < |s.apps[c.id].rows|
    ensures s.apps[c.id].rows[k].status == RevisionRequested
    ensures Step(s, c).apps[c.id].rows == s.apps[c.id].rows[k := s.apps[c.id].rows[k].(status := Pending)]
    ensures CurrentStep(Step(s, c).apps[c.id].rows) == Some(s.apps[c.id].rows[k].(status := Pending))
    ensures forall i | 0 <= i < k :: s.apps[c.id].rows[i].status == Approved
    ensures Step(s, c).ballots == s.ballots
  {
    var app, e := RevivalIs(s, c);
    k := RevisionIndex(s.apps[c.id].rows);
    ReopenedIsDue(s.apps[c.id], LogOf(s.log, c.id), k);
  }
}
