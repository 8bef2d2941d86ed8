/**
 The approval chain of a club application: parsing a configured chain, deriving an application's status
 from its step rows, and finding the step whose decision is due.
*/
module ApprovalChain {
  import opened Wrappers

  datatype Status = Pending | Approved | Rejected | RevisionRequested

  datatype StepKind = RoleSequential | CommitteeMajority

  datatype ChainStep = RoleStep(role: string) | CommitteeStep(committeeId: string)

  datatype Row = Row(
    step: int, kind: StepKind, approverRole: Option<string>, committeeId: Option<string>, status: Status)

  const ROLE_TOKENS: set<string> := {
    "club_approver", "advisor", "student_affairs", "university_admin",
    "academic_affairs", "content_moderator", "auditor"
  }

  const MIN_STEPS := 1
  const MAX_STEPS := 3

  // ---------------------------------------------------------------- parsing

  /** A JSON value, as far as parsing looks at it. */
  datatype Json =
    | JText(text: string)
    | JList(items: seq<Json>)
    | JObject(fields: map<string, Json>)
    | JOther

  predicate IsHex(c: char) {
    '0' <= c <= '9' || 'a' <= c <= 'f' || 'A' <= c <= 'F'
  }

  predicate IsUuid(s: string) {
    && |s| == 36
    && s[14] in "12345"
    && s[19] in "89abAB"
    && (forall i | 0 <= i < 36 :: if i in {8, 13, 18, 23} then s[i] == '-' else IsHex(s[i]))
  }

  predicate HasText(fields: map<string, Json>, key: string) {
    key in fields && fields[key].JText?
  }

  /** The step an item stands for; a bare role name is the older notation. */
  function StepOf(item: Json): Option<ChainStep> {
    match item
    case JText(role) => if role in ROLE_TOKENS then Some(RoleStep(role)) else None
    case JObject(f) =>
      if !HasText(f, "type") then None
      else if f["type"].text == "role_sequential" && HasText(f, "role") && f["role"].text in ROLE_TOKENS then
        Some(RoleStep(f["role"].text))
      else if f["type"].text == "committee_majority" && HasText(f, "committeeId") && IsUuid(f["committeeId"].text) then
        Some(CommitteeStep(f["committeeId"].text))
      else None
    case JList(_) => None
    case JOther => None
  }

  predicate Parses(raw: Json) {
    && raw.JList?
    && MIN_STEPS <= |raw.items| <= MAX_STEPS
    && forall i | 0 <= i < |raw.items| :: StepOf(raw.items[i]).Some?
  }

  method ParseApprovalChainSteps(raw: Json) returns (steps: Option<seq<ChainStep>>)
    ensures steps.Some? <==> Parses(raw)
    ensures steps.Some? ==> 1 <= |raw.items| <= 3 && |steps.value| == |raw.items|
    ensures steps.Some? ==> forall i | 0 <= i < |raw.items| :: StepOf(raw.items[i]) == Some(steps.value[i])
  {
    if !raw.JList? || |raw.items| < MIN_STEPS || |raw.items| > MAX_STEPS {
      return None;
    }
    var parsed := [];
    for k := 0 to |raw.items|
      invariant |parsed| == k
      invariant forall i | 0 <= i < k :: StepOf(raw.items[i]) == Some(parsed[i])
    {
      var item := raw.items[k];
      match item {
        case JText(role) =>
          if role !in ROLE_TOKENS {
            return None;
          }
          parsed := parsed + [RoleStep(role)];
        case JObject(f) =>
          if HasText(f, "type") && f["type"].text == "role_sequential"
             && HasText(f, "role") && f["role"].text in ROLE_TOKENS {
            parsed := parsed + [RoleStep(f["role"].text)];
          } else if HasText(f, "type") && f["type"].text == "committee_majority"
                    && HasText(f, "committeeId") && IsUuid(f["committeeId"].text) {
            parsed := parsed + [CommitteeStep(f["committeeId"].text)];
          } else {
            return None;
          }
        case JList(_) =>
          return None;
        case JOther =>
          return None;
      }
    }
    return Some(parsed);
  }

  predicate Says(item: Json, key: string, text: string) {
    item.JObject? && key in item.fields && item.fields[key] == JText(text)
  }

  /** Eight, four, four, four and twelve hexadecimal digits, of version 1 to 5 and variant 8 to b. */
  predicate IsUuidText(s: string) {
    && |s| == 36 && s[8] == '-' && s[13] == '-' && s[18] == '-' && s[23] == '-'
    && s[14] in {'1', '2', '3', '4', '5'} && s[19] in {'8', '9', 'a', 'b', 'A', 'B'}
    && (forall i | 0 <= i < 36 && i != 8 && i != 13 && i != 18 && i != 23 ::
          '0' <= s[i] <= '9' || 'a' <= s[i] <= 'f' || 'A' <= s[i] <= 'F')
  }

  /** A role step is a known role, alone or in an object of its type; a committee step names the committee by a UUID. */
  lemma ItemParsesIff(item: Json, step: ChainStep)
    ensures StepOf(item) == Some(step) <==>
            match step
            case RoleStep(role) =>
              && role in {"club_approver", "advisor", "student_affairs", "university_admin", "academic_affairs",
                          "content_moderator", "auditor"}
              && (item == JText(role) || (Says(item, "type", "role_sequential") && Says(item, "role", role)))
            case CommitteeStep(id) =>
              Says(item, "type", "committee_majority") && Says(item, "committeeId", id) && IsUuidText(id)
  {
    if Says(item, "type", "committee_majority") && HasText(item.fields, "committeeId") {
      UuidIff(item.fields["committeeId"].text);
    }
  }

  lemma UuidIff(s: string)
    ensures IsUuid(s) <==> IsUuidText(s)
  {
    if |s| == 36 {
      assert s[14] in "12345" <==> s[14] in {'1', '2', '3', '4', '5'};
      assert s[19] in "89abAB" <==> s[19] in {'8', '9', 'a', 'b', 'A', 'B'};
    }
  }

  /** A step as it is stored in the tenant's settings. */
  function Stored(step: ChainStep): Json {
    match step
    case RoleStep(role) => JObject(map["type" := JText("role_sequential"), "role" := JText(role)])
    case CommitteeStep(id) => JObject(map["type" := JText("committee_majority"), "committeeId" := JText(id)])
  }

  /** A chain can be parsed from its stored form exactly when each step is one that parsing yields. */
  lemma StoredStepParses(step: ChainStep)
    ensures StepOf(Stored(step)) == Some(step) <==> exists item :: StepOf(item) == Some(step)
    ensures StepOf(Stored(step)) == Some(step) || StepOf(Stored(step)) == None
  {
  }

  // ---------------------------------------------------------------- status and current step

  /** A rejection outweighs everything; approval needs every step. */
  function DeriveStatus(rows: seq<Row>): Status {
    if exists r :: r in rows && r.status == Rejected then Rejected
    else if |rows| > 0 && forall r | r in rows :: r.status == Approved then Approved
    else if exists r :: r in rows && r.status == RevisionRequested then RevisionRequested
    else Pending
  }

  /** One rejection rejects; failing that all approvals approve, and one wish for a revision asks for it. */
  lemma DerivedStatusIs(rows: seq<Row>)
    ensures var status := DeriveStatus(rows);
            && (status == Rejected <==> exists r :: r in rows && r.status == Rejected)
            && (status == Approved <==> rows != [] && forall r | r in rows :: r.status == Approved)
            && (status == RevisionRequested <==>
                  (exists r :: r in rows && r.status == RevisionRequested) && forall r | r in rows :: r.status != Rejected)
  {
    if rows != [] {
      assert rows[0] in rows;
    }
  }

  function InsertByStep(r: Row, sorted: seq<Row>): (out: seq<Row>)
    ensures multiset(out) == multiset{r} + multiset(sorted)
  {
    if sorted == [] || r.step <= sorted[0].step then
      [r] + sorted
    else
      assert sorted == [sorted[0]] + sorted[1..];
      [sorted[0]] + InsertByStep(r, sorted[1..])
  }

  lemma InsertedElements(r: Row, sorted: seq<Row>, x: Row)
    requires x in InsertByStep(r, sorted)
    ensures x == r || x in sorted
  {
  }

  lemma InsertKeepsOrder(r: Row, sorted: seq<Row>)
    requires Ordered(sorted)
    ensures Ordered(InsertByStep(r, sorted))
  {
    if sorted != [] && r.step > sorted[0].step {
      var rest := InsertByStep(r, sorted[1..]);
      InsertKeepsOrder(r, sorted[1..]);
      forall i | 0 <= i < |rest|
        ensures sorted[0].step <= rest[i].step
      {
        InsertedElements(r, sorted[1..], rest[i]);
      }
    }
  }

  predicate Ordered(rows: seq<Row>) {
    forall i, j | 0 <= i < j < |rows| :: rows[i].step <= rows[j].step
  }

  /** The stable sort by step number. */
  function SortedByStep(rows: seq<Row>): (out: seq<Row>)
    ensures multiset(out) == multiset(rows)
  {
    if rows == [] then []
    else
      assert rows == [rows[0]] + rows[1..];
      InsertByStep(rows[0], SortedByStep(rows[1..]))
  }

  lemma SortOrders(rows: seq<Row>)
    ensures Ordered(SortedByStep(rows))
    ensures forall x :: x in SortedByStep(rows) <==> x in rows
  {
    if rows != [] {
      SortOrders(rows[1..]);
      InsertKeepsOrder(rows[0], SortedByStep(rows[1..]));
    }
    forall x
      ensures x in SortedByStep(rows) <==> x in rows
    {
      assert x in multiset(SortedByStep(rows)) <==> x in multiset(rows);
    }
  }

  /** The first row that is not approved, provided it is still pending. */
  function FirstOpen(sorted: seq<Row>): Option<Row> {
    if sorted == [] then None
    else if sorted[0].status == Approved then FirstOpen(sorted[1..])
    else if sorted[0].status == Pending then Some(sorted[0])
    else None
  }

  function CurrentStep(rows: seq<Row>): Option<Row> {
    FirstOpen(SortedByStep(rows))
  }

  lemma FirstOpenAt(sorted: seq<Row>, k: nat)
    requires k <= |sorted|
    requires forall i | 0 <= i < k :: sorted[i].status == Approved
    ensures k == |sorted| ==> FirstOpen(sorted) == None
    ensures k < |sorted| && sorted[k].status == Pending ==> FirstOpen(sorted) == Some(sorted[k])
    ensures k < |sorted| && sorted[k].status in {Rejected, RevisionRequested} ==> FirstOpen(sorted) == None
  {
    if k > 0 {
      FirstOpenAt(sorted[1..], k - 1);
    }
  }

  lemma EarlierAreApproved(sorted: seq<Row>, k: nat, s: Row)
    requires Ordered(sorted) && k < |sorted|
    requires forall i | 0 <= i < k :: sorted[i].status == Approved
    requires s in sorted && s.step < sorted[k].step
    ensures s.status == Approved
  {
  }

  /** The scan's check that all earlier steps are approved never fails. */
  method FindCurrentApprovalStep(rows: seq<Row>) returns (current: Option<Row>)
    ensures current == CurrentStep(rows)
  {
    var sorted := SortedByStep(rows);
    SortOrders(rows);
    for k := 0 to |sorted|
      invariant forall i | 0 <= i < k :: sorted[i].status == Approved
    {
      FirstOpenAt(sorted, k);
      var row := sorted[k];
      if row.status == Rejected || row.status == RevisionRequested {
        return None;
      }
      if row.status == Pending {
        forall s | s in sorted && s.step < row.step
          ensures s.status == Approved
        {
          EarlierAreApproved(sorted, k, s);
        }
        var priorOk := forall s | s in sorted && s.step < row.step :: s.status == Approved;
        return if priorOk then Some(row) else None;
      }
    }
    FirstOpenAt(sorted, |sorted|);
    return None;
  }

  predicate DistinctSteps(rows: seq<Row>) {
    forall i, j | 0 <= i < j < |rows| :: rows[i].step != rows[j].step
  }

  lemma DistinctRowsOfSteps(rows: seq<Row>, a: Row, b: Row)
    requires DistinctSteps(rows) && a in rows && b in rows && a != b
    ensures a.step != b.step
  {
  }

  /** The row found, as an index into the sorted rows. */
  lemma FirstOpenIndex(sorted: seq<Row>) returns (k: nat)
    requires FirstOpen(sorted).Some?
    ensures k < |sorted| && sorted[k] == FirstOpen(sorted).value && sorted[k].status == Pending
    ensures forall i | 0 <= i < k :: sorted[i].status == Approved
  {
    if sorted[0].status == Approved {
      k := FirstOpenIndex(sorted[1..]);
      k := k + 1;
    } else {
      k := 0;
    }
  }

  predicate IsDue(rows: seq<Row>, r: Row) {
    r in rows && r.status == Pending && forall s | s in rows && s.step < r.step :: s.status == Approved
  }

  lemma DueIsFound(rows: seq<Row>, r: Row)
    requires DistinctSteps(rows) && IsDue(rows, r)
    ensures CurrentStep(rows) == Some(r)
  {
    var sorted := SortedByStep(rows);
    SortOrders(rows);
    var k := FirstIndex(sorted, r);
    forall i | 0 <= i < k
      ensures sorted[i].status == Approved
    {
      assert sorted[i] in sorted[..k] && sorted[i] in sorted;
      DistinctRowsOfSteps(rows, sorted[i], r);
    }
    FirstOpenAt(sorted, k);
  }

  /** Where step numbers are distinct, the step found is the pending one whose predecessors are all approved. */
  lemma CurrentStepIs(rows: seq<Row>, r: Row)
    requires DistinctSteps(rows)
    ensures CurrentStep(rows) == Some(r) <==> IsDue(rows, r)
  {
    if IsDue(rows, r) {
      DueIsFound(rows, r);
    }
    if CurrentStep(rows) == Some(r) {
      var sorted := SortedByStep(rows);
      SortOrders(rows);
      var k := FirstOpenIndex(sorted);
      forall s | s in rows && s.step < r.step
        ensures s.status == Approved
      {
        EarlierAreApproved(sorted, k, s);
      }
    }
  }

  function FirstIndex(rows: seq<Row>, r: Row): (k: nat)
    requires r in rows
    ensures k < |rows| && rows[k] == r && r !in rows[..k]
  {
    if rows[0] == r then 0 else 1 + FirstIndex(rows[1..], r)
  }

  lemma SortOfOrdered(rows: seq<Row>)
    requires Ordered(rows)
    ensures SortedByStep(rows) == rows
  {
    if rows != [] {
      SortOfOrdered(rows[1..]);
      assert InsertByStep(rows[0], rows[1..]) == [rows[0]] + rows[1..] == rows;
    }
  }

  // ---------------------------------------------------------------- building rows

  function RowFor(step: ChainStep, number: int): Row {
    match step
    case RoleStep(role) => Row(number, RoleSequential, Some(role), None, Pending)
    case CommitteeStep(id) => Row(number, CommitteeMajority, None, Some(id), Pending)
  }

  predicate AsksFor(row: Row, step: ChainStep) {
    match step
    case RoleStep(role) => row.kind == RoleSequential && row.approverRole == Some(role) && row.committeeId == None
    case CommitteeStep(id) => row.kind == CommitteeMajority && row.approverRole == None && row.committeeId == Some(id)
  }

  /** Row by row, from step 1 on, the rows ask for what the chain says. */
  predicate FollowsChain(rows: seq<Row>, chain: seq<ChainStep>) {
    |rows| == |chain| && forall i | 0 <= i < |rows| :: rows[i].step == i + 1 && AsksFor(rows[i], chain[i])
  }

  function BuildApprovalInsertRows(chain: seq<ChainStep>): (rows: seq<Row>)
    ensures Numbered(rows) && FollowsChain(rows, chain)
    ensures forall r | r in rows :: r.status == Pending
  {
    seq(|chain|, i requires 0 <= i < |chain| => RowFor(chain[i], i + 1))
  }

  predicate Numbered(rows: seq<Row>) {
    forall i | 0 <= i < |rows| :: rows[i].step == i + 1
  }

  predicate IsCommitteeMajorityStep(r: Row) {
    r.kind == CommitteeMajority || (r.committeeId.Some? && r.approverRole.None?)
  }

  // ---------------------------------------------------------------- committee majority

  /** More than half of the members, whoever voted. */
  function MajorityThreshold(members: int): int {
    if members <= 0 then 1 else members / 2 + 1
  }

  function TallyDecision(members: nat, approve: nat, reject: nat): Option<Status> {
    if approve >= MajorityThreshold(members) then Some(Approved)
    else if reject >= MajorityThreshold(members) then Some(Rejected)
    else None
  }

  /** A side needs as many votes as are more than half of the members; approval is looked at first. */
  lemma MajorityDecides(members: nat, approve: nat, reject: nat)
    ensures TallyDecision(members, approve, reject) == Some(Approved) <==> 2 * approve > members
    ensures TallyDecision(members, approve, reject) == Some(Rejected) <==> 2 * reject > members >= 2 * approve
  {
  }

  // ---------------------------------------------------------------- who may decide

  /** What the decision rules read of the acting user. */
  datatype Authz = Authz(clubApprove: bool, roles: set<string>)

  predicate CanDecide(actor: Authz, approverRole: Option<string>, stepCount: nat) {
    if approverRole.None? || approverRole.value == "" then false
    else if approverRole.value == "club_approver" then actor.clubApprove
    else if approverRole.value == "advisor" && stepCount == 1 then actor.clubApprove
    else if approverRole.value !in ROLE_TOKENS then actor.clubApprove
    else approverRole.value in actor.roles
  }

  /** Steps that the club approval permission decides: by name, an advisor's only one, and those of unknown roles. */
  predicate NeedsClubApproval(role: string, stepCount: nat) {
    || role == "club_approver"
    || (role == "advisor" && stepCount == 1)
    || role !in {"advisor", "student_affairs", "university_admin", "academic_affairs", "content_moderator", "auditor"}
  }

  /** The actor has what the row asks for: club approval where that decides, and otherwise the role itself. */
  predicate Meets(actor: Authz, row: Row, stepCount: nat) {
    && row.approverRole.Some? && row.approverRole.value != ""
    && (NeedsClubApproval(row.approverRole.value, stepCount) ==> actor.clubApprove)
    && (!NeedsClubApproval(row.approverRole.value, stepCount) ==> row.approverRole.value in actor.roles)
  }

  /** Whoever meets the row may decide it; club approval does not stand in for another role. */
  lemma CanDecideIff(actor: Authz, row: Row, stepCount: nat)
    ensures CanDecide(actor, row.approverRole, stepCount) <==> Meets(actor, row, stepCount)
  {
  }

  datatype Verdict = Allowed | NotReady | Forbidden

  /** Being entitled to a later step only is an early decision; being entitled to none is forbidden. */
  function DecideVerdict(actor: Authz, rows: seq<Row>, current: Row): Verdict {
    if CanDecide(actor, current.approverRole, |rows|) then Allowed
    else if exists r :: r in rows && r.step > current.step && r.status == Pending && CanDecide(actor, r.approverRole, |rows|)
    then NotReady
    else Forbidden
  }
}
