/**
 Club advisors: invitations with an expiry, and the advisorships that accepted ones open and that
 withdrawals and removals close.
*/
module Advisors {
  import opened Wrappers

  type InvId = nat
  type ClubId = nat
  type UserId = nat
  type Uni = nat

  datatype Status = Pending | Accepted | Declined | Cancelled | Expired

  datatype Invitation = Invitation(uni: Uni, club: ClubId, invitee: UserId, status: Status, expiresAt: nat)

  type Pair = (ClubId, UserId)

  function PairOf(i: Invitation): Pair {
    (i.club, i.invitee)
  }

  datatype Entry = AcceptedBy(pair: Pair) | WithdrawnBy(pair: Pair) | RemovedFrom(pair: Pair)

  /** An advisor row keeps the time of a withdrawal; `log` is a record kept by the model alone. */
  datatype State = State(invitations: map<InvId, Invitation>, advisors: map<Pair, Option<nat>>, log: seq<Entry>)

  predicate IsActive(advisors: map<Pair, Option<nat>>, p: Pair) {
    p in advisors && advisors[p].None?
  }

  datatype Refusal =
    | AlreadyAdvisor | PendingInvitationExists | NotEligible | InvitationNotFound | InvitationNotPending
    | InvitationExpired | NotAdvisor | ClubNotFound

  /** A refused call may still have expired invitations. */
  datatype Result = Result(s: State, why: Option<Refusal>)

  /** Calls that answer an invitation sweep at `now` and look at the clock again at `later`. */
  datatype Call =
    | Invite(id: InvId, uni: Uni, club: ClubId, user: UserId, eligible: bool, expiresAt: nat, now: nat)
    | Accept(user: UserId, id: InvId, now: nat, later: nat)
    | Decline(user: UserId, id: InvId, now: nat, later: nat)
    | Cancel(uni: Uni, club: ClubId, id: InvId, now: nat, later: nat)
    | Withdraw(user: UserId, club: ClubId, now: nat)
    | Remove(known: bool, club: ClubId, user: UserId)

  function SweptStatus(i: Invitation, now: nat): Invitation {
    if i.status == Pending && i.expiresAt < now then i.(status := Expired) else i
  }

  function Swept(invitations: map<InvId, Invitation>, now: nat): map<InvId, Invitation> {
    map i | i in invitations :: SweptStatus(invitations[i], now)
  }

  function ExpireStalePending(s: State, now: nat): State {
    s.(invitations := Swept(s.invitations, now))
  }

  predicate HasPending(invitations: map<InvId, Invitation>, p: Pair) {
    exists i :: i in invitations && invitations[i].status == Pending && PairOf(invitations[i]) == p
  }

  function SetStatus(s: State, id: InvId, status: Status): State
    requires id in s.invitations
  {
    s.(invitations := s.invitations[id := s.invitations[id].(status := status)])
  }

  function InviteOn(s: State, id: InvId, u: Uni, c: ClubId, user: UserId, eligible: bool, expiresAt: nat, now: nat): Result {
    var t := ExpireStalePending(s, now);
    if IsActive(t.advisors, (c, user)) then Result(t, Some(AlreadyAdvisor))
    else if HasPending(t.invitations, (c, user)) then Result(t, Some(PendingInvitationExists))
    else if !eligible then Result(t, Some(NotEligible))
    else Result(t.(invitations := t.invitations[id := Invitation(u, c, user, Pending, expiresAt)]), None)
  }

  /** Why a pending invitation cannot be answered, and its expiry if the clock has passed it since the sweep. */
  function Answerable(t: State, id: InvId, later: nat): Result
    requires id in t.invitations
  {
    if t.invitations[id].status != Pending then Result(t, Some(InvitationNotPending))
    else if t.invitations[id].expiresAt < later then Result(SetStatus(t, id, Expired), Some(InvitationExpired))
    else Result(t, None)
  }

  function AcceptOn(s: State, user: UserId, id: InvId, now: nat, later: nat): Result {
    var t := ExpireStalePending(s, now);
    if id !in t.invitations || t.invitations[id].invitee != user then Result(t, Some(InvitationNotFound))
    else
      var r := Answerable(t, id, later);
      if r.why.Some? then r
      else
        var p := PairOf(t.invitations[id]);
        Result(SetStatus(t, id, Accepted).(advisors := t.advisors[p := None], log := t.log + [AcceptedBy(p)]), None)
  }

  function DeclineOn(s: State, user: UserId, id: InvId, now: nat, later: nat): Result {
    var t := ExpireStalePending(s, now);
    if id !in t.invitations || t.invitations[id].invitee != user then Result(t, Some(InvitationNotFound))
    else
      var r := Answerable(t, id, later);
      if r.why.Some? then r else Result(SetStatus(t, id, Declined), None)
  }

  function CancelOn(s: State, u: Uni, c: ClubId, id: InvId, now: nat, later: nat): Result {
    var t := ExpireStalePending(s, now);
    if id !in t.invitations || t.invitations[id].club != c || t.invitations[id].uni != u then
      Result(t, Some(InvitationNotFound))
    else
      var r := Answerable(t, id, later);
      if r.why.Some? then r else Result(SetStatus(t, id, Cancelled), None)
  }

  /** A withdrawal keeps the row. */
  function WithdrawOn(s: State, user: UserId, c: ClubId, now: nat): Result {
    if !IsActive(s.advisors, (c, user)) then Result(s, Some(NotAdvisor))
    else Result(s.(advisors := s.advisors[(c, user) := Some(now)], log := s.log + [WithdrawnBy((c, user))]), None)
  }

  /** A removal deletes it. */
  function RemoveOn(s: State, known: bool, c: ClubId, user: UserId): Result {
    if !known then Result(s, Some(ClubNotFound))
    else if !IsActive(s.advisors, (c, user)) then Result(s, Some(NotAdvisor))
    else Result(s.(advisors := s.advisors - {(c, user)}, log := s.log + [RemovedFrom((c, user))]), None)
  }

  predicate Callable(s: State, c: Call) {
    c.Invite? ==> c.id !in s.invitations
  }

  function Apply(s: State, c: Call): Result {
    match c
    case Invite(id, u, club, user, eligible, expiresAt, now) => InviteOn(s, id, u, club, user, eligible, expiresAt, now)
    case Accept(user, id, now, later) => AcceptOn(s, user, id, now, later)
    case Decline(user, id, now, later) => DeclineOn(s, user, id, now, later)
    case Cancel(u, club, id, now, later) => CancelOn(s, u, club, id, now, later)
    case Withdraw(user, club, now) => WithdrawOn(s, user, club, now)
    case Remove(known, club, user) => RemoveOn(s, known, club, user)
  }

  predicate Runs(s: State, calls: seq<Call>)
    decreases |calls|
  {
    calls == [] || (Callable(s, calls[0]) && Runs(Apply(s, calls[0]).s, calls[1..]))
  }

  function After(s: State, calls: seq<Call>): State
    decreases |calls|
  {
    if calls == [] then s else After(Apply(s, calls[0]).s, calls[1..])
  }

  const NO_RECORDS := State(map[], map[], [])

  // ---------------------------------------------------------------- invariants

  predicate OnePending(invitations: map<InvId, Invitation>) {
    forall i, j | i in invitations && j in invitations && invitations[i].status == Pending
                  && invitations[j].status == Pending && PairOf(invitations[i]) == PairOf(invitations[j]) :: i == j
  }

  predicate NoPendingAdvisor(invitations: map<InvId, Invitation>, advisors: map<Pair, Option<nat>>) {
    forall i | i in invitations && invitations[i].status == Pending :: !IsActive(advisors, PairOf(invitations[i]))
  }

  /** Acceptances less withdrawals and removals. */
  function Net(log: seq<Entry>, p: Pair): int {
    if log == [] then 0
    else
      var e := log[|log| - 1];
      Net(log[..|log| - 1], p) + if e.pair != p then 0 else if e.AcceptedBy? then 1 else -1
  }

  lemma NetOfExtended(log: seq<Entry>, e: Entry, p: Pair)
    ensures Net(log + [e], p) == Net(log, p) + if e.pair != p then 0 else if e.AcceptedBy? then 1 else -1
  {
  }

  ghost predicate Conserved(log: seq<Entry>, advisors: map<Pair, Option<nat>>) {
    forall p: Pair :: Net(log, p) == if IsActive(advisors, p) then 1 else 0
  }

  ghost predicate Inv(s: State) {
    OnePending(s.invitations) && NoPendingAdvisor(s.invitations, s.advisors) && Conserved(s.log, s.advisors)
  }

  lemma SweepKeepsInv(s: State, now: nat)
    requires Inv(s)
    ensures Inv(ExpireStalePending(s, now))
  {
  }

  lemma SettingKeepsInv(s: State, id: InvId, status: Status)
    requires Inv(s) && id in s.invitations && status != Pending
    ensures Inv(SetStatus(s, id, status))
  {
  }

  lemma AcceptingKeepsInv(s: State, id: InvId)
    requires Inv(s) && id in s.invitations && s.invitations[id].status == Pending
    ensures var p := PairOf(s.invitations[id]);
            Inv(SetStatus(s, id, Accepted).(advisors := s.advisors[p := None], log := s.log + [AcceptedBy(p)]))
  {
    var p := PairOf(s.invitations[id]);
    forall q: Pair
      ensures Net(s.log + [AcceptedBy(p)], q) == if IsActive(s.advisors[p := None], q) then 1 else 0
    {
      NetOfExtended(s.log, AcceptedBy(p), q);
    }
  }

  lemma ClosingKeepsInv(s: State, e: Entry, advisors: map<Pair, Option<nat>>)
    requires Inv(s) && !e.AcceptedBy? && IsActive(s.advisors, e.pair)
    requires forall p: Pair :: IsActive(advisors, p) <==> IsActive(s.advisors, p) && p != e.pair
    ensures Inv(s.(advisors := advisors, log := s.log + [e]))
  {
  }

  lemma AnsweringKeepsInv(s: State, id: InvId, later: nat)
    requires Inv(s) && id in s.invitations
    ensures Inv(Answerable(s, id, later).s)
  {
  }

  lemma InvitingKeepsInv(s: State, id: InvId, i: Invitation)
    requires Inv(s) && id !in s.invitations && !IsActive(s.advisors, PairOf(i)) && !HasPending(s.invitations, PairOf(i))
    ensures Inv(s.(invitations := s.invitations[id := i]))
  {
  }

  lemma StepKeepsInv(s: State, c: Call)
    requires Inv(s) && Callable(s, c)
    ensures Inv(Apply(s, c).s)
  {
    match c {
      case Invite(id, u, club, user, eligible, expiresAt, now) =>
        SweepKeepsInv(s, now);
        if Apply(s, c).why.None? {
          InvitingKeepsInv(ExpireStalePending(s, now), id, Invitation(u, club, user, Pending, expiresAt));
        }
      case Accept(user, id, now, later) =>
        SweepKeepsInv(s, now);
        var t := ExpireStalePending(s, now);
        if id in t.invitations {
          AnsweringKeepsInv(t, id, later);
          if Apply(s, c).why.None? {
            AcceptingKeepsInv(t, id);
          }
        }
      case Decline(user, id, now, later) =>
        SweepKeepsInv(s, now);
        var t := ExpireStalePending(s, now);
        if id in t.invitations {
          AnsweringKeepsInv(t, id, later);
          SettingKeepsInv(t, id, Declined);
        }
      case Cancel(u, club, id, now, later) =>
        SweepKeepsInv(s, now);
        var t := ExpireStalePending(s, now);
        if id in t.invitations {
          AnsweringKeepsInv(t, id, later);
          SettingKeepsInv(t, id, Cancelled);
        }
      case Withdraw(user, club, now) =>
        if Apply(s, c).why.None? {
          ClosingKeepsInv(s, WithdrawnBy((club, user)), Apply(s, c).s.advisors);
        }
      case Remove(known, club, user) =>
        if Apply(s, c).why.None? {
          ClosingKeepsInv(s, RemovedFrom((club, user)), Apply(s, c).s.advisors);
        }
    }
  }

  lemma {:induction false} RunKeepsInv(s: State, calls: seq<Call>)
    requires Inv(s) && Runs(s, calls)
    ensures Inv(After(s, calls))
    decreases |calls|
  {
    if calls != [] {
      StepKeepsInv(s, calls[0]);
      RunKeepsInv(Apply(s, calls[0]).s, calls[1..]);
    }
  }

  /** The pending invitations of a pair. */
  function PendingOf(invitations: map<InvId, Invitation>, p: Pair): set<InvId> {
    set i | i in invitations && invitations[i].status == Pending && PairOf(invitations[i]) == p
  }

  lemma AtMostOne(invitations: map<InvId, Invitation>, p: Pair)
    requires OnePending(invitations)
    ensures |PendingOf(invitations, p)| <= 1
  {
    if i :| i in PendingOf(invitations, p) {
      assert PendingOf(invitations, p) == {i};
    }
  }

  /**
   From no records on, whatever is called: a pair has at most one pending invitation, none while the user
   advises the club, and its acceptances less its withdrawals and removals are one exactly in that case.
  */
  lemma AdvisorshipsAreConserved(calls: seq<Call>, p: Pair)
    requires Runs(NO_RECORDS, calls)
    ensures var s := After(NO_RECORDS, calls);
            && |PendingOf(s.invitations, p)| <= 1
            && (IsActive(s.advisors, p) ==> PendingOf(s.invitations, p) == {})
            && Net(s.log, p) == (if IsActive(s.advisors, p) then 1 else 0)
  {
    RunKeepsInv(NO_RECORDS, calls);
    AtMostOne(After(NO_RECORDS, calls).invitations, p);
  }

  /** An invitation is accepted if and only if it is the user's, was pending, and has not expired by then. */
  lemma AcceptedIff(s: State, user: UserId, id: InvId, now: nat, later: nat)
    requires now <= later
    ensures AcceptOn(s, user, id, now, later).why.None? <==>
            && id in s.invitations && s.invitations[id].invitee == user
            && s.invitations[id].status == Pending && later <= s.invitations[id].expiresAt
    ensures AcceptOn(s, user, id, now, later).why.None? ==>
              IsActive(AcceptOn(s, user, id, now, later).s.advisors, PairOf(s.invitations[id]))
  {
  }

  /** An answered, cancelled or expired invitation never changes again. */
  lemma {:induction false} AnswersAreFinal(s: State, calls: seq<Call>, id: InvId)
    requires Runs(s, calls) && id in s.invitations && s.invitations[id].status != Pending
    ensures id in After(s, calls).invitations && After(s, calls).invitations[id] == s.invitations[id]
    decreases |calls|
  {
    if calls != [] {
      AnswersAreFinal(Apply(s, calls[0]).s, calls[1..], id);
    }
  }
}
