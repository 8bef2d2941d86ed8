/** The advisor service over its two tables; each method is proved to yield exactly the specified result. */
module AdvisorService {
  import opened Wrappers
  import opened Advisors

  class ClubAdvisors {
    var invitations: map<InvId, Invitation>
    var advisors: map<Pair, Option<nat>>
    ghost var log: seq<Entry>

    ghost function Whole(): State
      reads this
    {
      State(invitations, advisors, log)
    }

    constructor ()
      ensures Whole() == NO_RECORDS
    {
      invitations, advisors, log := map[], map[], [];
    }

    /** One conditional update of all pending rows past their expiry. */
    method ExpireStale(now: nat)
      modifies this`invitations
      ensures Whole() == ExpireStalePending(old(Whole()), now)
    {
      var stale := set i | i in invitations && invitations[i].status == Pending && invitations[i].expiresAt < now;
      invitations := invitations + map i | i in stale :: invitations[i].(status := Expired);
      assert invitations == Swept(old(invitations), now);
    }

    /** Update a row's status if it is still pending. */
    method SetStatusIfPending(id: InvId, status: Status) returns (updated: bool)
      modifies this`invitations
      ensures updated <==> id in old(invitations) && old(invitations[id].status) == Pending
      ensures Whole() == if updated then SetStatus(old(Whole()), id, status) else old(Whole())
    {
      updated := id in invitations && invitations[id].status == Pending;
      if updated {
        invitations := invitations[id := invitations[id].(status := status)];
      }
    }

    method InviteAdvisor(id: InvId, u: Uni, c: ClubId, user: UserId, eligible: bool, expiresAt: nat, now: nat)
      returns (why: Option<Refusal>)
      requires id !in invitations
      modifies this
      ensures Result(Whole(), why) == Apply(old(Whole()), Invite(id, u, c, user, eligible, expiresAt, now))
    {
      ExpireStale(now);
      if (c, user) in advisors && advisors[(c, user)].None? {
        return Some(AlreadyAdvisor);
      }
      if exists i :: i in invitations && invitations[i].status == Pending
                     && invitations[i].club == c && invitations[i].invitee == user {
        return Some(PendingInvitationExists);
      }
      if !eligible {
        return Some(NotEligible);
      }
      invitations := invitations[id := Invitation(u, c, user, Pending, expiresAt)];
      return None;
    }

    /** Refuse an answered invitation, and expire one whose time ran out since the sweep. */
    method CheckAnswerable(id: InvId, later: nat) returns (why: Option<Refusal>)
      requires id in invitations
      modifies this`invitations
      ensures Result(Whole(), why) == Answerable(old(Whole()), id, later)
    {
      if invitations[id].status != Pending {
        return Some(InvitationNotPending);
      }
      if invitations[id].expiresAt < later {
        var marked := SetStatusIfPending(id, Expired);
        return Some(InvitationExpired);
      }
      return None;
    }

    /** The transaction that accepts: answer the invitation, and open or reopen the advisor row. */
    method AcceptInvitationInTx(id: InvId) returns (accepted: bool)
      modifies this
      ensures accepted <==> id in old(invitations) && old(invitations[id].status) == Pending
      ensures !accepted ==> Whole() == old(Whole())
      ensures accepted ==>
                var p := PairOf(old(invitations[id]));
                Whole() == SetStatus(old(Whole()), id, Accepted)
                             .(advisors := old(advisors)[p := None], log := old(log) + [AcceptedBy(p)])
    {
      if id !in invitations || invitations[id].status != Pending {
        return false;
      }
      var p := PairOf(invitations[id]);
      invitations := invitations[id := invitations[id].(status := Accepted)];
      if p in advisors {
        advisors := advisors[p := None];
      } else {
        advisors := advisors + map[p := None];
      }
      log := log + [AcceptedBy(p)];
      return true;
    }

    method AcceptInvitation(user: UserId, id: InvId, now: nat, later: nat) returns (why: Option<Refusal>)
      modifies this
      ensures Result(Whole(), why) == Apply(old(Whole()), Accept(user, id, now, later))
    {
      ExpireStale(now);
      if id !in invitations || invitations[id].invitee != user {
        return Some(InvitationNotFound);
      }
      why := CheckAnswerable(id, later);
      if why.None? {
        var accepted := AcceptInvitationInTx(id);
        if !accepted {
          why := Some(InvitationNotPending);
        }
      }
    }

    method DeclineInvitation(user: UserId, id: InvId, now: nat, later: nat) returns (why: Option<Refusal>)
      modifies this`invitations
      ensures Result(Whole(), why) == Apply(old(Whole()), Decline(user, id, now, later))
    {
      ExpireStale(now);
      if id !in invitations || invitations[id].invitee != user {
        return Some(InvitationNotFound);
      }
      why := CheckAnswerable(id, later);
      if why.None? {
        var declined := SetStatusIfPending(id, Declined);
        if !declined {
          why := Some(InvitationNotPending);
        }
      }
    }

    method CancelInvitation(u: Uni, c: ClubId, id: InvId, now: nat, later: nat) returns (why: Option<Refusal>)
      modifies this`invitations
      ensures Result(Whole(), why) == Apply(old(Whole()), Cancel(u, c, id, now, later))
    {
      ExpireStale(now);
      if id !in invitations || invitations[id].club != c || invitations[id].uni != u {
        return Some(InvitationNotFound);
      }
      why := CheckAnswerable(id, later);
      if why.None? {
        var cancelled := SetStatusIfPending(id, Cancelled);
        if !cancelled {
          why := Some(InvitationNotPending);
        }
      }
    }

    method WithdrawFromClub(user: UserId, c: ClubId, now: nat) returns (why: Option<Refusal>)
      modifies this`advisors, this`log
      ensures Result(Whole(), why) == Apply(old(Whole()), Withdraw(user, c, now))
    {
      if (c, user) !in advisors || advisors[(c, user)].Some? {
        return Some(NotAdvisor);
      }
      advisors := advisors[(c, user) := Some(now)];
      log := log + [WithdrawnBy((c, user))];
      return None;
    }

    method RemoveAdvisor(known: bool, c: ClubId, user: UserId) returns (why: Option<Refusal>)
      modifies this`advisors, this`log
      ensures Result(Whole(), why) == Apply(old(Whole()), Remove(known, c, user))
    {
      if !known {
        return Some(ClubNotFound);
      }
      if (c, user) !in advisors || advisors[(c, user)].Some? {
        return Some(NotAdvisor);
      }
      advisors := advisors - {(c, user)};
      log := log + [RemovedFrom((c, user))];
      return None;
    }
  }
}
