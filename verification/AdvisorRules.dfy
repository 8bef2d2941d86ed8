/** What each call on invitations and advisors needs and does, row by row. */
module AdvisorRules {
  import opened Wrappers
  import opened Checks
  import opened Advisors

  /** An invitation after a sweep: a pending one whose time is over has expired. */
  function AfterSweep(i: Invitation, now: nat): Invitation {
    if i.status == Pending && now > i.expiresAt then i.(status := Expired) else i
  }

  /** A user is invited who is eligible, does not advise the club, and has no pending invitation in time. */
  lemma InvitedIff(s: State, c: Call)
    requires c.Invite? && Callable(s, c)
    ensures
      var r := Apply(s, c);
      var advises := (c.club, c.user) in s.advisors && s.advisors[(c.club, c.user)] == None;
      var isPending := exists i :: i in s.invitations && s.invitations[i].status == Pending && c.now <= s.invitations[i].expiresAt
                                 && s.invitations[i].club == c.club && s.invitations[i].invitee == c.user;
      && r.why == Unless(advises, AlreadyAdvisor, Unless(isPending, PendingInvitationExists, Unless(!c.eligible, NotEligible, None)))
      && r.s == s.(invitations := r.s.invitations)
      && r.s.invitations.Keys == s.invitations.Keys + (if r.why == None then {c.id} else {})
      && (forall i | i in s.invitations :: r.s.invitations[i] == AfterSweep(s.invitations[i], c.now))
      && (r.why == None ==> r.s.invitations[c.id] == Invitation(c.uni, c.club, c.user, Pending, c.expiresAt))
  {
    var swept := Swept(s.invitations, c.now);
    forall i | i in s.invitations
      ensures swept[i].status == Pending <==> s.invitations[i].status == Pending && c.now <= s.invitations[i].expiresAt
    {
    }
    if HasPending(swept, (c.club, c.user)) {
      var i :| i in swept && swept[i].status == Pending && PairOf(swept[i]) == (c.club, c.user);
      assert i in s.invitations && s.invitations[i].status == Pending;
    }
    if i :| i in s.invitations && s.invitations[i].status == Pending && c.now <= s.invitations[i].expiresAt
            && s.invitations[i].club == c.club && s.invitations[i].invitee == c.user {
      assert i in swept && swept[i].status == Pending && PairOf(swept[i]) == (c.club, c.user);
    }
  }

  predicate Answers(c: Call) {
    c.Accept? || c.Decline? || c.Cancel?
  }

  /** The invitation is there, and is the caller's: the invitee's to accept or decline, the club's to cancel. */
  predicate IsCallers(s: State, c: Call)
    requires Answers(c)
  {
    && c.id in s.invitations
    && (if c.Cancel? then s.invitations[c.id].club == c.club && s.invitations[c.id].uni == c.uni
        else s.invitations[c.id].invitee == c.user)
  }

  /**
   The caller's pending invitation is answered if it is in time both at the sweep and afterwards, and expires if
   it is only at the sweep; all other invitations are swept. Accepting makes the invitee an advisor.
  */
  lemma AnsweredIff(s: State, c: Call)
    requires Answers(c)
    ensures
      var r, known := Apply(s, c), IsCallers(s, c);
      var open := known && s.invitations[c.id].status == Pending && c.now <= s.invitations[c.id].expiresAt;
      var inTime := open && c.later <= s.invitations[c.id].expiresAt;
      var answer := if c.Accept? then Accepted else if c.Decline? then Declined else Cancelled;
      && r.why == Unless(!known, InvitationNotFound, Unless(!open, InvitationNotPending, Unless(!inTime, InvitationExpired, None)))
      && r.s.invitations.Keys == s.invitations.Keys
      && (forall i | i in s.invitations :: r.s.invitations[i] ==
            if i == c.id && open then s.invitations[i].(status := if inTime then answer else Expired)
            else AfterSweep(s.invitations[i], c.now))
      && (if c.Accept? && inTime then
            var pair := (s.invitations[c.id].club, c.user);
            r.s.advisors == s.advisors[pair := None] && r.s.log == s.log + [AcceptedBy(pair)]
          else r.s.advisors == s.advisors && r.s.log == s.log)
  {
  }

  /** Only who advises a club withdraws, which keeps the row with the time, or is removed, which deletes it. */
  lemma ClosedIff(s: State, c: Call)
    requires c.Withdraw? || c.Remove?
    ensures
      var r, pair := Apply(s, c), (c.club, c.user);
      var advises := pair in s.advisors && s.advisors[pair] == None;
      && r.why == Unless(c.Remove? && !c.known, ClubNotFound, Unless(!advises, NotAdvisor, None))
      && (r.why != None ==> r.s == s)
      && (r.why == None && c.Withdraw? ==>
            r.s == s.(advisors := s.advisors[pair := Some(c.now)], log := s.log + [WithdrawnBy(pair)]))
      && (r.why == None && c.Remove? ==> r.s == s.(advisors := s.advisors - {pair}, log := s.log + [RemovedFrom(pair)]))
  {
  }
}
