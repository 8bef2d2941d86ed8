/**
 The activities service over its tables and its cache. Each method performs the checks, the writes and
 the invalidation in the service's order and is proved to yield exactly the operation's outcome.
*/
module ActivityService {
  import opened Wrappers
  import opened Activities
  import opened ActivityRules

  function WhyRefused(o: Outcome): Option<Refusal> {
    if o.Refused? then Some(o.why) else None
  }

  class ActivitiesService {
    var clubs: map<ClubId, Uni>
    var acts: map<ActId, Activity>
    var links: map<(ActId, ClubId), Link>
    var cache: map<string, Cached>

    ghost function Whole(): System
      reads this
    {
      System(Db(clubs, acts, links), cache)
    }

    method GetAcceptedUniversityIds(a: ActId) returns (unis: set<Uni>)
      ensures forall u :: u in unis <==> AcceptedIn(Whole().db, a, u)
    {
      unis := set c | c in clubs && (a, c) in links && links[(a, c)].status == Accepted :: clubs[c];
    }

    method IsActivityInUniversity(a: ActId, u: Uni) returns (yes: bool)
      ensures yes == AcceptedIn(Whole().db, a, u)
    {
      yes := exists c :: c in clubs && (a, c) in links && links[(a, c)].status == Accepted && clubs[c] == u;
    }

    method RequireHostedActivity(club: ClubId, a: ActId) returns (why: Option<Refusal>)
      ensures why == HostRule(Whole().db, club, a)
    {
      if a !in acts {
        return Some(ActivityNotFound);
      }
      if (a, club) !in links || links[(a, club)].role != Host {
        return Some(NotAHostClub);
      }
      return None;
    }

    /** Drop the detail and, in each university, the lists of all scopes. */
    method InvalidateCache(a: ActId, given: Option<set<Uni>>)
      modifies this`cache
      ensures Whole() == Drop(old(Whole()), a, if given.Some? then given.value else AcceptedUnis(old(Whole().db), a))
    {
      var unis: set<Uni>;
      if given.Some? {
        unis := given.value;
      } else {
        unis := GetAcceptedUniversityIds(a);
        assert unis == AcceptedUnis(Whole().db, a);
      }
      cache := cache - ActivityChanged(a, unis);
    }

    method CreateForClub(id: ActId, club: ClubId, d: NewActivity, now: int) returns (why: Option<Refusal>)
      requires id !in acts
      modifies this
      ensures why == WhyRefused(CreateFor(old(Whole()), id, club, d, now))
      ensures Whole() == Step(old(Whole()), Create(id, club, d), now)
    {
      why := WindowRule(d.startsAt, d.endsAt, now);
      if why.Some? {
        return;
      }
      if club !in clubs {
        return Some(ClubNotFound);
      }
      if d.visibility == InterUniversity && !d.interAllowed {
        return Some(InterUniversityDenied);
      }
      var status := if d.publish && d.scheduledAt.None? then Published else Draft;
      acts := acts[id := Activity(d.text, d.startsAt, d.endsAt, d.capacity, d.visibility, status, d.scheduledAt)];
      links := links[(id, club) := Link(Host, Accepted)];
      if d.scheduledAt.None? && status == Published {
        InvalidateCache(id, None);
      }
    }

    method PublishForClub(club: ClubId, a: ActId) returns (why: Option<Refusal>)
      modifies this
      ensures why == WhyRefused(PublishFor(old(Whole()), club, a))
      ensures Whole() == Step(old(Whole()), Publish(club, a), 0)
    {
      why := RequireHostedActivity(club, a);
      if why.Some? {
        return;
      }
      if acts[a].status != Draft {
        return Some(NotDraft);
      }
      acts := acts[a := acts[a].(status := Published, scheduledAt := None)];
      InvalidateCache(a, None);
    }

    method PublishDueActivity(a: ActId, now: int)
      modifies this
      ensures Whole() == Step(old(Whole()), PublishScheduled(a), now)
    {
      if a !in acts || acts[a].status != Draft || acts[a].scheduledAt.None? {
        return;
      }
      if acts[a].scheduledAt.value > now {
        return;
      }
      if !exists c :: c in clubs && (a, c) in links && links[(a, c)].role == Host {
        return;
      }
      acts := acts[a := acts[a].(status := Published, scheduledAt := None)];
      InvalidateCache(a, None);
    }

    /** The changed row: a field that was not submitted stays as it was. */
    method PatchRow(row: Activity, p: Patch) returns (next: Activity)
      ensures next == Patched(row, p)
    {
      next := row;
      if p.startsAt.Some? {
        next := next.(startsAt := p.startsAt.value);
      }
      if p.endsAt.Some? {
        next := next.(endsAt := p.endsAt);
      }
      if p.text.Some? {
        next := next.(text := p.text.value);
      }
      if p.capacity.Some? {
        next := next.(capacity := p.capacity);
      }
      if p.visibility.Some? {
        next := next.(visibility := p.visibility.value);
      }
      if p.scheduledAt.Some? {
        next := next.(scheduledAt := p.scheduledAt.value);
      }
    }

    method WriteRow(a: ActId, row: Activity)
      modifies this
      ensures Whole() == SetRow(old(Whole()), a, row)
    {
      acts := acts[a := row];
      InvalidateCache(a, None);
    }

    method UpdateForClub(club: ClubId, a: ActId, p: Patch, now: int) returns (why: Option<Refusal>)
      modifies this
      ensures var o := UpdateFor(old(Whole()), club, a, p, now);
              why == WhyRefused(o) && Whole() == (if o.Done? then o.s else old(Whole()))
    {
      why := RequireHostedActivity(club, a);
      if why.Some? {
        return;
      }
      var row := acts[a];
      if row.status == Cancelled {
        return Some(AlreadyCancelled);
      }
      var next := PatchRow(row, p);
      why := WindowRule(next.startsAt, next.endsAt, now);
      if why.Some? {
        return;
      }
      if club !in clubs {
        return Some(ClubNotFound);
      }
      if p.scheduledAt.Some? && row.status != Draft {
        return Some(ScheduleNotDraft);
      }
      if p.visibility.Some? && p.visibility.value == InterUniversity && !p.interAllowed {
        return Some(InterUniversityDenied);
      }
      WriteRow(a, next);
    }

    method CancelForClub(club: ClubId, a: ActId) returns (why: Option<Refusal>)
      modifies this
      ensures why == WhyRefused(CancelFor(old(Whole()), club, a))
      ensures Whole() == Step(old(Whole()), Cancel(club, a), 0)
    {
      why := RequireHostedActivity(club, a);
      if why.Some? {
        return;
      }
      if acts[a].status == Cancelled {
        return Some(AlreadyCancelled);
      }
      acts := acts[a := acts[a].(status := Cancelled)];
      InvalidateCache(a, None);
    }

    method UpdateVisibilityForModerator(u: Uni, club: ClubId, a: ActId, v: Visibility, interAllowed: bool)
      returns (why: Option<Refusal>)
      modifies this
      ensures why == WhyRefused(ModerateVisibilityFor(old(Whole()), u, club, a, v, interAllowed))
      ensures Whole() == Step(old(Whole()), ModerateVisibility(u, club, a, v, interAllowed), 0)
    {
      why := RequireHostedActivity(club, a);
      if why.Some? {
        return;
      }
      if acts[a].status == Cancelled {
        return Some(AlreadyCancelled);
      }
      var here := IsActivityInUniversity(a, u);
      if !here {
        return Some(ActivityNotFound);
      }
      if v == InterUniversity && !interAllowed {
        return Some(InterUniversityDenied);
      }
      acts := acts[a := acts[a].(visibility := v)];
      InvalidateCache(a, None);
    }

    method ModerateCancelActivity(u: Uni, a: ActId) returns (why: Option<Refusal>)
      modifies this
      ensures why == WhyRefused(ModerateCancelFor(old(Whole()), u, a))
      ensures Whole() == Step(old(Whole()), ModerateCancel(u, a), 0)
    {
      if a !in acts {
        return Some(ActivityNotFound);
      }
      var here := IsActivityInUniversity(a, u);
      if !here {
        return Some(ActivityNotFound);
      }
      if acts[a].status == Cancelled {
        return Some(AlreadyCancelled);
      }
      acts := acts[a := acts[a].(status := Cancelled)];
      InvalidateCache(a, None);
      return None;
    }

    method InviteCoHostClub(club: ClubId, a: ActId, target: ClubId) returns (why: Option<Refusal>)
      modifies this
      ensures why == WhyRefused(InviteFor(old(Whole()), club, a, target))
      ensures Whole() == Step(old(Whole()), InviteCoHost(club, a, target), 0)
    {
      why := RequireHostedActivity(club, a);
      if why.Some? {
        return;
      }
      if target == club {
        return Some(CoHostSelf);
      }
      if target !in clubs {
        return Some(ClubNotFound);
      }
      if (a, target) in links {
        return Some(CoHostExists);
      }
      links := links[(a, target) := Link(CoHost, Invited)];
    }

    method AcceptCoHostInvite(club: ClubId, a: ActId) returns (why: Option<Refusal>)
      modifies this
      ensures why == WhyRefused(AcceptFor(old(Whole()), club, a))
      ensures Whole() == Step(old(Whole()), AcceptCoHost(club, a), 0)
    {
      if (a, club) !in links || links[(a, club)].role != CoHost || links[(a, club)].status != Invited {
        return Some(CoHostInviteNotFound);
      }
      links := links[(a, club) := links[(a, club)].(status := Accepted)];
      InvalidateCache(a, None);
      return None;
    }

    method LeaveCoHostClub(club: ClubId, a: ActId) returns (why: Option<Refusal>)
      modifies this
      ensures why == WhyRefused(LeaveFor(old(Whole()), club, a))
      ensures Whole() == Step(old(Whole()), LeaveCoHost(club, a), 0)
    {
      if (a, club) !in links || links[(a, club)].role != CoHost {
        return Some(CoHostInviteNotFound);
      }
      var unis := GetAcceptedUniversityIds(a);
      assert unis == AcceptedUnis(Whole().db, a);
      links := links - {(a, club)};
      InvalidateCache(a, Some(unis));
      return None;
    }

    method RemoveCoHostClub(host: ClubId, a: ActId, club: ClubId) returns (why: Option<Refusal>)
      modifies this
      ensures why == WhyRefused(RemoveFor(old(Whole()), host, a, club))
      ensures Whole() == Step(old(Whole()), RemoveCoHost(host, a, club), 0)
    {
      why := RequireHostedActivity(host, a);
      if why.Some? {
        return;
      }
      if (a, club) !in links || links[(a, club)].role != CoHost {
        return Some(CoHostInviteNotFound);
      }
      var unis := GetAcceptedUniversityIds(a);
      assert unis == AcceptedUnis(Whole().db, a);
      links := links - {(a, club)};
      InvalidateCache(a, Some(unis));
    }

    /** Read-through detail: what callers see is the current row with the current accepted links. */
    method FetchActivityDetail(a: ActId, ghost now: int) returns (found: Option<(Activity, map<ClubId, Link>)>)
      requires Agrees(Whole(), now)
      modifies this`cache
      ensures Whole() == Step(old(Whole()), FetchDetail(a), now)
      ensures found.Some? <==> a in acts
      ensures found.Some? ==> found.value.0 == acts[a]
      ensures found.Some? ==> AcceptedOnly(found.value.1) == AcceptedOnly(LinksOf(Whole().db, a))
      ensures found.Some? ==>
                forall c | c in clubs && (a, c) in links && links[(a, c)].status == Accepted ::
                  c in found.value.1 && found.value.1[c] == links[(a, c)]
      ensures found.Some? ==>
                forall c | c in found.value.1 && found.value.1[c].status == Accepted ::
                  c in clubs && (a, c) in links && links[(a, c)] == found.value.1[c]
    {
      var key := DetailKey(a);
      if key !in cache {
        if a !in acts {
          return None;
        }
        var mine := map c | c in clubs && (a, c) in links :: links[(a, c)];
        cache := cache[key := CachedDetail(acts[a], mine)];
      }
      assert DetailAgrees(Whole().db, a, cache[key]);
      ghost var shown := cache[key].links;
      forall c
        ensures c in AcceptedOnly(shown) <==> c in clubs && (a, c) in links && links[(a, c)].status == Accepted
        ensures c in AcceptedOnly(shown) ==> AcceptedOnly(shown)[c] == links[(a, c)]
      {
        DetailHolds(Whole().db, a, c);
      }
      return Some((cache[key].row, cache[key].links));
    }

    /** Read-through discovery: what callers see is a fresh query. */
    method ListDiscoveryOf(u: Uni, scope: Scope, now: int) returns (rows: map<ActId, Activity>)
      requires Agrees(Whole(), now)
      modifies this`cache
      ensures Whole() == Step(old(Whole()), ListDiscovery(u, scope), now)
      ensures rows == ListForUniversity(Whole().db, u, scope, now)
      ensures forall a :: a in rows <==>
                && a in acts && acts[a].status == Published && acts[a].visibility in {University, InterUniversity}
                && IsShownIn(Whole().db, a, u)
                && (scope == Upcoming ==> acts[a].startsAt >= now) && (scope == Past ==> acts[a].startsAt < now)
      ensures forall a | a in rows :: rows[a] == acts[a]
    {
      var key := DiscoveryKey(u, scope);
      if key !in cache {
        cache := cache[key := CachedList(ListForUniversity(Db(clubs, acts, links), u, scope, now))];
      }
      forall a
        ensures a in cache[key].rows <==> IsDiscovered(Whole().db, u, scope, now, a)
        ensures a in cache[key].rows ==> cache[key].rows[a] == acts[a]
      {
        DiscoveryHolds(Whole().db, u, scope, now, a);
      }
      return cache[key].rows;
    }
  }
}
