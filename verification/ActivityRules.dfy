/** What discovery shows, and which calls on activities are carried out and with what effect, row by row. */
module ActivityRules {
  import opened Wrappers
  import opened Checks
  import opened Activities

  // ---------------------------------------------------------------- what is shown

  /** Some club of the university hosts or co-hosts the activity, having accepted. */
  predicate IsShownIn(db: Db, a: ActId, u: Uni) {
    exists c :: c in db.clubs && db.clubs[c] == u && (a, c) in db.links && db.links[(a, c)].status == Accepted
  }

  /** Published, not for members only, of a club of the university, and on the requested side of `now`. */
  predicate IsDiscovered(db: Db, u: Uni, scope: Scope, now: int, a: ActId) {
    && a in db.acts && db.acts[a].status == Published && db.acts[a].visibility in {University, InterUniversity}
    && IsShownIn(db, a, u)
    && match scope
       case Upcoming => db.acts[a].startsAt >= now
       case Past => db.acts[a].startsAt < now
       case All => true
  }

  lemma DiscoveryHolds(db: Db, u: Uni, scope: Scope, now: int, a: ActId)
    ensures a in ListForUniversity(db, u, scope, now) <==> IsDiscovered(db, u, scope, now, a)
    ensures a in ListForUniversity(db, u, scope, now) ==> ListForUniversity(db, u, scope, now)[a] == db.acts[a]
  {
  }

  /** A detail shows the accepted links of the activity to existing clubs, as they are. */
  lemma DetailHolds(db: Db, a: ActId, c: ClubId)
    ensures var links := AcceptedOnly(LinksOf(db, a));
            && (c in links <==> c in db.clubs && (a, c) in db.links && db.links[(a, c)].status == Accepted)
            && (c in links ==> links[c] == db.links[(a, c)])
  {
  }

  // ---------------------------------------------------------------- the entries of an activity

  const SCOPE_TEXTS: set<string> := {"upcoming", "past", "all"}

  ghost predicate IsEntryOf(db: Db, a: ActId, key: string) {
    || key == "detail:" + a
    || exists u, text :: IsShownIn(db, a, u) && text in SCOPE_TEXTS && key == "discovery:" + u + ":" + text
  }

  /** The activity's detail and its universities' lists are gone; the other entries are as before. */
  ghost predicate Cleared(before: map<string, Cached>, after: map<string, Cached>, db: Db, a: ActId) {
    && (forall key :: key in after <==> key in before && !IsEntryOf(db, a, key))
    && (forall key | key in after :: after[key] == before[key])
  }

  lemma DiscoveryKeyText(u: Uni, scope: Scope)
    ensures DiscoveryKey(u, scope) == "discovery:" + u + ":" + ScopeText(scope) && ScopeText(scope) in SCOPE_TEXTS
  {
  }

  lemma ScopeOfText(text: string) returns (scope: Scope)
    requires text in SCOPE_TEXTS
    ensures ScopeText(scope) == text
  {
    scope := if text == "upcoming" then Upcoming else if text == "past" then Past else All;
  }

  lemma DropClears(s: System, db: Db, a: ActId)
    ensures Cleared(s.cache, Drop(s, a, AcceptedUnis(db, a)).cache, db, a)
    ensures Drop(s, a, AcceptedUnis(db, a)).db == s.db
  {
    forall key
      ensures key in ActivityChanged(a, AcceptedUnis(db, a)) <==> IsEntryOf(db, a, key)
    {
      DroppedIff(db, a, key);
    }
  }

  lemma DroppedIff(db: Db, a: ActId, key: string)
    ensures key in ActivityChanged(a, AcceptedUnis(db, a)) <==> IsEntryOf(db, a, key)
  {
    if key in ActivityChanged(a, AcceptedUnis(db, a)) && key != "detail:" + a {
      var u, scope :| u in AcceptedUnis(db, a) && scope in {Upcoming, Past, All} && key == DiscoveryKey(u, scope);
      DiscoveryKeyText(u, scope);
      assert IsShownIn(db, a, u);
    }
    if IsEntryOf(db, a, key) && key != "detail:" + a {
      var u, text :| IsShownIn(db, a, u) && text in SCOPE_TEXTS && key == "discovery:" + u + ":" + text;
      var scope := ScopeOfText(text);
      DiscoveryKeyText(u, scope);
      assert u in AcceptedUnis(db, a) && scope in {Upcoming, Past, All};
    }
  }

  // ---------------------------------------------------------------- calls on the row of an activity

  predicate IsHostOf(db: Db, club: ClubId, a: ActId) {
    a in db.acts && (a, club) in db.links && db.links[(a, club)].role == Host
  }

  predicate IsFutureWindow(startsAt: int, endsAt: Option<int>, now: int) {
    now <= startsAt && (endsAt.Some? ==> startsAt <= endsAt.value)
  }

  /** Only the activity's row is written, and its entries are dropped. */
  ghost predicate RowWritten(s: System, t: System, a: ActId, row: Activity) {
    t.db == s.db.(acts := s.db.acts[a := row]) && Cleared(s.cache, t.cache, t.db, a)
  }

  lemma SetRowWrites(s: System, a: ActId, row: Activity)
    ensures RowWritten(s, SetRow(s, a, row), a, row)
  {
    var db' := s.db.(acts := s.db.acts[a := row]);
    DropClears(s.(db := db'), db', a);
  }

  /** It is published at once if asked for without a schedule, and only then are entries dropped. */
  lemma CreatedIff(s: System, id: ActId, club: ClubId, d: NewActivity, now: int)
    requires id !in s.db.acts
    ensures
      var o := CreateFor(s, id, club, d, now);
      && (o.Done? <==> && IsFutureWindow(d.startsAt, d.endsAt, now) && club in s.db.clubs
                       && (d.visibility == InterUniversity ==> d.interAllowed))
      && (o.Done? ==>
            var atOnce := d.publish && d.scheduledAt == None;
            && o.s.db.clubs == s.db.clubs && o.s.db.links == s.db.links[(id, club) := Link(Host, Accepted)]
            && o.s.db.acts == s.db.acts[id := Activity(d.text, d.startsAt, d.endsAt, d.capacity, d.visibility,
                                                       if atOnce then Published else Draft, d.scheduledAt)]
            && (if atOnce then Cleared(s.cache, o.s.cache, o.s.db, id) else o.s.cache == s.cache))
  {
    if CreateFor(s, id, club, d, now).Done? {
      var db' := CreateFor(s, id, club, d, now).s.db;
      DropClears(s.(db := db'), db', id);
    }
  }

  lemma PublishedIff(s: System, club: ClubId, a: ActId)
    ensures
      var o := PublishFor(s, club, a);
      && (o.Done? <==> IsHostOf(s.db, club, a) && s.db.acts[a].status == Draft)
      && (o.Done? ==> RowWritten(s, o.s, a, s.db.acts[a].(status := Published, scheduledAt := None)))
  {
    if PublishFor(s, club, a).Done? {
      SetRowWrites(s, a, s.db.acts[a].(status := Published, scheduledAt := None));
    }
  }

  /** The queue publishes a draft whose time has come and that some existing club hosts. */
  lemma PublishedWhenDue(s: System, a: ActId, now: int)
    ensures
      var due := a in s.db.acts && s.db.acts[a].status == Draft && s.db.acts[a].scheduledAt.Some?
                 && s.db.acts[a].scheduledAt.value <= now && exists c :: c in s.db.clubs && IsHostOf(s.db, c, a);
      var o := PublishDue(s, a, now);
      && o.Done? && (!due ==> o.s == s)
      && (due ==> RowWritten(s, o.s, a, s.db.acts[a].(status := Published, scheduledAt := None)))
  {
    if a in s.db.acts {
      SetRowWrites(s, a, s.db.acts[a].(status := Published, scheduledAt := None));
      assert forall c :: IsHost(s.db, a, c) <==> IsHostOf(s.db, c, a);
    }
  }

  /** What a patch asks of a field, or the field as it is. */
  function Or<T>(asked: Option<T>, current: T): T {
    if asked.Some? then asked.value else current
  }

  /** Exactly the submitted fields are new; an end or a capacity can be set but not removed. */
  predicate IsPatched(before: Activity, p: Patch, after: Activity) {
    && after.text == Or(p.text, before.text) && after.startsAt == Or(p.startsAt, before.startsAt)
    && after.endsAt == (if p.endsAt == None then before.endsAt else p.endsAt)
    && after.capacity == (if p.capacity == None then before.capacity else p.capacity)
    && after.visibility == Or(p.visibility, before.visibility)
    && after.scheduledAt == Or(p.scheduledAt, before.scheduledAt)
    && after.status == before.status
  }

  lemma UpdatedIff(s: System, club: ClubId, a: ActId, p: Patch, now: int)
    ensures
      var o := UpdateFor(s, club, a, p, now);
      && (o.Done? <==>
            && IsHostOf(s.db, club, a) && club in s.db.clubs && s.db.acts[a].status != Cancelled
            && IsFutureWindow(Or(p.startsAt, s.db.acts[a].startsAt),
                              if p.endsAt == None then s.db.acts[a].endsAt else p.endsAt, now)
            && (p.scheduledAt != None ==> s.db.acts[a].status == Draft)
            && (p.visibility == Some(InterUniversity) ==> p.interAllowed))
      && (o.Done? ==> a in o.s.db.acts && IsPatched(s.db.acts[a], p, o.s.db.acts[a])
                      && RowWritten(s, o.s, a, o.s.db.acts[a]))
  {
    if UpdateFor(s, club, a, p, now).Done? {
      SetRowWrites(s, a, Patched(s.db.acts[a], p));
    }
  }

  lemma CancelledIff(s: System, club: ClubId, a: ActId)
    ensures
      var o := CancelFor(s, club, a);
      && (o.Done? <==> IsHostOf(s.db, club, a) && s.db.acts[a].status != Cancelled)
      && (o.Done? ==> RowWritten(s, o.s, a, s.db.acts[a].(status := Cancelled)))
  {
    if CancelFor(s, club, a).Done? {
      SetRowWrites(s, a, s.db.acts[a].(status := Cancelled));
    }
  }

  /** A moderator changes the visibility, or cancels, what is shown in the moderator's university. */
  lemma ModeratedIff(s: System, u: Uni, club: ClubId, a: ActId, v: Visibility, interAllowed: bool)
    ensures
      var o := ModerateVisibilityFor(s, u, club, a, v, interAllowed);
      && (o.Done? <==> && IsHostOf(s.db, club, a) && IsShownIn(s.db, a, u) && s.db.acts[a].status != Cancelled
                       && (v == InterUniversity ==> interAllowed))
      && (o.Done? ==> RowWritten(s, o.s, a, s.db.acts[a].(visibility := v)))
    ensures
      var o := ModerateCancelFor(s, u, a);
      && (o.Done? <==> a in s.db.acts && IsShownIn(s.db, a, u) && s.db.acts[a].status != Cancelled)
      && (o.Done? ==> RowWritten(s, o.s, a, s.db.acts[a].(status := Cancelled)))
  {
    assert AcceptedIn(s.db, a, u) <==> IsShownIn(s.db, a, u);
    if a in s.db.acts {
      SetRowWrites(s, a, s.db.acts[a].(visibility := v));
      SetRowWrites(s, a, s.db.acts[a].(status := Cancelled));
    }
  }

  // ---------------------------------------------------------------- calls on the links of an activity

  lemma InvitedIff(s: System, club: ClubId, a: ActId, target: ClubId)
    ensures
      var o := InviteFor(s, club, a, target);
      && (o.Done? <==> IsHostOf(s.db, club, a) && target != club && target in s.db.clubs && (a, target) !in s.db.links)
      && (o.Done? ==> o.s == s.(db := s.db.(links := s.db.links[(a, target) := Link(CoHost, Invited)])))
  {
  }

  lemma AcceptedIff(s: System, club: ClubId, a: ActId)
    ensures
      var o := AcceptFor(s, club, a);
      && (o.Done? <==> (a, club) in s.db.links && s.db.links[(a, club)] == Link(CoHost, Invited))
      && (o.Done? ==> && o.s.db == s.db.(links := s.db.links[(a, club) := Link(CoHost, Accepted)])
                      && Cleared(s.cache, o.s.cache, o.s.db, a))
  {
    var db' := s.db.(links := s.db.links[(a, club) := Link(CoHost, Accepted)]);
    DropClears(s.(db := db'), db', a);
  }

  /** A co-host leaves, or a host removes it; the entries dropped are those the activity had until then. */
  lemma LeftIff(s: System, host: ClubId, club: ClubId, a: ActId)
    ensures
      var o := LeaveFor(s, club, a);
      && (o.Done? <==> (a, club) in s.db.links && s.db.links[(a, club)].role == CoHost)
      && (o.Done? ==> o.s.db == s.db.(links := s.db.links - {(a, club)}) && Cleared(s.cache, o.s.cache, s.db, a))
    ensures
      var o := RemoveFor(s, host, a, club);
      && (o.Done? <==> IsHostOf(s.db, host, a) && (a, club) in s.db.links && s.db.links[(a, club)].role == CoHost)
      && (o.Done? ==> o == LeaveFor(s, club, a))
  {
    DropClears(s.(db := s.db.(links := s.db.links - {(a, club)})), s.db, a);
  }

  // ---------------------------------------------------------------- reads

  /** A read fills its own entry from the tables if it is missing, and touches nothing else. */
  lemma ReadsFill(s: System, a: ActId, u: Uni, scope: Scope, now: int)
    ensures
      var o, key := FetchDetailFrom(s, a), "detail:" + a;
      && (o.Done? <==> key in s.cache || a in s.db.acts)
      && (o.Done? && key in s.cache ==> o.s == s)
      && (o.Done? && key !in s.cache ==> o.s == s.(cache := s.cache[key := CachedDetail(s.db.acts[a], LinksOf(s.db, a))]))
    ensures
      var o, key := ListDiscoveryFrom(s, u, scope, now), DiscoveryKey(u, scope);
      && o.Done? && (key in s.cache ==> o.s == s)
      && (key !in s.cache ==> o.s == s.(cache := s.cache[key := CachedList(ListForUniversity(s.db, u, scope, now))]))
  {
  }

  // ---------------------------------------------------------------- why a call is refused

  function NotByHost(db: Db, club: ClubId, a: ActId, later: Option<Refusal>): Option<Refusal> {
    Unless(a !in db.acts, ActivityNotFound, Unless(!IsHostOf(db, club, a), NotAHostClub, later))
  }

  function BadWindow(startsAt: int, endsAt: Option<int>, now: int, later: Option<Refusal>): Option<Refusal> {
    Unless(startsAt < now, StartInPast, Unless(endsAt.Some? && endsAt.value < startsAt, EndBeforeStart, later))
  }

  function StatusOf(db: Db, a: ActId): Status {
    if a in db.acts then db.acts[a].status else Draft
  }

  /** For each operation its checks in order, the first failing one being the answer. */
  function Reason(db: Db, op: Op, now: int): Option<Refusal> {
    match op
    case Create(id, club, d) =>
      BadWindow(d.startsAt, d.endsAt, now,
      Unless(club !in db.clubs, ClubNotFound,
      Unless(d.visibility == InterUniversity && !d.interAllowed, InterUniversityDenied, None)))
    case Publish(club, a) => NotByHost(db, club, a, Unless(StatusOf(db, a) != Draft, NotDraft, None))
    case PublishScheduled(_) => None
    case Update(club, a, p) =>
      if a !in db.acts then Some(ActivityNotFound)
      else
        NotByHost(db, club, a,
        Unless(StatusOf(db, a) == Cancelled, AlreadyCancelled,
        BadWindow(Or(p.startsAt, db.acts[a].startsAt), if p.endsAt == None then db.acts[a].endsAt else p.endsAt, now,
        Unless(club !in db.clubs, ClubNotFound,
        Unless(p.scheduledAt != None && StatusOf(db, a) != Draft, ScheduleNotDraft,
        Unless(p.visibility == Some(InterUniversity) && !p.interAllowed, InterUniversityDenied, None))))))
    case Cancel(club, a) => NotByHost(db, club, a, Unless(StatusOf(db, a) == Cancelled, AlreadyCancelled, None))
    case ModerateVisibility(u, club, a, v, interAllowed) =>
      NotByHost(db, club, a,
      Unless(StatusOf(db, a) == Cancelled, AlreadyCancelled,
      Unless(!IsShownIn(db, a, u), ActivityNotFound,
      Unless(v == InterUniversity && !interAllowed, InterUniversityDenied, None))))
    case ModerateCancel(u, a) =>
      Unless(a !in db.acts || !IsShownIn(db, a, u), ActivityNotFound,
      Unless(StatusOf(db, a) == Cancelled, AlreadyCancelled, None))
    case InviteCoHost(club, a, target) =>
      NotByHost(db, club, a,
      Unless(target == club, CoHostSelf,
      Unless(target !in db.clubs, ClubNotFound,
      Unless((a, target) in db.links, CoHostExists, None))))
    case AcceptCoHost(club, a) =>
      Unless(!((a, club) in db.links && db.links[(a, club)] == Link(CoHost, Invited)), CoHostInviteNotFound, None)
    case RemoveCoHost(club, a, target) =>
      NotByHost(db, club, a,
      Unless(!((a, target) in db.links && db.links[(a, target)].role == CoHost), CoHostInviteNotFound, None))
    case LeaveCoHost(club, a) =>
      Unless(!((a, club) in db.links && db.links[(a, club)].role == CoHost), CoHostInviteNotFound, None)
    case FetchDetail(a) => Unless(a !in db.acts, ActivityNotFound, None)
    case ListDiscovery(_, _) => None
    case Expire(_) => None
  }

  /** A refused call names the first of its checks that fails; a cached detail is served without looking. */
  lemma RefusedForTheFirstReason(s: System, op: Op, now: int)
    requires Callable(s, op) && (op.FetchDetail? ==> DetailKey(op.id) !in s.cache)
    ensures Reason(s.db, op, now) == var o := Apply(s, op, now); if o.Refused? then Some(o.why) else None
  {
    if op.ModerateVisibility? || op.ModerateCancel? {
      assert AcceptedIn(s.db, op.id, op.uni) <==> IsShownIn(s.db, op.id, op.uni);
    }
  }
}
