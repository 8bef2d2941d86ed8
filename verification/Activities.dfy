/**
 Activities, their club links, and the cached detail and discovery reads. Every operation names the
 database it yields and the cache keys it drops; the clock `now` is fixed.
*/
module Activities {
  import opened Wrappers

  type ActId = string
  type ClubId = string
  type Uni = string

  datatype Visibility = University | Members | InterUniversity
  datatype Status = Draft | Published | Cancelled
  datatype LinkRole = Host | CoHost
  datatype LinkStatus = Invited | Accepted
  datatype Scope = Upcoming | Past | All

  datatype Activity = Activity(
    text: string, startsAt: int, endsAt: Option<int>, capacity: Option<int>,
    visibility: Visibility, status: Status, scheduledAt: Option<int>)

  datatype Link = Link(role: LinkRole, status: LinkStatus)

  datatype Db = Db(clubs: map<ClubId, Uni>, acts: map<ActId, Activity>, links: map<(ActId, ClubId), Link>)

  /** Links refer to existing activities and clubs. */
  ghost predicate Consistent(db: Db) {
    forall p :: p in db.links ==> p.0 in db.acts && p.1 in db.clubs
  }

  // ---------------------------------------------------------------- queries

  function LinksOf(db: Db, a: ActId): map<ClubId, Link> {
    map c | c in db.clubs && (a, c) in db.links :: db.links[(a, c)]
  }

  function AcceptedOnly(links: map<ClubId, Link>): map<ClubId, Link> {
    map c | c in links && links[c].status == Accepted :: links[c]
  }

  predicate AcceptedIn(db: Db, a: ActId, u: Uni) {
    exists c :: c in db.clubs && (a, c) in db.links && db.links[(a, c)].status == Accepted && db.clubs[c] == u
  }

  /** The universities of the accepted clubs of an activity. */
  function AcceptedUnis(db: Db, a: ActId): set<Uni> {
    set c | c in db.clubs && (a, c) in db.links && db.links[(a, c)].status == Accepted :: db.clubs[c]
  }

  lemma AcceptedUnisIsAcceptedIn(db: Db, a: ActId, u: Uni)
    ensures u in AcceptedUnis(db, a) <==> AcceptedIn(db, a, u)
  {
  }

  predicate Discoverable(act: Activity, scope: Scope, now: int) {
    && act.status == Published
    && act.visibility != Members
    && (scope == Upcoming ==> act.startsAt >= now)
    && (scope == Past ==> act.startsAt < now)
  }

  /** The rows of a university's discovery list; the order follows from the rows' start times. */
  function ListForUniversity(db: Db, u: Uni, scope: Scope, now: int): map<ActId, Activity> {
    map a | a in db.acts && AcceptedIn(db, a, u) && Discoverable(db.acts[a], scope, now) :: db.acts[a]
  }

  // ---------------------------------------------------------------- cache keys

  function ScopeText(scope: Scope): string {
    match scope
    case Upcoming => "upcoming"
    case Past => "past"
    case All => "all"
  }

  function DetailKey(a: ActId): string {
    "detail:" + a
  }

  function DiscoveryKey(u: Uni, scope: Scope): string {
    "discovery:" + (u + (":" + ScopeText(scope)))
  }

  lemma DetailIsNotDiscovery(a: ActId, u: Uni, scope: Scope)
    ensures DetailKey(a) != DiscoveryKey(u, scope)
  {
    assert DetailKey(a)[2] == 't' && DiscoveryKey(u, scope)[2] == 's';
  }

  lemma DetailKeyInjective(a: ActId, b: ActId)
    requires DetailKey(a) == DetailKey(b)
    ensures a == b
  {
    assert DetailKey(a)[|"detail:"|..] == a && DetailKey(b)[|"detail:"|..] == b;
  }

  /** Even for university ids that contain the separator. */
  lemma DiscoveryKeyInjective(u: Uni, s: Scope, v: Uni, t: Scope)
    requires DiscoveryKey(u, s) == DiscoveryKey(v, t)
    ensures u == v && s == t
  {
    var x, y := ":" + ScopeText(s), ":" + ScopeText(t);
    var p := "discovery:";
    assert DiscoveryKey(u, s)[|p|..] == u + x && DiscoveryKey(v, t)[|p|..] == v + y;
    assert (u + x)[|u + x| - 1] == x[|x| - 1] && (v + y)[|v + y| - 1] == y[|y| - 1];
    assert s == t;
    assert (u + x)[..|u|] == u && (v + y)[..|v|] == v;
  }

  /** The entries of the effect "activity changed". */
  function ActivityChanged(a: ActId, unis: set<Uni>): set<string> {
    {DetailKey(a)} + set u, s | u in unis && s in {Upcoming, Past, All} :: DiscoveryKey(u, s)
  }

  // ---------------------------------------------------------------- the cached system

  datatype Cached =
    | CachedDetail(row: Activity, links: map<ClubId, Link>)
    | CachedList(rows: map<ActId, Activity>)

  datatype System = System(db: Db, cache: map<string, Cached>)

  /**
   Cached discovery lists equal fresh queries, and cached details agree with the database on the
   activity row and the accepted links.
  */
  ghost predicate Agrees(s: System, now: int) {
    && (forall a | DetailKey(a) in s.cache :: DetailAgrees(s.db, a, s.cache[DetailKey(a)]))
    && (forall u, scope | DiscoveryKey(u, scope) in s.cache ::
          s.cache[DiscoveryKey(u, scope)] == CachedList(ListForUniversity(s.db, u, scope, now)))
  }

  ghost predicate DetailAgrees(db: Db, a: ActId, c: Cached) {
    c.CachedDetail? && a in db.acts && c.row == db.acts[a] && AcceptedOnly(c.links) == AcceptedOnly(LinksOf(db, a))
  }

  datatype Refusal =
    | ActivityNotFound | ClubNotFound | NotAHostClub | NotDraft | AlreadyCancelled
    | StartInPast | EndBeforeStart | InterUniversityDenied | ScheduleNotDraft
    | CoHostSelf | CoHostExists | CoHostInviteNotFound

  datatype Outcome = Done(s: System) | Refused(why: Refusal)

  // ---------------------------------------------------------------- operations

  /** What a club's staff submits; `interAllowed` is the verdict on inter-university visibility. */
  datatype NewActivity = NewActivity(
    text: string, startsAt: int, endsAt: Option<int>, capacity: Option<int>,
    visibility: Visibility, publish: bool, scheduledAt: Option<int>, interAllowed: bool)

  datatype Patch = Patch(
    text: Option<string>, startsAt: Option<int>, endsAt: Option<int>, capacity: Option<int>,
    visibility: Option<Visibility>, scheduledAt: Option<Option<int>>, interAllowed: bool)

  datatype Op =
    | Create(id: ActId, club: ClubId, data: NewActivity)
    | Publish(club: ClubId, id: ActId)
    | PublishScheduled(id: ActId)
    | Update(club: ClubId, id: ActId, patch: Patch)
    | Cancel(club: ClubId, id: ActId)
    | ModerateVisibility(uni: Uni, club: ClubId, id: ActId, visibility: Visibility, interAllowed: bool)
    | ModerateCancel(uni: Uni, id: ActId)
    | InviteCoHost(club: ClubId, id: ActId, target: ClubId)
    | AcceptCoHost(club: ClubId, id: ActId)
    | RemoveCoHost(club: ClubId, id: ActId, target: ClubId)
    | LeaveCoHost(club: ClubId, id: ActId)
    | FetchDetail(id: ActId)
    | ListDiscovery(uni: Uni, scope: Scope)
    | Expire(key: string)

  function WindowRule(startsAt: int, endsAt: Option<int>, now: int): Option<Refusal> {
    if startsAt < now then Some(StartInPast)
    else if endsAt.Some? && endsAt.value < startsAt then Some(EndBeforeStart)
    else None
  }

  predicate IsHost(db: Db, a: ActId, c: ClubId) {
    (a, c) in db.links && db.links[(a, c)].role == Host
  }

  function HostRule(db: Db, club: ClubId, a: ActId): Option<Refusal> {
    if a !in db.acts then Some(ActivityNotFound)
    else if !IsHost(db, a, club) then Some(NotAHostClub)
    else None
  }

  predicate InterDenied(v: Visibility, allowed: bool) {
    v == InterUniversity && !allowed
  }

  function Drop(s: System, a: ActId, unis: set<Uni>): System {
    s.(cache := s.cache - ActivityChanged(a, unis))
  }

  /** Write the row of an activity and drop what depends on it. */
  function SetRow(s: System, a: ActId, row: Activity): System {
    var db' := s.db.(acts := s.db.acts[a := row]);
    Drop(s.(db := db'), a, AcceptedUnis(db', a))
  }

  function Patched(row: Activity, p: Patch): Activity {
    Activity(
      if p.text.Some? then p.text.value else row.text,
      if p.startsAt.Some? then p.startsAt.value else row.startsAt,
      if p.endsAt.Some? then p.endsAt else row.endsAt,
      if p.capacity.Some? then p.capacity else row.capacity,
      if p.visibility.Some? then p.visibility.value else row.visibility,
      row.status,
      if p.scheduledAt.Some? then p.scheduledAt.value else row.scheduledAt)
  }

  function CreateFor(s: System, id: ActId, club: ClubId, d: NewActivity, now: int): Outcome
    requires id !in s.db.acts
  {
    if WindowRule(d.startsAt, d.endsAt, now).Some? then Refused(WindowRule(d.startsAt, d.endsAt, now).value)
    else if club !in s.db.clubs then Refused(ClubNotFound)
    else if InterDenied(d.visibility, d.interAllowed) then Refused(InterUniversityDenied)
    else
      var status := if d.publish && d.scheduledAt.None? then Published else Draft;
      var row := Activity(d.text, d.startsAt, d.endsAt, d.capacity, d.visibility, status, d.scheduledAt);
      var db' := s.db.(acts := s.db.acts[id := row], links := s.db.links[(id, club) := Link(Host, Accepted)]);
      var t := s.(db := db');
      Done(if status == Published then Drop(t, id, AcceptedUnis(db', id)) else t)
  }

  function PublishFor(s: System, club: ClubId, a: ActId): Outcome {
    if HostRule(s.db, club, a).Some? then Refused(HostRule(s.db, club, a).value)
    else if s.db.acts[a].status != Draft then Refused(NotDraft)
    else Done(SetRow(s, a, s.db.acts[a].(status := Published, scheduledAt := None)))
  }

  /** The queue worker: publish a due draft, otherwise do nothing. */
  function PublishDue(s: System, a: ActId, now: int): Outcome {
    if && a in s.db.acts && s.db.acts[a].status == Draft
       && s.db.acts[a].scheduledAt.Some? && s.db.acts[a].scheduledAt.value <= now
       && exists c :: c in s.db.clubs && IsHost(s.db, a, c)
    then Done(SetRow(s, a, s.db.acts[a].(status := Published, scheduledAt := None)))
    else Done(s)
  }

  function UpdateFor(s: System, club: ClubId, a: ActId, p: Patch, now: int): Outcome {
    if HostRule(s.db, club, a).Some? then Refused(HostRule(s.db, club, a).value)
    else
      var row := s.db.acts[a];
      var next := Patched(row, p);
      if row.status == Cancelled then Refused(AlreadyCancelled)
      else if WindowRule(next.startsAt, next.endsAt, now).Some? then Refused(WindowRule(next.startsAt, next.endsAt, now).value)
      else if club !in s.db.clubs then Refused(ClubNotFound)
      else if p.scheduledAt.Some? && row.status != Draft then Refused(ScheduleNotDraft)
      else if p.visibility.Some? && InterDenied(p.visibility.value, p.interAllowed) then Refused(InterUniversityDenied)
      else Done(SetRow(s, a, next))
  }

  function CancelFor(s: System, club: ClubId, a: ActId): Outcome {
    if HostRule(s.db, club, a).Some? then Refused(HostRule(s.db, club, a).value)
    else if s.db.acts[a].status == Cancelled then Refused(AlreadyCancelled)
    else Done(SetRow(s, a, s.db.acts[a].(status := Cancelled)))
  }

  function ModerateVisibilityFor(s: System, u: Uni, club: ClubId, a: ActId, v: Visibility, interAllowed: bool): Outcome {
    if HostRule(s.db, club, a).Some? then Refused(HostRule(s.db, club, a).value)
    else if s.db.acts[a].status == Cancelled then Refused(AlreadyCancelled)
    else if !AcceptedIn(s.db, a, u) then Refused(ActivityNotFound)
    else if InterDenied(v, interAllowed) then Refused(InterUniversityDenied)
    else Done(SetRow(s, a, s.db.acts[a].(visibility := v)))
  }

  function ModerateCancelFor(s: System, u: Uni, a: ActId): Outcome {
    if a !in s.db.acts || !AcceptedIn(s.db, a, u) then Refused(ActivityNotFound)
    else if s.db.acts[a].status == Cancelled then Refused(AlreadyCancelled)
    else Done(SetRow(s, a, s.db.acts[a].(status := Cancelled)))
  }

  /** An invitation is not visible yet, so nothing is dropped. */
  function InviteFor(s: System, club: ClubId, a: ActId, target: ClubId): Outcome {
    if HostRule(s.db, club, a).Some? then Refused(HostRule(s.db, club, a).value)
    else if target == club then Refused(CoHostSelf)
    else if target !in s.db.clubs then Refused(ClubNotFound)
    else if (a, target) in s.db.links then Refused(CoHostExists)
    else Done(s.(db := s.db.(links := s.db.links[(a, target) := Link(CoHost, Invited)])))
  }

  /** The universities are taken after the link became accepted. */
  function AcceptFor(s: System, club: ClubId, a: ActId): Outcome {
    if (a, club) !in s.db.links || s.db.links[(a, club)] != Link(CoHost, Invited) then Refused(CoHostInviteNotFound)
    else
      var db' := s.db.(links := s.db.links[(a, club) := Link(CoHost, Accepted)]);
      Done(Drop(s.(db := db'), a, AcceptedUnis(db', a)))
  }

  /** The universities are taken before the link is removed. */
  function LeaveFor(s: System, club: ClubId, a: ActId): Outcome {
    if (a, club) !in s.db.links || s.db.links[(a, club)].role != CoHost then Refused(CoHostInviteNotFound)
    else
      var db' := s.db.(links := s.db.links - {(a, club)});
      Done(Drop(s.(db := db'), a, AcceptedUnis(s.db, a)))
  }

  function RemoveFor(s: System, host: ClubId, a: ActId, club: ClubId): Outcome {
    if HostRule(s.db, host, a).Some? then Refused(HostRule(s.db, host, a).value) else LeaveFor(s, club, a)
  }

  /** Read-through detail; a missing activity is not cached. */
  function FetchDetailFrom(s: System, a: ActId): Outcome {
    if DetailKey(a) in s.cache then Done(s)
    else if a in s.db.acts then Done(s.(cache := s.cache[DetailKey(a) := CachedDetail(s.db.acts[a], LinksOf(s.db, a))]))
    else Refused(ActivityNotFound)
  }

  function ListDiscoveryFrom(s: System, u: Uni, scope: Scope, now: int): Outcome {
    var key := DiscoveryKey(u, scope);
    Done(if key in s.cache then s else s.(cache := s.cache[key := CachedList(ListForUniversity(s.db, u, scope, now))]))
  }

  predicate Callable(s: System, op: Op) {
    op.Create? ==> op.id !in s.db.acts
  }

  function Apply(s: System, op: Op, now: int): Outcome
    requires Callable(s, op)
  {
    match op
    case Create(id, club, data) => CreateFor(s, id, club, data, now)
    case Publish(club, a) => PublishFor(s, club, a)
    case PublishScheduled(a) => PublishDue(s, a, now)
    case Update(club, a, patch) => UpdateFor(s, club, a, patch, now)
    case Cancel(club, a) => CancelFor(s, club, a)
    case ModerateVisibility(u, club, a, v, allowed) => ModerateVisibilityFor(s, u, club, a, v, allowed)
    case ModerateCancel(u, a) => ModerateCancelFor(s, u, a)
    case InviteCoHost(club, a, target) => InviteFor(s, club, a, target)
    case AcceptCoHost(club, a) => AcceptFor(s, club, a)
    case RemoveCoHost(club, a, target) => RemoveFor(s, club, a, target)
    case LeaveCoHost(club, a) => LeaveFor(s, club, a)
    case FetchDetail(a) => FetchDetailFrom(s, a)
    case ListDiscovery(u, scope) => ListDiscoveryFrom(s, u, scope, now)
    case Expire(key) => Done(s.(cache := s.cache - {key}))
  }

  function Step(s: System, op: Op, now: int): System
    requires Callable(s, op)
  {
    var o := Apply(s, op, now);
    if o.Done? then o.s else s
  }

  predicate AllCallable(s: System, ops: seq<Op>, now: int)
    decreases |ops|
  {
    ops != [] ==> Callable(s, ops[0]) && AllCallable(Step(s, ops[0], now), ops[1..], now)
  }

  function After(s: System, ops: seq<Op>, now: int): System
    requires AllCallable(s, ops, now)
    decreases |ops|
  {
    if ops == [] then s else After(Step(s, ops[0], now), ops[1..], now)
  }
}

/** The caches of activities agree with the database after every run of operations. */
module ActivityAgreement {
  import opened Activities

  /** Only activity `a` differs between two databases. */
  ghost predicate OnlyChanges(db: Db, db': Db, a: ActId) {
    && db'.clubs == db.clubs
    && (forall b :: b != a ==> (b in db'.acts <==> b in db.acts) && (b in db.acts ==> db'.acts[b] == db.acts[b]))
    && (forall p: (ActId, ClubId) | p.0 != a :: (p in db'.links <==> p in db.links) && (p in db.links ==> db'.links[p] == db.links[p]))
  }

  lemma OtherAcceptanceUnchanged(db: Db, db': Db, a: ActId, b: ActId, u: Uni)
    requires OnlyChanges(db, db', a) && b != a
    ensures AcceptedIn(db', b, u) <==> AcceptedIn(db, b, u)
  {
    forall c ensures (b, c) in db'.links <==> (b, c) in db.links {}
    assert forall c | (b, c) in db.links :: db'.links[(b, c)] == db.links[(b, c)];
  }

  /** A change of one activity changes the lists of no university that never accepts it. */
  lemma OtherListsUnchanged(db: Db, db': Db, a: ActId, u: Uni, scope: Scope, now: int)
    requires OnlyChanges(db, db', a)
    requires AcceptedIn(db, a, u) && a in db.acts ==> !Discoverable(db.acts[a], scope, now)
    requires AcceptedIn(db', a, u) && a in db'.acts ==> !Discoverable(db'.acts[a], scope, now)
    ensures ListForUniversity(db', u, scope, now) == ListForUniversity(db, u, scope, now)
  {
    var before, after := ListForUniversity(db, u, scope, now), ListForUniversity(db', u, scope, now);
    forall b
      ensures (b in after <==> b in before) && (b in after ==> after[b] == before[b])
    {
      if b != a {
        OtherAcceptanceUnchanged(db, db', a, b, u);
      }
    }
  }

  lemma OtherDetailsUnchanged(db: Db, db': Db, a: ActId, b: ActId)
    requires OnlyChanges(db, db', a) && b != a
    ensures LinksOf(db', b) == LinksOf(db, b)
  {
    forall c ensures (b, c) in db'.links <==> (b, c) in db.links {}
    assert forall c | (b, c) in db.links :: db'.links[(b, c)] == db.links[(b, c)];
  }

  /** Dropping the activity's entries in every university it is or was accepted in restores agreement. */
  lemma DropRestoresAgreement(s: System, db': Db, a: ActId, unis: set<Uni>, now: int)
    requires Agrees(s, now) && OnlyChanges(s.db, db', a)
    requires AcceptedUnis(s.db, a) <= unis && AcceptedUnis(db', a) <= unis
    ensures Agrees(Drop(s.(db := db'), a, unis), now)
  {
    var t := Drop(s.(db := db'), a, unis);
    forall b | DetailKey(b) in t.cache ensures DetailAgrees(db', b, t.cache[DetailKey(b)]) {
      assert DetailKey(a) in ActivityChanged(a, unis);
      OtherDetailsUnchanged(s.db, db', a, b);
    }
    forall u, scope | DiscoveryKey(u, scope) in t.cache
      ensures t.cache[DiscoveryKey(u, scope)] == CachedList(ListForUniversity(db', u, scope, now))
    {
      assert u in unis ==> DiscoveryKey(u, scope) in ActivityChanged(a, unis);
      AcceptedUnisIsAcceptedIn(s.db, a, u);
      AcceptedUnisIsAcceptedIn(db', a, u);
      OtherListsUnchanged(s.db, db', a, u, scope, now);
    }
  }

  lemma SetRowKeepsAgreement(s: System, a: ActId, row: Activity, now: int)
    requires Agrees(s, now) && a in s.db.acts
    ensures Agrees(SetRow(s, a, row), now)
  {
    var db' := s.db.(acts := s.db.acts[a := row]);
    assert AcceptedUnis(db', a) == AcceptedUnis(s.db, a);
    DropRestoresAgreement(s, db', a, AcceptedUnis(db', a), now);
  }

  lemma CreateKeepsAgreement(s: System, id: ActId, club: ClubId, d: NewActivity, now: int)
    requires Agrees(s, now) && Consistent(s.db) && id !in s.db.acts && CreateFor(s, id, club, d, now).Done?
    ensures Agrees(CreateFor(s, id, club, d, now).s, now)
  {
    var t := CreateFor(s, id, club, d, now).s;
    if t.db.acts[id].status == Published {
      assert AcceptedUnis(s.db, id) == {};
      DropRestoresAgreement(s, t.db, id, AcceptedUnis(t.db, id), now);
    } else {
      // A draft is in no list, and a missing activity was never cached.
      forall b | DetailKey(b) in t.cache ensures DetailAgrees(t.db, b, t.cache[DetailKey(b)]) {
        assert DetailAgrees(s.db, b, s.cache[DetailKey(b)]);
        OtherDetailsUnchanged(s.db, t.db, id, b);
      }
      forall u, scope | DiscoveryKey(u, scope) in t.cache
        ensures ListForUniversity(t.db, u, scope, now) == ListForUniversity(s.db, u, scope, now)
      {
        OtherListsUnchanged(s.db, t.db, id, u, scope, now);
      }
    }
  }

  lemma InviteKeepsAgreement(s: System, club: ClubId, a: ActId, target: ClubId, now: int)
    requires Agrees(s, now) && InviteFor(s, club, a, target).Done?
    ensures Agrees(InviteFor(s, club, a, target).s, now)
  {
    var t := InviteFor(s, club, a, target).s;
    forall b ensures AcceptedOnly(LinksOf(t.db, b)) == AcceptedOnly(LinksOf(s.db, b)) {
      forall c ensures c in AcceptedOnly(LinksOf(t.db, b)) <==> c in AcceptedOnly(LinksOf(s.db, b)) {}
    }
    forall b | DetailKey(b) in t.cache ensures DetailAgrees(t.db, b, t.cache[DetailKey(b)]) {
      assert DetailAgrees(s.db, b, s.cache[DetailKey(b)]);
    }
    forall u, scope ensures ListForUniversity(t.db, u, scope, now) == ListForUniversity(s.db, u, scope, now) {
      forall b ensures AcceptedIn(t.db, b, u) <==> AcceptedIn(s.db, b, u) {
        if AcceptedIn(s.db, b, u) {
          var c :| c in s.db.clubs && (b, c) in s.db.links && s.db.links[(b, c)].status == Accepted && s.db.clubs[c] == u;
          assert (b, c) in t.db.links && t.db.links[(b, c)].status == Accepted;
        }
      }
    }
  }

  lemma AcceptKeepsAgreement(s: System, club: ClubId, a: ActId, now: int)
    requires Agrees(s, now) && AcceptFor(s, club, a).Done?
    ensures Agrees(AcceptFor(s, club, a).s, now)
  {
    var db' := AcceptFor(s, club, a).s.db;
    forall u | u in AcceptedUnis(s.db, a) ensures u in AcceptedUnis(db', a) {
      var c :| c in s.db.clubs && (a, c) in s.db.links && s.db.links[(a, c)].status == Accepted && s.db.clubs[c] == u;
      assert (a, c) in db'.links && db'.links[(a, c)].status == Accepted;
    }
    DropRestoresAgreement(s, db', a, AcceptedUnis(db', a), now);
  }

  lemma LeaveKeepsAgreement(s: System, club: ClubId, a: ActId, now: int)
    requires Agrees(s, now) && LeaveFor(s, club, a).Done?
    ensures Agrees(LeaveFor(s, club, a).s, now)
  {
    var db' := LeaveFor(s, club, a).s.db;
    assert AcceptedUnis(db', a) <= AcceptedUnis(s.db, a);
    DropRestoresAgreement(s, db', a, AcceptedUnis(s.db, a), now);
  }

  lemma ReadKeepsAgreement(s: System, op: Op, now: int)
    requires Agrees(s, now) && (op.FetchDetail? || op.ListDiscovery? || op.Expire?)
    ensures Agrees(Step(s, op, now), now)
  {
    var t := Step(s, op, now);
    forall a | DetailKey(a) in t.cache ensures DetailAgrees(t.db, a, t.cache[DetailKey(a)]) {
      if op.FetchDetail? && DetailKey(a) == DetailKey(op.id) {
        DetailKeyInjective(a, op.id);
      } else if op.ListDiscovery? {
        DetailIsNotDiscovery(a, op.uni, op.scope);
      }
    }
    forall u, scope | DiscoveryKey(u, scope) in t.cache
      ensures t.cache[DiscoveryKey(u, scope)] == CachedList(ListForUniversity(t.db, u, scope, now))
    {
      if op.FetchDetail? {
        DetailIsNotDiscovery(op.id, u, scope);
      } else if op.ListDiscovery? && DiscoveryKey(u, scope) == DiscoveryKey(op.uni, op.scope) {
        DiscoveryKeyInjective(u, scope, op.uni, op.scope);
      }
    }
  }

  lemma StepKeepsConsistent(s: System, op: Op, now: int)
    requires Consistent(s.db) && Callable(s, op)
    ensures Consistent(Step(s, op, now).db)
  {
  }

  predicate ChangesRow(op: Op) {
    op.Publish? || op.PublishScheduled? || op.Update? || op.Cancel? || op.ModerateVisibility? || op.ModerateCancel?
  }

  lemma RowStepKeepsAgreement(s: System, op: Op, now: int)
    requires Callable(s, op) && ChangesRow(op) && Agrees(s, now)
    ensures Agrees(Step(s, op, now), now)
  {
    if Step(s, op, now) != s {
      SetRowKeepsAgreement(s, op.id, Step(s, op, now).db.acts[op.id], now);
    }
  }

  lemma StepKeepsAgreement(s: System, op: Op, now: int)
    requires Consistent(s.db) && Callable(s, op) && Agrees(s, now)
    ensures Agrees(Step(s, op, now), now)
  {
    if ChangesRow(op) {
      RowStepKeepsAgreement(s, op, now);
    } else if Apply(s, op, now).Done? {
      match op
      case Create(id, club, data) => CreateKeepsAgreement(s, id, club, data, now);
      case InviteCoHost(club, a, target) => InviteKeepsAgreement(s, club, a, target, now);
      case AcceptCoHost(club, a) => AcceptKeepsAgreement(s, club, a, now);
      case RemoveCoHost(club, a, target) => LeaveKeepsAgreement(s, target, a, now);
      case LeaveCoHost(club, a) => LeaveKeepsAgreement(s, club, a, now);
      case FetchDetail(_) => ReadKeepsAgreement(s, op, now);
      case ListDiscovery(_, _) => ReadKeepsAgreement(s, op, now);
      case Expire(_) => ReadKeepsAgreement(s, op, now);
    }
  }

  /** Between service calls the caches always agree with the database. */
  lemma {:induction false} CachesAgree(s: System, ops: seq<Op>, now: int)
    requires Consistent(s.db) && Agrees(s, now) && AllCallable(s, ops, now)
    ensures Agrees(After(s, ops, now), now)
    decreases |ops|
  {
    if ops != [] {
      StepKeepsConsistent(s, ops[0], now);
      StepKeepsAgreement(s, ops[0], now);
      CachesAgree(Step(s, ops[0], now), ops[1..], now);
    }
  }
}
