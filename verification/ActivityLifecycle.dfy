/** What the activities service keeps over whole runs, whoever calls it and whatever it refuses. */
module ActivityLifecycle {
  import opened Wrappers
  import opened Activities

  function Stage(st: Status): nat {
    match st
    case Draft => 0
    case Published => 1
    case Cancelled => 2
  }

  /** A later row of an activity: its status only moves on, and a cancelled one keeps its times, text and capacity. */
  predicate Follows(before: Activity, after: Activity) {
    && Stage(before.status) <= Stage(after.status)
    && (before.status == Cancelled ==> after == before)
  }

  predicate WindowOrdered(act: Activity) {
    act.endsAt.Some? ==> act.startsAt <= act.endsAt.value
  }

  /** A schedule belongs to a draft; publishing removes it. */
  predicate ScheduleFits(act: Activity) {
    act.status == Published ==> act.scheduledAt.None?
  }

  ghost predicate RowsFit(db: Db) {
    forall a | a in db.acts :: WindowOrdered(db.acts[a]) && ScheduleFits(db.acts[a])
  }

  /** Activities stay and move on; an accepted host link stays as it is. */
  ghost predicate MovesOn(db: Db, db': Db) {
    && (forall a | a in db.acts :: a in db'.acts && Follows(db.acts[a], db'.acts[a]))
    && (forall p | p in db.links && db.links[p] == Link(Host, Accepted) :: p in db'.links && db'.links[p] == db.links[p])
  }

  /** Every activity has an accepted host. */
  ghost predicate Hosted(db: Db) {
    forall a | a in db.acts :: exists c :: (a, c) in db.links && db.links[(a, c)] == Link(Host, Accepted)
  }

  /** An operation writes no row, or one that follows the one before and fits. */
  predicate RowWrite(acts: map<ActId, Activity>, acts': map<ActId, Activity>, a: ActId, row: Activity) {
    || acts' == acts
    || (&& acts' == acts[a := row]
        && (if a in acts
            then Follows(acts[a], row)
                 && (WindowOrdered(acts[a]) && ScheduleFits(acts[a]) ==> WindowOrdered(row) && ScheduleFits(row))
            else WindowOrdered(row) && ScheduleFits(row)))
  }

  lemma StepRow(s: System, op: Op, now: int) returns (a: ActId, row: Activity)
    requires Callable(s, op)
    ensures RowWrite(s.db.acts, Step(s, op, now).db.acts, a, row)
  {
    var acts' := Step(s, op, now).db.acts;
    a := match op
      case Create(id, _, _) => id
      case Publish(_, id) => id
      case PublishScheduled(id) => id
      case Update(_, id, _) => id
      case Cancel(_, id) => id
      case ModerateVisibility(_, _, id, _, _) => id
      case ModerateCancel(_, id) => id
      case InviteCoHost(_, id, _) => id
      case AcceptCoHost(_, id) => id
      case RemoveCoHost(_, id, _) => id
      case LeaveCoHost(_, id) => id
      case FetchDetail(id) => id
      case ListDiscovery(_, _) => ""
      case Expire(_) => "";
    row := if a in acts' then acts'[a] else Activity("", 0, None, None, University, Draft, None);
  }

  lemma StepLinks(s: System, op: Op, now: int)
    requires Callable(s, op)
    ensures forall p | p in s.db.links && s.db.links[p].role == Host ::
              op.Create? || (p in Step(s, op, now).db.links && Step(s, op, now).db.links[p] == s.db.links[p])
    ensures op.Create? && Step(s, op, now) != s ==>
              Step(s, op, now).db.links == s.db.links[(op.id, op.club) := Link(Host, Accepted)]
  {
  }

  lemma StepMovesOn(s: System, op: Op, now: int)
    requires Callable(s, op)
    ensures MovesOn(s.db, Step(s, op, now).db)
  {
    var a, row := StepRow(s, op, now);
    StepLinks(s, op, now);
  }

  lemma StepKeepsRows(s: System, op: Op, now: int)
    requires Callable(s, op) && RowsFit(s.db)
    ensures RowsFit(Step(s, op, now).db)
  {
    var a, row := StepRow(s, op, now);
  }

  lemma StepKeepsHosts(s: System, op: Op, now: int)
    requires Callable(s, op) && Hosted(s.db)
    ensures Hosted(Step(s, op, now).db)
  {
    StepMovesOn(s, op, now);
    var db' := Step(s, op, now).db;
    forall a | a in db'.acts
      ensures exists c :: (a, c) in db'.links && db'.links[(a, c)] == Link(Host, Accepted)
    {
      if a in s.db.acts {
        var c :| (a, c) in s.db.links && s.db.links[(a, c)] == Link(Host, Accepted);
        assert db'.links[(a, c)] == Link(Host, Accepted);
      } else {
        assert db'.links[(a, op.club)] == Link(Host, Accepted);
      }
    }
  }

  lemma MovesOnTwice(a: Db, b: Db, c: Db)
    requires MovesOn(a, b) && MovesOn(b, c)
    ensures MovesOn(a, c)
  {
  }

  /**
   Over any run: an activity's status only moves from draft to published to cancelled, a cancelled row never
   changes, host links stay, and start times stay at or before end times and schedules off published rows.
  */
  lemma {:induction false} LifecycleIsKept(s: System, ops: seq<Op>, now: int)
    requires AllCallable(s, ops, now) && RowsFit(s.db) && Hosted(s.db)
    ensures MovesOn(s.db, After(s, ops, now).db) && RowsFit(After(s, ops, now).db) && Hosted(After(s, ops, now).db)
    decreases |ops|
  {
    if ops != [] {
      var t := Step(s, ops[0], now);
      StepMovesOn(s, ops[0], now);
      StepKeepsRows(s, ops[0], now);
      StepKeepsHosts(s, ops[0], now);
      LifecycleIsKept(t, ops[1..], now);
      MovesOnTwice(s.db, t.db, After(s, ops, now).db);
    }
  }

  /** The operations that a club performs as a host. */
  predicate ActsFor(op: Op, club: ClubId) {
    match op
    case Publish(c, _) => c == club
    case Update(c, _, _) => c == club
    case Cancel(c, _) => c == club
    case InviteCoHost(c, _, _) => c == club
    case RemoveCoHost(c, _, _) => c == club
    case _ => false
  }

  /** A club that is not a host of the activity is refused and changes nothing. */
  lemma OnlyHostsAct(s: System, op: Op, club: ClubId, now: int)
    requires Callable(s, op) && ActsFor(op, club) && !IsHost(s.db, op.id, club)
    ensures Apply(s, op, now).Refused? && Step(s, op, now) == s
  {
  }
}
