/** What role administration keeps over whole runs. */
module RbacSafety {
  import opened Wrappers
  import opened Rbac
  import opened RbacWrites

  // ---------------------------------------------------------------- database constraints survive

  lemma WriteKeepsConsistent(db: Db, w: Write)
    requires Consistent(db) && Legal(db, w)
    ensures Consistent(Written(db, w)) && Written(db, w).users == db.users
  {
  }

  lemma StepKeepsConsistent(db: Db, a: Actor, op: Op)
    requires Consistent(db) && Callable(db, op)
    ensures Consistent(Step(db, a, op))
    ensures Step(db, a, op).users == db.users
  {
    var w := StepWrites(db, a, op);
    WriteKeepsConsistent(db, w);
  }

  // ---------------------------------------------------------------- tenant isolation of roles

  /** A tenant's own roles are held only by users of that tenant. */
  ghost predicate TenantIsolated(db: Db) {
    forall u, r | (u, r) in db.userRoles && u in db.users && r in db.roles && db.roles[r].tenant.Some? ::
      db.users[u].tenant == db.roles[r].tenant
  }

  lemma WriteKeepsTenantIsolated(db: Db, w: Write)
    requires Consistent(db) && TenantIsolated(db) && Legal(db, w)
    ensures TenantIsolated(Written(db, w))
  {
  }

  lemma StepKeepsTenantIsolated(db: Db, a: Actor, op: Op)
    requires Consistent(db) && TenantIsolated(db) && Callable(db, op)
    ensures TenantIsolated(Step(db, a, op))
  {
    var w := StepWrites(db, a, op);
    WriteKeepsTenantIsolated(db, w);
  }

  // ---------------------------------------------------------------- the ceiling of one tenant

  /** Everything a tenant's users hold, its roles carry, or global roles below `top` carry is in `keys`. */
  ghost predicate Within(db: Db, t: Tenant, top: nat, keys: set<string>) {
    && (forall u | Active(db, u) && db.users[u].tenant == Some(t) :: RanksAtMost(db, u, top))
    && (forall u, p | Holds(db, u, p) && db.users[u].tenant == Some(t) :: db.perms[p] in keys)
    && (forall r, p | r in db.roles && (r, p) in db.rolePerms && p in db.perms
                      && (db.roles[r].tenant == Some(t) || (db.roles[r].tenant.None? && db.roles[r].rank < top)) ::
          db.perms[p] in keys)
  }

  ghost predicate RanksAtMost(db: Db, u: UserId, top: nat) {
    forall r :: r in RolesOf(db, u) ==> db.roles[r].rank <= top
  }

  /** A tenant administrator: bound to a tenant and without the super-admin flag. */
  predicate TenantActor(a: Actor) {
    a.tenant.Some? && !a.superAdmin
  }

  lemma ActorIsWithin(db: Db, a: Actor, top: nat, keys: set<string>)
    requires Current(db, a) && a.tenant.Some? && Within(db, a.tenant.value, top, keys)
    ensures a.maxRank <= top && a.permissions <= keys
  {
  }

  /** Whoever holds more after an assignment holds it by the assigned role. */
  lemma HoldsByAssignment(db: Db, u: UserId, r: RoleId, v: UserId, p: PermId)
    requires Holds(db.(userRoles := db.userRoles + {(u, r)}), v, p) && !Holds(db, v, p)
    ensures v == u && (r, p) in db.rolePerms
  {
  }

  lemma AssignKeepsWithin(db: Db, a: Actor, u: UserId, r: RoleId, t: Tenant, top: nat, keys: set<string>)
    requires Consistent(db) && TenantIsolated(db) && Current(db, a) && TenantActor(a) && Within(db, t, top, keys)
    requires AssignRole(db, a, u, r).Done?
    ensures Within(AssignRole(db, a, u, r).db, t, top, keys)
  {
    var db' := AssignRole(db, a, u, r).db;
    assert Active(db', u) == Active(db, u);
    if db.users[u].tenant == Some(t) {
      ActorIsWithin(db, a, top, keys);
    }
    forall v, p | Holds(db', v, p) && db'.users[v].tenant == Some(t) ensures db'.perms[p] in keys {
      if !Holds(db, v, p) {
        HoldsByAssignment(db, u, r, v, p);
      }
    }
    forall v | Active(db', v) && db'.users[v].tenant == Some(t) ensures RanksAtMost(db', v, top) {
      assert RanksAtMost(db, v, top);
      assert RolesOf(db', v) <= RolesOf(db, v) + if v == u then {r} else {};
    }
  }

  lemma RemoveKeepsWithin(db: Db, db': Db, t: Tenant, top: nat, keys: set<string>)
    requires Within(db, t, top, keys)
    requires db'.users == db.users && db'.perms == db.perms && db'.overrides == db.overrides
    requires db'.userRoles <= db.userRoles && db'.rolePerms <= db.rolePerms
    requires forall r :: r in db'.roles ==> r in db.roles && db'.roles[r] == db.roles[r]
    ensures Within(db', t, top, keys)
  {
  }

  /** Creating or editing a role below the actor, in the actor's tenant. */
  lemma EditKeepsWithin(db: Db, a: Actor, r: RoleId, role: Role, t: Tenant, top: nat, keys: set<string>)
    requires Consistent(db) && TenantIsolated(db) && Current(db, a) && TenantActor(a) && Within(db, t, top, keys)
    requires role.tenant == a.tenant && role.rank < a.maxRank
    requires r in db.roles ==> db.roles[r].tenant == a.tenant
    ensures Within(db.(roles := db.roles[r := role]), t, top, keys)
  {
    var db' := db.(roles := db.roles[r := role]);
    if a.tenant == Some(t) {
      ActorIsWithin(db, a, top, keys);
    }
    forall v, p | Holds(db', v, p) && db'.users[v].tenant == Some(t) ensures db'.perms[p] in keys {
      assert Holds(db, v, p);
    }
    forall v | Active(db', v) && db'.users[v].tenant == Some(t) ensures RanksAtMost(db', v, top) {
      assert RanksAtMost(db, v, top);
    }
  }

  lemma AttachKeepsWithin(db: Db, a: Actor, r: RoleId, p: PermId, t: Tenant, top: nat, keys: set<string>)
    requires Consistent(db) && TenantIsolated(db) && Current(db, a) && TenantActor(a) && Within(db, t, top, keys)
    requires AttachPermission(db, a, r, p).Done?
    ensures Within(AttachPermission(db, a, r, p).db, t, top, keys)
  {
    var db' := AttachPermission(db, a, r, p).db;
    if a.tenant == Some(t) {
      ActorIsWithin(db, a, top, keys);
    }
    forall v, q | Holds(db', v, q) && db'.users[v].tenant == Some(t) ensures db'.perms[q] in keys {
      if !Holds(db, v, q) {
        var s :| s in db'.roles && (v, s) in db'.userRoles && (s, q) in db'.rolePerms;
        assert (s, q) == (r, p);
      }
    }
    forall v | Active(db', v) && db'.users[v].tenant == Some(t) ensures RanksAtMost(db', v, top) {
      assert RanksAtMost(db, v, top);
      assert RolesOf(db', v) == RolesOf(db, v);
    }
  }

  lemma RemovalKeepsWithin(db: Db, a: Actor, op: Op, t: Tenant, top: nat, keys: set<string>)
    requires Consistent(db) && Callable(db, op) && Within(db, t, top, keys)
    requires op.OpDeleteRole? || op.OpRemoveRole? || op.OpRemoveGlobal? || op.OpDetach?
    ensures Within(Step(db, a, op), t, top, keys)
  {
    var w := StepWrites(db, a, op);
    if w != Nothing {
      RemoveKeepsWithin(db, Written(db, w), t, top, keys);
    }
  }

  lemma StepKeepsWithin(db: Db, a: Actor, op: Op, t: Tenant, top: nat, keys: set<string>)
    requires Consistent(db) && TenantIsolated(db) && Callable(db, op) && op.ByRole()
    requires Current(db, a) && TenantActor(a) && Within(db, t, top, keys)
    ensures Within(Step(db, a, op), t, top, keys)
  {
    if Outcomes(db, a, op).Done? {
      match op
      case OpCreateRole(id, _, _, _) => EditKeepsWithin(db, a, id, Step(db, a, op).roles[id], t, top, keys);
      case OpUpdateRole(r, _, _) => EditKeepsWithin(db, a, r, Step(db, a, op).roles[r], t, top, keys);
      case OpAssignRole(u, r) => AssignKeepsWithin(db, a, u, r, t, top, keys);
      case OpAssignGlobal(u, name) =>
        var r :| IsGlobal(db, r, name) && AssignGlobal(db, a, u, name) == AssignRole(db, a, u, r);
        AssignKeepsWithin(db, a, u, r, t, top, keys);
      case OpAttach(r, p) => AttachKeepsWithin(db, a, r, p, t, top, keys);
      case OpDeleteRole(_) => RemovalKeepsWithin(db, a, op, t, top, keys);
      case OpRemoveRole(_, _) => RemovalKeepsWithin(db, a, op, t, top, keys);
      case OpRemoveGlobal(_, _) => RemovalKeepsWithin(db, a, op, t, top, keys);
      case OpDetach(_, _) => RemovalKeepsWithin(db, a, op, t, top, keys);
    }
  }

  // ---------------------------------------------------------------- over whole runs

  ghost predicate TenantRun(acts: seq<Act>) {
    forall i :: 0 <= i < |acts| ==> TenantActor(acts[i].actor) && acts[i].op.ByRole()
  }

  /** The highest rank of a tenant's users. */
  ghost function TopRank(db: Db, t: Tenant): nat {
    Greatest({0} + set u | u in db.users && db.users[u].tenant == Some(t) :: MaxRank(db, u))
  }

  /** Held by a user of the tenant, on a role of the tenant, or on a global template below its top rank. */
  ghost predicate Reachable(db: Db, t: Tenant, key: string) {
    || (exists u :: u in db.users && db.users[u].tenant == Some(t) && key in Effective(db, u))
    || (exists r, p :: r in db.roles && (r, p) in db.rolePerms && p in db.perms && db.perms[p] == key
                       && (db.roles[r].tenant == Some(t)
                           || (db.roles[r].tenant.None? && db.roles[r].rank < TopRank(db, t))))
  }

  ghost function ReachableKeys(db: Db, t: Tenant): set<string> {
    set key | key in db.perms.Values && Reachable(db, t, key)
  }

  lemma StartsWithin(db: Db, t: Tenant)
    ensures Within(db, t, TopRank(db, t), ReachableKeys(db, t))
  {
    var top := TopRank(db, t);
    var ranks := {0} + set u | u in db.users && db.users[u].tenant == Some(t) :: MaxRank(db, u);
    forall u | Active(db, u) && db.users[u].tenant == Some(t) ensures RanksAtMost(db, u, top) {
      assert MaxRank(db, u) in ranks;
      MaxRankBounds(db, u, top);
    }
    forall u, p | Holds(db, u, p) && db.users[u].tenant == Some(t) ensures db.perms[p] in ReachableKeys(db, t) {
      assert db.perms[p] in Effective(db, u);
    }
  }

  lemma {:induction false} RunKeepsWithin(db: Db, acts: seq<Act>, t: Tenant, top: nat, keys: set<string>)
    requires Consistent(db) && TenantIsolated(db) && Runs(db, acts) && TenantRun(acts) && Within(db, t, top, keys)
    ensures Within(After(db, acts), t, top, keys) && After(db, acts).users == db.users
    decreases |acts|
  {
    if acts != [] {
      var a, op := acts[0].actor, acts[0].op;
      StepKeepsConsistent(db, a, op);
      StepKeepsTenantIsolated(db, a, op);
      StepKeepsWithin(db, a, op, t, top, keys);
      RunKeepsWithin(Step(db, a, op), acts[1..], t, top, keys);
    }
  }

  /**
   Privilege ceiling: whatever tenant administrators do, a permission that a tenant's user or role
   ends up with was in reach at the start, and nobody's rank exceeds the tenant's initial top rank.
  */
  lemma PrivilegeCeiling(db: Db, acts: seq<Act>, t: Tenant)
    requires Consistent(db) && TenantIsolated(db) && Runs(db, acts) && TenantRun(acts)
    ensures
      var end := After(db, acts);
      && (forall u, key | u in end.users && end.users[u].tenant == Some(t) && key in Effective(end, u) ::
            Reachable(db, t, key))
      && (forall r, p | r in end.roles && end.roles[r].tenant == Some(t) && (r, p) in end.rolePerms && p in end.perms ::
            Reachable(db, t, end.perms[p]))
      && TopRank(end, t) <= TopRank(db, t)
  {
    StartsWithin(db, t);
    RunKeepsWithin(db, acts, t, TopRank(db, t), ReachableKeys(db, t));
    var end := After(db, acts);
    forall u | u in end.users && end.users[u].tenant == Some(t) ensures MaxRank(end, u) <= TopRank(db, t) {
      MaxRankBounds(end, u, TopRank(db, t));
    }
  }

  /** Tenant-specific roles never leave their tenant, whoever acts. */
  lemma {:induction false} RolesStayInTheirTenant(db: Db, acts: seq<Act>)
    requires Consistent(db) && TenantIsolated(db) && Runs(db, acts)
    ensures TenantIsolated(After(db, acts)) && Consistent(After(db, acts))
    decreases |acts|
  {
    if acts != [] {
      StepKeepsConsistent(db, acts[0].actor, acts[0].op);
      StepKeepsTenantIsolated(db, acts[0].actor, acts[0].op);
      RolesStayInTheirTenant(Step(db, acts[0].actor, acts[0].op), acts[1..]);
    }
  }

  // ---------------------------------------------------------------- peers and superiors

  lemma WritesThatChangeRoles(db: Db, w: Write, u: UserId)
    requires Consistent(db) && Legal(db, w) && u in db.users
    requires (w.Give? || w.Take?) ==> w.user != u
    ensures RolesOf(Written(db, w), u) != RolesOf(db, u) <==> w.DropRole? && (u, w.role) in db.userRoles
    ensures RolesOf(Written(db, w), u) <= RolesOf(db, u)
  {
    var db' := Written(db, w);
    if w.DropRole? && (u, w.role) in db.userRoles {
      assert w.role in RolesOf(db, u) && w.role !in RolesOf(db', u);
    } else {
      forall r ensures r in RolesOf(db', u) <==> r in RolesOf(db, u) {}
    }
  }

  /** A deletable tenant role of the actor's tenant, ranked below the actor, that the user holds. */
  predicate DeletesRoleOf(db: Db, a: Actor, op: Op, u: UserId) {
    && op.OpDeleteRole? && op.role in db.roles && (u, op.role) in db.userRoles
    && db.roles[op.role].tenant == a.tenant && db.roles[op.role].rank < a.maxRank
    && db.roles[op.role].name !in CORE_ROLE_NAMES
  }

  /** Another user, ranked at or above an actor without the super-admin flag. */
  ghost predicate IsPeerOf(db: Db, a: Actor, u: UserId) {
    !a.superAdmin && u != a.userId && u in db.users && MaxRank(db, u) >= a.maxRank
  }

  /**
   An administrator never assigns to or takes from another user ranked at or above it. Deleting a
   role is the one way the roles of such a user change: exactly when it may be deleted and the user holds it.
  */
  lemma PeersKeepTheirRoles(db: Db, a: Actor, op: Op, u: UserId)
    requires Consistent(db) && Callable(db, op) && IsPeerOf(db, a, u)
    ensures RolesOf(Step(db, a, op), u) != RolesOf(db, u) <==> DeletesRoleOf(db, a, op, u)
    ensures RolesOf(Step(db, a, op), u) <= RolesOf(db, u)
  {
    var w := StepWrites(db, a, op);
    WritesThatChangeRoles(db, w, u);
  }

  /** At every step of the run the user is a peer or superior of the one who acts. */
  ghost predicate PeerThroughout(db: Db, acts: seq<Act>, u: UserId)
    decreases |acts|
  {
    acts != [] ==>
      && IsPeerOf(db, acts[0].actor, u) && Callable(db, acts[0].op)
      && PeerThroughout(Step(db, acts[0].actor, acts[0].op), acts[1..], u)
  }

  /** Some step of the run deletes a role the user then holds. */
  ghost predicate LosesARole(db: Db, acts: seq<Act>, u: UserId)
    requires Runs(db, acts)
    decreases |acts|
  {
    acts != [] &&
    (DeletesRoleOf(db, acts[0].actor, acts[0].op, u)
     || LosesARole(Step(db, acts[0].actor, acts[0].op), acts[1..], u))
  }

  /** Over a whole run of its peers and inferiors a user's roles change exactly if one of them is deleted, and never grow. */
  lemma {:induction false} PeersKeepTheirRolesInRuns(db: Db, acts: seq<Act>, u: UserId)
    requires Consistent(db) && Runs(db, acts) && PeerThroughout(db, acts, u)
    ensures RolesOf(After(db, acts), u) != RolesOf(db, u) <==> LosesARole(db, acts, u)
    ensures RolesOf(After(db, acts), u) <= RolesOf(db, u)
    decreases |acts|
  {
    if acts != [] {
      PeersKeepTheirRoles(db, acts[0].actor, acts[0].op, u);
      StepKeepsConsistent(db, acts[0].actor, acts[0].op);
      PeersKeepTheirRolesInRuns(Step(db, acts[0].actor, acts[0].op), acts[1..], u);
    }
  }

  /** Two administrators of one university; the second also holds a low-ranked role of that university. */
  const TWO_ADMINS := Db(
    map[1 := User(Some(0), false), 2 := User(Some(0), false)],
    map[1 := Role(UNIVERSITY_ADMIN, None, 60), 2 := Role("helper", Some(0), 5)],
    map[], {(1, 1), (2, 1), (2, 2)}, {}, map[])

  lemma BothRankSixty(u: UserId)
    requires u in TWO_ADMINS.users
    ensures MaxRank(TWO_ADMINS, u) == 60
  {
    assert 1 in RolesOf(TWO_ADMINS, u);
    MaxRankBounds(TWO_ADMINS, u, 60);
    MaxRankBounds(TWO_ADMINS, u, 59);
  }

  lemma TwoAdminsAreConsistent()
    ensures Consistent(TWO_ADMINS) && TenantIsolated(TWO_ADMINS)
  {
  }

  /** Such a deletion is possible: the peer loses the role the other administrator deletes. */
  lemma PeerLosesDeletedRole()
    ensures
      var db := TWO_ADMINS;
      var a := Actor(1, Some(0), false, 60, Effective(db, 1));
      && Consistent(db) && TenantIsolated(db) && Current(db, a) && TenantActor(a) && MaxRank(db, 2) >= a.maxRank
      && 2 in RolesOf(db, 2) && 2 !in RolesOf(Step(db, a, OpDeleteRole(2)), 2)
  {
    TwoAdminsAreConsistent();
    BothRankSixty(1);
    BothRankSixty(2);
    var a := Actor(1, Some(0), false, 60, Effective(TWO_ADMINS, 1));
    assert DeleteRole(TWO_ADMINS, a, 2) == Done(WithoutRole(TWO_ADMINS, 2));
  }
}
