/**
 Who may do what to roles and permissions, and what each operation then changes, said of the tables'
 rows themselves.
*/
module RbacRules {
  import opened Wrappers
  import opened Checks
  import opened Rbac
  import opened RbacCache
  import RbacSafety
  import RbacWrites

  // ---------------------------------------------------------------- what a user holds

  /** A key is held by an active user through an override that grants it, or through a role without one. */
  lemma EffectiveIff(db: Db, u: UserId, key: string)
    ensures key in Effective(db, u) <==>
            && u in db.users && !db.users[u].deleted
            && exists p :: p in db.perms && db.perms[p] == key
                 && ((u, p) in db.overrides ==> db.overrides[(u, p)])
                 && ((u, p) !in db.overrides ==>
                       exists r :: r in db.roles && (u, r) in db.userRoles && (r, p) in db.rolePerms)
  {
  }

  /** The rank of an active user is the greatest of the ranks of its roles, and otherwise 0. */
  lemma RankIs(db: Db, u: UserId, rank: nat)
    ensures MaxRank(db, u) == rank <==>
            var counts := u in db.users && !db.users[u].deleted;
            && (forall r | counts && r in db.roles && (u, r) in db.userRoles :: db.roles[r].rank <= rank)
            && (rank != 0 ==> counts && exists r :: r in db.roles && (u, r) in db.userRoles && db.roles[r].rank == rank)
  {
    var m := MaxRank(db, u);
    MaxRankBounds(db, u, m);
    if m > 0 {
      MaxRankBounds(db, u, m - 1);
    }
    assert forall r :: r in RolesOf(db, u) <==> r in db.roles && (u, r) in db.userRoles;
  }

  // ---------------------------------------------------------------- roles

  lemma CreatedIff(db: Db, a: Actor, id: RoleId, name: RoleName, tenant: Option<Tenant>, rank: Option<Rank>)
    requires id !in db.roles
    ensures
      var o := CreateRole(db, a, id, name, tenant, rank);
      var owner := if a.superAdmin then tenant else a.tenant;
      var n := if rank.Some? then rank.value else 0;
      && (o.Done? <==>
            && (a.superAdmin || n < a.maxRank)
            && forall r | r in db.roles :: !(db.roles[r].name == name && db.roles[r].tenant == owner))
      && (o.Done? ==> o.db == db.(roles := db.roles[id := Role(name, owner, n)]))
  {
  }

  /** A role of the actor's own tenant that ranks below the actor; for a super admin, any role. */
  lemma UpdatedIff(db: Db, a: Actor, r: RoleId, name: Option<RoleName>, rank: Option<Rank>)
    ensures
      var o := UpdateRole(db, a, r, name, rank);
      && (o.Done? <==>
            && r in db.roles
            && (a.superAdmin || (db.roles[r].tenant == a.tenant && db.roles[r].rank < a.maxRank))
            && (db.roles[r].name in CORE_ROLE_NAMES ==>
                  name in {None, Some(db.roles[r].name)} && rank in {None, Some(db.roles[r].rank)})
            && (rank.Some? && !a.superAdmin ==> rank.value < a.maxRank)
            && forall q | q in db.roles && q != r && db.roles[q].tenant == db.roles[r].tenant ::
                 db.roles[q].name != if name.Some? then name.value else db.roles[r].name)
      && (o.Done? ==> o.db == db.(roles := o.db.roles) && o.db.roles.Keys == db.roles.Keys)
      && (o.Done? ==> forall q | q in db.roles && q != r :: o.db.roles[q] == db.roles[q])
      && (o.Done? ==> o.db.roles[r].tenant == db.roles[r].tenant
                      && o.db.roles[r].name == (if name.Some? then name.value else db.roles[r].name)
                      && o.db.roles[r].rank == (if rank.Some? then rank.value else db.roles[r].rank))
  {
  }

  lemma DeletedIff(db: Db, a: Actor, r: RoleId)
    ensures
      var o := DeleteRole(db, a, r);
      && (o.Done? <==>
            && r in db.roles && db.roles[r].name !in CORE_ROLE_NAMES
            && (a.superAdmin || (db.roles[r].tenant == a.tenant && db.roles[r].rank < a.maxRank)))
      && (o.Done? ==>
            && o.db == db.(roles := db.roles - {r}, userRoles := o.db.userRoles, rolePerms := o.db.rolePerms)
            && (forall u: UserId, q: RoleId :: (u, q) in o.db.userRoles <==> (u, q) in db.userRoles && q != r)
            && forall q: RoleId, p: PermId :: (q, p) in o.db.rolePerms <==> (q, p) in db.rolePerms && q != r)
  {
  }

  // ---------------------------------------------------------------- roles of users

  /** Not reserved for the platform, not another tenant's, and ranked below the actor. */
  predicate WithinReach(a: Actor, role: Role) {
    a.superAdmin || (&& role.rank < a.maxRank
                     && (if role.tenant.Some? then role.tenant == a.tenant else role.name !in PLATFORM_ROLE_NAMES))
  }

  lemma AssignedIff(db: Db, a: Actor, u: UserId, r: RoleId)
    ensures
      var o := AssignRole(db, a, u, r);
      && (o.Done? <==>
            && u in db.users && r in db.roles && (u, r) !in db.userRoles && WithinReach(a, db.roles[r])
            && (a.superAdmin || (db.users[u].tenant == a.tenant && (u == a.userId || MaxRank(db, u) < a.maxRank)))
            && (db.roles[r].tenant.None? || db.roles[r].tenant == db.users[u].tenant))
      && (o.Done? ==> o.db == db.(userRoles := db.userRoles + {(u, r)}))
  {
  }

  /** The users of a university, or of the whole system, with the global role `name`. */
  function HoldersOfGlobal(db: Db, name: string, tenant: Option<Tenant>): set<(UserId, RoleId)> {
    set x | x in db.userRoles && x.1 in db.roles && db.roles[x.1].tenant == None && db.roles[x.1].name == name
            && (tenant.None? || (x.0 in db.users && db.users[x.0].tenant == tenant))
  }

  /** The row is one of at most one that make an administrator: of the system, or of the user's university. */
  predicate IsLastAdminRow(db: Db, u: UserId, r: RoleId)
    requires u in db.users
  {
    || ((u, r) in HoldersOfGlobal(db, "super_admin", None) && |HoldersOfGlobal(db, "super_admin", None)| == 1)
    || (&& db.users[u].tenant.Some?
        && (u, r) in HoldersOfGlobal(db, "university_admin", db.users[u].tenant)
        && |HoldersOfGlobal(db, "university_admin", db.users[u].tenant)| == 1)
  }

  lemma CountedOnce<T>(s: set<T>, x: T)
    requires x in s
    ensures |s| <= 1 <==> |s| == 1
  {
  }

  lemma LastAdminRuleIff(db: Db, u: UserId, r: RoleId)
    requires u in db.users && r in db.roles
    ensures LastAdminRule(db, u, r).Some? <==> IsLastAdminRow(db, u, r)
  {
    var tenant := db.users[u].tenant;
    assert HoldersOfGlobal(db, "super_admin", None) == HolderRows(db, SUPER_ADMIN);
    if tenant.Some? {
      assert HoldersOfGlobal(db, "university_admin", tenant) == HolderRowsIn(db, UNIVERSITY_ADMIN, tenant.value);
    }
    if (u, r) in HoldersOfGlobal(db, "super_admin", None) {
      CountedOnce(HoldersOfGlobal(db, "super_admin", None), (u, r));
    }
    if tenant.Some? && (u, r) in HoldersOfGlobal(db, "university_admin", tenant) {
      CountedOnce(HoldersOfGlobal(db, "university_admin", tenant), (u, r));
    }
  }

  lemma RemovedIff(db: Db, a: Actor, u: UserId, r: RoleId)
    ensures
      var o := RemoveRole(db, a, u, r);
      && (o.Done? <==>
            && u in db.users && r in db.roles && u != a.userId && WithinReach(a, db.roles[r])
            && (a.superAdmin || (db.users[u].tenant == a.tenant && MaxRank(db, u) < a.maxRank))
            && !IsLastAdminRow(db, u, r))
      && (o.Done? ==> o.db == db.(userRoles := db.userRoles - {(u, r)}))
  {
    if u in db.users && r in db.roles {
      LastAdminRuleIff(db, u, r);
    }
  }

  /** Promotion and demotion by name act on the role of that name without a tenant. */
  lemma GlobalIsByName(db: Db, a: Actor, u: UserId, name: string, r: RoleId)
    requires Consistent(db)
    ensures r in db.roles && db.roles[r].name == name && db.roles[r].tenant == None ==>
              AssignGlobal(db, a, u, name) == AssignRole(db, a, u, r) && RemoveGlobal(db, a, u, name) == RemoveRole(db, a, u, r)
    ensures (forall q | q in db.roles :: !(db.roles[q].name == name && db.roles[q].tenant == None)) ==>
              AssignGlobal(db, a, u, name).Refused? && RemoveGlobal(db, a, u, name).Refused?
  {
    assert forall q :: IsGlobal(db, q, name) <==> q in db.roles && db.roles[q].name == name && db.roles[q].tenant == None;
    if IsGlobal(db, r, name) {
      forall q | IsGlobal(db, q, name)
        ensures q == r
      {
        assert SameRoleKey(db.roles[q], db.roles[r]);
      }
    }
  }

  // ---------------------------------------------------------------- permissions

  /** Only a key that is the actor's own and not platform-level can be put on a role the actor manages. */
  lemma AttachedIff(db: Db, a: Actor, r: RoleId, p: PermId)
    ensures
      var o := AttachPermission(db, a, r, p);
      && (o.Done? <==>
            && r in db.roles && p in db.perms && (r, p) !in db.rolePerms
            && (a.superAdmin ||
                (&& db.roles[r].tenant == a.tenant && db.roles[r].rank < a.maxRank
                 && db.perms[p] in a.permissions && db.perms[p] !in PLATFORM_PERMISSION_KEYS)))
      && (o.Done? ==> o.db == db.(rolePerms := db.rolePerms + {(r, p)}))
  {
  }

  lemma DetachedIff(db: Db, a: Actor, r: RoleId, p: PermId)
    ensures
      var o := DetachPermission(db, a, r, p);
      && (o.Done? <==>
            && r in db.roles && p in db.perms
            && (a.superAdmin || (db.roles[r].tenant == a.tenant && db.roles[r].rank < a.maxRank)))
      && (o.Done? ==> o.db == db.(rolePerms := db.rolePerms - {(r, p)}))
  {
  }

  lemma PermissionDeletedIff(db: Db, core: set<string>, p: PermId)
    ensures
      var o := DeletePermission(db, core, p);
      && (o.Done? <==> p in db.perms && db.perms[p] !in core)
      && (o.Done? ==>
            && o.db == db.(perms := db.perms - {p}, rolePerms := o.db.rolePerms, overrides := o.db.overrides)
            && (forall r: RoleId, q: PermId :: (r, q) in o.db.rolePerms <==> (r, q) in db.rolePerms && q != p)
            && (forall u: UserId, q: PermId :: (u, q) in o.db.overrides <==> (u, q) in db.overrides && q != p)
            && forall x | x in o.db.overrides :: o.db.overrides[x] == db.overrides[x])
  {
  }

  lemma OverridesAre(db: Db, u: UserId, p: PermId, granted: bool)
    ensures
      var set', unset := SetOverride(db, u, p, granted), RemoveOverride(db, u, p);
      && (set'.Done? <==> u in db.users && p in db.perms)
      && (set'.Done? ==> set'.db == db.(overrides := db.overrides[(u, p) := granted]))
      && (unset.Done? <==> u in db.users && (u, p) in db.overrides)
      && (unset.Done? ==> unset.db == db.(overrides := db.overrides - {(u, p)}))
  {
  }

  // ---------------------------------------------------------------- platform-level keys over runs

  /** No role gains a platform-level key by what tenant administrators do. */
  lemma StepKeepsPlatformKeys(db: Db, a: Actor, op: Op, r: RoleId, p: PermId)
    requires Consistent(db) && Callable(db, op) && op.ByRole() && !a.superAdmin
    requires p in db.perms && db.perms[p] in PLATFORM_PERMISSION_KEYS
    requires (r, p) in Step(db, a, op).rolePerms
    ensures (r, p) in db.rolePerms && Step(db, a, op).perms == db.perms
  {
    if op.OpAttach? {
      AttachedIff(db, a, op.role, op.perm);
    } else {
      var w := RbacWrites.StepWrites(db, a, op);
    }
  }

  lemma StepKeepsPermissions(db: Db, a: Actor, op: Op)
    requires Consistent(db) && Callable(db, op) && op.ByRole()
    ensures Step(db, a, op).perms == db.perms
  {
    var w := RbacWrites.StepWrites(db, a, op);
  }

  lemma {:induction false} PlatformKeysAreNotHandedOut(db: Db, acts: seq<Act>, r: RoleId, p: PermId)
    requires Consistent(db) && Runs(db, acts) && RbacSafety.TenantRun(acts)
    requires p in db.perms && db.perms[p] in PLATFORM_PERMISSION_KEYS && (r, p) in After(db, acts).rolePerms
    ensures (r, p) in db.rolePerms
    decreases |acts|
  {
    if acts != [] {
      var a, op := acts[0].actor, acts[0].op;
      RbacSafety.StepKeepsConsistent(db, a, op);
      StepKeepsPermissions(db, a, op);
      PlatformKeysAreNotHandedOut(Step(db, a, op), acts[1..], r, p);
      StepKeepsPlatformKeys(db, a, op, r, p);
    }
  }

  // ---------------------------------------------------------------- why a call is refused

  /** Why the actor does not manage role `r`. */
  function Unmanaged(db: Db, a: Actor, r: RoleId, later: Option<Refusal>): Option<Refusal> {
    Unless(r !in db.roles, RoleNotFound,
    Unless(r in db.roles && !a.superAdmin && db.roles[r].tenant != a.tenant, RoleNotManageable,
    Unless(r in db.roles && !a.superAdmin && db.roles[r].rank >= a.maxRank, RoleRankTooHigh, later)))
  }

  /** Why the actor cannot hand out or take back role `r`. */
  function OutOfReach(db: Db, a: Actor, r: RoleId, later: Option<Refusal>): Option<Refusal> {
    var known := r in db.roles && !a.superAdmin;
    Unless(r !in db.roles, RoleNotFound,
    Unless(known && db.roles[r].tenant.None? && db.roles[r].name in PLATFORM_ROLE_NAMES, RolePlatformOnly,
    Unless(known && db.roles[r].tenant.Some? && db.roles[r].tenant != a.tenant, RoleNotInUniversity,
    Unless(known && db.roles[r].rank >= a.maxRank, RoleRankTooHigh, later))))
  }

  /** For each operation its checks in order, the first failing one being the answer. */
  ghost function Reason(db: Db, a: Actor, op: Op): Option<Refusal> {
    match op
    case OpCreateRole(id, name, tenant, rank) =>
      Unless(!a.superAdmin && (if rank.Some? then rank.value else 0) >= a.maxRank, RoleRankTooHigh,
      Unless(exists r :: r in db.roles && db.roles[r].name == name
                         && db.roles[r].tenant == (if a.superAdmin then tenant else a.tenant), RoleNameTaken, None))
    case OpUpdateRole(r, name, rank) =>
      var known := r in db.roles;
      var core := known && db.roles[r].name in CORE_ROLE_NAMES;
      Unmanaged(db, a, r,
      Unless(core && name.Some? && name.value != db.roles[r].name, CoreRoleNameImmutable,
      Unless(core && rank.Some? && rank.value != db.roles[r].rank, CoreRoleRankImmutable,
      Unless(rank.Some? && !a.superAdmin && rank.value >= a.maxRank, RoleRankTooHigh,
      Unless(known && exists q :: q in db.roles && q != r && db.roles[q].tenant == db.roles[r].tenant
                                  && db.roles[q].name == (if name.Some? then name.value else db.roles[r].name),
             RoleNameTaken, None)))))
    case OpDeleteRole(r) =>
      Unmanaged(db, a, r, Unless(r in db.roles && db.roles[r].name in CORE_ROLE_NAMES, CoreRoleCannotDelete, None))
    case OpAssignRole(u, r) =>
      var both := u in db.users && r in db.roles;
      Unless(u !in db.users, UserNotFound,
      Unless(u in db.users && !a.superAdmin && db.users[u].tenant != a.tenant, UserNotManageable,
      OutOfReach(db, a, r,
      Unless(!a.superAdmin && u != a.userId && MaxRank(db, u) >= a.maxRank, UserRankTooHigh,
      Unless(both && db.roles[r].tenant.Some? && db.roles[r].tenant != db.users[u].tenant, RoleNotInUniversity,
      Unless((u, r) in db.userRoles, UserAlreadyHasRole, None))))))
    case OpRemoveRole(u, r) =>
      Unless(u !in db.users, UserNotFound,
      Unless(u == a.userId, CannotRemoveOwnRole,
      Unless(u in db.users && !a.superAdmin && db.users[u].tenant != a.tenant, UserNotManageable,
      OutOfReach(db, a, r,
      Unless(!a.superAdmin && MaxRank(db, u) >= a.maxRank, UserRankTooHigh,
      Unless(u in db.users && r in db.roles && IsLastAdminRow(db, u, r),
             if r in db.roles && db.roles[r].name == "super_admin" then LastSuperAdmin else LastUniversityAdmin, None))))))
    case OpAttach(r, p) =>
      Unmanaged(db, a, r,
      Unless(p !in db.perms, PermissionNotFound,
      Unless(p in db.perms && !a.superAdmin && db.perms[p] in PLATFORM_PERMISSION_KEYS, PermissionPlatformLevel,
      Unless(p in db.perms && !a.superAdmin && db.perms[p] !in a.permissions, PermissionNotOwned,
      Unless((r, p) in db.rolePerms, PermissionAlreadyOnRole, None)))))
    case OpDetach(r, p) => Unmanaged(db, a, r, Unless(p !in db.perms, PermissionNotFound, None))
    case OpDeletePermission(core, p) =>
      Unless(p !in db.perms, PermissionNotFound,
      Unless(p in db.perms && db.perms[p] in core, CorePermissionCannotDelete, None))
    case OpSetOverride(u, p, _) => Unless(u !in db.users, UserNotFound, Unless(p !in db.perms, PermissionNotFound, None))
    case OpRemoveOverride(u, p) =>
      Unless(u !in db.users, UserNotFound, Unless((u, p) !in db.overrides, OverrideNotFound, None))
    case OpAssignGlobal(u, name) =>
      Unless(u !in db.users, UserNotFound,
      Unless(u in db.users && !a.superAdmin && db.users[u].tenant != a.tenant, UserNotManageable, Some(RoleNotFound)))
    case OpRemoveGlobal(u, name) =>
      Unless(u !in db.users, UserNotFound,
      Unless(u == a.userId, CannotRemoveOwnRole,
      Unless(u in db.users && !a.superAdmin && db.users[u].tenant != a.tenant, UserNotManageable, Some(RoleNotFound))))
  }

  lemma LastAdminReason(db: Db, u: UserId, r: RoleId)
    requires u in db.users && r in db.roles && LastAdminRule(db, u, r).Some?
    ensures LastAdminRule(db, u, r) == Some(if db.roles[r].name == "super_admin" then LastSuperAdmin else LastUniversityAdmin)
  {
  }

  /** A refused operation names the first of its checks that fails; promotion by name has none if there is such a role. */
  lemma RefusedForTheFirstReason(db: Db, a: Actor, op: Op)
    requires Callable(db, op)
    requires op.OpAssignGlobal? || op.OpRemoveGlobal? ==>
               forall r | r in db.roles :: !(db.roles[r].name == op.global && db.roles[r].tenant == None)
    ensures Reason(db, a, op) == var o := Outcomes(db, a, op); if o.Refused? then Some(o.why) else None
  {
    if op.OpRemoveRole? && op.user in db.users && op.role in db.roles {
      LastAdminRuleIff(db, op.user, op.role);
      if LastAdminRule(db, op.user, op.role).Some? {
        LastAdminReason(db, op.user, op.role);
      }
    }
  }

  // ---------------------------------------------------------------- which cache entries go

  /** A read serves the cached entry, or caches what the tables yield; an expiry takes one entry away. */
  lemma ReadsFillCaches(s: System, u: UserId)
    ensures Next(s, ResolveAuthz(u)) == s.(permissions := s.permissions[u := if u in s.permissions then s.permissions[u] else Effective(s.db, u)])
    ensures var t := Next(s, ListRoles);
            && t == s.(catalogue := t.catalogue) && t.catalogue.Some? && (s.catalogue.Some? ==> t == s)
            && (s.catalogue.None? ==>
                  && t.catalogue.value.Keys == s.db.roles.Keys
                  && forall r, p | r in s.db.roles :: p in t.catalogue.value[r] <==> p in s.db.perms && (r, p) in s.db.rolePerms)
    ensures Next(s, ExpireUser(u)) == s.(permissions := s.permissions - {u}) && Next(s, ExpireCatalogue) == s.(catalogue := None)
  {
    if u in s.permissions {
      assert s.permissions[u := s.permissions[u]] == s.permissions;
    }
  }

  /** The users reached by a role, or by a permission through any role or an override of their own. */
  predicate IsReachedBy(db: Db, op: Op, u: UserId) {
    match op
    case OpCreateRole(_, _, _, _) => false
    case OpUpdateRole(_, _, _) => false
    case OpDeleteRole(r) => u in db.users && (u, r) in db.userRoles
    case OpAssignRole(v, _) => u == v
    case OpRemoveRole(v, _) => u == v
    case OpAssignGlobal(v, _) => u == v
    case OpRemoveGlobal(v, _) => u == v
    case OpAttach(r, _) => u in db.users && (u, r) in db.userRoles
    case OpDetach(r, _) => u in db.users && (u, r) in db.userRoles
    case OpDeletePermission(_, p) =>
      u in db.users
      && ((u, p) in db.overrides || exists r :: r in db.roles && (u, r) in db.userRoles && (r, p) in db.rolePerms)
    case OpSetOverride(v, _, _) => u == v
    case OpRemoveOverride(v, _) => u == v
  }

  /** Roles or what they carry; who has which role is not in the catalogue. */
  predicate ChangesRoles(op: Op) {
    op.OpCreateRole? || op.OpUpdateRole? || op.OpDeleteRole? || op.OpAttach? || op.OpDetach? || op.OpDeletePermission?
  }

  /** An operation that is carried out drops these users' entries and no others, a refused one none. */
  lemma DroppedEntriesAre(s: System, a: Actor, op: Op, u: UserId)
    requires Callable(s.db, op)
    ensures
      var t := Next(s, Administer(a, op));
      && (u in t.permissions <==> u in s.permissions && !(Outcomes(s.db, a, op).Done? && IsReachedBy(s.db, op, u)))
      && (u in t.permissions ==> t.permissions[u] == s.permissions[u])
      && t.catalogue == (if Outcomes(s.db, a, op).Done? && ChangesRoles(op) then None else s.catalogue)
  {
  }
}
