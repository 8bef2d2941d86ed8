/**
 Roles, permissions and overrides as relations, and what each administration operation makes of
 them. An operation either yields the new database or is refused, with the first failing check.
*/
module Rbac {
  import opened Wrappers

  type UserId = nat
  type RoleId = nat
  type PermId = nat
  type Tenant = nat

  /** Validated role names (2 to 100 characters) and ranks (0 to 100). */
  type RoleName = s: string | 2 <= |s| <= 100 witness "xx"
  type Rank = n: nat | n <= 100

  datatype User = User(tenant: Option<Tenant>, deleted: bool)
  datatype Role = Role(name: string, tenant: Option<Tenant>, rank: nat)

  datatype Db = Db(
    users: map<UserId, User>,
    roles: map<RoleId, Role>,
    perms: map<PermId, string>,
    userRoles: set<(UserId, RoleId)>,
    rolePerms: set<(RoleId, PermId)>,
    overrides: map<(UserId, PermId), bool>)

  /** Who acts, with the authorization snapshot the request carries. */
  datatype Actor = Actor(userId: UserId, tenant: Option<Tenant>, superAdmin: bool, maxRank: nat, permissions: set<string>)

  const SUPER_ADMIN := "super_admin"
  const UNIVERSITY_ADMIN := "university_admin"
  const PLATFORM_SUPPORT := "platform_support"
  const CORE_ROLE_NAMES: set<string> := {"student", "advisor", UNIVERSITY_ADMIN, SUPER_ADMIN, PLATFORM_SUPPORT}
  const PLATFORM_ROLE_NAMES: set<string> := {SUPER_ADMIN, PLATFORM_SUPPORT}
  const PLATFORM_PERMISSION_KEYS: set<string> := {
    "university.create", "university.delete", "role.manage", "permission.manage",
    "platform.tenant.view", "platform.tenant.manage", "platform.tenant.invite", "platform.user.view"}

  datatype Refusal =
    | UserNotFound | RoleNotFound | PermissionNotFound | OverrideNotFound
    | UserNotManageable | RoleNotManageable | RoleRankTooHigh | UserRankTooHigh
    | RolePlatformOnly | RoleNotInUniversity | UserAlreadyHasRole | CannotRemoveOwnRole
    | LastSuperAdmin | LastUniversityAdmin
    | CoreRoleNameImmutable | CoreRoleRankImmutable | CoreRoleCannotDelete | CorePermissionCannotDelete
    | PermissionPlatformLevel | PermissionNotOwned | PermissionAlreadyOnRole
    | RoleNameTaken

  datatype Outcome = Done(db: Db) | Refused(why: Refusal)

  // ---------------------------------------------------------------- what the database guarantees

  /** Foreign keys hold, and role names per tenant and permission keys are unique. */
  ghost predicate Consistent(db: Db) {
    && (forall p :: p in db.userRoles ==> p.0 in db.users && p.1 in db.roles)
    && (forall p :: p in db.rolePerms ==> p.0 in db.roles && p.1 in db.perms)
    && (forall p :: p in db.overrides ==> p.0 in db.users && p.1 in db.perms)
    && (forall q, r :: q in db.roles && r in db.roles && SameRoleKey(db.roles[q], db.roles[r]) ==> q == r)
    && (forall p, q :: p in db.perms && q in db.perms && db.perms[p] == db.perms[q] ==> p == q)
  }

  predicate SameRoleKey(a: Role, b: Role) {
    a.name == b.name && a.tenant == b.tenant
  }

  // ---------------------------------------------------------------- effective authorization

  predicate Active(db: Db, u: UserId) {
    u in db.users && !db.users[u].deleted
  }

  /** An override decides; without one, any role of the user does. Deny wins over every role. */
  predicate Holds(db: Db, u: UserId, p: PermId) {
    && Active(db, u)
    && p in db.perms
    && if (u, p) in db.overrides then db.overrides[(u, p)]
       else exists r :: r in db.roles && (u, r) in db.userRoles && (r, p) in db.rolePerms
  }

  function Effective(db: Db, u: UserId): set<string> {
    set p | p in db.perms && Holds(db, u, p) :: db.perms[p]
  }

  function RolesOf(db: Db, u: UserId): set<RoleId> {
    set r | r in db.roles && (u, r) in db.userRoles
  }

  function HoldersOf(db: Db, r: RoleId): set<UserId> {
    set u | u in db.users && (u, r) in db.userRoles
  }

  /** The greatest element of a set that contains 0. */
  ghost function Greatest(s: set<nat>): (m: nat)
    requires 0 in s
    ensures m in s && forall x :: x in s ==> x <= m
  {
    if s == {0} then 0
    else
      var x :| x in s && x != 0;
      var y := Greatest(s - {x});
      assert forall z :: z in s ==> z == x || z in s - {x};
      if x < y then y else x
  }

  ghost function MaxRank(db: Db, u: UserId): nat {
    if Active(db, u) then Greatest({0} + set r | r in RolesOf(db, u) :: db.roles[r].rank) else 0
  }

  lemma MaxRankBounds(db: Db, u: UserId, top: nat)
    ensures MaxRank(db, u) <= top <==> (Active(db, u) ==> forall r :: r in RolesOf(db, u) ==> db.roles[r].rank <= top)
  {
    var ranks := {0} + set r | r in RolesOf(db, u) :: db.roles[r].rank;
    forall r | r in RolesOf(db, u) ensures db.roles[r].rank in ranks {}
  }

  /** The actor's snapshot is the one the current database yields. */
  ghost predicate Current(db: Db, a: Actor) {
    && a.userId in db.users && a.tenant == db.users[a.userId].tenant
    && a.maxRank == MaxRank(db, a.userId)
    && a.permissions == Effective(db, a.userId)
  }

  // ---------------------------------------------------------------- the rules

  predicate OutranksRole(a: Actor, role: Role) {
    a.superAdmin || role.rank < a.maxRank
  }

  ghost predicate OutranksUser(db: Db, a: Actor, u: UserId) {
    a.superAdmin || MaxRank(db, u) < a.maxRank
  }

  function ManageRule(a: Actor, role: Role): Option<Refusal> {
    if a.superAdmin then None
    else if role.tenant != a.tenant then Some(RoleNotManageable)
    else if !OutranksRole(a, role) then Some(RoleRankTooHigh)
    else None
  }

  function AttachRule(a: Actor, key: string): Option<Refusal> {
    if a.superAdmin then None
    else if key in PLATFORM_PERMISSION_KEYS then Some(PermissionPlatformLevel)
    else if key !in a.permissions then Some(PermissionNotOwned)
    else None
  }

  function AssignableRule(a: Actor, role: Role): Option<Refusal> {
    if a.superAdmin then None
    else if role.tenant.None? && role.name in PLATFORM_ROLE_NAMES then Some(RolePlatformOnly)
    else if role.tenant.Some? && role.tenant != a.tenant then Some(RoleNotInUniversity)
    else None
  }

  predicate UserInTenant(a: Actor, user: User) {
    a.superAdmin || user.tenant == a.tenant
  }

  predicate IsGlobal(db: Db, r: RoleId, name: string) {
    r in db.roles && db.roles[r].tenant.None? && db.roles[r].name == name
  }

  /** The user-role rows of the global role `name`, in the whole system or in one tenant. */
  function HolderRows(db: Db, name: string): set<(UserId, RoleId)> {
    set p | p in db.userRoles && IsGlobal(db, p.1, name)
  }

  function HolderRowsIn(db: Db, name: string, t: Tenant): set<(UserId, RoleId)> {
    set p | p in HolderRows(db, name) && p.0 in db.users && db.users[p.0].tenant == Some(t)
  }

  function LastAdminRule(db: Db, u: UserId, r: RoleId): Option<Refusal>
    requires u in db.users && r in db.roles
  {
    var role, user := db.roles[r], db.users[u];
    if role.tenant.Some? || (u, r) !in db.userRoles then None
    else if role.name == SUPER_ADMIN then
      if |HolderRows(db, SUPER_ADMIN)| <= 1 then Some(LastSuperAdmin) else None
    else if role.name == UNIVERSITY_ADMIN && user.tenant.Some?
         && |HolderRowsIn(db, UNIVERSITY_ADMIN, user.tenant.value)| <= 1 then Some(LastUniversityAdmin)
    else None
  }

  predicate NameTaken(db: Db, name: string, tenant: Option<Tenant>, except: Option<RoleId>) {
    exists r :: r in db.roles && Some(r) != except && SameRoleKey(db.roles[r], Role(name, tenant, 0))
  }

  // ---------------------------------------------------------------- the operations

  function CreateRole(db: Db, a: Actor, id: RoleId, name: RoleName, tenant: Option<Tenant>, rank: Option<Rank>): Outcome
    requires id !in db.roles
  {
    var n := if rank.Some? then rank.value else 0;
    var owner := if a.superAdmin then tenant else a.tenant;
    if !a.superAdmin && n >= a.maxRank then Refused(RoleRankTooHigh)
    else if NameTaken(db, name, owner, None) then Refused(RoleNameTaken)
    else Done(db.(roles := db.roles[id := Role(name, owner, n)]))
  }

  function UpdateRole(db: Db, a: Actor, r: RoleId, name: Option<RoleName>, rank: Option<Rank>): Outcome {
    if r !in db.roles then Refused(RoleNotFound)
    else
      var role := db.roles[r];
      var newName := if name.Some? then name.value else role.name;
      var newRank := if rank.Some? then rank.value else role.rank;
      if ManageRule(a, role).Some? then Refused(ManageRule(a, role).value)
      else if role.name in CORE_ROLE_NAMES && newName != role.name then Refused(CoreRoleNameImmutable)
      else if role.name in CORE_ROLE_NAMES && newRank != role.rank then Refused(CoreRoleRankImmutable)
      else if rank.Some? && !a.superAdmin && rank.value >= a.maxRank then Refused(RoleRankTooHigh)
      else if NameTaken(db, newName, role.tenant, Some(r)) then Refused(RoleNameTaken)
      else Done(db.(roles := db.roles[r := Role(newName, role.tenant, newRank)]))
  }

  function WithoutRole(db: Db, r: RoleId): Db {
    db.(userRoles := (set p | p in db.userRoles && p.1 != r),
        rolePerms := (set p | p in db.rolePerms && p.0 != r),
        roles := db.roles - {r})
  }

  function DeleteRole(db: Db, a: Actor, r: RoleId): Outcome {
    if r !in db.roles then Refused(RoleNotFound)
    else if ManageRule(a, db.roles[r]).Some? then Refused(ManageRule(a, db.roles[r]).value)
    else if db.roles[r].name in CORE_ROLE_NAMES then Refused(CoreRoleCannotDelete)
    else Done(WithoutRole(db, r))
  }

  ghost function AssignRole(db: Db, a: Actor, u: UserId, r: RoleId): Outcome {
    if u !in db.users then Refused(UserNotFound)
    else if !UserInTenant(a, db.users[u]) then Refused(UserNotManageable)
    else if r !in db.roles then Refused(RoleNotFound)
    else
      var role := db.roles[r];
      if AssignableRule(a, role).Some? then Refused(AssignableRule(a, role).value)
      else if !OutranksRole(a, role) then Refused(RoleRankTooHigh)
      else if a.userId != u && !OutranksUser(db, a, u) then Refused(UserRankTooHigh)
      else if role.tenant.Some? && role.tenant != db.users[u].tenant then Refused(RoleNotInUniversity)
      else if (u, r) in db.userRoles then Refused(UserAlreadyHasRole)
      else Done(db.(userRoles := db.userRoles + {(u, r)}))
  }

  ghost function RemoveRole(db: Db, a: Actor, u: UserId, r: RoleId): Outcome {
    if u !in db.users then Refused(UserNotFound)
    else if a.userId == u then Refused(CannotRemoveOwnRole)
    else if !UserInTenant(a, db.users[u]) then Refused(UserNotManageable)
    else if r !in db.roles then Refused(RoleNotFound)
    else
      var role := db.roles[r];
      if AssignableRule(a, role).Some? then Refused(AssignableRule(a, role).value)
      else if !OutranksRole(a, role) then Refused(RoleRankTooHigh)
      else if !OutranksUser(db, a, u) then Refused(UserRankTooHigh)
      else if LastAdminRule(db, u, r).Some? then Refused(LastAdminRule(db, u, r).value)
      else Done(db.(userRoles := db.userRoles - {(u, r)}))
  }

  /** Promotion and demotion name a global role instead of giving its id. */
  ghost function AssignGlobal(db: Db, a: Actor, u: UserId, name: string): Outcome {
    if exists r :: IsGlobal(db, r, name)
    then var r :| IsGlobal(db, r, name); AssignRole(db, a, u, r)
    else if u !in db.users then Refused(UserNotFound)
    else if !UserInTenant(a, db.users[u]) then Refused(UserNotManageable)
    else Refused(RoleNotFound)
  }

  ghost function RemoveGlobal(db: Db, a: Actor, u: UserId, name: string): Outcome {
    if exists r :: IsGlobal(db, r, name)
    then var r :| IsGlobal(db, r, name); RemoveRole(db, a, u, r)
    else if u !in db.users then Refused(UserNotFound)
    else if a.userId == u then Refused(CannotRemoveOwnRole)
    else if !UserInTenant(a, db.users[u]) then Refused(UserNotManageable)
    else Refused(RoleNotFound)
  }

  function AttachPermission(db: Db, a: Actor, r: RoleId, p: PermId): Outcome {
    if r !in db.roles then Refused(RoleNotFound)
    else if ManageRule(a, db.roles[r]).Some? then Refused(ManageRule(a, db.roles[r]).value)
    else if p !in db.perms then Refused(PermissionNotFound)
    else if AttachRule(a, db.perms[p]).Some? then Refused(AttachRule(a, db.perms[p]).value)
    else if (r, p) in db.rolePerms then Refused(PermissionAlreadyOnRole)
    else Done(db.(rolePerms := db.rolePerms + {(r, p)}))
  }

  function DetachPermission(db: Db, a: Actor, r: RoleId, p: PermId): Outcome {
    if r !in db.roles then Refused(RoleNotFound)
    else if ManageRule(a, db.roles[r]).Some? then Refused(ManageRule(a, db.roles[r]).value)
    else if p !in db.perms then Refused(PermissionNotFound)
    else Done(db.(rolePerms := db.rolePerms - {(r, p)}))
  }

  function WithoutPermission(db: Db, p: PermId): Db {
    db.(rolePerms := (set x | x in db.rolePerms && x.1 != p),
        overrides := (map x | x in db.overrides && x.1 != p :: db.overrides[x]),
        perms := db.perms - {p})
  }

  /** `core` is the catalogue of permissions the code refers to by key. */
  function DeletePermission(db: Db, core: set<string>, p: PermId): Outcome {
    if p !in db.perms then Refused(PermissionNotFound)
    else if db.perms[p] in core then Refused(CorePermissionCannotDelete)
    else Done(WithoutPermission(db, p))
  }

  function SetOverride(db: Db, u: UserId, p: PermId, granted: bool): Outcome {
    if u !in db.users then Refused(UserNotFound)
    else if p !in db.perms then Refused(PermissionNotFound)
    else Done(db.(overrides := db.overrides[(u, p) := granted]))
  }

  function RemoveOverride(db: Db, u: UserId, p: PermId): Outcome {
    if u !in db.users then Refused(UserNotFound)
    else if (u, p) !in db.overrides then Refused(OverrideNotFound)
    else Done(db.(overrides := db.overrides - {(u, p)}))
  }

  // ---------------------------------------------------------------- one operation of a run

  datatype Op =
    | OpCreateRole(id: RoleId, name: RoleName, tenant: Option<Tenant>, rank: Option<Rank>)
    | OpUpdateRole(role: RoleId, newName: Option<RoleName>, newRank: Option<Rank>)
    | OpDeleteRole(role: RoleId)
    | OpAssignRole(user: UserId, role: RoleId)
    | OpRemoveRole(user: UserId, role: RoleId)
    | OpAssignGlobal(user: UserId, global: string)
    | OpRemoveGlobal(user: UserId, global: string)
    | OpAttach(role: RoleId, perm: PermId)
    | OpDetach(role: RoleId, perm: PermId)
    | OpDeletePermission(core: set<string>, perm: PermId)
    | OpSetOverride(user: UserId, perm: PermId, granted: bool)
    | OpRemoveOverride(user: UserId, perm: PermId)
  {
    /** The operations an actor's rank and tenant govern. */
    predicate ByRole() {
      !OpDeletePermission? && !OpSetOverride? && !OpRemoveOverride?
    }
  }

  /** Ids of new rows are drawn fresh. */
  predicate Callable(db: Db, op: Op) {
    op.OpCreateRole? ==> op.id !in db.roles
  }

  ghost function Outcomes(db: Db, a: Actor, op: Op): Outcome
    requires Callable(db, op)
  {
    match op
    case OpCreateRole(id, name, tenant, rank) => CreateRole(db, a, id, name, tenant, rank)
    case OpUpdateRole(r, name, rank) => UpdateRole(db, a, r, name, rank)
    case OpDeleteRole(r) => DeleteRole(db, a, r)
    case OpAssignRole(u, r) => AssignRole(db, a, u, r)
    case OpRemoveRole(u, r) => RemoveRole(db, a, u, r)
    case OpAssignGlobal(u, name) => AssignGlobal(db, a, u, name)
    case OpRemoveGlobal(u, name) => RemoveGlobal(db, a, u, name)
    case OpAttach(r, p) => AttachPermission(db, a, r, p)
    case OpDetach(r, p) => DetachPermission(db, a, r, p)
    case OpDeletePermission(core, p) => DeletePermission(db, core, p)
    case OpSetOverride(u, p, granted) => SetOverride(db, u, p, granted)
    case OpRemoveOverride(u, p) => RemoveOverride(db, u, p)
  }

  /** A refused operation changes nothing. */
  ghost function Step(db: Db, a: Actor, op: Op): Db
    requires Callable(db, op)
  {
    var o := Outcomes(db, a, op);
    if o.Done? then o.db else db
  }

  datatype Act = Act(actor: Actor, op: Op)

  /** A sequential run in which every actor carries the snapshot of the moment. */
  ghost predicate Runs(db: Db, acts: seq<Act>)
    decreases |acts|
  {
    acts != [] ==>
      && Current(db, acts[0].actor) && Callable(db, acts[0].op)
      && Runs(Step(db, acts[0].actor, acts[0].op), acts[1..])
  }

  ghost function After(db: Db, acts: seq<Act>): Db
    requires Runs(db, acts)
    decreases |acts|
  {
    if acts == [] then db else After(Step(db, acts[0].actor, acts[0].op), acts[1..])
  }
}
