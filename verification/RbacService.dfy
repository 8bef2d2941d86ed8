/**
 The role administration service over its tables and caches. Each method follows the checks and
 writes of the service step by step and is proved to make of the whole state exactly what the
 operation's specification says: same verdict, same rows, same cache entries dropped.
*/
module RbacService {
  import opened Wrappers
  import opened Rbac
  import opened RbacCache
  import RbacRules

  function WhyRefused(o: Outcome): Option<Refusal> {
    if o.Refused? then Some(o.why) else None
  }

  predicate HeldByRole(db: Db, u: UserId, p: PermId) {
    exists r :: r in db.roles && (u, r) in db.userRoles && (r, p) in db.rolePerms
  }

  /** `keys` are the role keys of `u` corrected by the override rows in `done`. */
  ghost predicate KeysAfter(db: Db, u: UserId, done: set<PermId>, keys: set<string>) {
    && keys <= db.perms.Values
    && (forall p :: p in done ==> (u, p) in db.overrides)
    && (forall p :: p in db.perms ==>
          (db.perms[p] in keys <==> if p in done then db.overrides[(u, p)] else HeldByRole(db, u, p)))
  }

  lemma RoleKeysComplete(db: Db, u: UserId, keys: set<string>)
    requires Consistent(db)
    requires keys == set r, p | r in db.roles && p in db.perms && (u, r) in db.userRoles && (r, p) in db.rolePerms :: db.perms[p]
    ensures KeysAfter(db, u, {}, keys)
  {
  }

  /** Applying one more override row. */
  lemma ApplyOverride(db: Db, u: UserId, done: set<PermId>, keys: set<string>, p: PermId)
    requires Consistent(db) && KeysAfter(db, u, done, keys) && p in db.perms && (u, p) in db.overrides
    ensures KeysAfter(db, u, done + {p}, if db.overrides[(u, p)] then keys + {db.perms[p]} else keys - {db.perms[p]})
  {
  }

  /** With every override row applied the keys are the effective permissions. */
  lemma KeysComplete(db: Db, u: UserId, all: set<PermId>, keys: set<string>)
    requires Consistent(db) && Active(db, u) && KeysAfter(db, u, all, keys)
    requires all == set p | p in db.perms && (u, p) in db.overrides
    ensures keys == Effective(db, u)
  {
  }

  class AuthService {
    var users: map<UserId, User>
    var roles: map<RoleId, Role>
    var perms: map<PermId, string>
    var userRoles: set<(UserId, RoleId)>
    var rolePerms: set<(RoleId, PermId)>
    var overrides: map<(UserId, PermId), bool>
    var permissionCache: map<UserId, set<string>>
    var roleCatalogue: Option<map<RoleId, set<PermId>>>

    ghost function Tables(): Db
      reads this
    {
      Db(users, roles, perms, userRoles, rolePerms, overrides)
    }

    ghost function Whole(): System
      reads this
    {
      System(Tables(), permissionCache, roleCatalogue)
    }

    // -------------------------------------------------------------- reads

    /** The greatest rank among the roles of an active user, 0 without one. */
    method ResolveRank(u: UserId) returns (rank: nat)
      ensures rank == MaxRank(Tables(), u)
    {
      rank := 0;
      if u !in users || users[u].deleted {
        return;
      }
      var held := set r | r in roles && (u, r) in userRoles;
      ghost var all := held;
      while held != {}
        invariant held <= all == RolesOf(Tables(), u)
        invariant forall r :: r in all - held ==> roles[r].rank <= rank
        invariant rank == 0 || exists r :: r in all && roles[r].rank == rank
        decreases held
      {
        var r :| r in held;
        held := held - {r};
        if roles[r].rank > rank {
          rank := roles[r].rank;
        }
      }
      MaxRankBounds(Tables(), u, rank);
      if rank > 0 {
        MaxRankBounds(Tables(), u, rank - 1);
      }
    }

    /** The permission keys of all roles of a user. */
    method RoleKeys(u: UserId) returns (keys: set<string>)
      requires Consistent(Tables())
      ensures KeysAfter(Tables(), u, {}, keys)
    {
      keys := set r, p | r in roles && p in perms && (u, r) in userRoles && (r, p) in rolePerms :: perms[p];
      RoleKeysComplete(Tables(), u, keys);
    }

    /** Keys of all roles first, then each override row adds or deletes its key. */
    method ResolvePermissions(u: UserId) returns (keys: set<string>)
      requires Consistent(Tables())
      ensures keys == Effective(Tables(), u)
    {
      if u !in users || users[u].deleted {
        return {};
      }
      ghost var db := Tables();
      keys := RoleKeys(u);
      var rows := set p | p in perms && (u, p) in overrides;
      ghost var done: set<PermId> := {};
      while rows != {}
        invariant forall p :: p in rows + done <==> p in db.perms && (u, p) in db.overrides
        invariant KeysAfter(db, u, done, keys)
        decreases rows
      {
        var p :| p in rows;
        ApplyOverride(db, u, done, keys, p);
        rows, done := rows - {p}, done + {p};
        keys := if overrides[(u, p)] then keys + {perms[p]} else keys - {perms[p]};
      }
      KeysComplete(db, u, done, keys);
    }

    method FindGlobalRole(name: string) returns (found: Option<RoleId>)
      ensures found.Some? ==> IsGlobal(Tables(), found.value, name)
      ensures found.None? ==> forall r :: !IsGlobal(Tables(), r, name)
    {
      var rest := roles.Keys;
      while rest != {}
        invariant rest <= roles.Keys
        invariant forall r :: r in roles && r !in rest ==> !IsGlobal(Tables(), r, name)
        decreases rest
      {
        var r :| r in rest;
        if roles[r].tenant.None? && roles[r].name == name {
          return Some(r);
        }
        rest := rest - {r};
      }
      return None;
    }

    /** Read-through: the cached set, or the recomputed one which is then cached. */
    method ResolveAuthz(u: UserId) returns (keys: set<string>)
      requires Consistent(Tables())
      modifies this`permissionCache
      ensures Whole() == Next(old(Whole()), Event.ResolveAuthz(u))
      ensures u in permissionCache && keys == permissionCache[u]
      ensures old(Agrees(Whole())) ==> keys == Effective(Tables(), u)
    {
      if u !in permissionCache {
        keys := ResolvePermissions(u);
        permissionCache := permissionCache[u := keys];
      }
      keys := permissionCache[u];
    }

    // -------------------------------------------------------------- roles

    method CreateRole(a: Actor, id: RoleId, name: RoleName, tenant: Option<Tenant>, rank: Option<Rank>)
      returns (why: Option<Refusal>)
      requires id !in roles
      modifies this`roles, this`roleCatalogue
      ensures why == WhyRefused(Rbac.CreateRole(old(Tables()), a, id, name, tenant, rank))
      ensures Whole() == Next(old(Whole()), Administer(a, OpCreateRole(id, name, tenant, rank)))
    {
      var n := if rank.Some? then rank.value else 0;
      if !a.superAdmin && n >= a.maxRank {
        return Some(RoleRankTooHigh);
      }
      var owner := if a.superAdmin then tenant else a.tenant;
      if exists r :: r in roles && SameRoleKey(roles[r], Role(name, owner, n)) {
        return Some(RoleNameTaken);
      }
      roles := roles[id := Role(name, owner, n)];
      roleCatalogue := None;
      return None;
    }

    method UpdateRole(a: Actor, r: RoleId, name: Option<RoleName>, rank: Option<Rank>) returns (why: Option<Refusal>)
      modifies this`roles, this`roleCatalogue
      ensures why == WhyRefused(Rbac.UpdateRole(old(Tables()), a, r, name, rank))
      ensures Whole() == Next(old(Whole()), Administer(a, OpUpdateRole(r, name, rank)))
    {
      if r !in roles {
        return Some(RoleNotFound);
      }
      var role := roles[r];
      why := ManageRule(a, role);
      if why.Some? {
        return;
      }
      var core := role.name in CORE_ROLE_NAMES;
      if core && name.Some? && name.value != role.name {
        return Some(CoreRoleNameImmutable);
      }
      if core && rank.Some? && rank.value != role.rank {
        return Some(CoreRoleRankImmutable);
      }
      if rank.Some? && !a.superAdmin && rank.value >= a.maxRank {
        return Some(RoleRankTooHigh);
      }
      if name.Some? {
        role := role.(name := name.value);
      }
      if rank.Some? {
        role := role.(rank := rank.value);
      }
      if exists q :: q in roles && q != r && SameRoleKey(roles[q], role) {
        return Some(RoleNameTaken);
      }
      roles := roles[r := role];
      roleCatalogue := None;
      return None;
    }

    /** One transaction: collect the holders, then delete both kinds of links and the role. */
    method DeleteRole(a: Actor, r: RoleId) returns (why: Option<Refusal>)
      requires Consistent(Tables())
      modifies this
      ensures why == WhyRefused(Rbac.DeleteRole(old(Tables()), a, r))
      ensures Whole() == Next(old(Whole()), Administer(a, OpDeleteRole(r)))
    {
      if r !in roles {
        return Some(RoleNotFound);
      }
      why := ManageRule(a, roles[r]);
      if why.Some? {
        return;
      }
      if roles[r].name in CORE_ROLE_NAMES {
        return Some(CoreRoleCannotDelete);
      }
      var affected := set u | u in users && (u, r) in userRoles;
      userRoles := set p | p in userRoles && p.1 != r;
      rolePerms := set p | p in rolePerms && p.0 != r;
      roles := roles - {r};
      permissionCache := permissionCache - affected;
      roleCatalogue := None;
    }

    // -------------------------------------------------------------- roles of users

    method AssignRole(a: Actor, u: UserId, r: RoleId) returns (why: Option<Refusal>)
      modifies this`userRoles, this`permissionCache
      ensures why == WhyRefused(Rbac.AssignRole(old(Tables()), a, u, r))
      ensures Whole() == Next(old(Whole()), Administer(a, OpAssignRole(u, r)))
    {
      if u !in users {
        return Some(UserNotFound);
      }
      if !UserInTenant(a, users[u]) {
        return Some(UserNotManageable);
      }
      if r !in roles {
        return Some(RoleNotFound);
      }
      var role := roles[r];
      why := AssignableRule(a, role);
      if why.Some? {
        return;
      }
      if !OutranksRole(a, role) {
        return Some(RoleRankTooHigh);
      }
      if a.userId != u {
        var target := ResolveRank(u);
        if !a.superAdmin && target >= a.maxRank {
          return Some(UserRankTooHigh);
        }
      }
      if role.tenant.Some? && role.tenant != users[u].tenant {
        return Some(RoleNotInUniversity);
      }
      if (u, r) in userRoles {
        return Some(UserAlreadyHasRole);
      }
      userRoles := userRoles + {(u, r)};
      permissionCache := permissionCache - {u};
    }

    method RemoveRole(a: Actor, u: UserId, r: RoleId) returns (why: Option<Refusal>)
      modifies this`userRoles, this`permissionCache
      ensures why == WhyRefused(Rbac.RemoveRole(old(Tables()), a, u, r))
      ensures Whole() == Next(old(Whole()), Administer(a, OpRemoveRole(u, r)))
    {
      if u !in users {
        return Some(UserNotFound);
      }
      if a.userId == u {
        return Some(CannotRemoveOwnRole);
      }
      if !UserInTenant(a, users[u]) {
        return Some(UserNotManageable);
      }
      if r !in roles {
        return Some(RoleNotFound);
      }
      var role := roles[r];
      why := AssignableRule(a, role);
      if why.Some? {
        return;
      }
      if !OutranksRole(a, role) {
        return Some(RoleRankTooHigh);
      }
      var target := ResolveRank(u);
      if !a.superAdmin && target >= a.maxRank {
        return Some(UserRankTooHigh);
      }
      why := LastAdminCheck(u, r);
      if why.Some? {
        return;
      }
      userRoles := userRoles - {(u, r)};
      permissionCache := permissionCache - {u};
    }

    method LastAdminCheck(u: UserId, r: RoleId) returns (why: Option<Refusal>)
      requires u in users && r in roles
      ensures why == LastAdminRule(Tables(), u, r)
    {
      var role := roles[r];
      if role.tenant.Some? || (u, r) !in userRoles {
        return None;
      }
      var rows := set p | p in userRoles && p.1 in roles && roles[p.1].tenant.None? && roles[p.1].name == role.name;
      assert rows == HolderRows(Tables(), role.name);
      if role.name == SUPER_ADMIN {
        return if |rows| <= 1 then Some(LastSuperAdmin) else None;
      }
      if role.name == UNIVERSITY_ADMIN && users[u].tenant.Some? {
        var inTenant := set p | p in rows && p.0 in users && users[p.0].tenant == users[u].tenant;
        assert inTenant == HolderRowsIn(Tables(), UNIVERSITY_ADMIN, users[u].tenant.value);
        if |inTenant| <= 1 {
          return Some(LastUniversityAdmin);
        }
      }
      return None;
    }

    /** Promotion to a global role given by name. */
    method AssignGlobal(a: Actor, u: UserId, name: string) returns (why: Option<Refusal>)
      requires Consistent(Tables())
      modifies this`userRoles, this`permissionCache
      ensures why == WhyRefused(Rbac.AssignGlobal(old(Tables()), a, u, name))
      ensures Whole() == Next(old(Whole()), Administer(a, OpAssignGlobal(u, name)))
    {
      if u !in users {
        return Some(UserNotFound);
      }
      if !UserInTenant(a, users[u]) {
        return Some(UserNotManageable);
      }
      ghost var db := Tables();
      var found := FindGlobalRole(name);
      assert Tables() == db;
      if found.None? {
        return Some(RoleNotFound);
      }
      why := AssignRole(a, u, found.value);
    }

    method RemoveGlobal(a: Actor, u: UserId, name: string) returns (why: Option<Refusal>)
      requires Consistent(Tables())
      modifies this`userRoles, this`permissionCache
      ensures why == WhyRefused(Rbac.RemoveGlobal(old(Tables()), a, u, name))
      ensures Whole() == Next(old(Whole()), Administer(a, OpRemoveGlobal(u, name)))
    {
      if u !in users {
        return Some(UserNotFound);
      }
      if a.userId == u {
        return Some(CannotRemoveOwnRole);
      }
      if !UserInTenant(a, users[u]) {
        return Some(UserNotManageable);
      }
      ghost var db := Tables();
      var found := FindGlobalRole(name);
      assert Tables() == db;
      if found.None? {
        return Some(RoleNotFound);
      }
      why := RemoveRole(a, u, found.value);
    }

    // -------------------------------------------------------------- permissions

    method AttachPermission(a: Actor, r: RoleId, p: PermId) returns (why: Option<Refusal>)
      modifies this`rolePerms, this`permissionCache, this`roleCatalogue
      ensures why == WhyRefused(Rbac.AttachPermission(old(Tables()), a, r, p))
      ensures Whole() == Next(old(Whole()), Administer(a, OpAttach(r, p)))
      ensures why == None <==>
              && r in roles && p in perms && (r, p) !in old(rolePerms)
              && (a.superAdmin ||
                  (&& roles[r].tenant == a.tenant && roles[r].rank < a.maxRank
                   && perms[p] in a.permissions && perms[p] !in PLATFORM_PERMISSION_KEYS))
    {
      RbacRules.AttachedIff(Tables(), a, r, p);
      if r !in roles {
        return Some(RoleNotFound);
      }
      why := ManageRule(a, roles[r]);
      if why.Some? {
        return;
      }
      if p !in perms {
        return Some(PermissionNotFound);
      }
      why := AttachRule(a, perms[p]);
      if why.Some? {
        return;
      }
      if (r, p) in rolePerms {
        return Some(PermissionAlreadyOnRole);
      }
      rolePerms := rolePerms + {(r, p)};
      var affected := set u | u in users && (u, r) in userRoles;
      permissionCache := permissionCache - affected;
      roleCatalogue := None;
    }

    method DetachPermission(a: Actor, r: RoleId, p: PermId) returns (why: Option<Refusal>)
      modifies this`rolePerms, this`permissionCache, this`roleCatalogue
      ensures why == WhyRefused(Rbac.DetachPermission(old(Tables()), a, r, p))
      ensures Whole() == Next(old(Whole()), Administer(a, OpDetach(r, p)))
    {
      if r !in roles {
        return Some(RoleNotFound);
      }
      why := ManageRule(a, roles[r]);
      if why.Some? {
        return;
      }
      if p !in perms {
        return Some(PermissionNotFound);
      }
      rolePerms := rolePerms - {(r, p)};
      var affected := set u | u in users && (u, r) in userRoles;
      permissionCache := permissionCache - affected;
      roleCatalogue := None;
    }

    /** The users a permission reaches: the holders of each role carrying it, then its override rows. */
    method AffectedByPermission(p: PermId) returns (affected: set<UserId>)
      ensures affected == PermissionUsers(Tables(), p)
    {
      affected := {};
      var carriers := set r | r in roles && (r, p) in rolePerms;
      ghost var all := carriers;
      while carriers != {}
        invariant carriers <= all
        invariant forall u :: u in affected <==>
                    u in users && exists r :: r in all - carriers && (u, r) in userRoles
        decreases carriers
      {
        var r :| r in carriers;
        affected := affected + set u | u in users && (u, r) in userRoles;
        carriers := carriers - {r};
      }
      affected := affected + set u | u in users && (u, p) in overrides;
    }

    /** Grants and overrides go with the permission. */
    method ErasePermission(p: PermId)
      modifies this`perms, this`rolePerms, this`overrides
      ensures Tables() == WithoutPermission(old(Tables()), p)
    {
      rolePerms := set x | x in rolePerms && x.1 != p;
      overrides := map x | x in overrides && x.1 != p :: overrides[x];
      perms := perms - {p};
    }

    method DeletePermission(core: set<string>, p: PermId, ghost a: Actor) returns (why: Option<Refusal>)
      modifies this`perms, this`rolePerms, this`overrides, this`permissionCache, this`roleCatalogue
      ensures why == WhyRefused(Rbac.DeletePermission(old(Tables()), core, p))
      ensures Whole() == Next(old(Whole()), Administer(a, OpDeletePermission(core, p)))
    {
      if p !in perms {
        return Some(PermissionNotFound);
      }
      if perms[p] in core {
        return Some(CorePermissionCannotDelete);
      }
      var affected := AffectedByPermission(p);
      ErasePermission(p);
      permissionCache := permissionCache - affected;
      roleCatalogue := None;
      return None;
    }

    method SetOverride(u: UserId, p: PermId, granted: bool, ghost a: Actor) returns (why: Option<Refusal>)
      modifies this`overrides, this`permissionCache
      ensures why == WhyRefused(Rbac.SetOverride(old(Tables()), u, p, granted))
      ensures Whole() == Next(old(Whole()), Administer(a, OpSetOverride(u, p, granted)))
    {
      if u !in users {
        return Some(UserNotFound);
      }
      if p !in perms {
        return Some(PermissionNotFound);
      }
      overrides := overrides[(u, p) := granted];
      permissionCache := permissionCache - {u};
      return None;
    }

    method RemoveOverride(u: UserId, p: PermId, ghost a: Actor) returns (why: Option<Refusal>)
      modifies this`overrides, this`permissionCache
      ensures why == WhyRefused(Rbac.RemoveOverride(old(Tables()), u, p))
      ensures Whole() == Next(old(Whole()), Administer(a, OpRemoveOverride(u, p)))
    {
      if u !in users {
        return Some(UserNotFound);
      }
      if (u, p) !in overrides {
        return Some(OverrideNotFound);
      }
      overrides := overrides - {(u, p)};
      permissionCache := permissionCache - {u};
      return None;
    }
  }
}
