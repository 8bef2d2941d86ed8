/**
 Provisioning the catalogue of global roles, permissions and role bundles, on a fresh database as well as
 on one that already has some or all of it.
*/
module Catalogue {
  import opened Wrappers
  import opened Rbac

  datatype RoleDef = RoleDef(name: string, rank: nat)

  datatype Bundle = Bundle(role: string, keys: set<string>)

  const ROLE_DEFS: seq<RoleDef> := [
    RoleDef("student", 10), RoleDef("advisor", 20), RoleDef("auditor", 30), RoleDef("content_moderator", 30),
    RoleDef("student_affairs", 45), RoleDef("academic_affairs", 45), RoleDef("university_admin", 60),
    RoleDef("platform_support", 90), RoleDef("super_admin", 100)
  ]

  const LEGACY_PERMISSION_KEYS: set<string> := {"club.manage", "university.manage"}

  /** The permission keys the features contribute, and what each role is given of them. */
  datatype Catalogue = Catalogue(keys: seq<string>, bundles: seq<Bundle>)

  predicate IsListed(name: string) {
    exists i :: 0 <= i < |ROLE_DEFS| && ROLE_DEFS[i].name == name
  }

  /** Bundles are for listed roles, and no retired key is listed. */
  predicate WellFormed(cat: Catalogue) {
    && (forall i | 0 <= i < |cat.bundles| :: IsListed(cat.bundles[i].role) && cat.bundles[i].keys !! LEGACY_PERMISSION_KEYS)
    && (forall i | 0 <= i < |cat.keys| :: cat.keys[i] !in LEGACY_PERMISSION_KEYS)
  }

  predicate IsTemplate(roles: map<RoleId, Role>, r: RoleId, name: string) {
    r in roles && roles[r].name == name && roles[r].tenant.None?
  }

  /** Global role names are unique. */
  ghost predicate UniqueGlobals(roles: map<RoleId, Role>) {
    forall q, r | q in roles && r in roles && roles[q].tenant.None? && roles[r].tenant.None?
                  && roles[q].name == roles[r].name :: q == r
  }

  ghost predicate UniqueKeys(perms: map<PermId, string>) {
    forall p, q | p in perms && q in perms && perms[p] == perms[q] :: p == q
  }

  ghost predicate RoleReady(roles: map<RoleId, Role>, def: RoleDef) {
    exists r :: r in roles && roles[r] == Role(def.name, None, def.rank)
  }

  ghost predicate RolesReady(roles: map<RoleId, Role>) {
    forall i | 0 <= i < |ROLE_DEFS| :: RoleReady(roles, ROLE_DEFS[i])
  }

  predicate KeysReady(cat: Catalogue, perms: map<PermId, string>) {
    forall i | 0 <= i < |cat.keys| :: cat.keys[i] in perms.Values
  }

  /** What the bundles and the blanket grant of super_admin call for. */
  predicate IsDue(cat: Catalogue, roles: map<RoleId, Role>, perms: map<PermId, string>, r: RoleId, p: PermId) {
    && r in roles && p in perms && roles[r].tenant.None?
    && (roles[r].name == SUPER_ADMIN
        || exists i :: 0 <= i < |cat.bundles| && cat.bundles[i].role == roles[r].name && perms[p] in cat.bundles[i].keys)
  }

  ghost predicate GrantsReady(cat: Catalogue, roles: map<RoleId, Role>, perms: map<PermId, string>, grants: set<(RoleId, PermId)>) {
    forall r: RoleId, p: PermId | IsDue(cat, roles, perms, r, p) :: (r, p) in grants
  }

  ghost predicate BundlesReady(cat: Catalogue, roles: map<RoleId, Role>, perms: map<PermId, string>, grants: set<(RoleId, PermId)>) {
    forall r: RoleId, p: PermId | IsDue(cat, roles, perms, r, p) && roles[r].name != SUPER_ADMIN :: (r, p) in grants
  }

  /** The grants a role's bundle calls for. */
  function BundleRows(perms: map<PermId, string>, r: RoleId, keys: set<string>): set<(RoleId, PermId)> {
    set p | p in perms && perms[p] in keys :: (r, p)
  }

  lemma BundleAddsOnlyDue(
    cat: Catalogue, roles: map<RoleId, Role>, perms: map<PermId, string>, i: nat, r: RoleId,
    first: set<(RoleId, PermId)>, before: set<(RoleId, PermId)>)
    requires i < |cat.bundles| && IsTemplate(roles, r, cat.bundles[i].role)
    requires OnlyDueAdded(cat, roles, perms, first, before)
    ensures OnlyDueAdded(cat, roles, perms, first, before + BundleRows(perms, r, cat.bundles[i].keys))
  {
  }

  lemma BundlesReadyWhenGranted(
    cat: Catalogue, roles: map<RoleId, Role>, perms: map<PermId, string>, grants: set<(RoleId, PermId)>,
    roleIdByName: map<string, RoleId>)
    requires UniqueGlobals(roles)
    requires forall i | 0 <= i < |cat.bundles| ::
               && cat.bundles[i].role in roleIdByName
               && IsTemplate(roles, roleIdByName[cat.bundles[i].role], cat.bundles[i].role)
               && BundleRows(perms, roleIdByName[cat.bundles[i].role], cat.bundles[i].keys) <= grants
    ensures BundlesReady(cat, roles, perms, grants)
  {
  }

  /** Every listed role has its rank and at least its bundle, and super_admin has every permission. */
  ghost predicate Provisioned(cat: Catalogue, roles: map<RoleId, Role>, perms: map<PermId, string>, grants: set<(RoleId, PermId)>) {
    RolesReady(roles) && KeysReady(cat, perms) && GrantsReady(cat, roles, perms, grants)
  }

  predicate HasLegacy(perms: map<PermId, string>) {
    exists p :: p in perms && perms[p] in LEGACY_PERMISSION_KEYS
  }

  function LegacyIds(perms: map<PermId, string>): set<PermId> {
    set p | p in perms && perms[p] in LEGACY_PERMISSION_KEYS
  }

  lemma LegacyIdsIff(perms: map<PermId, string>)
    ensures LegacyIds(perms) != {} <==> HasLegacy(perms)
  {
    if HasLegacy(perms) {
      var p :| p in perms && perms[p] in LEGACY_PERMISSION_KEYS;
      assert p in LegacyIds(perms);
    }
  }

  /** A role survives as it was, except that a listed global one may get its listed rank. */
  predicate RoleKept(before: Role, after: Role) {
    && after.name == before.name && after.tenant == before.tenant
    && (after.rank != before.rank ==> before.tenant.None? && RoleDef(after.name, after.rank) in ROLE_DEFS)
  }

  ghost predicate RolesKept(before: map<RoleId, Role>, after: map<RoleId, Role>) {
    && (forall r | r in before :: r in after && RoleKept(before[r], after[r]))
    && (forall r | r in after && r !in before :: after[r].tenant.None? && IsListed(after[r].name))
    && (RolesReady(before) ==> after == before)
  }

  /** The first `n` listed roles are there with their ranks, under the ids recorded for their names. */
  predicate Recorded(roles: map<RoleId, Role>, ids: map<string, RoleId>, n: nat)
    requires n <= |ROLE_DEFS|
  {
    forall j | 0 <= j < n ::
      && ROLE_DEFS[j].name in ids && ids[ROLE_DEFS[j].name] in roles
      && roles[ids[ROLE_DEFS[j].name]] == Role(ROLE_DEFS[j].name, None, ROLE_DEFS[j].rank)
  }

  lemma RecordingOneMore(roles: map<RoleId, Role>, ids: map<string, RoleId>, n: nat, id: RoleId)
    requires n < |ROLE_DEFS| && Recorded(roles, ids, n)
    requires id in roles ==> IsTemplate(roles, id, ROLE_DEFS[n].name)
    ensures Recorded(roles[id := Role(ROLE_DEFS[n].name, None, ROLE_DEFS[n].rank)], ids[ROLE_DEFS[n].name := id], n + 1)
  {
  }

  lemma AllRecordedIsReady(roles: map<RoleId, Role>, ids: map<string, RoleId>)
    requires Recorded(roles, ids, |ROLE_DEFS|)
    ensures RolesReady(roles)
    ensures forall n | IsListed(n) :: n in ids && IsTemplate(roles, ids[n], n)
  {
  }

  lemma ProvisioningOneKeepsRoles(
    before: map<RoleId, Role>, mid: map<RoleId, Role>, after: map<RoleId, Role>, id: RoleId, i: nat)
    requires i < |ROLE_DEFS| && RolesKept(before, mid)
    requires after == mid[id := Role(ROLE_DEFS[i].name, None, ROLE_DEFS[i].rank)]
    requires id in mid ==> IsTemplate(mid, id, ROLE_DEFS[i].name)
    requires RoleReady(mid, ROLE_DEFS[i]) ==> after == mid
    ensures RolesKept(before, after)
  {
  }

  ghost predicate PermsKept(cat: Catalogue, before: map<PermId, string>, after: map<PermId, string>) {
    && (forall p | p in before :: p in after && after[p] == before[p])
    && (forall p | p in after && p !in before :: after[p] in cat.keys)
    && (KeysReady(cat, before) ==> after == before)
  }

  ghost predicate OnlyDueAdded(
    cat: Catalogue, roles: map<RoleId, Role>, perms: map<PermId, string>,
    before: set<(RoleId, PermId)>, after: set<(RoleId, PermId)>)
  {
    before <= after && forall g | g in after && g !in before :: IsDue(cat, roles, perms, g.0, g.1)
  }

  lemma OnlyDueTwice(
    cat: Catalogue, roles: map<RoleId, Role>, perms: map<PermId, string>,
    a: set<(RoleId, PermId)>, b: set<(RoleId, PermId)>, c: set<(RoleId, PermId)>)
    requires OnlyDueAdded(cat, roles, perms, a, b) && OnlyDueAdded(cat, roles, perms, b, c)
    ensures OnlyDueAdded(cat, roles, perms, a, c)
  {
  }

  /** Where all due grants were there, adding only due ones adds none. */
  lemma NothingDueIsAdded(
    cat: Catalogue, roles: map<RoleId, Role>, perms: map<PermId, string>,
    before: set<(RoleId, PermId)>, after: set<(RoleId, PermId)>)
    requires OnlyDueAdded(cat, roles, perms, before, after) && GrantsReady(cat, roles, perms, before)
    ensures after == before
  {
  }

  class Tables {
    var roles: map<RoleId, Role>
    var perms: map<PermId, string>
    var grants: set<(RoleId, PermId)>
    var overrides: map<(UserId, PermId), bool>
    var nextRole: nat
    var nextPerm: nat

    /** Unique names and keys, foreign keys, and ids that are still to be handed out. */
    ghost predicate Valid()
      reads this
    {
      && UniqueGlobals(roles) && UniqueKeys(perms)
      && (forall r | r in roles :: r < nextRole)
      && (forall p | p in perms :: p < nextPerm)
      && (forall g | g in grants :: g.0 in roles && g.1 in perms)
      && (forall o | o in overrides :: o.1 in perms)
    }

    /** Select or insert each listed global role, and correct its rank. */
    method ProvisionRoles() returns (roleIdByName: map<string, RoleId>)
      requires Valid()
      modifies this`roles, this`nextRole
      ensures Valid() && RolesReady(roles)
      ensures forall n | IsListed(n) :: n in roleIdByName && IsTemplate(roles, roleIdByName[n], n)
      ensures RolesKept(old(roles), roles)
    {
      roleIdByName := map[];
      for i := 0 to |ROLE_DEFS|
        invariant UniqueGlobals(roles)
        invariant forall r | r in roles :: r < nextRole
        invariant Recorded(roles, roleIdByName, i)
        invariant RolesKept(old(roles), roles)
      {
        var def := ROLE_DEFS[i];
        ghost var before := roles;
        var id := ProvisionRole(def);
        ProvisioningOneKeepsRoles(old(roles), before, roles, id, i);
        RecordingOneMore(before, roleIdByName, i, id);
        roleIdByName := roleIdByName[def.name := id];
      }
      AllRecordedIsReady(roles, roleIdByName);
    }

    method ProvisionRole(def: RoleDef) returns (id: RoleId)
      requires UniqueGlobals(roles) && def in ROLE_DEFS
      requires forall r | r in roles :: r < nextRole
      modifies this`roles, this`nextRole
      ensures UniqueGlobals(roles)
      ensures forall r | r in roles :: r < nextRole
      ensures id in roles && roles[id] == Role(def.name, None, def.rank)
      ensures id in old(roles) ==> old(roles)[id].name == def.name && old(roles)[id].tenant.None?
      ensures roles == old(roles)[id := Role(def.name, None, def.rank)]
      ensures RoleReady(old(roles), def) ==> roles == old(roles)
    {
      if r :| r in roles && roles[r].name == def.name && roles[r].tenant.None? {
        id := r;
        if roles[r].rank != def.rank {
          roles := roles[r := roles[r].(rank := def.rank)];
        }
      } else {
        id := nextRole;
        roles := roles[id := Role(def.name, None, def.rank)];
        nextRole := nextRole + 1;
      }
    }

    /** Insert the missing permission keys. */
    method ProvisionPermissions(cat: Catalogue)
      requires Valid()
      modifies this`perms, this`nextPerm
      ensures Valid() && KeysReady(cat, perms)
      ensures PermsKept(cat, old(perms), perms)
    {
      for i := 0 to |cat.keys|
        invariant Valid()
        invariant forall j | 0 <= j < i :: cat.keys[j] in perms.Values
        invariant PermsKept(cat, old(perms), perms)
      {
        if cat.keys[i] !in perms.Values {
          AddPermission(cat.keys[i]);
        }
      }
    }

    method AddPermission(key: string)
      requires Valid() && key !in perms.Values
      modifies this`perms, this`nextPerm
      ensures Valid() && old(nextPerm) !in old(perms) && perms == old(perms)[old(nextPerm) := key]
      ensures perms.Values == old(perms).Values + {key}
    {
      forall p | p in perms
        ensures perms[p] != key
      {
        assert perms[p] in perms.Values;
      }
      ghost var before := perms;
      perms := perms[nextPerm := key];
      nextPerm := nextPerm + 1;
      forall k | k in before.Values + {key}
        ensures k in perms.Values
      {
        if k != key {
          var p :| p in before && before[p] == k;
          assert perms[p] == k;
        } else {
          assert perms[nextPerm - 1] == key;
        }
      }
    }

    method IndexByKey() returns (idByKey: map<string, PermId>)
      requires Valid()
      ensures forall k | k in idByKey :: idByKey[k] in perms && perms[idByKey[k]] == k
      ensures forall p | p in perms :: perms[p] in idByKey && idByKey[perms[p]] == p
    {
      idByKey := map[];
      var todo := perms.Keys;
      while todo != {}
        invariant todo <= perms.Keys
        invariant forall k | k in idByKey :: idByKey[k] in perms && perms[idByKey[k]] == k
        invariant forall p | p in perms && p !in todo :: perms[p] in idByKey
      {
        var p :| p in todo;
        idByKey := idByKey[perms[p] := p];
        todo := todo - {p};
      }
    }

    /** Remove the retired permissions with their grants and overrides. */
    method DropLegacy()
      requires Valid()
      modifies this`perms, this`grants, this`overrides
      ensures Valid()
      ensures perms == map p | p in old(perms) && old(perms)[p] !in LEGACY_PERMISSION_KEYS :: old(perms)[p]
      ensures !HasLegacy(old(perms)) ==> perms == old(perms) && grants == old(grants) && overrides == old(overrides)
    {
      var legacy := LegacyIds(perms);
      LegacyIdsIff(perms);
      if legacy != {} {
        grants := set g | g in grants && g.1 !in legacy;
        overrides := map o | o in overrides && o.1 !in legacy :: overrides[o];
        perms := perms - legacy;
      }
    }

    /** Insert grants, skipping those there are; a reference to a missing row fails the statement. */
    method InsertGrants(rows: set<(RoleId, PermId)>) returns (ok: bool)
      modifies this`grants
      ensures ok <==> forall g | g in rows :: g.0 in roles && g.1 in perms
      ensures grants == if ok then old(grants) + rows else old(grants)
    {
      ok := forall g | g in rows :: g.0 in roles && g.1 in perms;
      if ok {
        grants := grants + rows;
      }
    }

    /** Give a role the permissions of its bundle that exist. */
    method GrantBundle(b: Bundle, roleId: RoleId, idByKey: map<string, PermId>) returns (ok: bool)
      requires roleId in roles && b.keys !! LEGACY_PERMISSION_KEYS
      requires forall k | k in idByKey && k !in LEGACY_PERMISSION_KEYS :: idByKey[k] in perms && perms[idByKey[k]] == k
      requires forall p | p in perms :: perms[p] in idByKey && idByKey[perms[p]] == p
      modifies this`grants
      ensures ok && grants == old(grants) + BundleRows(perms, roleId, b.keys)
    {
      var rows := set k | k in b.keys && k in idByKey :: (roleId, idByKey[k]);
      assert rows == BundleRows(perms, roleId, b.keys) by {
        forall p | p in perms && perms[p] in b.keys
          ensures (roleId, p) in rows
        {
          assert idByKey[perms[p]] == p;
        }
      }
      ok := InsertGrants(rows);
    }

    method GrantBundles(cat: Catalogue, roleIdByName: map<string, RoleId>, idByKey: map<string, PermId>) returns (ok: bool)
      requires Valid() && WellFormed(cat)
      requires forall n | IsListed(n) :: n in roleIdByName && IsTemplate(roles, roleIdByName[n], n)
      requires forall k | k in idByKey && k !in LEGACY_PERMISSION_KEYS :: idByKey[k] in perms && perms[idByKey[k]] == k
      requires forall p | p in perms :: perms[p] in idByKey && idByKey[perms[p]] == p
      modifies this`grants
      ensures ok && Valid() && OnlyDueAdded(cat, roles, perms, old(grants), grants)
      ensures BundlesReady(cat, roles, perms, grants)
    {
      ok := true;
      for i := 0 to |cat.bundles|
        invariant ok && Valid() && OnlyDueAdded(cat, roles, perms, old(grants), grants)
        invariant forall j | 0 <= j < i :: BundleRows(perms, roleIdByName[cat.bundles[j].role], cat.bundles[j].keys) <= grants
      {
        var b := cat.bundles[i];
        ghost var before := grants;
        ok := GrantBundle(b, roleIdByName[b.role], idByKey);
        BundleAddsOnlyDue(cat, roles, perms, i, roleIdByName[b.role], old(grants), before);
      }
      BundlesReadyWhenGranted(cat, roles, perms, grants, roleIdByName);
    }

    /** Give super_admin every permission of the snapshot taken before the retired ones were dropped. */
    method GrantEverything(cat: Catalogue, superAdmin: RoleId, all: map<PermId, string>) returns (ok: bool)
      requires Valid() && IsTemplate(roles, superAdmin, SUPER_ADMIN)
      requires perms == map p | p in all && all[p] !in LEGACY_PERMISSION_KEYS :: all[p]
      requires BundlesReady(cat, roles, perms, grants)
      modifies this`grants
      ensures ok <==> !HasLegacy(all)
      ensures ok ==> Valid() && GrantsReady(cat, roles, perms, grants) && OnlyDueAdded(cat, roles, perms, old(grants), grants)
    {
      var rows := set p | p in all :: (superAdmin, p);
      BlanketGrantFailsIff(all, perms, roles, superAdmin);
      ok := InsertGrants(rows);
      if ok {
        forall r: RoleId, p: PermId | IsDue(cat, roles, perms, r, p)
          ensures (r, p) in grants
        {
          assert roles[r].name == SUPER_ADMIN ==> r == superAdmin && (r, p) in rows;
        }
        forall g | g in grants && g !in old(grants)
          ensures IsDue(cat, roles, perms, g.0, g.1)
        {
          assert g in rows;
        }
      }
    }

    /** Complete the permissions, take the snapshot the grants refer to, and drop the retired ones. */
    method PreparePermissions(cat: Catalogue) returns (all: map<PermId, string>, idByKey: map<string, PermId>)
      requires Valid() && WellFormed(cat)
      modifies this`perms, this`nextPerm, this`grants, this`overrides
      ensures Valid() && PermsKept(cat, old(perms), all) && KeysReady(cat, all)
      ensures perms == map p | p in all && all[p] !in LEGACY_PERMISSION_KEYS :: all[p]
      ensures HasLegacy(all) <==> HasLegacy(old(perms))
      ensures !HasLegacy(all) ==> perms == all && grants == old(grants) && overrides == old(overrides)
      ensures forall k | k in idByKey && k !in LEGACY_PERMISSION_KEYS :: idByKey[k] in perms && perms[idByKey[k]] == k
      ensures forall p | p in perms :: perms[p] in idByKey && idByKey[perms[p]] == p
    {
      ProvisionPermissions(cat);
      all := perms;
      LegacyIsOld(cat, old(perms), all);
      idByKey := IndexByKey();
      DropLegacy();
    }

    /** The bundles, and then everything for super_admin. */
    method GrantCatalogue(
      cat: Catalogue, roleIdByName: map<string, RoleId>, idByKey: map<string, PermId>, all: map<PermId, string>)
      returns (ok: bool)
      requires Valid() && WellFormed(cat)
      requires forall n | IsListed(n) :: n in roleIdByName && IsTemplate(roles, roleIdByName[n], n)
      requires perms == map p | p in all && all[p] !in LEGACY_PERMISSION_KEYS :: all[p]
      requires forall k | k in idByKey && k !in LEGACY_PERMISSION_KEYS :: idByKey[k] in perms && perms[idByKey[k]] == k
      requires forall p | p in perms :: perms[p] in idByKey && idByKey[perms[p]] == p
      modifies this`grants
      ensures ok <==> !HasLegacy(all)
      ensures ok ==> Valid() && GrantsReady(cat, roles, perms, grants) && OnlyDueAdded(cat, roles, perms, old(grants), grants)
    {
      ok := GrantBundles(cat, roleIdByName, idByKey);
      SuperAdminIsListed();
      ghost var bundled := grants;
      ok := GrantEverything(cat, roleIdByName[SUPER_ADMIN], all);
      if ok {
        OnlyDueTwice(cat, roles, perms, old(grants), bundled, grants);
      }
    }

    /** Inside the transaction: after a failure the tables are partly written. */
    method ProvisionInTx(cat: Catalogue) returns (roleIdByName: map<string, RoleId>, ok: bool)
      requires Valid() && WellFormed(cat)
      modifies this
      ensures ok <==> !HasLegacy(old(perms))
      ensures ok ==> Valid() && Provisioned(cat, roles, perms, grants) && overrides == old(overrides)
      ensures ok ==> forall n | IsListed(n) :: n in roleIdByName && IsTemplate(roles, roleIdByName[n], n)
      ensures ok ==> RolesKept(old(roles), roles) && PermsKept(cat, old(perms), perms)
      ensures ok ==> OnlyDueAdded(cat, roles, perms, old(grants), grants)
    {
      roleIdByName := ProvisionRoles();
      var all, idByKey := PreparePermissions(cat);
      ok := GrantCatalogue(cat, roleIdByName, idByKey, all);
    }

    /**
     The whole provisioning as a transaction. It succeeds if and only if no retired permission is left in
     the database: the blanket grant of super_admin refers to those just deleted. On success everything
     the catalogue calls for is there, nothing is lost, only called-for grants are new, and on a database
     that already was provisioned nothing changes at all.
    */
    method ProvisionRbacCatalog(cat: Catalogue) returns (roleIdByName: map<string, RoleId>, ok: bool)
      requires Valid() && WellFormed(cat)
      modifies this
      ensures Valid()
      ensures ok <==> !HasLegacy(old(perms))
      ensures !ok ==> roles == old(roles) && perms == old(perms) && grants == old(grants) && overrides == old(overrides)
      ensures ok ==> Provisioned(cat, roles, perms, grants) && overrides == old(overrides)
      ensures ok ==> forall n | IsListed(n) :: n in roleIdByName && IsTemplate(roles, roleIdByName[n], n)
      ensures ok ==> RolesKept(old(roles), roles) && PermsKept(cat, old(perms), perms)
      ensures ok ==> OnlyDueAdded(cat, roles, perms, old(grants), grants)
      ensures ok && Provisioned(cat, old(roles), old(perms), old(grants)) ==>
                roles == old(roles) && perms == old(perms) && grants == old(grants)
    {
      var roles0, perms0, grants0, overrides0, nextRole0, nextPerm0 := roles, perms, grants, overrides, nextRole, nextPerm;
      roleIdByName, ok := ProvisionInTx(cat);
      if !ok {
        roles, perms, grants, overrides, nextRole, nextPerm := roles0, perms0, grants0, overrides0, nextRole0, nextPerm0;
      } else if Provisioned(cat, roles0, perms0, grants0) {
        NothingDueIsAdded(cat, roles, perms, grants0, grants);
      }
    }
  }

  lemma SuperAdminIsListed()
    ensures IsListed(SUPER_ADMIN)
  {
    assert ROLE_DEFS[8].name == SUPER_ADMIN;
  }

  /** Provisioning adds no retired key. */
  lemma LegacyIsOld(cat: Catalogue, before: map<PermId, string>, after: map<PermId, string>)
    requires WellFormed(cat)
    requires forall p | p in before :: p in after && after[p] == before[p]
    requires forall p | p in after && p !in before :: after[p] in cat.keys
    ensures HasLegacy(after) <==> HasLegacy(before)
  {
  }

  lemma BlanketGrantFailsIff(all: map<PermId, string>, kept: map<PermId, string>, roles: map<RoleId, Role>, r: RoleId)
    requires r in roles
    requires kept == map p | p in all && all[p] !in LEGACY_PERMISSION_KEYS :: all[p]
    ensures (forall g | g in (set p | p in all :: (r, p)) :: g.0 in roles && g.1 in kept) <==> !HasLegacy(all)
  {
    if HasLegacy(all) {
      var p :| p in all && all[p] in LEGACY_PERMISSION_KEYS;
      assert (r, p) in (set q | q in all :: (r, q)) && p !in kept;
    }
  }

  /** A database that holds one retired permission: provisioning even a catalogue of one key aborts. */
  method RetiredKeyAborts() returns (ok: bool, perms: map<PermId, string>)
    ensures !ok && perms == map[0 := "club.manage"]
  {
    var t := new Tables;
    t.roles, t.perms, t.grants, t.overrides := map[], map[0 := "club.manage"], {}, map[];
    t.nextRole, t.nextPerm := 0, 1;
    var cat := Catalogue(["club.view"], []);
    assert t.perms[0] in LEGACY_PERMISSION_KEYS;
    var roleIdByName;
    roleIdByName, ok := t.ProvisionRbacCatalog(cat);
    perms := t.perms;
  }
}
