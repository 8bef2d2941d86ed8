/**
 Every administration operation amounts to at most one elementary write. What the operations keep is
 proved about these writes, given what the checks guarantee of them.
*/
module RbacWrites {
  import opened Wrappers
  import opened Rbac

  datatype Write =
    | Nothing
    | PutRole(role: RoleId, value: Role)
    | DropRole(role: RoleId)
    | Give(user: UserId, role: RoleId)
    | Take(user: UserId, role: RoleId)
    | Attach(role: RoleId, perm: PermId)
    | Detach(role: RoleId, perm: PermId)
    | DropPerm(perm: PermId)
    | PutOverride(user: UserId, perm: PermId, granted: bool)
    | DropOverride(user: UserId, perm: PermId)

  function Written(db: Db, w: Write): Db {
    match w
    case Nothing => db
    case PutRole(r, role) => db.(roles := db.roles[r := role])
    case DropRole(r) => WithoutRole(db, r)
    case Give(u, r) => db.(userRoles := db.userRoles + {(u, r)})
    case Take(u, r) => db.(userRoles := db.userRoles - {(u, r)})
    case Attach(r, p) => db.(rolePerms := db.rolePerms + {(r, p)})
    case Detach(r, p) => db.(rolePerms := db.rolePerms - {(r, p)})
    case DropPerm(p) => WithoutPermission(db, p)
    case PutOverride(u, p, granted) => db.(overrides := db.overrides[(u, p) := granted])
    case DropOverride(u, p) => db.(overrides := db.overrides - {(u, p)})
  }

  /** What the checks guarantee of a write, whoever acts. */
  ghost predicate Legal(db: Db, w: Write) {
    match w
    case Nothing => true
    case PutRole(r, role) =>
      && !NameTaken(db, role.name, role.tenant, Some(r))
      && (r in db.roles ==> role.tenant == db.roles[r].tenant
                            && (db.roles[r].name in CORE_ROLE_NAMES ==> role == db.roles[r]))
    case DropRole(r) => r in db.roles && db.roles[r].name !in CORE_ROLE_NAMES
    case Give(u, r) =>
      && u in db.users && r in db.roles
      && (db.roles[r].tenant.Some? ==> db.roles[r].tenant == db.users[u].tenant)
    case Take(u, r) => u in db.users && r in db.roles && LastAdminRule(db, u, r).None?
    case Attach(r, p) => r in db.roles && p in db.perms
    case Detach(r, p) => r in db.roles && p in db.perms
    case DropPerm(p) => p in db.perms
    case PutOverride(u, p, _) => u in db.users && p in db.perms
    case DropOverride(u, p) => u in db.users
  }

  /** Whose roles an actor may change by giving or taking one. */
  ghost predicate Permitted(db: Db, a: Actor, w: Write) {
    w.Give? || w.Take? ==> w.user == a.userId || OutranksUser(db, a, w.user)
  }

  /** The write an operation makes when it is not refused. */
  ghost predicate Makes(op: Op, w: Write) {
    match op
    case OpCreateRole(id, _, _, _) => w.PutRole? && w.role == id
    case OpUpdateRole(r, _, _) => w.PutRole? && w.role == r
    case OpDeleteRole(r) => w == DropRole(r)
    case OpAssignRole(u, r) => w == Give(u, r)
    case OpRemoveRole(u, r) => w == Take(u, r)
    case OpAssignGlobal(u, _) => w.Give? && w.user == u
    case OpRemoveGlobal(u, _) => w.Take? && w.user == u
    case OpAttach(r, p) => w == Attach(r, p)
    case OpDetach(r, p) => w == Detach(r, p)
    case OpDeletePermission(_, p) => w == DropPerm(p)
    case OpSetOverride(u, p, granted) => w == PutOverride(u, p, granted)
    case OpRemoveOverride(u, p) => w == DropOverride(u, p)
  }

  lemma RoleEditWrites(db: Db, a: Actor, op: Op) returns (w: Write)
    requires Callable(db, op) && Outcomes(db, a, op).Done? && (op.OpCreateRole? || op.OpUpdateRole? || op.OpDeleteRole?)
    ensures Step(db, a, op) == Written(db, w) && Legal(db, w) && Permitted(db, a, w) && Makes(op, w)
  {
    match op
    case OpCreateRole(id, _, _, _) => w := PutRole(id, Step(db, a, op).roles[id]);
    case OpUpdateRole(r, _, _) => w := PutRole(r, Step(db, a, op).roles[r]);
    case OpDeleteRole(r) => w := DropRole(r);
  }

  lemma AssignmentWrites(db: Db, a: Actor, op: Op) returns (w: Write)
    requires Callable(db, op) && Outcomes(db, a, op).Done?
    requires op.OpAssignRole? || op.OpAssignGlobal?
    ensures Step(db, a, op) == Written(db, w) && Legal(db, w) && Permitted(db, a, w) && Makes(op, w)
  {
    match op
    case OpAssignRole(u, r) => w := Give(u, r);
    case OpAssignGlobal(u, name) =>
      var r :| IsGlobal(db, r, name) && AssignGlobal(db, a, u, name) == AssignRole(db, a, u, r);
      w := Give(u, r);
      assert AssignRole(db, a, u, r).Done?;
  }

  lemma RemovalWrites(db: Db, a: Actor, op: Op) returns (w: Write)
    requires Callable(db, op) && Outcomes(db, a, op).Done?
    requires op.OpRemoveRole? || op.OpRemoveGlobal?
    ensures Step(db, a, op) == Written(db, w) && Legal(db, w) && Permitted(db, a, w) && Makes(op, w)
  {
    match op
    case OpRemoveRole(u, r) => w := Take(u, r);
    case OpRemoveGlobal(u, name) =>
      var r :| IsGlobal(db, r, name) && RemoveGlobal(db, a, u, name) == RemoveRole(db, a, u, r);
      w := Take(u, r);
      assert RemoveRole(db, a, u, r).Done?;
  }

  lemma GrantWrites(db: Db, a: Actor, op: Op) returns (w: Write)
    requires Consistent(db) && Callable(db, op) && Outcomes(db, a, op).Done?
    requires op.OpAttach? || op.OpDetach? || op.OpDeletePermission? || op.OpSetOverride? || op.OpRemoveOverride?
    ensures Step(db, a, op) == Written(db, w) && Legal(db, w) && Permitted(db, a, w) && Makes(op, w)
  {
    match op
    case OpAttach(r, p) => w := Attach(r, p);
    case OpDetach(r, p) => w := Detach(r, p);
    case OpDeletePermission(_, p) => w := DropPerm(p);
    case OpSetOverride(u, p, granted) => w := PutOverride(u, p, granted);
    case OpRemoveOverride(u, p) => w := DropOverride(u, p);
  }

  /** An operation is refused and changes nothing, or makes one write that its checks vouch for. */
  lemma StepWrites(db: Db, a: Actor, op: Op) returns (w: Write)
    requires Consistent(db) && Callable(db, op)
    ensures Step(db, a, op) == Written(db, w) && Legal(db, w) && Permitted(db, a, w)
    ensures if Outcomes(db, a, op).Done? then Makes(op, w) else w == Nothing
  {
    if Outcomes(db, a, op).Refused? {
      w := Nothing;
    } else if op.OpCreateRole? || op.OpUpdateRole? || op.OpDeleteRole? {
      w := RoleEditWrites(db, a, op);
    } else if op.OpAssignRole? || op.OpAssignGlobal? {
      w := AssignmentWrites(db, a, op);
    } else if op.OpRemoveRole? || op.OpRemoveGlobal? {
      w := RemovalWrites(db, a, op);
    } else {
      w := GrantWrites(db, a, op);
    }
  }
}
