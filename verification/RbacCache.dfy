/** The per-user permission cache and the role catalogue stay equal to what the database yields. */
module RbacCache {
  import opened Wrappers
  import opened Rbac
  import opened RbacWrites
  import RbacSafety

  /** The users whose cached authorization an operation drops. */
  ghost function Invalidated(db: Db, op: Op): set<UserId> {
    match op
    case OpCreateRole(_, _, _, _) => {}
    case OpUpdateRole(_, _, _) => {}
    case OpDeleteRole(r) => HoldersOf(db, r)
    case OpAssignRole(u, _) => {u}
    case OpRemoveRole(u, _) => {u}
    case OpAssignGlobal(u, _) => {u}
    case OpRemoveGlobal(u, _) => {u}
    case OpAttach(r, _) => HoldersOf(db, r)
    case OpDetach(r, _) => HoldersOf(db, r)
    case OpDeletePermission(_, p) => PermissionUsers(db, p)
    case OpSetOverride(u, _, _) => {u}
    case OpRemoveOverride(u, _) => {u}
  }

  /** Users reached by a permission through a role or through an override of their own. */
  function PermissionUsers(db: Db, p: PermId): set<UserId> {
    set u | u in db.users
            && ((exists r :: r in db.roles && (r, p) in db.rolePerms && (u, r) in db.userRoles) || (u, p) in db.overrides)
  }

  /** Operations that also drop the cached role catalogue. */
  predicate DropsCatalogue(op: Op) {
    op.OpCreateRole? || op.OpUpdateRole? || op.OpDeleteRole? || op.OpAttach? || op.OpDetach? || op.OpDeletePermission?
  }

  function Catalogue(db: Db): map<RoleId, set<PermId>> {
    map r | r in db.roles :: set p | p in db.perms && (r, p) in db.rolePerms
  }

  // ---------------------------------------------------------------- whose permissions change

  /** A user whose held permissions and permission keys are the same has the same effective set. */
  lemma SameHeldSameEffective(db: Db, db': Db, u: UserId)
    requires forall p :: Holds(db, u, p) <==> Holds(db', u, p)
    requires forall p :: Holds(db, u, p) && Holds(db', u, p) ==> db.perms[p] == db'.perms[p]
    ensures Effective(db, u) == Effective(db', u)
  {
  }

  /** The users whose held permissions a write can reach. */
  function Reached(db: Db, w: Write): set<UserId> {
    match w
    case Nothing => {}
    case PutRole(_, _) => {}
    case DropRole(r) => HoldersOf(db, r)
    case Give(u, _) => {u}
    case Take(u, _) => {u}
    case Attach(r, _) => HoldersOf(db, r)
    case Detach(r, _) => HoldersOf(db, r)
    case DropPerm(p) => PermissionUsers(db, p)
    case PutOverride(u, _, _) => {u}
    case DropOverride(u, _) => {u}
  }

  lemma HeldIsUntouched(db: Db, w: Write, u: UserId, p: PermId)
    requires Consistent(db) && Legal(db, w) && u !in Reached(db, w)
    ensures Holds(db, u, p) <==> Holds(Written(db, w), u, p)
  {
  }

  lemma UnreachedKeepEffective(db: Db, w: Write, u: UserId)
    requires Consistent(db) && Legal(db, w) && u !in Reached(db, w)
    ensures Effective(Written(db, w), u) == Effective(db, u)
  {
    var db' := Written(db, w);
    forall p ensures Holds(db, u, p) <==> Holds(db', u, p) {
      HeldIsUntouched(db, w, u, p);
    }
    forall p | p in db'.perms ensures p in db.perms && db'.perms[p] == db.perms[p] {
    }
    SameHeldSameEffective(db, db', u);
  }

  /** Everyone whose effective permissions an operation changes is among the invalidated. */
  lemma ChangedAreInvalidated(db: Db, a: Actor, op: Op, u: UserId)
    requires Consistent(db) && Callable(db, op) && Outcomes(db, a, op).Done?
    requires Effective(Step(db, a, op), u) != Effective(db, u)
    ensures u in Invalidated(db, op)
  {
    var w := StepWrites(db, a, op);
    assert Reached(db, w) <= Invalidated(db, op);
    if u !in Reached(db, w) {
      UnreachedKeepEffective(db, w, u);
    }
  }

  lemma CatalogueOnlyChangesWhenDropped(db: Db, a: Actor, op: Op)
    requires Callable(db, op) && !DropsCatalogue(op)
    ensures Catalogue(Step(db, a, op)) == Catalogue(db)
  {
  }

  // ---------------------------------------------------------------- the cached system

  datatype System = System(db: Db, permissions: map<UserId, set<string>>, catalogue: Option<map<RoleId, set<PermId>>>)

  datatype Event =
    | Administer(actor: Actor, op: Op)
    | ResolveAuthz(user: UserId)
    | ListRoles
    | ExpireUser(user: UserId)
    | ExpireCatalogue

  predicate Possible(s: System, e: Event) {
    e.Administer? ==> Callable(s.db, e.op)
  }

  ghost function Next(s: System, e: Event): System
    requires Possible(s, e)
  {
    match e
    case Administer(a, op) =>
      if Outcomes(s.db, a, op).Done? then
        System(Step(s.db, a, op), s.permissions - Invalidated(s.db, op), if DropsCatalogue(op) then None else s.catalogue)
      else s
    case ResolveAuthz(u) =>
      if u in s.permissions then s else s.(permissions := s.permissions[u := Effective(s.db, u)])
    case ListRoles => if s.catalogue.Some? then s else s.(catalogue := Some(Catalogue(s.db)))
    case ExpireUser(u) => s.(permissions := s.permissions - {u})
    case ExpireCatalogue => s.(catalogue := None)
  }

  ghost predicate AllPossible(s: System, es: seq<Event>)
    decreases |es|
  {
    es != [] ==> Possible(s, es[0]) && AllPossible(Next(s, es[0]), es[1..])
  }

  ghost function Reach(s: System, es: seq<Event>): System
    requires AllPossible(s, es)
    decreases |es|
  {
    if es == [] then s else Reach(Next(s, es[0]), es[1..])
  }

  /** Each cached permission set equals the recomputed one, and so does the cached role catalogue. */
  ghost predicate Agrees(s: System) {
    && (forall u :: u in s.permissions ==> s.permissions[u] == Effective(s.db, u))
    && (s.catalogue.Some? ==> s.catalogue.value == Catalogue(s.db))
  }

  lemma NextKeepsConsistent(s: System, e: Event)
    requires Consistent(s.db) && Possible(s, e)
    ensures Consistent(Next(s, e).db)
  {
    if e.Administer? {
      RbacSafety.StepKeepsConsistent(s.db, e.actor, e.op);
    }
  }

  lemma NextKeepsAgreement(s: System, e: Event)
    requires Consistent(s.db) && Possible(s, e) && Agrees(s)
    ensures Agrees(Next(s, e))
  {
    if e.Administer? && Outcomes(s.db, e.actor, e.op).Done? {
      forall u | u in Next(s, e).permissions ensures Effective(Next(s, e).db, u) == Effective(s.db, u) {
        if Effective(Next(s, e).db, u) != Effective(s.db, u) {
          ChangedAreInvalidated(s.db, e.actor, e.op, u);
        }
      }
      if !DropsCatalogue(e.op) {
        CatalogueOnlyChangesWhenDropped(s.db, e.actor, e.op);
      }
    }
  }

  /** The caches agree with the database after every run of operations and reads. */
  lemma {:induction false} CachesAgree(s: System, es: seq<Event>)
    requires Consistent(s.db) && Agrees(s) && AllPossible(s, es)
    ensures
      var t := Reach(s, es);
      && Agrees(t) && (forall u | u in t.permissions :: t.permissions[u] == Effective(t.db, u))
      && (t.catalogue.Some? ==>
            && t.catalogue.value.Keys == t.db.roles.Keys
            && forall r, p | r in t.db.roles :: p in t.catalogue.value[r] <==> p in t.db.perms && (r, p) in t.db.rolePerms)
    decreases |es|
  {
    if es != [] {
      NextKeepsConsistent(s, es[0]);
      NextKeepsAgreement(s, es[0]);
      CachesAgree(Next(s, es[0]), es[1..]);
    }
  }
}
