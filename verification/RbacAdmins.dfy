/** No run of role administration leaves the system or a university without its administrator. */
module RbacAdmins {
  import opened Wrappers
  import opened Rbac
  import opened RbacSafety
  import opened RbacWrites

  /** Some user holds the global super-admin role. */
  ghost predicate HasSuperAdmin(db: Db) {
    HolderRows(db, SUPER_ADMIN) != {}
  }

  ghost predicate HasUniversityAdmin(db: Db, t: Tenant) {
    HolderRowsIn(db, UNIVERSITY_ADMIN, t) != {}
  }

  /** Only taking the single element away empties a set. */
  lemma LastOneIsCounted<T>(s: set<T>, x: T)
    ensures s != {} && s - {x} == {} ==> x in s && |s| == 1
  {
    if s != {} && s - {x} == {} {
      assert s == {x};
    }
  }

  /** A removal that the last-administrator rule lets pass leaves another holder. */
  lemma RemovalLeavesAnAdmin(db: Db, u: UserId, r: RoleId, t: Tenant)
    requires Consistent(db) && u in db.users && r in db.roles && LastAdminRule(db, u, r).None?
    ensures
      var db' := db.(userRoles := db.userRoles - {(u, r)});
      && (HasSuperAdmin(db) ==> HasSuperAdmin(db'))
      && (HasUniversityAdmin(db, t) ==> HasUniversityAdmin(db', t))
  {
    var db' := db.(userRoles := db.userRoles - {(u, r)});
    assert HolderRows(db', SUPER_ADMIN) == HolderRows(db, SUPER_ADMIN) - {(u, r)};
    assert HolderRowsIn(db', UNIVERSITY_ADMIN, t) == HolderRowsIn(db, UNIVERSITY_ADMIN, t) - {(u, r)};
    LastOneIsCounted(HolderRows(db, SUPER_ADMIN), (u, r));
    LastOneIsCounted(HolderRowsIn(db, UNIVERSITY_ADMIN, t), (u, r));
  }

  /** Core roles keep their name, tenant and rank, and stay. */
  ghost predicate CoreRolesKept(db: Db, db': Db) {
    forall r | r in db.roles && db.roles[r].name in CORE_ROLE_NAMES :: r in db'.roles && db'.roles[r] == db.roles[r]
  }

  lemma WriteKeepsCoreRoles(db: Db, w: Write)
    requires Legal(db, w)
    ensures CoreRolesKept(db, Written(db, w))
  {
  }

  /** Rows of core roles that a step keeps are still holder rows afterwards. */
  lemma KeptRowsKeepAdmins(db: Db, db': Db, t: Tenant)
    requires CoreRolesKept(db, db') && db'.users == db.users && Consistent(db)
    requires forall p :: p in db.userRoles && p !in db'.userRoles ==> p.1 !in db'.roles
    ensures HasSuperAdmin(db) ==> HasSuperAdmin(db')
    ensures HasUniversityAdmin(db, t) ==> HasUniversityAdmin(db', t)
  {
  }

  lemma WriteKeepsAdmins(db: Db, w: Write, t: Tenant)
    requires Consistent(db) && Legal(db, w)
    ensures HasSuperAdmin(db) ==> HasSuperAdmin(Written(db, w))
    ensures HasUniversityAdmin(db, t) ==> HasUniversityAdmin(Written(db, w), t)
  {
    WriteKeepsCoreRoles(db, w);
    if w.Take? {
      RemovalLeavesAnAdmin(db, w.user, w.role, t);
    } else {
      KeptRowsKeepAdmins(db, Written(db, w), t);
    }
  }

  /** Administrators remain and core roles are immutable in every run, super admins included. */
  lemma {:induction false} AdminsRemain(db: Db, acts: seq<Act>, t: Tenant)
    requires Consistent(db) && Runs(db, acts)
    ensures HasSuperAdmin(db) ==> HasSuperAdmin(After(db, acts))
    ensures HasUniversityAdmin(db, t) ==> HasUniversityAdmin(After(db, acts), t)
    ensures CoreRolesKept(db, After(db, acts))
    decreases |acts|
  {
    if acts != [] {
      var w := StepWrites(db, acts[0].actor, acts[0].op);
      WriteKeepsConsistent(db, w);
      WriteKeepsAdmins(db, w, t);
      WriteKeepsCoreRoles(db, w);
      AdminsRemain(Step(db, acts[0].actor, acts[0].op), acts[1..], t);
    }
  }
}
