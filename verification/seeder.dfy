/** The roles-and-permissions seeder: it makes sure the four article-report
    permissions and the three roles exist, then replaces each role's granted
    permissions with a fixed list. */
module RolesAndPermissionsSeeder {
  import opened Roles

  /** The permission list, in the seeder's order. */
  const SeededPermissions: seq<string> := [CREATE_REPORT, VIEW_REPORT, UPDATE_REPORT, DELETE_REPORT]

  const ExecutivePermissions: set<string> := {VIEW_REPORT}
  const EditorPermissions: set<string> := {CREATE_REPORT, VIEW_REPORT, UPDATE_REPORT}

  /** The tables after one run of the seeder, from the tables before it. */
  function Seeded(st: Registry): Registry {
    Registry(
      st.permissions + (set p | p in SeededPermissions),
      st.roles + KnownRoles,
      st.grants[ADMINISTRATOR := (set p | p in SeededPermissions)]
               [EXECUTIVE := ExecutivePermissions]
               [EDITOR := EditorPermissions])
  }

  lemma FourPermissions()
    ensures |(set p | p in SeededPermissions)| == 4
    ensures (set p | p in SeededPermissions) == {CREATE_REPORT, VIEW_REPORT, UPDATE_REPORT, DELETE_REPORT}
  {
    assert CREATE_REPORT[0] != VIEW_REPORT[0] && CREATE_REPORT[0] != UPDATE_REPORT[0];
    assert CREATE_REPORT[0] != DELETE_REPORT[0] && VIEW_REPORT[0] != UPDATE_REPORT[0];
    assert VIEW_REPORT[0] != DELETE_REPORT[0] && UPDATE_REPORT[0] != DELETE_REPORT[0];
    assert (set p | p in SeededPermissions) == {CREATE_REPORT, VIEW_REPORT, UPDATE_REPORT, DELETE_REPORT};
  }

  /** The grant table after seeding, role by role: administrator gets all four,
      executive only viewing, editor everything but deleting. */
  lemma SeededGrants(st: Registry)
    ensures var g := Seeded(st).grants;
      && ADMINISTRATOR in g && g[ADMINISTRATOR] == {CREATE_REPORT, VIEW_REPORT, UPDATE_REPORT, DELETE_REPORT}
      && EXECUTIVE in g && g[EXECUTIVE] == {VIEW_REPORT}
      && EDITOR in g && g[EDITOR] == {CREATE_REPORT, VIEW_REPORT, UPDATE_REPORT}
      && DELETE_REPORT !in g[EDITOR]
  {
    FourPermissions();
    assert EXECUTIVE != EDITOR && ADMINISTRATOR != EDITOR && ADMINISTRATOR != EXECUTIVE by {
      assert EXECUTIVE[1] != EDITOR[1] && ADMINISTRATOR[0] != EDITOR[0] && ADMINISTRATOR[0] != EXECUTIVE[0];
    }
    assert DELETE_REPORT != CREATE_REPORT && DELETE_REPORT != VIEW_REPORT && DELETE_REPORT != UPDATE_REPORT by {
      assert DELETE_REPORT[0] != CREATE_REPORT[0] && DELETE_REPORT[0] != VIEW_REPORT[0];
      assert DELETE_REPORT[0] != UPDATE_REPORT[0];
    }
  }

  /** `firstOrCreate` plus `syncPermissions` replace rather than append, so a
      second run changes nothing. */
  lemma SeedingIsIdempotent(st: Registry)
    ensures Seeded(Seeded(st)) == Seeded(st)
  {
  }

  /** What the seeded tables let a user with only the application's roles do,
      permission by permission. */
  lemma {:induction false} SeededCan(st: Registry, u: User)
    requires u.roles <= KnownRoles
    ensures Can(u, Seeded(st), VIEW_REPORT) <==> u.roles != {}
    ensures Can(u, Seeded(st), CREATE_REPORT) <==> HasAnyRole(u, {ADMINISTRATOR, EDITOR})
    ensures Can(u, Seeded(st), UPDATE_REPORT) <==> HasAnyRole(u, {ADMINISTRATOR, EDITOR})
    ensures Can(u, Seeded(st), DELETE_REPORT) <==> HasRole(u, ADMINISTRATOR)
  {
    SeededGrants(st);
    var g := Seeded(st).grants;
    if u.roles != {} {
      var r :| r in u.roles;
      assert r in g && VIEW_REPORT in g[r];
    }
    if HasAnyRole(u, {ADMINISTRATOR, EDITOR}) {
      var r :| r in {ADMINISTRATOR, EDITOR} && r in u.roles;
      assert CREATE_REPORT in g[r] && UPDATE_REPORT in g[r];
    }
    if HasRole(u, ADMINISTRATOR) {
      assert DELETE_REPORT in g[ADMINISTRATOR];
    }
  }

  /** The stored tables, updated in place by the seeder. */
  class PermissionTables {
    var permissions: set<string>
    var roles: set<string>
    var grants: map<string, set<string>>

    function State(): Registry
      reads this
    {
      Registry(permissions, roles, grants)
    }

    constructor (st: Registry)
      ensures State() == st
    {
      permissions, roles, grants := st.permissions, st.roles, st.grants;
    }

    /** `Permission::firstOrCreate(['name' => ...])`. */
    method FirstOrCreatePermission(name: string)
      modifies this
      ensures State() == old(State()).(permissions := old(permissions) + {name})
    {
      if name !in permissions {
        permissions := permissions + {name};
      }
    }

    /** `Role::firstOrCreate(['name' => ...])`. */
    method FirstOrCreateRole(name: string)
      modifies this
      ensures State() == old(State()).(roles := old(roles) + {name})
    {
      if name !in roles {
        roles := roles + {name};
      }
    }

    /** `$role->syncPermissions([...])`: the role's grants become exactly the list. */
    method SyncPermissions(role: string, names: set<string>)
      modifies this
      ensures State() == old(State()).(grants := old(grants)[role := names])
    {
      grants := grants[role := names];
    }

    /** `run()`. */
    method Run()
      modifies this
      ensures State() == Seeded(old(State()))
    {
      var i := 0;
      while i < |SeededPermissions|
        invariant 0 <= i <= |SeededPermissions|
        invariant State() == old(State()).(permissions := old(permissions) + (set p | p in SeededPermissions[..i]))
      {
        FirstOrCreatePermission(SeededPermissions[i]);
        assert SeededPermissions[..i + 1] == SeededPermissions[..i] + [SeededPermissions[i]];
        i := i + 1;
      }
      assert SeededPermissions[..i] == SeededPermissions;
      FirstOrCreateRole(ADMINISTRATOR);
      FirstOrCreateRole(EXECUTIVE);
      FirstOrCreateRole(EDITOR);
      SyncPermissions(ADMINISTRATOR, (set p | p in SeededPermissions));
      SyncPermissions(EXECUTIVE, ExecutivePermissions);
      SyncPermissions(EDITOR, EditorPermissions);
    }
  }
}
