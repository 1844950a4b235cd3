/** The role/permission oracle the controllers consult: users carry a set of
    role names, and the permission tables map each role name to the
    permission names granted to it (the `can:` middleware asks them). */
module Roles {

  const ADMINISTRATOR: string := "administrator"
  const EDITOR: string := "editor"
  const EXECUTIVE: string := "executive"

  /** The three roles the application assigns. */
  const KnownRoles: set<string> := {ADMINISTRATOR, EDITOR, EXECUTIVE}

  /** The roles that may decide on an article and comment on it. */
  const Deciders: set<string> := {ADMINISTRATOR, EXECUTIVE}

  const CREATE_REPORT: string := "create article report"
  const VIEW_REPORT: string := "view article report"
  const UPDATE_REPORT: string := "update article report"
  const DELETE_REPORT: string := "delete article report"

  /** A row of the `users` table together with the user's role names. */
  datatype User = User(
    id: nat,
    name: string,
    email: string,
    passwordHash: string,
    roles: set<string>,
    createdAt: int)

  /** `hasRole($name)`. */
  predicate HasRole(u: User, role: string) {
    role in u.roles
  }

  /** `hasAnyRole([...])`, also what `hasRole([...])` and the `role:a|b` middleware test. */
  predicate HasAnyRole(u: User, roles: set<string>) {
    exists r | r in roles :: r in u.roles
  }

  /** The `permissions`, `roles` and `role_has_permissions` tables. */
  datatype Registry = Registry(permissions: set<string>, roles: set<string>, grants: map<string, set<string>>)

  /** The `can:<permission>` middleware: some role of the user is granted the permission. */
  predicate Can(u: User, reg: Registry, permission: string) {
    exists r | r in u.roles :: r in reg.grants && permission in reg.grants[r]
  }
}
