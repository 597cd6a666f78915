/** Accounts, their roles and their organization grants (backend/app/models/user.py). */
module Accounts {

  const SUPER_ADMIN_ROLE := "super_admin"

  datatype Role = Role(id: int, name: string, permissions: set<string>)

  /** `organizations` holds the granted org-tree nodes, company roots or sub-units. */
  datatype User = User(id: int, email: string, isActive: bool, roles: seq<Role>, organizations: seq<int>) {
    predicate HasRole(name: string) {
      exists r :: r in roles && r.name == name
    }

    predicate HasPermission(permission: string) {
      exists r :: r in roles && permission in r.permissions
    }

    predicate IsSuper() {
      HasRole(SUPER_ADMIN_ROLE)
    }
  }
}
