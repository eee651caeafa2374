/** The role and permission enumerations and the static role-to-permission table of models/user.py. */
module Roles {
  import opened Common

  datatype UserRole = Admin | Manager | User {
    /** The enum member's string value, as stored in a user's `role` column. */
    function Value(): string
    {
      match this
      case Admin => "admin"
      case Manager => "manager"
      case User => "user"
    }
  }

  datatype UserPermission = CreateProduct | EditProduct | DeleteProduct | ViewOrders | ManageOrders | ManageUsers {
    function Value(): string
    {
      match this
      case CreateProduct => "create_product"
      case EditProduct => "edit_product"
      case DeleteProduct => "delete_product"
      case ViewOrders => "view_orders"
      case ManageOrders => "manage_orders"
      case ManageUsers => "manage_users"
    }
  }

  /** The members of each enumeration in declaration order (the order Python iterates them in). */
  const AllRoles: seq<UserRole> := [Admin, Manager, User]
  const AllPermissions: seq<UserPermission> :=
    [CreateProduct, EditProduct, DeleteProduct, ViewOrders, ManageOrders, ManageUsers]

  /** The role whose value is `s`, if any. Because the enum members are strings, a dictionary keyed by
      them finds the member `k` for a string `s` exactly when `k.value == s`. */
  function RoleFromValue(s: string): (r: Option<UserRole>)
    ensures r.Some? ==> r.value.Value() == s
    ensures r.None? ==> forall role: UserRole :: role.Value() != s
  {
    if s == "admin" then Some(Admin)
    else if s == "manager" then Some(Manager)
    else if s == "user" then Some(User)
    else None
  }

  /** `ROLE_PERMISSIONS`. Admin's list is built from every permission in declaration order. The lists
      are held as enum members: Admin's holds their string values in Python, which makes no difference
      to membership because distinct members have distinct values (EnumerationsClosed). */
  const RolePermissions: map<UserRole, seq<UserPermission>> := map[
    Admin := AllPermissions,
    Manager := [CreateProduct, EditProduct, ViewOrders, ManageOrders],
    User := [ViewOrders]
  ]

  /** `ROLE_PERMISSIONS.get(role, [])` for the role string stored on a user: a string that is no
      role's value gets no permissions. */
  function PermissionsOf(role: string): (ps: seq<UserPermission>)
    ensures RoleFromValue(role).None? ==> ps == []
  {
    match RoleFromValue(role)
    case Some(r) => RolePermissions[r]
    case None => []
  }

  /** The entries and lookups of `ROLE_PERMISSIONS`: three roles, ADMIN's list is every permission in
      declaration order, MANAGER's the four listed and USER's view_orders alone. */
  lemma RolePermissionsTable()
    ensures RolePermissions.Keys == {Admin, Manager, User}
    ensures RolePermissions[Admin] == [CreateProduct, EditProduct, DeleteProduct, ViewOrders, ManageOrders, ManageUsers]
    ensures RolePermissions[Manager] == [CreateProduct, EditProduct, ViewOrders, ManageOrders]
    ensures RolePermissions[User] == [ViewOrders]
    ensures PermissionsOf("admin") == RolePermissions[Admin] && PermissionsOf("manager") == RolePermissions[Manager]
    ensures PermissionsOf("user") == RolePermissions[User]
  {
  }

  /** The string values of a permission list. */
  function PermissionValues(ps: seq<UserPermission>): (vs: seq<string>)
    ensures |vs| == |ps| && forall i :: 0 <= i < |ps| ==> vs[i] == ps[i].Value()
  {
    seq(|ps|, i requires 0 <= i < |ps| => ps[i].Value())
  }

  /** The check inside `require_permission`: the permission's string value is among the values of the
      list `ROLE_PERMISSIONS.get(role, [])`; only a known role can pass it. */
  function HasPermission(role: string, permission: UserPermission): (b: bool)
    ensures b ==> RoleFromValue(role).Some?
    ensures b <==> permission.Value() in PermissionValues(PermissionsOf(role))
  {
    EnumerationsClosed();
    permission in PermissionsOf(role)
  }

  /** The grant relation written out role by role, independently of the table. */
  predicate Grants(role: UserRole, p: UserPermission)
  {
    match role
    case Admin => true
    case Manager => p in {CreateProduct, EditProduct, ViewOrders, ManageOrders}
    case User => p == ViewOrders
  }

  /** The table agrees with the role-by-role grant relation, for every role string: a known role gets
      exactly what Grants gives it, and any other string gets nothing. */
  lemma TableMatchesGrants(role: string, p: UserPermission)
    ensures HasPermission(role, p) <==> (RoleFromValue(role).Some? && Grants(RoleFromValue(role).value, p))
  {
  }

  /** Every member of each enumeration is listed, and differently named members have different values. */
  lemma EnumerationsClosed()
    ensures |AllRoles| == 3 && forall r: UserRole :: r in AllRoles
    ensures |AllPermissions| == 6 && forall p: UserPermission :: p in AllPermissions
    ensures forall r1: UserRole, r2: UserRole :: r1.Value() == r2.Value() ==> r1 == r2
    ensures forall p1: UserPermission, p2: UserPermission :: p1.Value() == p2.Value() ==> p1 == p2
  {
    forall r: UserRole ensures r in AllRoles {
      match r
      case Admin => assert AllRoles[0] == r;
      case Manager => assert AllRoles[1] == r;
      case User => assert AllRoles[2] == r;
    }
    forall p: UserPermission ensures p in AllPermissions {
      match p
      case CreateProduct => assert AllPermissions[0] == p;
      case EditProduct => assert AllPermissions[1] == p;
      case DeleteProduct => assert AllPermissions[2] == p;
      case ViewOrders => assert AllPermissions[3] == p;
      case ManageOrders => assert AllPermissions[4] == p;
      case ManageUsers => assert AllPermissions[5] == p;
    }
  }

  /** Admin holds all six permissions. */
  lemma AdminHoldsAll(p: UserPermission)
    ensures HasPermission(Admin.Value(), p)
    ensures |PermissionsOf(Admin.Value())| == 6
  {
    EnumerationsClosed();
  }

  /** Manager holds exactly create_product, edit_product, view_orders and manage_orders. */
  lemma ManagerHoldsFour()
    ensures forall p: UserPermission ::
      HasPermission(Manager.Value(), p) <==> p in {CreateProduct, EditProduct, ViewOrders, ManageOrders}
    ensures !HasPermission(Manager.Value(), DeleteProduct) && !HasPermission(Manager.Value(), ManageUsers)
  {
  }

  /** User holds view_orders only. */
  lemma UserHoldsViewOrdersOnly()
    ensures forall p: UserPermission :: HasPermission(User.Value(), p) <==> p == ViewOrders
  {
  }

  /** Whatever any role string is granted, Admin is granted too. */
  lemma EveryRoleWithinAdmin(role: string, p: UserPermission)
    requires HasPermission(role, p)
    ensures HasPermission(Admin.Value(), p)
  {
    AdminHoldsAll(p);
  }

  /** Only Admin manages users; an unknown role string is denied everything. */
  lemma OnlyAdminManagesUsers(role: string, p: UserPermission)
    ensures HasPermission(role, ManageUsers) <==> role == Admin.Value()
    ensures RoleFromValue(role).None? ==> !HasPermission(role, p)
  {
    TableMatchesGrants(role, ManageUsers);
    TableMatchesGrants(role, p);
  }
}
