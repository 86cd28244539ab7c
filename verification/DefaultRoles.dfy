/** The default roles and permissions this service registers. */
module DefaultRoles {
  import opened Wrappers
  import opened Records
  import opened Seeding
  import Crud

  function RoleList(): seq<DefaultRole> {
    [
      DefaultRole(Some(1), "SuperAdmin", "role.super_admin.title"),
      DefaultRole(Some(2), "Admin", "role.admin.title"),
      DefaultRole(Some(3), "User", "role.user.title"),
      DefaultRole(Some(4), "Guest", "role.guest.title"),
      DefaultRole(Some(5), "Teacher", "role.teacher.title"),
      DefaultRole(Some(6), "Student", "role.student.title"),
      DefaultRole(None, "PLUGIN", "role.plugin.title")
    ]
  }

  predicate RbacGranted(name: string, permission: string) {
    name == "SuperAdmin" ||
    (name in {"Admin", "PLUGIN"} && permission in {"rbac_roles_read", "rbac_users_read"})
  }

  predicate I18nGranted(name: string, permission: string) {
    || name in {"SuperAdmin", "Admin", "Teacher"}
    || permission in {"i18n_can_read_small", "i18n_can_read_large"}
    || (name == "PLUGIN" && permission in {"i18n_can_create_small", "i18n_can_create_large"})
  }

  function Defaults(name: string): Flags {
    map p | p in Crud.REGISTERED_PERMISSIONS ::
      if p in Crud.RBAC_PERMISSIONS then RbacGranted(name, p) else I18nGranted(name, p)
  }

  function Names(): set<string> { {"SuperAdmin", "Admin", "User", "Guest", "Teacher", "Student", "PLUGIN"} }

  function Service(): Registry {
    Registry(RoleList(), map name | name in Names() :: Defaults(name))
  }

  lemma RolesDiffer(j: nat, k: nat)
    requires j < k < |RoleList()|
    ensures RoleList()[j].name != RoleList()[k].name && RoleList()[j].id != RoleList()[k].id
  {
  }

  lemma NamesAreThoseOfRoles(name: string)
    ensures name in Names() <==> exists k :: 0 <= k < |RoleList()| && RoleList()[k].name == name
  {
    assert RoleList()[0].name == "SuperAdmin" && RoleList()[1].name == "Admin" && RoleList()[2].name == "User" &&
           RoleList()[3].name == "Guest" && RoleList()[4].name == "Teacher" && RoleList()[5].name == "Student" &&
           RoleList()[6].name == "PLUGIN";
  }

  lemma RolesAreTitled(k: nat)
    requires k < |RoleList()|
    ensures RoleList()[k].titleKey != "" && RoleList()[k].titleKey[0] == 'r'
  {
  }

  lemma ServiceIsWellFormed()
    ensures WellFormed(Service())
  {
    hide Defaults, RoleList, Names;
    forall j, k | 0 <= j < k < |RoleList()| { RolesDiffer(j, k); }
    forall name { NamesAreThoseOfRoles(name); }
    forall k | 0 <= k < |RoleList()| { RolesAreTitled(k); }
  }

  // ---------------------------------------------------------------- the table of defaults, role by role

  /** What the roles are granted. */
  const READ_TEXTS: set<string> := {"i18n_can_read_small", "i18n_can_read_large"}
  const CREATE_TEXTS: set<string> := {"i18n_can_create_small", "i18n_can_create_large"}
  const PATCH_TEXTS: set<string> := {"i18n_can_patch_small", "i18n_can_patch_large"}
  const READ_TABLES: set<string> := {"rbac_roles_read", "rbac_users_read"}

  function Granted(name: string): set<string>
    requires name in Names()
  {
    set p | p in Service().permissions[name] && Service().permissions[name][p]
  }

  lemma Families(p: string)
    ensures p in Crud.RBAC_PERMISSIONS ==> p[0] == 'r'
    ensures p in Crud.I18N_PERMISSIONS ==> p[0] == 'i'
    ensures p in READ_TABLES ==> p in Crud.RBAC_PERMISSIONS
    ensures p in READ_TEXTS + CREATE_TEXTS + PATCH_TEXTS <==> p in Crud.I18N_PERMISSIONS
  {
  }

  lemma GrantedIff(name: string, p: string)
    requires name in Names()
    ensures p in Service().permissions[name] <==> p in Crud.RBAC_PERMISSIONS + Crud.I18N_PERMISSIONS
    ensures p in Granted(name) <==>
              || (p in Crud.RBAC_PERMISSIONS && RbacGranted(name, p))
              || (p in Crud.I18N_PERMISSIONS && I18nGranted(name, p))
  {
    Families(p);
    hide RbacGranted, I18nGranted, Crud.RBAC_PERMISSIONS, Crud.I18N_PERMISSIONS, RoleList;
    assert Service().permissions[name] == Defaults(name);
  }

  function GrantTable(name: string): set<string> {
    if name == "SuperAdmin" then Crud.RBAC_PERMISSIONS + Crud.I18N_PERMISSIONS
    else if name == "Admin" then READ_TABLES + READ_TEXTS + CREATE_TEXTS + PATCH_TEXTS
    else if name == "Teacher" then READ_TEXTS + CREATE_TEXTS + PATCH_TEXTS
    else if name == "PLUGIN" then READ_TABLES + READ_TEXTS + CREATE_TEXTS
    else READ_TEXTS
  }

  lemma GrantTableIs(name: string, p: string)
    ensures p in GrantTable(name) <==>
              || (p in Crud.RBAC_PERMISSIONS && RbacGranted(name, p))
              || (p in Crud.I18N_PERMISSIONS && I18nGranted(name, p))
  {
    Families(p);
    hide Crud.RBAC_PERMISSIONS, Crud.I18N_PERMISSIONS;
  }

  /** Every default role has a value for each registered permission, and is granted exactly those of the table. */
  lemma DefaultsAre(name: string)
    requires name in Names()
    ensures Service().permissions[name].Keys == Crud.RBAC_PERMISSIONS + Crud.I18N_PERMISSIONS
    ensures Granted(name) == GrantTable(name)
  {
    hide Granted, GrantTable, Service, Crud.RBAC_PERMISSIONS, Crud.I18N_PERMISSIONS, RbacGranted, I18nGranted;
    forall p
      ensures p in Service().permissions[name] <==> p in Crud.RBAC_PERMISSIONS + Crud.I18N_PERMISSIONS
      ensures p in Granted(name) <==> p in GrantTable(name)
    {
      GrantedIff(name, p);
      GrantTableIs(name, p);
    }
  }
}
