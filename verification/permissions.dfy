/**
 * Access rules: the permission keys, the role table and permission groups of
 * types/permissions.ts, and the effective-permission algebra of
 * lib/permissions.ts.
 */
module Permissions {
  import opened Common

  datatype Permission =
    | AreaProjects | AreaLiveTable | AreaSettings | AreaUserManagement
    | ProjectsView | ProjectsCreate | ProjectsEdit | ProjectsDelete | ProjectsArchive | ProjectsAssignUsers
    | DetailView | DetailAddTask | DetailEditTask | DetailRemoveTask | DetailDeleteTask | DetailImportCsv
    | LiveView | LiveCreateTask | LiveEditTask | LiveDeleteTask | LiveBulkDelete | LiveImportCsv
    | LiveExportCsv | LiveManageColumns | LiveAutoSizeColumns
    | SettingsView | SettingsEdit
    | UserManagementView | UserManagementEdit
    | NotificationsSend

  /** The key the application stores for a permission. */
  function Key(p: Permission): string {
    match p
    case AreaProjects => "area.projects"
    case AreaLiveTable => "area.liveTable"
    case AreaSettings => "area.settings"
    case AreaUserManagement => "area.userManagement"
    case ProjectsView => "projects.view"
    case ProjectsCreate => "projects.create"
    case ProjectsEdit => "projects.edit"
    case ProjectsDelete => "projects.delete"
    case ProjectsArchive => "projects.archive"
    case ProjectsAssignUsers => "projects.assignUsers"
    case DetailView => "projectDetail.view"
    case DetailAddTask => "projectDetail.addTask"
    case DetailEditTask => "projectDetail.editTask"
    case DetailRemoveTask => "projectDetail.removeTask"
    case DetailDeleteTask => "projectDetail.deleteTask"
    case DetailImportCsv => "projectDetail.importCsv"
    case LiveView => "liveTable.view"
    case LiveCreateTask => "liveTable.createTask"
    case LiveEditTask => "liveTable.editTask"
    case LiveDeleteTask => "liveTable.deleteTask"
    case LiveBulkDelete => "liveTable.bulkDelete"
    case LiveImportCsv => "liveTable.importCsv"
    case LiveExportCsv => "liveTable.exportCsv"
    case LiveManageColumns => "liveTable.manageColumns"
    case LiveAutoSizeColumns => "liveTable.autoSizeColumns"
    case SettingsView => "settings.view"
    case SettingsEdit => "settings.edit"
    case UserManagementView => "userManagement.view"
    case UserManagementEdit => "userManagement.edit"
    case NotificationsSend => "notifications.send"
  }

  /** A permission's position in the declaration. */
  function Ord(p: Permission): (n: nat)
    ensures n < 30
  {
    match p
    case AreaProjects => 0 case AreaLiveTable => 1 case AreaSettings => 2 case AreaUserManagement => 3
    case ProjectsView => 4 case ProjectsCreate => 5 case ProjectsEdit => 6 case ProjectsDelete => 7
    case ProjectsArchive => 8 case ProjectsAssignUsers => 9
    case DetailView => 10 case DetailAddTask => 11 case DetailEditTask => 12 case DetailRemoveTask => 13
    case DetailDeleteTask => 14 case DetailImportCsv => 15
    case LiveView => 16 case LiveCreateTask => 17 case LiveEditTask => 18 case LiveDeleteTask => 19
    case LiveBulkDelete => 20 case LiveImportCsv => 21 case LiveExportCsv => 22 case LiveManageColumns => 23
    case LiveAutoSizeColumns => 24
    case SettingsView => 25 case SettingsEdit => 26
    case UserManagementView => 27 case UserManagementEdit => 28
    case NotificationsSend => 29
  }

  /** The permission declared at position `n`. */
  function FromOrd(n: nat): (p: Permission)
    requires n < 30
    ensures Ord(p) == n
  {
    if n < 10 then FromOrdAreasProjects(n) else if n < 20 then FromOrdDetailLive(n) else FromOrdRest(n)
  }

  function FromOrdAreasProjects(n: nat): (p: Permission)
    requires n < 10
    ensures Ord(p) == n
  {
    if n == 0 then AreaProjects else if n == 1 then AreaLiveTable else if n == 2 then AreaSettings
    else if n == 3 then AreaUserManagement else if n == 4 then ProjectsView else if n == 5 then ProjectsCreate
    else if n == 6 then ProjectsEdit else if n == 7 then ProjectsDelete else if n == 8 then ProjectsArchive
    else ProjectsAssignUsers
  }

  function FromOrdDetailLive(n: nat): (p: Permission)
    requires 10 <= n < 20
    ensures Ord(p) == n
  {
    if n == 10 then DetailView else if n == 11 then DetailAddTask
    else if n == 12 then DetailEditTask else if n == 13 then DetailRemoveTask else if n == 14 then DetailDeleteTask
    else if n == 15 then DetailImportCsv else if n == 16 then LiveView else if n == 17 then LiveCreateTask
    else if n == 18 then LiveEditTask else LiveDeleteTask
  }

  function FromOrdRest(n: nat): (p: Permission)
    requires 20 <= n < 30
    ensures Ord(p) == n
  {
    if n == 20 then LiveBulkDelete
    else if n == 21 then LiveImportCsv else if n == 22 then LiveExportCsv else if n == 23 then LiveManageColumns
    else if n == 24 then LiveAutoSizeColumns else if n == 25 then SettingsView else if n == 26 then SettingsEdit
    else if n == 27 then UserManagementView else if n == 28 then UserManagementEdit else NotificationsSend
  }

  lemma OrdRoundTrip(p: Permission)
    ensures FromOrd(Ord(p)) == p
  {
  }

  /** The permissions declared from position `n` on. */
  function Declared(n: nat): (ps: seq<Permission>)
    requires n <= 30
    ensures |ps| == 30 - n
    decreases 30 - n
  {
    if n == 30 then [] else [FromOrd(n)] + Declared(n + 1)
  }

  lemma {:induction false} DeclaredSpec(n: nat)
    requires n <= 30
    ensures |Declared(n)| == 30 - n
    ensures forall i :: 0 <= i < 30 - n ==> Declared(n)[i] == FromOrd(n + i)
    decreases 30 - n
  {
    if n < 30 {
      DeclaredSpec(n + 1);
    }
  }

  /** Every permission, in declaration order: the union `Permission`. */
  const AllPermissions: seq<Permission> := Declared(0)

  /** The list holds every permission, each once. */
  lemma AllPermissionsComplete(p: Permission)
    ensures p in AllPermissions
    ensures NoDuplicates(AllPermissions)
  {
    DeclaredSpec(0);
    OrdRoundTrip(p);
    assert AllPermissions[Ord(p)] == p;
    forall i, j | 0 <= i < j < 30 ensures AllPermissions[i] != AllPermissions[j] {
      assert Ord(AllPermissions[i]) == i && Ord(AllPermissions[j]) == j;
    }
  }

  // ---------------------------------------------------------------------------
  // Roles

  datatype RoleId = Admin | ProjectManager | Member | Viewer

  function RoleKey(r: RoleId): string {
    match r
    case Admin => "admin"
    case ProjectManager => "project_manager"
    case Member => "member"
    case Viewer => "viewer"
  }

  /** `ROLES[id]`: `None` for a key that is not a role. */
  function RoleByKey(k: string): (r: Option<RoleId>)
    ensures r.Some? <==> k == "admin" || k == "project_manager" || k == "member" || k == "viewer"
    ensures r.Some? ==> RoleKey(r.value) == k
  {
    if k == "admin" then Some(Admin)
    else if k == "project_manager" then Some(ProjectManager)
    else if k == "member" then Some(Member)
    else if k == "viewer" then Some(Viewer)
    else None
  }

  /** The `ROLES` table's grants: admin holds everything; the project
      manager all but the user-management area, project deletion and
      user-management editing; the member and the viewer what is listed. */
  predicate Grants(r: RoleId, p: Permission) {
    match r
    case Admin => true
    case ProjectManager => !(p == AreaUserManagement || p == ProjectsDelete || p == UserManagementEdit)
    case Member =>
      p == AreaProjects || p == AreaLiveTable || p == AreaSettings
      || p == ProjectsView || p == DetailView || p == DetailAddTask || p == DetailRemoveTask
      || p == LiveView || p == LiveCreateTask || p == LiveEditTask || p == LiveManageColumns
      || p == LiveAutoSizeColumns || p == SettingsView || p == SettingsEdit || p == UserManagementView
    case Viewer =>
      p == AreaProjects || p == AreaLiveTable || p == AreaSettings
      || p == ProjectsView || p == DetailView || p == LiveView || p == SettingsView || p == UserManagementView
  }

  datatype Role = Role(id: string, name: string, description: string, permissions: seq<Permission>)

  /** The `ROLES` table. Every role lists its permissions in declaration
      order, so each list is the declaration filtered by the grant. */
  function Roles(r: RoleId): Role {
    Role(RoleKey(r), RoleName(r), RoleDescription(r), Granted(r))
  }

  function RoleName(r: RoleId): string {
    match r
    case Admin => "Yönetici"
    case ProjectManager => "Proje Yöneticisi"
    case Member => "Üye"
    case Viewer => "İzleyici"
  }

  function RoleDescription(r: RoleId): string {
    match r
    case Admin => "Tüm yetkiler. Kullanıcı ve rol yönetimi."
    case ProjectManager => "Proje oluşturma, düzenleme, atama. Canlı tablo tam erişim."
    case Member => "Proje ve tablo görüntüleme, düzenleme. Silme, import ve dışa aktarma kısıtlı."
    case Viewer => "Sadece görüntüleme. Proje ve tablo verilerini okuyabilir; dışa aktarma yok."
  }

  function Granted(r: RoleId): seq<Permission> {
    Filter(AllPermissions, (p: Permission) => Grants(r, p))
  }

  /** A role's list holds exactly its grants, each once. */
  lemma RoleGrants(r: RoleId)
    ensures forall p :: p in Roles(r).permissions <==> Grants(r, p)
    ensures NoDuplicates(Roles(r).permissions)
  {
    GrantedSpec(r);
  }

  lemma RoleGrant(r: RoleId, p: Permission)
    ensures p in Roles(r).permissions <==> Grants(r, p)
  {
    RoleGrants(r);
  }

  lemma GrantedSpec(r: RoleId)
    ensures forall p :: p in Granted(r) <==> Grants(r, p)
    ensures NoDuplicates(Granted(r))
  {
    var keep := (p: Permission) => Grants(r, p);
    forall p ensures p in Granted(r) <==> Grants(r, p) {
      FilterMembers(AllPermissions, keep, p);
      AllPermissionsComplete(p);
    }
    FilterIsSubsequence(AllPermissions, keep);
    AllPermissionsComplete(AreaProjects);
    SubsequenceNoDuplicates(Granted(r), AllPermissions);
  }

  /** Each role is stored under its own id. */
  lemma RoleIdsMatch(r: RoleId)
    ensures Roles(r).id == RoleKey(r)
    ensures RoleByKey(Roles(r).id) == Some(r)
  {
    match r
    case Admin => AdminKey();
    case ProjectManager => ProjectManagerKey();
    case Member => MemberKey();
    case Viewer => ViewerKey();
  }

  lemma AdminKey()
    ensures RoleByKey(RoleKey(Admin)) == Some(Admin)
  {
  }

  lemma ProjectManagerKey()
    ensures RoleByKey(RoleKey(ProjectManager)) == Some(ProjectManager)
  {
    assert |RoleKey(ProjectManager)| == 15;
  }

  lemma MemberKey()
    ensures RoleByKey(RoleKey(Member)) == Some(Member)
  {
    assert |RoleKey(Member)| == 6;
  }

  lemma ViewerKey()
    ensures RoleByKey(RoleKey(Viewer)) == Some(Viewer)
  {
    assert RoleKey(Viewer)[0] == 'v';
  }

  /** Admin holds every permission ("Tüm yetkiler"). */
  lemma AdminHasEverything(p: Permission)
    ensures p in Roles(Admin).permissions
  {
    RoleGrants(Admin);
  }

  predicate Deletes(p: Permission) {
    p == ProjectsDelete || p == DetailDeleteTask || p == LiveDeleteTask || p == LiveBulkDelete
  }

  predicate Imports(p: Permission) {
    p == DetailImportCsv || p == LiveImportCsv
  }

  predicate Exports(p: Permission) {
    p == LiveExportCsv
  }

  predicate CreatesOrEdits(p: Permission) {
    p == ProjectsCreate || p == ProjectsEdit || p == ProjectsArchive || p == ProjectsAssignUsers
    || p == DetailAddTask || p == DetailEditTask || p == DetailRemoveTask
    || p == LiveCreateTask || p == LiveEditTask || p == LiveManageColumns || p == LiveAutoSizeColumns
    || p == SettingsEdit || p == UserManagementEdit || p == NotificationsSend
  }

  /** The viewer role only views. */
  lemma ViewerOnlyViews(p: Permission)
    requires p in Roles(Viewer).permissions
    ensures !CreatesOrEdits(p) && !Deletes(p) && !Imports(p) && !Exports(p)
  {
    RoleGrants(Viewer);
    ViewerGrantsOnlyViews(p);
  }

  lemma ViewerGrantsOnlyViews(p: Permission)
    requires Grants(Viewer, p)
    ensures !CreatesOrEdits(p) && !Deletes(p) && !Imports(p) && !Exports(p)
  {
  }

  /** The member role cannot delete, import or export. */
  lemma MemberCannotDeleteImportExport(p: Permission)
    requires p in Roles(Member).permissions
    ensures !Deletes(p) && !Imports(p) && !Exports(p)
  {
    RoleGrants(Member);
    MemberGrantsNoDeleteImportExport(p);
  }

  lemma MemberGrantsNoDeleteImportExport(p: Permission)
    requires Grants(Member, p)
    ensures !Deletes(p) && !Imports(p) && !Exports(p)
  {
  }

  /** Deleting projects and editing user permissions belong to admin alone. */
  lemma AdminOnly(r: RoleId)
    ensures ProjectsDelete in Roles(r).permissions ==> r == Admin
    ensures UserManagementEdit in Roles(r).permissions ==> r == Admin
  {
    RoleGrant(r, ProjectsDelete);
    RoleGrant(r, UserManagementEdit);
    GrantsAdminOnly(r);
  }

  lemma GrantsAdminOnly(r: RoleId)
    ensures Grants(r, ProjectsDelete) ==> r == Admin
    ensures Grants(r, UserManagementEdit) ==> r == Admin
  {
  }

  /** Each role holds every permission of the role below it. */
  lemma RolesNested(p: Permission)
    ensures p in Roles(Viewer).permissions ==> p in Roles(Member).permissions
    ensures p in Roles(Member).permissions ==> p in Roles(ProjectManager).permissions
    ensures p in Roles(ProjectManager).permissions ==> p in Roles(Admin).permissions
  {
    RoleGrant(Viewer, p);
    RoleGrant(Member, p);
    RoleGrant(ProjectManager, p);
    RoleGrant(Admin, p);
    GrantsNested(p);
  }

  lemma GrantsNested(p: Permission)
    ensures Grants(Viewer, p) ==> Grants(Member, p)
    ensures Grants(Member, p) ==> Grants(ProjectManager, p)
  {
  }

  // ---------------------------------------------------------------------------
  // Groups and labels

  datatype Group = Group(name: string, permissions: seq<Permission>)

  /** `PERMISSION_GROUPS`: the UI's grouping of the permissions. */
  const PermissionGroups: seq<Group> := [
    Group("Bölüm erişimi", GroupMembers[0]),
    Group("Projeler", GroupMembers[1]),
    Group("Proje detay", GroupMembers[2]),
    Group("Canlı Tablo", GroupMembers[3]),
    Group("Ayarlar", GroupMembers[4]),
    Group("Kullanıcı yetki yönetimi", GroupMembers[5]),
    Group("Bildirimler", GroupMembers[6])]

  /** The permissions of each group, in the table's order. */
  const GroupMembers: seq<seq<Permission>> := [
    [AreaProjects, AreaLiveTable, AreaSettings, AreaUserManagement],
    [ProjectsView, ProjectsCreate, ProjectsEdit, ProjectsDelete, ProjectsArchive, ProjectsAssignUsers],
    [DetailView, DetailAddTask, DetailEditTask, DetailRemoveTask, DetailDeleteTask, DetailImportCsv],
    [LiveView, LiveCreateTask, LiveEditTask, LiveDeleteTask, LiveBulkDelete, LiveImportCsv,
     LiveExportCsv, LiveManageColumns, LiveAutoSizeColumns],
    [SettingsView, SettingsEdit],
    [UserManagementView, UserManagementEdit],
    [NotificationsSend]]

  function GroupedPermissions(gs: seq<Group>): seq<Permission> {
    Flatten(GroupLists(gs))
  }

  /** Where each group starts in the declaration; group `k` ends where `k + 1` starts. */
  const Starts: seq<nat> := [0, 4, 10, 16, 25, 27, 29, 30]

  /** Group `k` holds the permissions declared from `Starts[k]` up to `Starts[k + 1]`. */
  lemma GroupOrds(k: nat)
    requires k < 7
    ensures |GroupMembers[k]| == Starts[k + 1] - Starts[k]
    ensures forall j :: 0 <= j < |GroupMembers[k]| ==> Ord(GroupMembers[k][j]) == Starts[k] + j
  {
    var g := GroupMembers[k];
    forall j | 0 <= j < |g| ensures Ord(g[j]) == Starts[k] + j {
      OrdAt(k, j);
    }
  }

  lemma OrdAt(k: nat, j: nat)
    requires k < 7 && j < |GroupMembers[k]|
    ensures Ord(GroupMembers[k][j]) == Starts[k] + j
  {
  }

  lemma GroupIsSlice(k: nat)
    requires k < 7
    ensures Starts[k] <= Starts[k + 1] <= |AllPermissions|
      && GroupMembers[k] == AllPermissions[Starts[k]..Starts[k + 1]]
  {
    GroupOrds(k);
    SliceByOrd(GroupMembers[k], Starts[k], Starts[k + 1]);
  }

  /** A list whose `j`-th permission is declared at `s + j` is the slice of
      the declaration from `s` to `e`. */
  lemma SliceByOrd(g: seq<Permission>, s: nat, e: nat)
    requires s <= e <= 30 && |g| == e - s
    requires forall j :: 0 <= j < |g| ==> Ord(g[j]) == s + j
    ensures g == AllPermissions[s..e]
  {
    DeclaredSpec(0);
    forall j | 0 <= j < |g| ensures g[j] == AllPermissions[s + j] {
      OrdRoundTrip(g[j]);
    }
  }

  function GroupLists(gs: seq<Group>): (lists: seq<seq<Permission>>)
    ensures |lists| == |gs|
    ensures forall i :: 0 <= i < |gs| ==> lists[i] == gs[i].permissions
  {
    seq(|gs|, i requires 0 <= i < |gs| => gs[i].permissions)
  }

  /** Consecutive slices of `all` flatten back to the rest of `all`. */
  lemma {:induction false} FlattenSlices<T>(lists: seq<seq<T>>, all: seq<T>, starts: seq<nat>, k: nat)
    requires |starts| == |lists| + 1 && k <= |lists| && starts[|lists|] == |all|
    requires forall i :: 0 <= i < |starts| ==> starts[i] <= |all|
    requires forall i :: 0 <= i < |lists| ==> starts[i] <= starts[i + 1] && lists[i] == all[starts[i]..starts[i + 1]]
    ensures Flatten(lists[k..]) == all[starts[k]..]
    decreases |lists| - k
  {
    if k < |lists| {
      FlattenSlices(lists, all, starts, k + 1);
      assert lists[k..] == [lists[k]] + lists[k + 1..];
      assert all[starts[k]..] == all[starts[k]..starts[k + 1]] + all[starts[k + 1]..];
    }
  }

  /** The groups list every permission exactly once, in declaration order. */
  lemma GroupsPartition()
    ensures GroupedPermissions(PermissionGroups) == AllPermissions
    ensures NoDuplicates(GroupedPermissions(PermissionGroups))
  {
    GroupListsAreMembers();
    MembersPartition();
  }

  lemma GroupListsAreMembers()
    ensures GroupLists(PermissionGroups) == GroupMembers
  {
  }

  lemma MembersPartition()
    ensures Flatten(GroupMembers) == AllPermissions
    ensures NoDuplicates(AllPermissions)
  {
    GroupsAreSlices();
    FlattenSlices(GroupMembers, AllPermissions, Starts, 0);
    assert GroupMembers[0..] == GroupMembers;
    AllPermissionsComplete(AreaProjects);
  }

  lemma GroupsAreSlices()
    ensures |GroupMembers| == 7 && |Starts| == 8 && Starts[7] == |AllPermissions|
    ensures forall i :: 0 <= i < |Starts| ==> Starts[i] <= |AllPermissions|
    ensures forall k :: 0 <= k < 7 ==> Starts[k] <= Starts[k + 1] && GroupMembers[k] == AllPermissions[Starts[k]..Starts[k + 1]]
  {
    assert forall i :: 0 <= i < |Starts| ==> Starts[i] <= |AllPermissions|;
    forall k | 0 <= k < 7
      ensures Starts[k] <= Starts[k + 1] && GroupMembers[k] == AllPermissions[Starts[k]..Starts[k + 1]]
    {
      GroupIsSlice(k);
    }
  }

  /** `PERMISSION_LABELS`: a short label for every permission. */
  function Label(p: Permission): (l: string)
    ensures |l| > 0
  {
    match p
    case AreaProjects => "Projeler sekmesi"
    case AreaLiveTable => "Canlı Tablo sekmesi"
    case AreaSettings => "Ayarlar sayfası"
    case AreaUserManagement => "Kullanıcı yetkileri sayfası"
    case ProjectsView => "Projeleri görüntüleme"
    case ProjectsCreate => "Proje oluşturma"
    case ProjectsEdit => "Proje düzenleme"
    case ProjectsDelete => "Proje silme"
    case ProjectsArchive => "Proje arşivleme"
    case ProjectsAssignUsers => "Projeye kullanıcı atama"
    case DetailView => "Proje detayı görüntüleme"
    case DetailAddTask => "Projeye görev ekleme"
    case DetailEditTask => "Proje görevinde durum/atanan düzenleme"
    case DetailRemoveTask => "Görevi projeden çıkarma"
    case DetailDeleteTask => "Görev silme"
    case DetailImportCsv => "Projeye CSV/JSON import"
    case LiveView => "Canlı tabloyu görüntüleme"
    case LiveCreateTask => "Görev oluşturma"
    case LiveEditTask => "Görev düzenleme"
    case LiveDeleteTask => "Görev silme"
    case LiveBulkDelete => "Toplu silme"
    case LiveImportCsv => "CSV içe aktarma"
    case LiveExportCsv => "CSV/Excel dışa aktarma"
    case LiveManageColumns => "Sütun sıralama / görünürlük"
    case LiveAutoSizeColumns => "İçeriğe göre ölçeklendir"
    case SettingsView => "Ayarları görüntüleme"
    case SettingsEdit => "Ayarları düzenleme"
    case UserManagementView => "Yetki listesini görüntüleme"
    case UserManagementEdit => "Kullanıcı rol / yetki düzenleme"
    case NotificationsSend => "Mesaj / bildirim gönderme"
  }

  /** The two task-deleting permissions share the label "Görev silme", so a
      label does not identify its permission. */
  lemma LabelsNotUnique()
    ensures Label(DetailDeleteTask) == Label(LiveDeleteTask) && DetailDeleteTask != LiveDeleteTask
  {
  }

  // ---------------------------------------------------------------------------
  // Effective permissions

  datatype Overrides = Overrides(add: Option<seq<Permission>>, remove: Option<seq<Permission>>)

  /** A user; the role id is a stored string and need not name a role. */
  datatype User = User(id: string, email: string, displayName: Option<string>, roleId: string, overrides: Option<Overrides>)

  function BasePermissions(u: User): seq<Permission> {
    match RoleByKey(u.roleId)
    case Some(r) => Roles(r).permissions
    case None => []
  }

  function Added(u: User): seq<Permission> {
    if u.overrides.Some? && u.overrides.value.add.Some? then u.overrides.value.add.value else []
  }

  function Removed(u: User): seq<Permission> {
    if u.overrides.Some? && u.overrides.value.remove.Some? then u.overrides.value.remove.value else []
  }

  /** `getEffectivePermissions`: the role's permissions and the added ones,
      each once in first-occurrence order, without the removed ones. */
  function Effective(user: Option<User>): (r: seq<Permission>)
    ensures user.None? ==> r == []
    ensures NoDuplicates(r)
    ensures user.Some? ==> forall p :: p in r <==>
      (p in BasePermissions(user.value) || p in Added(user.value)) && p !in Removed(user.value)
  {
    match user
    case None => []
    case Some(u) =>
      var all := Dedup(BasePermissions(u) + Added(u));
      var keep := (p: Permission) => p !in Removed(u);
      forall p ensures p in Filter(all, keep) <==> p in all && keep(p) {
        FilterMembers(all, keep, p);
      }
      FilterIsSubsequence(all, keep);
      SubsequenceNoDuplicates(Filter(all, keep), all);
      Filter(all, keep)
  }

  lemma {:induction false} SubsequenceNoDuplicates(r: seq<Permission>, s: seq<Permission>)
    requires IsSubsequence(r, s) && NoDuplicates(s)
    ensures NoDuplicates(r)
    decreases |s|
  {
    if |r| > 0 && |s| > 0 {
      assert NoDuplicates(s[1..]) by {
        forall i, j | 0 <= i < j < |s| - 1 ensures s[1..][i] != s[1..][j] {
          assert s[1..][i] == s[i + 1] && s[1..][j] == s[j + 1];
        }
      }
      if r[0] == s[0] {
        SubsequenceNoDuplicates(r[1..], s[1..]);
        SubsequenceMembers(r[1..], s[1..]);
        assert s[0] !in s[1..] by {
          forall i | 0 <= i < |s| - 1 ensures s[1..][i] != s[0] {
            assert s[1..][i] == s[i + 1];
          }
        }
        forall i, j | 0 <= i < j < |r| ensures r[i] != r[j] {
          assert r[j] == r[1..][j - 1];
          if i > 0 {
            assert r[i] == r[1..][i - 1];
          }
        }
      } else {
        SubsequenceNoDuplicates(r, s[1..]);
      }
    }
  }

  lemma {:induction false} SubsequenceMembers(r: seq<Permission>, s: seq<Permission>)
    requires IsSubsequence(r, s)
    ensures forall x :: x in r ==> x in s
    decreases |s|
  {
    if |r| > 0 && |s| > 0 {
      if r[0] == s[0] {
        SubsequenceMembers(r[1..], s[1..]);
        assert r == [r[0]] + r[1..];
      } else {
        SubsequenceMembers(r, s[1..]);
      }
    }
  }

  /** Removal wins over addition. */
  lemma RemoveWins(u: User, p: Permission)
    requires p in Removed(u)
    ensures p !in Effective(Some(u))
  {
  }

  /** `hasPermission` */
  predicate HasPermission(user: Option<User>, p: Permission) {
    p in Effective(user)
  }

  /** `hasAnyPermission`: some of them. */
  predicate HasAny(user: Option<User>, ps: seq<Permission>) {
    Any(ps, (p: Permission) => HasPermission(user, p))
  }

  /** `hasAllPermissions`: every one of them. */
  predicate HasAll(user: Option<User>, ps: seq<Permission>) {
    All(ps, (p: Permission) => HasPermission(user, p))
  }

  /** No user, no permission; an empty list is all-held and none-held. */
  lemma AnyAllEdges(user: Option<User>, ps: seq<Permission>)
    ensures !HasAny(user, []) && HasAll(user, [])
    ensures user.None? ==> !HasAny(None, ps)
    ensures |ps| > 0 && HasAll(user, ps) ==> HasAny(user, ps)
  {
    if |ps| > 0 && HasAll(user, ps) {
      assert HasPermission(user, ps[0]);
    }
  }

  /** `isAdmin` looks at the role id only, not at the permissions. */
  predicate IsAdmin(user: Option<User>) {
    user.Some? && user.value.roleId == "admin"
  }

  /** An admin without overrides has every permission; overrides can still
      take one away while `isAdmin` keeps holding. */
  lemma AdminPermissions(u: User, p: Permission)
    requires IsAdmin(Some(u))
    ensures Removed(u) == [] ==> HasPermission(Some(u), p)
    ensures p in Removed(u) ==> !HasPermission(Some(u), p)
  {
    AdminHasEverything(p);
  }

  /** Moving a user to a higher role (same overrides) never loses a permission. */
  lemma PromotionKeepsPermissions(u: User, from: RoleId, to: RoleId, p: Permission)
    requires (from == Viewer && to == Member) || (from == Member && to == ProjectManager) || (from == ProjectManager && to == Admin)
    requires HasPermission(Some(u.(roleId := RoleKey(from))), p)
    ensures HasPermission(Some(u.(roleId := RoleKey(to))), p)
  {
    var lower, higher := u.(roleId := RoleKey(from)), u.(roleId := RoleKey(to));
    BaseOfRole(u, from);
    BaseOfRole(u, to);
    RolesNested(p);
    SameOverridesMonotone(lower, higher, p);
  }

  /** Of two users with the same overrides, the one whose role lists more
      holds more. */
  lemma SameOverridesMonotone(a: User, b: User, p: Permission)
    requires a.overrides == b.overrides
    requires p in BasePermissions(a) ==> p in BasePermissions(b)
    requires HasPermission(Some(a), p)
    ensures HasPermission(Some(b), p)
  {
  }

  /** A user whose role id names a role starts from that role's list. */
  lemma BaseOfRole(u: User, r: RoleId)
    ensures BasePermissions(u.(roleId := RoleKey(r))) == Roles(r).permissions
  {
    RoleIdsMatch(r);
  }
}
