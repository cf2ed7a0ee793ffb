/**
 * The page title and user initials of components/layout/Header.tsx and the
 * menu of components/layout/Sidebar.tsx: which entries a user sees and which
 * one is highlighted for the current path.
 */
module Navigation {
  import opened Common
  import Text
  import Permissions

  // ---------------------------------------------------------------------------
  // The header

  /** `getPageTitle`. The `tab` query is passed in and never read. */
  function PageTitle(path: string, tab: Option<string>): (title: string)
    ensures path == "/giris" <==> title == "Giriş"
    ensures path == "/ayarlar" <==> title == "Ayarlar"
    ensures path == "/yonetim/kullanici-yetkileri" <==> title == "Kullanıcı yetkileri"
    ensures title == "Yönetim" <==> Text.StartsWith(path, "/yonetim") && path != "/yonetim/kullanici-yetkileri"
    ensures path == "/projeler" <==> title == "Projeler"
    ensures title == "Proje detay" <==> Text.StartsWith(path, "/projeler/")
    ensures path == "/canli-tablo" <==> title == "Canlı Tablo"
    ensures title == "Dashboard" <==>
      path !in {"/giris", "/ayarlar", "/projeler", "/canli-tablo"}
      && !Text.StartsWith(path, "/yonetim") && !Text.StartsWith(path, "/projeler/")
  {
    assert Text.StartsWith(path, "/yonetim") ==> path[1] == 'y';
    assert Text.StartsWith(path, "/projeler/") ==> path[1] == 'p';
    if path == "/giris" then "Giriş"
    else if path == "/ayarlar" then "Ayarlar"
    else if path == "/yonetim/kullanici-yetkileri" then "Kullanıcı yetkileri"
    else if Text.StartsWith(path, "/yonetim") then "Yönetim"
    else if path == "/projeler" then "Projeler"
    else if Text.StartsWith(path, "/projeler/") then "Proje detay"
    else if path == "/canli-tablo" then "Canlı Tablo"
    else "Dashboard"
  }

  /** The first character of each non-empty piece, in order; an empty piece
      contributes nothing, as `join` prints `undefined` as "". */
  function Leading(pieces: seq<string>): (r: string)
    ensures |r| <= |pieces|
    decreases |pieces|
  {
    if |pieces| == 0 then ""
    else (if pieces[0] == "" then "" else [pieces[0][0]]) + Leading(pieces[1..])
  }

  /** The name shown: the display name, else the address, else "Kullanıcı". */
  function DisplayName(displayName: Option<string>, email: Option<string>): (r: string)
    ensures r != ""
    ensures displayName.Some? && displayName.value != "" ==> r == displayName.value
    ensures !(displayName.Some? && displayName.value != "") && email.Some? && email.value != "" ==> r == email.value
    ensures !(displayName.Some? && displayName.value != "") && !(email.Some? && email.value != "") ==> r == UnknownUser
  {
    if displayName.Some? && displayName.value != "" then displayName.value
    else if email.Some? && email.value != "" then email.value
    else UnknownUser
  }

  const UnknownUser := "Kullanıcı"

  /** Without a display name or an address the header shows "Kullanıcı"
      with the initial "K". */
  lemma UnknownUserInitials(displayName: Option<string>, email: Option<string>)
    requires !(displayName.Some? && displayName.value != "") && !(email.Some? && email.value != "")
    ensures UserInitials(DisplayName(displayName, email)) == "K"
  {
    assert DisplayName(displayName, email) == UnknownUser;
    InitialsOfUnknownUser();
  }

  lemma InitialsOfUnknownUser()
    ensures UserInitials(UnknownUser) == "K"
  {
    LeadingOfUnknownUser();
    UpperK();
  }

  lemma UpperK()
    ensures Text.Upper("K") == "K"
  {
    assert Text.Upper("K")[0] == Text.UpperChar('K') == 'K';
  }

  lemma LeadingOfUnknownUser()
    ensures Leading(Text.SplitOn(UnknownUser, ' ')) == "K"
  {
    var n := UnknownUser;
    assert ' ' !in n;
    SplitNoSeparator(n, ' ');
    assert Leading([n][1..]) == "";
  }

  /** `userInitials`: the upper-cased first letters of the name's pieces
      between single spaces, at most two, or "KU" when there are none. */
  function UserInitials(name: string): (r: string)
    ensures 1 <= |r| <= 2
  {
    var s := Text.Take(Text.Upper(Leading(Text.SplitOn(name, ' '))), 2);
    if s == "" then "KU" else s
  }

  /** A name of words separated by single spaces gives the upper-cased first
      letters of its first two words. */
  lemma UserInitialsOfWords(ws: seq<string>)
    requires |ws| > 0
    requires forall i :: 0 <= i < |ws| ==> ws[i] != "" && ' ' !in ws[i]
    ensures var r := UserInitials(Text.Join(ws, ' '));
      |r| == (if |ws| >= 2 then 2 else 1)
      && forall i :: 0 <= i < |r| ==> r[i] == Text.UpperChar(ws[i][0])
  {
    SplitJoin(ws, ' ');
    LeadingOfWords(ws);
  }

  lemma {:induction false} LeadingOfWords(ws: seq<string>)
    requires forall i :: 0 <= i < |ws| ==> ws[i] != ""
    ensures |Leading(ws)| == |ws|
    ensures forall i :: 0 <= i < |ws| ==> Leading(ws)[i] == ws[i][0]
    decreases |ws|
  {
    if |ws| > 0 {
      LeadingOfWords(ws[1..]);
    }
  }

  /** Joining pieces that hold no separator and splitting again gives the
      pieces back. */
  lemma {:induction false} SplitJoin(ws: seq<string>, d: char)
    requires |ws| > 0
    requires forall i :: 0 <= i < |ws| ==> d !in ws[i]
    ensures Text.SplitOn(Text.Join(ws, d), d) == ws
    decreases |ws|
  {
    if |ws| == 1 {
      SplitNoSeparator(ws[0], d);
    } else {
      SplitJoin(ws[1..], d);
      SplitPrefix(ws[0], d, Text.Join(ws[1..], d));
    }
  }

  lemma {:induction false} SplitNoSeparator(w: string, d: char)
    requires d !in w
    ensures Text.SplitOn(w, d) == [w]
    decreases |w|
  {
    if |w| > 0 {
      SplitNoSeparator(w[1..], d);
      assert w[0] != d;
      assert [w[0]] + w[1..] == w;
    }
  }

  /** Splitting `w + [d] + rest`, where `w` holds no separator, gives `w`
      and then the pieces of `rest`. */
  lemma {:induction false} SplitPrefix(w: string, d: char, rest: string)
    requires d !in w
    ensures Text.SplitOn(w + [d] + rest, d) == [w] + Text.SplitOn(rest, d)
    decreases |w|
  {
    var s := w + [d] + rest;
    if |w| == 0 {
      assert s == [d] + rest;
      assert s[1..] == rest;
    } else {
      assert s[1..] == w[1..] + [d] + rest;
      SplitPrefix(w[1..], d, rest);
      assert [w[0]] + w[1..] == w;
    }
  }

  /** A name of spaces only has no initials of its own. */
  lemma SpacesOnlyGiveDefault(name: string)
    requires forall i :: 0 <= i < |name| ==> name[i] == ' '
    ensures UserInitials(name) == "KU"
  {
    LeadingOfSpaces(name);
  }

  lemma {:induction false} LeadingOfSpaces(name: string)
    requires forall i :: 0 <= i < |name| ==> name[i] == ' '
    ensures Leading(Text.SplitOn(name, ' ')) == ""
    decreases |name|
  {
    if |name| > 0 {
      LeadingOfSpaces(name[1..]);
    }
  }

  // ---------------------------------------------------------------------------
  // The sidebar

  datatype MenuItem = MenuItem(href: string, caption: string, permission: Option<Permissions.Permission>)

  const Menu: seq<MenuItem> := [
    MenuItem("/", "Dashboard", None),
    MenuItem("/projeler", "Projeler", Some(Permissions.AreaProjects)),
    MenuItem("/canli-tablo", "Canlı Tablo", Some(Permissions.AreaLiveTable)),
    MenuItem("/ayarlar", "Ayarlar", Some(Permissions.AreaSettings)),
    MenuItem("/yonetim/kullanici-yetkileri", "Kullanıcı yetkileri", Some(Permissions.AreaUserManagement))
  ]

  function Allowed(user: Option<Permissions.User>): MenuItem -> bool {
    (m: MenuItem) => m.permission.None? || Permissions.HasPermission(user, m.permission.value)
  }

  /** The entries a user sees, in menu order: those without a permission and
      those whose permission the user has. */
  function VisibleMenu(user: Option<Permissions.User>): (items: seq<MenuItem>)
    ensures IsSubsequence(items, Menu)
    ensures forall m :: m in items <==> m in Menu && (m.permission.None? || Permissions.HasPermission(user, m.permission.value))
  {
    FilterIsSubsequence(Menu, Allowed(user));
    forall m ensures m in Filter(Menu, Allowed(user)) <==> m in Menu && Allowed(user)(m) {
      FilterMembers(Menu, Allowed(user), m);
    }
    Filter(Menu, Allowed(user))
  }

  /** Every user sees the dashboard entry, and it comes first. */
  lemma DashboardAlwaysListed(user: Option<Permissions.User>)
    ensures |VisibleMenu(user)| > 0 && VisibleMenu(user)[0] == Menu[0]
  {
    assert Allowed(user)(Menu[0]);
    assert Menu == [Menu[0]] + Menu[1..];
  }

  /** `isActive`: the dashboard and the exact-match entries only on their
      own path; the projects entry on every path that starts with its own. */
  predicate IsActive(m: MenuItem, path: string) {
    if m.href == "/" then path == "/"
    else if m.href == "/ayarlar" then path == "/ayarlar"
    else if Text.StartsWith(m.href, "/yonetim") then path == m.href
    else if m.href == "/projeler" then Text.StartsWith(path, "/projeler")
    else if m.href == "/canli-tablo" then path == "/canli-tablo"
    else false
  }

  /** Only the projects entry is active away from its own path; every other
      entry is active exactly on its path. */
  lemma ActiveOnOwnPath(m: MenuItem, path: string)
    requires m in Menu
    ensures m.href != "/projeler" ==> (IsActive(m, path) <==> path == m.href)
    ensures m.href == "/projeler" ==> (IsActive(m, path) <==> Text.StartsWith(path, "/projeler"))
  {
    assert !Text.StartsWith("/projeler", "/yonetim") by {
      assert "/projeler"[1] != "/yonetim"[1];
    }
  }

  /** At most one entry is active on any path. */
  lemma OneActiveEntry(path: string, i: nat, j: nat)
    requires i < j < |Menu|
    ensures !(IsActive(Menu[i], path) && IsActive(Menu[j], path))
  {
    ActiveOnOwnPath(Menu[i], path);
    ActiveOnOwnPath(Menu[j], path);
    OnlyProjectsUnderProjects(i);
    OnlyProjectsUnderProjects(j);
  }

  /** No entry but the projects one has a path under "/projeler", and the
      entries' paths are distinct. */
  lemma OnlyProjectsUnderProjects(k: nat)
    requires k < |Menu|
    ensures k != 1 ==> !Text.StartsWith(Menu[k].href, "/projeler")
    ensures forall j :: 0 <= j < |Menu| && j != k ==> Menu[j].href != Menu[k].href
  {
    if k == 0 {
    } else if k != 1 {
      assert Menu[k].href[1] != "/projeler"[1];
    }
  }

  /** The header and the sidebar agree: on the path where an entry other
      than the projects one is active, the title is that entry's caption;
      where the projects entry is active the title is the list's, the
      detail page's, or (for paths like "/projelerX") the default. */
  lemma TitleMatchesActiveEntry(m: MenuItem, path: string, tab: Option<string>)
    requires m in Menu && IsActive(m, path)
    ensures m.href != "/projeler" ==> PageTitle(path, tab) == m.caption
    ensures m.href == "/projeler" ==> PageTitle(path, tab) in {"Projeler", "Proje detay", "Dashboard"}
  {
  }
}
