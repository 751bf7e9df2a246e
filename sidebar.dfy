/**
 * The dashboard's side navigation: the menu entries a role may see, which
 * entry is highlighted for the current path, when a click starts the
 * progress bar, and the avatar's fallback initials.
 */
module Sidebar {
  import opened Wrappers
  import opened Text
  import opened Seqs
  import opened UserEditForm
  import RankingTable

  datatype MenuItem = MenuItem(href: string, itemLabel: string, roles: seq<Role>)

  const AllRoles := [Admin, Master, Alumno, Representante]

  const DashboardItem := MenuItem("/dashboard", "Dashboard", AllRoles)
  const UsersItem := MenuItem("/dashboard/users", "Usuarios", [Admin])
  const SchoolsItem := MenuItem("/dashboard/schools", "Escuelas", [Admin])
  const RankingItem := MenuItem("/dashboard/ranking", "Ranking", [Admin, Master])
  const EventsItem := MenuItem("/dashboard/events", "Eventos", [Admin])
  const CalendarItem := MenuItem("/dashboard/calendar", "Calendario", AllRoles)
  const ClaimsItem := MenuItem("/dashboard/claims", "Reclamos", [Admin, Master, Representante])

  const AllMenuItems := [DashboardItem, UsersItem, SchoolsItem, RankingItem, EventsItem, CalendarItem, ClaimsItem]

  /** The badge under the avatar. */
  function RoleLabel(r: Role): string {
    match r
    case Admin => "Administrador"
    case Master => "Master"
    case Alumno => "Alumno"
    case Representante => "Representante"
  }

  /** `menuItems`: the entries listing the user's role, in menu order; none without a user. */
  function MenuItems(user: Option<User>): (items: seq<MenuItem>)
    ensures user.None? ==> items == []
    ensures IsSubsequence(items, AllMenuItems)
    ensures user.Some? ==> forall it :: it in items <==> it in AllMenuItems && user.value.role in it.roles
  {
    if user.None? then [] else
      FilterIsSubsequence(AllMenuItems, (it: MenuItem) => user.value.role in it.roles);
      Filter(AllMenuItems, (it: MenuItem) => user.value.role in it.roles)
  }

  function Labels(items: seq<MenuItem>): (ls: seq<string>)
    ensures |ls| == |items|
    ensures forall k :: 0 <= k < |ls| ==> ls[k] == items[k].itemLabel
  {
    seq(|items|, k requires 0 <= k < |items| => items[k].itemLabel)
  }

  predicate Lists(r: Role, it: MenuItem) {
    r in it.roles
  }

  /** An entry kept for role `r`, or nothing. */
  function Pick(r: Role, x: MenuItem): seq<MenuItem> {
    if Lists(r, x) then [x] else []
  }

  function Picks(r: Role): seq<MenuItem> {
    Pick(r, DashboardItem) + (Pick(r, UsersItem) + (Pick(r, SchoolsItem) + (Pick(r, RankingItem) +
    (Pick(r, EventsItem) + (Pick(r, CalendarItem) + (Pick(r, ClaimsItem) + []))))))
  }

  /** Filtering looks at the first entry, then at the rest. */
  lemma FilterHead(s: seq<MenuItem>, r: Role)
    requires s != []
    ensures Filter(s, (it: MenuItem) => Lists(r, it)) == Pick(r, s[0]) + Filter(s[1..], (it: MenuItem) => Lists(r, it))
  {
  }

  /** Role `r`'s menu: each entry in turn, kept when it lists `r`. */
  lemma MenuOf(r: Role)
    ensures Filter(AllMenuItems, (it: MenuItem) => Lists(r, it)) == Picks(r)
  {
    var m := AllMenuItems;
    MenuTails();
    FilterHead(m, r);
    FilterHead(m[1..], r);
    FilterHead(m[2..], r);
    FilterHead(m[3..], r);
    FilterHead(m[4..], r);
    FilterHead(m[5..], r);
    FilterHead(m[6..], r);
  }

  /** The menu's suffixes, entry by entry. */
  lemma MenuTails()
    ensures AllMenuItems[1..][0] == UsersItem && AllMenuItems[1..][1..] == AllMenuItems[2..]
    ensures AllMenuItems[2..][0] == SchoolsItem && AllMenuItems[2..][1..] == AllMenuItems[3..]
    ensures AllMenuItems[3..][0] == RankingItem && AllMenuItems[3..][1..] == AllMenuItems[4..]
    ensures AllMenuItems[4..][0] == EventsItem && AllMenuItems[4..][1..] == AllMenuItems[5..]
    ensures AllMenuItems[5..][0] == CalendarItem && AllMenuItems[5..][1..] == AllMenuItems[6..]
    ensures AllMenuItems[6..][0] == ClaimsItem && AllMenuItems[6..][1..] == []
  {
  }

  lemma MenuItemsOfRole(u: User)
    ensures MenuItems(Some(u)) == Filter(AllMenuItems, (it: MenuItem) => Lists(u.role, it))
  {
    FilterCongruent(AllMenuItems, (it: MenuItem) => u.role in it.roles, (it: MenuItem) => Lists(u.role, it));
  }

  /** The administrator sees every entry. */
  lemma AdminMenu(u: User)
    requires u.role == Admin
    ensures MenuItems(Some(u)) == AllMenuItems
  {
    MenuItemsOfRole(u);
    MenuOf(Admin);
    AdminPicks();
  }

  lemma AdminPicks()
    ensures Picks(Admin) == AllMenuItems
  {
    assert Pick(Admin, DashboardItem) == [DashboardItem];
    assert Pick(Admin, UsersItem) == [UsersItem];
    assert Pick(Admin, SchoolsItem) == [SchoolsItem];
    assert Pick(Admin, RankingItem) == [RankingItem];
    assert Pick(Admin, EventsItem) == [EventsItem];
    assert Pick(Admin, CalendarItem) == [CalendarItem];
    assert Pick(Admin, ClaimsItem) == [ClaimsItem];
  }

  /** The menus of the other three roles, entry by entry. */
  lemma MasterMenu(u: User)
    requires u.role == Master
    ensures MenuItems(Some(u)) == [DashboardItem, RankingItem, CalendarItem, ClaimsItem]
    ensures Labels(MenuItems(Some(u))) == ["Dashboard", "Ranking", "Calendario", "Reclamos"]
  {
    MasterFilter();
    MenuItemsOfRole(u);
    MasterLabels();
  }

  lemma MasterLabels()
    ensures Labels([DashboardItem, RankingItem, CalendarItem, ClaimsItem]) == ["Dashboard", "Ranking", "Calendario", "Reclamos"]
  {
  }

  lemma MasterFilter()
    ensures Filter(AllMenuItems, (it: MenuItem) => Lists(Master, it)) == [DashboardItem, RankingItem, CalendarItem, ClaimsItem]
  {
    MenuOf(Master);
    MasterPicks();
  }

  lemma MasterPicks()
    ensures Picks(Master) == [DashboardItem, RankingItem, CalendarItem, ClaimsItem]
  {
    assert Pick(Master, DashboardItem) == [DashboardItem];
    assert Pick(Master, UsersItem) == [];
    assert Pick(Master, SchoolsItem) == [];
    assert Pick(Master, RankingItem) == [RankingItem];
    assert Pick(Master, EventsItem) == [];
    assert Pick(Master, CalendarItem) == [CalendarItem];
    assert Pick(Master, ClaimsItem) == [ClaimsItem];
  }

  lemma AlumnoMenu(u: User)
    requires u.role == Alumno
    ensures MenuItems(Some(u)) == [DashboardItem, CalendarItem]
    ensures Labels(MenuItems(Some(u))) == ["Dashboard", "Calendario"]
  {
    AlumnoFilter();
    MenuItemsOfRole(u);
    AlumnoLabels();
  }

  lemma AlumnoLabels()
    ensures Labels([DashboardItem, CalendarItem]) == ["Dashboard", "Calendario"]
  {
  }

  lemma AlumnoFilter()
    ensures Filter(AllMenuItems, (it: MenuItem) => Lists(Alumno, it)) == [DashboardItem, CalendarItem]
  {
    MenuOf(Alumno);
    AlumnoPicks();
  }

  lemma AlumnoPicks()
    ensures Picks(Alumno) == [DashboardItem, CalendarItem]
  {
    assert Pick(Alumno, DashboardItem) == [DashboardItem];
    assert Pick(Alumno, UsersItem) == [];
    assert Pick(Alumno, SchoolsItem) == [];
    assert Pick(Alumno, RankingItem) == [];
    assert Pick(Alumno, EventsItem) == [];
    assert Pick(Alumno, CalendarItem) == [CalendarItem];
    assert Pick(Alumno, ClaimsItem) == [];
  }

  lemma RepresentanteMenu(u: User)
    requires u.role == Representante
    ensures MenuItems(Some(u)) == [DashboardItem, CalendarItem, ClaimsItem]
    ensures Labels(MenuItems(Some(u))) == ["Dashboard", "Calendario", "Reclamos"]
  {
    RepresentanteFilter();
    MenuItemsOfRole(u);
    RepresentanteLabels();
  }

  lemma RepresentanteLabels()
    ensures Labels([DashboardItem, CalendarItem, ClaimsItem]) == ["Dashboard", "Calendario", "Reclamos"]
  {
  }

  lemma RepresentanteFilter()
    ensures Filter(AllMenuItems, (it: MenuItem) => Lists(Representante, it)) == [DashboardItem, CalendarItem, ClaimsItem]
  {
    MenuOf(Representante);
    RepresentantePicks();
  }

  lemma RepresentantePicks()
    ensures Picks(Representante) == [DashboardItem, CalendarItem, ClaimsItem]
  {
    assert Pick(Representante, DashboardItem) == [DashboardItem];
    assert Pick(Representante, UsersItem) == [];
    assert Pick(Representante, SchoolsItem) == [];
    assert Pick(Representante, RankingItem) == [];
    assert Pick(Representante, EventsItem) == [];
    assert Pick(Representante, CalendarItem) == [CalendarItem];
    assert Pick(Representante, ClaimsItem) == [ClaimsItem];
  }

  /** Every signed-in user gets the Dashboard entry first. */
  lemma DashboardFirst(u: User)
    ensures |MenuItems(Some(u))| > 0 && MenuItems(Some(u))[0] == AllMenuItems[0]
  {
    match u.role
    case Admin => AdminMenu(u);
    case Master => MasterMenu(u);
    case Alumno => AlumnoMenu(u);
    case Representante => RepresentanteMenu(u);
  }

  /** An entry is highlighted on its own path and below it, except Dashboard, which needs its exact path. */
  predicate IsActive(pathname: string, href: string) {
    pathname == href || (href != "/dashboard" && StartsWith(pathname, href))
  }

  lemma DashboardActiveOnlyAtHome(pathname: string)
    ensures IsActive(pathname, "/dashboard") <==> pathname == "/dashboard"
  {
  }

  /** No path highlights two entries. */
  lemma {:induction false} AtMostOneActive(pathname: string, i: nat, j: nat)
    requires i < j < |AllMenuItems|
    ensures !(IsActive(pathname, AllMenuItems[i].href) && IsActive(pathname, AllMenuItems[j].href))
  {
    var a, b := AllMenuItems[i].href, AllMenuItems[j].href;
    if IsActive(pathname, a) && IsActive(pathname, b) {
      if i != 0 {
        assert StartsWith(pathname, a) && StartsWith(pathname, b);
        var n := if |a| <= |b| then |a| else |b|;
        assert a[..n] == pathname[..n] == b[..n];
        DistinctBelowDashboard(i, j, n);
      }
    }
  }

  /** Two sub-paths of the menu differ within the shorter one's length. */
  lemma DistinctBelowDashboard(i: nat, j: nat, n: nat)
    requires 0 < i < j < |AllMenuItems|
    requires n == if |AllMenuItems[i].href| <= |AllMenuItems[j].href| then |AllMenuItems[i].href| else |AllMenuItems[j].href|
    ensures AllMenuItems[i].href[..n] != AllMenuItems[j].href[..n]
  {
    var a, b := AllMenuItems[i].href, AllMenuItems[j].href;
    assert a[11] != b[11] || a[12] != b[12];
    assert a[..n][11] == a[11] && a[..n][12] == a[12];
    assert b[..n][11] == b[11] && b[..n][12] == b[12];
  }

  /** `handleNavigation`: a click starts the progress bar unless it targets the current path. */
  predicate StartsProgress(pathname: string, href: string) {
    pathname != href
  }

  /** Clicking an entry that is not highlighted always starts the progress bar. */
  lemma InactiveStartsProgress(pathname: string, href: string)
    requires !IsActive(pathname, href)
    ensures StartsProgress(pathname, href)
  {
  }

  /** A highlighted entry can still start it, when the path lies below the entry's. */
  lemma ActiveBelowStartsProgress()
    ensures IsActive("/dashboard/users/1", "/dashboard/users") && StartsProgress("/dashboard/users/1", "/dashboard/users")
  {
  }

  /** The avatar fallback: "U" unless both names are non-empty, then both initials in upper case. */
  function Initials(firstName: Option<string>, lastName: Option<string>): (r: string)
    ensures (firstName.None? || firstName.value == "" || lastName.None? || lastName.value == "") ==> r == "U"
    ensures firstName.Some? && firstName.value != "" && lastName.Some? && lastName.value != "" ==>
      r == RankingTable.GetInitials(firstName, lastName) && |r| == 2
  {
    if firstName.None? || firstName.value == "" || lastName.None? || lastName.value == "" then "U"
    else ToUpper([firstName.value[0], lastName.value[0]])
  }
}
