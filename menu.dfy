/** The navigation menu (components/Sidebar.tsx): which entries each role sees. */
module Menu {
  import opened Types
  import opened Seqs
  import Permissions

  /** The tabs the menu can open. */
  datatype Tab = DashboardTab | DriveTab | CalendarTab | SubmissionsTab | VerificationTab
               | UsersTab | StaffTab | AiTab | ProfileTab

  /** The `id` of each entry. */
  function TabId(t: Tab): string
  {
    match t
    case DashboardTab => "dashboard"
    case DriveTab => "drive"
    case CalendarTab => "calendar"
    case SubmissionsTab => "submissions"
    case VerificationTab => "verification"
    case UsersTab => "users"
    case StaffTab => "staff"
    case AiTab => "ai"
    case ProfileTab => "profile"
  }

  /** The `label` of each entry. */
  function TabLabel(t: Tab): string
  {
    match t
    case DashboardTab => "DASHBOARD"
    case DriveTab => "CLOUD DRIVE"
    case CalendarTab => "CHRONOS CALENDAR"
    case SubmissionsTab => "SUBMISSIONS"
    case VerificationTab => "VERIFICATION"
    case UsersTab => "STUDENT ROSTER"
    case StaffTab => "STAFF HIERARCHY"
    case AiTab => "EDULOCK AI"
    case ProfileTab => "MY IDENTITY"
  }

  /** Distinct tabs have distinct ids, so an entry is known by its id. */
  lemma TabIdsDistinct(a: Tab, b: Tab)
    ensures TabId(a) == TabId(b) ==> a == b
  {
  }

  datatype MenuItem = MenuItem(tab: Tab, roles: seq<UserRole>)

  const EveryRole: seq<UserRole> := [Admin, Head, CoHead, Student]
  const AdminAndHead: seq<UserRole> := [Admin, Head]

  /** The first three entries of `menuItems`, shown to every role. */
  const LeadingItems: seq<MenuItem> := [
    MenuItem(DashboardTab, EveryRole),
    MenuItem(DriveTab, EveryRole),
    MenuItem(CalendarTab, EveryRole)
  ]

  /** The next four, for admins and heads. */
  const StaffItems: seq<MenuItem> := [
    MenuItem(SubmissionsTab, AdminAndHead),
    MenuItem(VerificationTab, AdminAndHead),
    MenuItem(UsersTab, AdminAndHead),
    MenuItem(StaffTab, AdminAndHead)
  ]

  /** The last two, shown to every role. */
  const TrailingItems: seq<MenuItem> := [
    MenuItem(AiTab, EveryRole),
    MenuItem(ProfileTab, EveryRole)
  ]

  /** `menuItems`, in display order (icons left out). */
  const MenuItems: seq<MenuItem> := LeadingItems + StaffItems + TrailingItems

  /** `filteredMenu`. */
  function VisibleMenu(role: UserRole): seq<MenuItem>
  {
    Filter(MenuItems, (item: MenuItem) => role in item.roles)
  }

  function MenuTabs(items: seq<MenuItem>): (r: seq<Tab>)
    ensures |r| == |items|
    ensures forall k :: 0 <= k < |items| ==> r[k] == items[k].tab
  {
    seq(|items|, k requires 0 <= k < |items| => items[k].tab)
  }

  /** The review, verification, roster and staff tabs. */
  predicate IsStaffTab(t: Tab)
  {
    t.SubmissionsTab? || t.VerificationTab? || t.UsersTab? || t.StaffTab?
  }

  /** The staff tabs are exactly the entries for admins and heads only. */
  lemma StaffEntries()
    ensures forall x :: x in StaffItems ==> x.roles == AdminAndHead && IsStaffTab(x.tab)
    ensures forall x :: x in LeadingItems ==> x.roles == EveryRole && !IsStaffTab(x.tab)
    ensures forall x :: x in TrailingItems ==> x.roles == EveryRole && !IsStaffTab(x.tab)
  {
  }

  /** Every role sees the leading and trailing entries; only the staff
      entries depend on the role. */
  lemma VisibleAroundStaffEntries(role: UserRole)
    ensures VisibleMenu(role) == LeadingItems + Filter(StaffItems, (item: MenuItem) => role in item.roles) + TrailingItems
  {
    StaffEntries();
    FilterMiddle(MenuItems, LeadingItems, StaffItems, TrailingItems, (item: MenuItem) => role in item.roles);
  }

  /** Listing the tabs commutes with concatenation. */
  lemma MenuTabsConcat(a: seq<MenuItem>, b: seq<MenuItem>)
    ensures MenuTabs(a + b) == MenuTabs(a) + MenuTabs(b)
  {
  }

  /** The menu lists all nine tabs, in this order. */
  lemma AllMenuTabs()
    ensures MenuTabs(MenuItems) ==
      [DashboardTab, DriveTab, CalendarTab, SubmissionsTab, VerificationTab, UsersTab, StaffTab, AiTab, ProfileTab]
  {
    MenuTabsConcat(LeadingItems + StaffItems, TrailingItems);
    MenuTabsConcat(LeadingItems, StaffItems);
    assert MenuTabs(LeadingItems) == [DashboardTab, DriveTab, CalendarTab];
    assert MenuTabs(StaffItems) == [SubmissionsTab, VerificationTab, UsersTab, StaffTab];
    assert MenuTabs(TrailingItems) == [AiTab, ProfileTab];
  }

  /** Admins and heads see the whole menu. */
  lemma AdminHeadMenu(role: UserRole)
    requires Permissions.IsAdminOrHead(role)
    ensures VisibleMenu(role) == MenuItems
  {
    VisibleAroundStaffEntries(role);
    StaffEntries();
    FilterAll(StaffItems, (item: MenuItem) => role in item.roles);
  }

  /** Co-heads and students see the five common entries, in order. */
  lemma CommonMenu(role: UserRole)
    requires !Permissions.IsAdminOrHead(role)
    ensures VisibleMenu(role) == LeadingItems + TrailingItems
    ensures MenuTabs(VisibleMenu(role)) == [DashboardTab, DriveTab, CalendarTab, AiTab, ProfileTab]
  {
    VisibleAroundStaffEntries(role);
    StaffEntries();
    FilterNone(StaffItems, (item: MenuItem) => role in item.roles);
    MenuTabsConcat(LeadingItems, TrailingItems);
    assert MenuTabs(LeadingItems) == [DashboardTab, DriveTab, CalendarTab];
    assert MenuTabs(TrailingItems) == [AiTab, ProfileTab];
  }

  /** An entry is visible to a role exactly when the role is in its list; the
      review, verification, roster and staff entries are for admins and heads
      only. */
  lemma VisibleMenuMembership(role: UserRole)
    ensures forall item :: item in VisibleMenu(role) <==> item in MenuItems && role in item.roles
    ensures forall item :: item in VisibleMenu(role) && IsStaffTab(item.tab) ==> Permissions.IsAdminOrHead(role)
  {
    FilterMembership(MenuItems, (item: MenuItem) => role in item.roles);
    StaffEntries();
  }

  /** The visible entries keep the menu's order. */
  lemma VisibleMenuOrder(role: UserRole)
    ensures IsSubsequence(VisibleMenu(role), MenuItems)
  {
    FilterIsSubsequence(MenuItems, (item: MenuItem) => role in item.roles);
  }
}
