/**
 * The navigation tabs and the "about" menu of the frontend.  The user's
 * role check and the settings lookup are outside this model and come in
 * as a function and a flag.
 */
module Links {
  import opened Wrappers
  import FeatureFlags

  /** The `UserRoles` that gate a navigation tab. */
  datatype UserRole = Part | Stock | Build | PurchaseOrder | SalesOrder

  /** `NavTab`, without its icon. */
  datatype NavTab = NavTab(name: string, title: string, role: Option<UserRole>)

  const HomeTab := NavTab("home", "Dashboard", None)
  const PartTab := NavTab("part", "Parts", Some(Part))
  const StockTab := NavTab("stock", "Stock", Some(Stock))
  const ManufacturingTab := NavTab("manufacturing", "Manufacturing", Some(Build))
  const PurchasingTab := NavTab("purchasing", "Purchasing", Some(PurchaseOrder))
  const SalesTab := NavTab("sales", "Sales", Some(SalesOrder))
  const EventsTab := NavTab("events", "Events", Some(SalesOrder))
  const RentalsTab := NavTab("rentals", "Rentals", Some(SalesOrder))

  /** The `navTabs` list, in declaration order. */
  const DeclaredTabs := [HomeTab, PartTab, StockTab, ManufacturingTab, PurchasingTab, SalesTab, EventsTab, RentalsTab]

  /** `r` is `s` with some elements dropped and the rest in their original order. */
  predicate IsSubsequence<T(==)>(r: seq<T>, s: seq<T>)
    decreases |s|
  {
    if r == [] then true
    else if s == [] then false
    else (r[0] == s[0] && IsSubsequence(r[1..], s[1..])) || IsSubsequence(r, s[1..])
  }

  /** The callback of `getNavTabs`' filter: the module switch first, then the role. */
  predicate KeepTab(tab: NavTab, hasViewRole: UserRole -> bool) {
    if tab.name == "manufacturing" && !FeatureFlags.IsModuleEnabled(FeatureFlags.Manufacturing) then false
    else if tab.name == "purchasing" && !FeatureFlags.IsModuleEnabled(FeatureFlags.Purchasing) then false
    else if tab.name == "sales" && !FeatureFlags.IsModuleEnabled(FeatureFlags.Sales) then false
    else if tab.name == "events" && !FeatureFlags.IsModuleEnabled(FeatureFlags.Events) then false
    else if tab.name == "rentals" && !FeatureFlags.IsModuleEnabled(FeatureFlags.Rentals) then false
    else if tab.role.None? then true
    else hasViewRole(tab.role.value)
  }

  /** `[x]` when `b` holds, otherwise nothing. */
  function KeptIf<T>(b: bool, x: T): seq<T> {
    if b then [x] else []
  }

  /** `tabs.filter(...)` with the callback above: the kept tabs, in order. */
  function FilterTabs(tabs: seq<NavTab>, hasViewRole: UserRole -> bool): (r: seq<NavTab>)
    ensures IsSubsequence(r, tabs)
    ensures forall t :: t in r <==> t in tabs && KeepTab(t, hasViewRole)
  {
    if tabs == [] then []
    else
      var rest := FilterTabs(tabs[1..], hasViewRole);
      if KeepTab(tabs[0], hasViewRole) then
        assert ([tabs[0]] + rest)[1..] == rest;
        [tabs[0]] + rest
      else rest
  }

  /** `getNavTabs`, with `user.hasViewRole` as `hasViewRole`. */
  function GetNavTabs(hasViewRole: UserRole -> bool): (r: seq<NavTab>)
    ensures IsSubsequence(r, DeclaredTabs)
    ensures forall t :: t in r <==> t in DeclaredTabs && KeepTab(t, hasViewRole)
  {
    FilterTabs(DeclaredTabs, hasViewRole)
  }

  /** Filtering a list with a first tab decides that tab, then filters the rest. */
  lemma FilterStep(x: NavTab, s: seq<NavTab>, hasViewRole: UserRole -> bool)
    ensures FilterTabs([x] + s, hasViewRole) == KeptIf(KeepTab(x, hasViewRole), x) + FilterTabs(s, hasViewRole)
  {
    assert ([x] + s)[1..] == s;
  }

  /** How the filter callback decides each declared tab under the current switches. */
  lemma KeepTabDecisions(hasViewRole: UserRole -> bool)
    ensures KeepTab(HomeTab, hasViewRole)
    ensures KeepTab(PartTab, hasViewRole) == hasViewRole(Part)
    ensures KeepTab(StockTab, hasViewRole) == hasViewRole(Stock)
    ensures !KeepTab(ManufacturingTab, hasViewRole)
    ensures !KeepTab(PurchasingTab, hasViewRole)
    ensures !KeepTab(SalesTab, hasViewRole)
    ensures KeepTab(EventsTab, hasViewRole) == hasViewRole(SalesOrder)
    ensures KeepTab(RentalsTab, hasViewRole) == hasViewRole(SalesOrder)
  {
    FeatureFlags.EnabledModulesAre(FeatureFlags.Manufacturing);
    FeatureFlags.EnabledModulesAre(FeatureFlags.Purchasing);
    FeatureFlags.EnabledModulesAre(FeatureFlags.Sales);
    FeatureFlags.EnabledModulesAre(FeatureFlags.Events);
    FeatureFlags.EnabledModulesAre(FeatureFlags.Rentals);
  }

  /**
   * The whole tab list under the current switches: home, then parts and stock by their
   * own roles, then events and rentals, both by the sales-order role; manufacturing,
   * purchasing and sales never appear.
   */
  lemma NavTabsAre(hasViewRole: UserRole -> bool)
    ensures GetNavTabs(hasViewRole) ==
      [HomeTab] + (KeptIf(hasViewRole(Part), PartTab) + (KeptIf(hasViewRole(Stock), StockTab)
      + (KeptIf(hasViewRole(SalesOrder), EventsTab) + KeptIf(hasViewRole(SalesOrder), RentalsTab))))
  {
    var h := hasViewRole;
    KeepTabDecisions(h);
    var s3 := [ManufacturingTab, PurchasingTab, SalesTab, EventsTab, RentalsTab];
    var s2 := [StockTab] + s3;
    var s1 := [PartTab] + s2;
    assert DeclaredTabs == [HomeTab] + s1;
    var p, s := KeptIf(h(Part), PartTab), KeptIf(h(Stock), StockTab);
    var er := KeptIf(h(SalesOrder), EventsTab) + KeptIf(h(SalesOrder), RentalsTab);
    LaterTabs(h);
    FilterStep(StockTab, s3, h);
    FilterStep(PartTab, s2, h);
    assert FilterTabs(s1, h) == p + (s + er);
    FilterStep(HomeTab, s1, h);
    assert GetNavTabs(h) == FilterTabs(DeclaredTabs, h);
  }

  /** Of the last five declared tabs only events and rentals can remain, both by the sales-order role. */
  lemma LaterTabs(hasViewRole: UserRole -> bool)
    ensures FilterTabs([ManufacturingTab, PurchasingTab, SalesTab, EventsTab, RentalsTab], hasViewRole) ==
      KeptIf(hasViewRole(SalesOrder), EventsTab) + KeptIf(hasViewRole(SalesOrder), RentalsTab)
  {
    var h := hasViewRole;
    KeepTabDecisions(h);
    var s8: seq<NavTab> := [];
    var s7 := [RentalsTab] + s8;
    var s6 := [EventsTab] + s7;
    var s5 := [SalesTab] + s6;
    var s4 := [PurchasingTab] + s5;
    var s3 := [ManufacturingTab] + s4;
    var e, r := KeptIf(h(SalesOrder), EventsTab), KeptIf(h(SalesOrder), RentalsTab);
    FilterStep(RentalsTab, s8, h);
    assert FilterTabs(s7, h) == r;
    FilterStep(EventsTab, s7, h);
    assert FilterTabs(s6, h) == e + r;
    FilterStep(SalesTab, s6, h);
    FilterStep(PurchasingTab, s5, h);
    FilterStep(ManufacturingTab, s4, h);
    assert s3 == [ManufacturingTab, PurchasingTab, SalesTab, EventsTab, RentalsTab];
  }

  /** The home tab is always first, whatever the user's roles. */
  lemma HomeTabIsFirst(hasViewRole: UserRole -> bool)
    ensures |GetNavTabs(hasViewRole)| >= 1 && GetNavTabs(hasViewRole)[0] == HomeTab
  {
    NavTabsAre(hasViewRole);
  }

  /** A tab of a switched-off module is dropped whatever the user's roles. */
  lemma DisabledModulesAreHidden(hasViewRole: UserRole -> bool, t: NavTab)
    requires t in GetNavTabs(hasViewRole)
    ensures t.name != "manufacturing" && t.name != "purchasing" && t.name != "sales"
  {
    FeatureFlags.EnabledModulesAre(FeatureFlags.Manufacturing);
    FeatureFlags.EnabledModulesAre(FeatureFlags.Purchasing);
    FeatureFlags.EnabledModulesAre(FeatureFlags.Sales);
  }

  /** Parts and stock follow their own roles; events and rentals both follow the sales-order role. */
  lemma TabsFollowRoles(hasViewRole: UserRole -> bool)
    ensures PartTab in GetNavTabs(hasViewRole) <==> hasViewRole(Part)
    ensures StockTab in GetNavTabs(hasViewRole) <==> hasViewRole(Stock)
    ensures EventsTab in GetNavTabs(hasViewRole) <==> hasViewRole(SalesOrder)
    ensures RentalsTab in GetNavTabs(hasViewRole) <==> hasViewRole(SalesOrder)
  {
    KeepTabDecisions(hasViewRole);
    assert DeclaredTabs[1] == PartTab && DeclaredTabs[2] == StockTab;
    assert DeclaredTabs[6] == EventsTab && DeclaredTabs[7] == RentalsTab;
  }

  // ---------------------------------------------------------------- about links

  /** The dialog a menu entry opens. */
  datatype ModalAction = ServerInfo | LicenseInfo | AboutTracklet

  /** `MenuLinkItem`, as `AboutLinks` fills it. */
  datatype MenuLink = MenuLink(id: string, title: string, description: string, icon: string, action: ModalAction)

  const InstanceLink := MenuLink("instance", "System Information", "About this Tracklet instance", "info", ServerInfo)
  const LicensesLink := MenuLink("licenses", "License Information",
    "Licenses for dependencies of the Tracklet software", "license", LicenseInfo)
  const AboutLink := MenuLink("about", "About Tracklet", "About the Tracklet project", "info", AboutTracklet)

  /**
   * `AboutLinks`, with `user.isSuperuser()` as `isSuperuser` and
   * `settings.isSet('INVENTREE_RESTRICT_ABOUT')` as `restrictAbout`: instance and
   * licenses first, then "about" exactly when the user is a superuser or the
   * restriction is not set.
   */
  method AboutLinks(isSuperuser: bool, restrictAbout: bool) returns (items: seq<MenuLink>)
    ensures |items| == 2 || |items| == 3
    ensures items[0] == InstanceLink && items[1] == LicensesLink
    ensures |items| == 3 <==> isSuperuser || !restrictAbout
    ensures |items| == 3 ==> items[2] == AboutLink
  {
    var baseItems := [InstanceLink, LicensesLink];
    if isSuperuser || !restrictAbout {
      baseItems := baseItems + [AboutLink];
    }
    items := baseItems;
  }
}
