/**
 * The top navigation bar: four fixed tabs, the one equal to the page's active
 * tab highlighted, and a click reporting the clicked tab's id.
 */
module DynamicNavbar {
  import opened Seqs

  /** The tab ids, in display order. */
  const TabIds: seq<string> := ["dashboard", "courses", "notes", "tests"]

  /** `isActive`: a tab is highlighted when its id equals the active tab. */
  predicate IsActive(activeTab: string, id: string) {
    activeTab == id
  }

  /** No two tabs share an id. */
  lemma TabIdsDistinct()
    ensures NoDuplicates(TabIds)
  {
  }

  /** The highlighted tabs, in display order. */
  function ActiveTabs(activeTab: string): (r: seq<string>)
    ensures |r| <= 1
    ensures |r| == 1 <==> activeTab in TabIds
    ensures forall i :: 0 <= i < |r| ==> IsActive(activeTab, r[i])
  {
    TabIdsDistinct();
    DistinctOccurrences(TabIds, activeTab);
    Filter(TabIds, (y: string) => y == activeTab)
  }

  /** A click on tab `i` reports that tab's id, which no other tab has. */
  function TabClick(i: int): (id: string)
    requires 0 <= i < |TabIds|
    ensures id in TabIds
    ensures forall j :: 0 <= j < |TabIds| ==> (TabIds[j] == id <==> j == i)
  {
    TabIds[i]
  }

  /** The sliding highlight is drawn inside tab `i` only while that tab is active, so on no other tab. */
  function ShowsIndicator(activeTab: string, i: int): (r: bool)
    requires 0 <= i < |TabIds|
    ensures r <==> IsActive(activeTab, TabIds[i])
    ensures r ==> forall j :: 0 <= j < |TabIds| && j != i ==> !IsActive(activeTab, TabIds[j])
  {
    IsActive(activeTab, TabIds[i])
  }
}

/**
 * The dashboard page: the active tab and the profile popup flag, and the
 * dispatch from the active tab to the view rendered below the bar.
 */
module DashboardPage {
  import opened DynamicNavbar

  datatype View = DashboardView | CoursesView | NotesView | TestsView

  datatype PageState = PageState(activeTab: string, isProfileOpen: bool)

  /** The page opens on the dashboard with the profile popup closed. */
  function InitialPage(): (s: PageState)
    ensures s.activeTab == "dashboard" && !s.isProfileOpen
  {
    PageState("dashboard", false)
  }

  /** The id of the tab that shows each view. */
  function ViewId(v: View): (id: string)
    ensures id in TabIds
  {
    match v
    case DashboardView => "dashboard"
    case CoursesView => "courses"
    case NotesView => "notes"
    case TestsView => "tests"
  }

  /** `renderContent`: the four tab ids select their views; any other value falls back to the dashboard. */
  function RenderContent(activeTab: string): (v: View)
    ensures activeTab in TabIds ==> ViewId(v) == activeTab
    ensures activeTab !in TabIds ==> v == DashboardView
  {
    match activeTab
    case "dashboard" => DashboardView
    case "courses" => CoursesView
    case "notes" => NotesView
    case "tests" => TestsView
    case _ => DashboardView
  }

  /** Each view is rendered by exactly one tab id, and the mapping is a round trip. */
  lemma RenderContentInvertsViewId(v: View)
    ensures RenderContent(ViewId(v)) == v
  {
  }

  /** A page event. */
  datatype PageEvent = TabChange(id: string) | ProfileClick | ProfileClose

  function Step(s: PageState, e: PageEvent): (r: PageState)
    ensures e.TabChange? ==> r.activeTab == e.id && r.isProfileOpen == s.isProfileOpen
    ensures e.ProfileClick? ==> r.isProfileOpen && r.activeTab == s.activeTab
    ensures e.ProfileClose? ==> !r.isProfileOpen && r.activeTab == s.activeTab
  {
    match e
    case TabChange(id) => s.(activeTab := id)
    case ProfileClick => s.(isProfileOpen := true)
    case ProfileClose => s.(isProfileOpen := false)
  }

  /** Selecting the same tab twice is selecting it once; opening or closing twice is doing it once. */
  lemma StepsAreIdempotent(s: PageState, e: PageEvent)
    ensures Step(Step(s, e), e) == Step(s, e)
  {
  }

  /**
   * Clicking navbar tab `i` makes exactly that tab highlighted, renders the
   * view belonging to it, and leaves the profile popup as it was.
   */
  lemma ClickingTabShowsItsView(s: PageState, i: int)
    requires 0 <= i < |TabIds|
    ensures var r := Step(s, TabChange(TabClick(i)));
      && r.isProfileOpen == s.isProfileOpen
      && ActiveTabs(r.activeTab) == [TabIds[i]]
      && ShowsIndicator(r.activeTab, i)
      && ViewId(RenderContent(r.activeTab)) == TabIds[i]
  {
    var r := Step(s, TabChange(TabClick(i)));
    var a := ActiveTabs(r.activeTab);
    assert |a| == 1 && IsActive(r.activeTab, a[0]);
  }

  /** On the initial page exactly the dashboard tab is highlighted and the dashboard is rendered. */
  lemma InitialPageShowsDashboard()
    ensures ActiveTabs(InitialPage().activeTab) == ["dashboard"]
    ensures RenderContent(InitialPage().activeTab) == DashboardView
  {
    var a := ActiveTabs("dashboard");
    assert |a| == 1 && IsActive("dashboard", a[0]);
  }
}
