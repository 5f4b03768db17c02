/** The dashboard shell: which panel the main area shows, chosen by a string
    tab id through a switch with a dashboard fallback; the sidebar's menu,
    whose items set that id; and the collapse flag of the sidebar. */
module IndexPage {
  import opened Prelude

  /** The panels the main area can show. */
  datatype Panel =
    | DashboardOverview
    | DataTable
    | Analytics
    | Calendar
    | KanbanBoard
    | ThemeSelector
    | Settings

  /** The tab ids the switch has a case for, in the order of its cases. */
  function HandledIds(): (r: seq<string>)
    ensures |r| == 7 && forall i, j :: 0 <= i < j < |r| ==> r[i] != r[j]
  {
    ["dashboard", "tables", "charts", "calendar", "kanban", "themes", "settings"]
  }

  /** renderContent: the panel for a tab id; any id without a case shows the
      dashboard. */
  function RenderContent(activeTab: string): (r: Panel)
    ensures activeTab !in HandledIds() ==> r == DashboardOverview
  {
    match activeTab
    case "dashboard" => DashboardOverview
    case "tables" => DataTable
    case "charts" => Analytics
    case "calendar" => Calendar
    case "kanban" => KanbanBoard
    case "themes" => ThemeSelector
    case "settings" => Settings
    case _ => DashboardOverview
  }

  /** The id of the case that renders a panel. */
  function TabId(p: Panel): (id: string)
    ensures id in HandledIds()
  {
    match p
    case DashboardOverview => "dashboard"
    case DataTable => "tables"
    case Analytics => "charts"
    case Calendar => "calendar"
    case KanbanBoard => "kanban"
    case ThemeSelector => "themes"
    case Settings => "settings"
  }

  /** Every panel is reached by its own case. */
  lemma RenderTabId(p: Panel)
    ensures RenderContent(TabId(p)) == p
  {
  }

  /** Each handled id is the id of the panel it renders, so the seven cases
      show seven different panels. */
  lemma HandledIdsRenderOwnPanel(id: string)
    requires id in HandledIds()
    ensures TabId(RenderContent(id)) == id
  {
  }

  lemma HandledIdsDistinctPanels(a: string, b: string)
    requires a in HandledIds() && b in HandledIds() && a != b
    ensures RenderContent(a) != RenderContent(b)
  {
    HandledIdsRenderOwnPanel(a);
    HandledIdsRenderOwnPanel(b);
  }

  // ---------------------------------------------------------------------------
  // The sidebar menu

  datatype MenuItem = MenuItem(id: string, caption: string, badge: Option<string>)

  /** The sidebar's menu entries, top to bottom. */
  function MenuItems(): (r: seq<MenuItem>)
    ensures |r| == |HandledIds()|
  {
    [ MenuItem("dashboard", "Dashboard", None),
      MenuItem("tables", "Data Tables", Some("12")),
      MenuItem("charts", "Analytics", None),
      MenuItem("calendar", "Calendar", Some("3")),
      MenuItem("kanban", "Kanban Board", Some("5")),
      MenuItem("themes", "Themes", None),
      MenuItem("settings", "Settings", None) ]
  }

  /** The sidebar offers exactly the handled ids, in the switch's order, so
      choosing an entry never falls through to the default. */
  lemma MenuIdsAreHandled()
    ensures |MenuItems()| == |HandledIds()|
    ensures forall i :: 0 <= i < |MenuItems()| ==> MenuItems()[i].id == HandledIds()[i]
  {
  }

  /** Menu entries have distinct ids, so at most one is highlighted as active. */
  lemma MenuIdsDistinct()
    ensures forall i, j :: 0 <= i < j < |MenuItems()| ==> MenuItems()[i].id != MenuItems()[j].id
  {
  }

  /** Every panel is offered by exactly one menu entry. */
  lemma EveryPanelOnTheMenu(p: Panel)
    ensures exists i :: 0 <= i < |MenuItems()| && RenderContent(MenuItems()[i].id) == p
    ensures forall i, j ::
      0 <= i < |MenuItems()| && 0 <= j < |MenuItems()|
      && RenderContent(MenuItems()[i].id) == p && RenderContent(MenuItems()[j].id) == p
      ==> i == j
  {
    MenuIdsAreHandled();
    MenuIdsDistinct();
    var id := TabId(p);
    var i :| 0 <= i < |HandledIds()| && HandledIds()[i] == id;
    RenderTabId(p);
    assert RenderContent(MenuItems()[i].id) == p;
    forall i, j | 0 <= i < |MenuItems()| && 0 <= j < |MenuItems()|
      && RenderContent(MenuItems()[i].id) == p && RenderContent(MenuItems()[j].id) == p
      ensures i == j
    {
      if i != j {
        HandledIdsDistinctPanels(MenuItems()[i].id, MenuItems()[j].id);
      }
    }
  }

  // ---------------------------------------------------------------------------
  // The page state

  /** The page's two state cells. */
  class Shell {
    var activeTab: string
    var sidebarCollapsed: bool

    /** The page opens on the dashboard with the sidebar expanded. */
    constructor ()
      ensures activeTab == "dashboard" && !sidebarCollapsed
      ensures Content() == DashboardOverview
    {
      activeTab := "dashboard";
      sidebarCollapsed := false;
    }

    /** What the main area shows. */
    function Content(): (r: Panel)
      reads this
      ensures activeTab !in HandledIds() ==> r == DashboardOverview
    {
      RenderContent(activeTab)
    }

    /** A menu entry is highlighted when its id is the active tab. */
    predicate IsActive(item: MenuItem)
      reads this
      ensures IsActive(item) ==> Content() == RenderContent(item.id)
    {
      activeTab == item.id
    }

    /** setActiveTab: replaces the tab, leaves the sidebar as it is. */
    method SetActiveTab(tab: string)
      modifies this
      ensures activeTab == tab && sidebarCollapsed == old(sidebarCollapsed)
    {
      activeTab := tab;
    }

    /** The collapse button: flips the flag, leaves the tab as it is. */
    method ToggleSidebar()
      modifies this
      ensures sidebarCollapsed == !old(sidebarCollapsed) && activeTab == old(activeTab)
    {
      sidebarCollapsed := !sidebarCollapsed;
    }
  }

  /** Clicking menu entry i: the main area shows that entry's own panel and
      the entry is the only one highlighted. */
  method ChooseMenuItem(shell: Shell, i: int)
    requires 0 <= i < |MenuItems()|
    modifies shell
    ensures shell.activeTab == MenuItems()[i].id
    ensures TabId(shell.Content()) == MenuItems()[i].id
    ensures forall j :: 0 <= j < |MenuItems()| ==> (shell.IsActive(MenuItems()[j]) <==> j == i)
    ensures shell.sidebarCollapsed == old(shell.sidebarCollapsed)
  {
    shell.SetActiveTab(MenuItems()[i].id);
    MenuIdsAreHandled();
    MenuIdsDistinct();
    HandledIdsRenderOwnPanel(MenuItems()[i].id);
  }

  /** Toggling the sidebar twice restores it. */
  method ToggleTwice(shell: Shell)
    modifies shell
    ensures shell.sidebarCollapsed == old(shell.sidebarCollapsed)
    ensures shell.activeTab == old(shell.activeTab)
  {
    shell.ToggleSidebar();
    shell.ToggleSidebar();
  }
}
