/**
 * The dashboard navigation of utils/js/navigation.js: a role-keyed table of
 * pages, the `.nav-link` elements rendered from it, the page currently shown,
 * and the browser history entries navigation pushes.
 */
module Navigation {
  import opened Browser

  /** One entry of the navigation table. */
  datatype PageItem = PageItem(id: string, title: string, icon: string, url: string, description: string, requiresAuth: bool)

  const PublicPages: seq<PageItem> := [
    PageItem("explorer", "Explorer", "fas fa-search", "#explorer", "Search blocks, transactions, addresses", false),
    PageItem("domains", "Domains", "fas fa-globe", "domain.html", "Browse .alsania domains", false),
    PageItem("nfts", "NFTs", "fas fa-image", "#nfts", "Explore NFT collections", false),
    PageItem("profile", "My Profile", "fas fa-user", "#profile", "Manage your Alsania profile", true)]

  const AdminPages: seq<PageItem> := [
    PageItem("dashboard", "Admin Dashboard", "fas fa-tachometer-alt", "admin/dashboard.html", "System overview and analytics", false),
    PageItem("users", "User Management", "fas fa-users", "admin/users.html", "Manage user accounts and permissions", false),
    PageItem("domains-admin", "Domain Admin", "fas fa-globe", "admin/domains.html", "Manage domain registrations", false),
    PageItem("analytics", "Analytics", "fas fa-chart-bar", "admin/analytics.html", "View site statistics and metrics", false)]

  /** The table createNavigationStructure builds, keyed by role. */
  const NavigationTable: map<string, seq<PageItem>> := map["public" := PublicPages, "admin" := AdminPages]

  const DefaultPage := "explorer"
  const DefaultRole := "public"
  const CurrentPageKey := "alsania-current-page"

  predicate DistinctIds(items: seq<PageItem>) {
    forall i, j :: 0 <= i < j < |items| ==> items[i].id != items[j].id
  }

  /** Four pages per role, no id used twice across both roles, and only the profile needs a login. */
  lemma TableShape()
    ensures NavigationTable.Keys == {"public", "admin"}
    ensures |PublicPages| == 4 && |AdminPages| == 4
    ensures DistinctIds(PublicPages + AdminPages)
    ensures forall i | 0 <= i < |PublicPages + AdminPages| ::
      (PublicPages + AdminPages)[i].requiresAuth <==> (PublicPages + AdminPages)[i].id == "profile"
  {
    var all := PublicPages + AdminPages;
    // The ids have pairwise different lengths or first letters.
    assert forall i | 0 <= i < |all| :: all[i].id == ["explorer", "domains", "nfts", "profile", "dashboard", "users", "domains-admin", "analytics"][i];
  }

  /** The titles getPageTitle knows. */
  const Titles: map<string, string> := map[
    "explorer" := "Explorer",
    "domains" := "Domains",
    "nfts" := "NFTs",
    "profile" := "Profile",
    "dashboard" := "Admin Dashboard",
    "users" := "User Management",
    "domains-admin" := "Domain Admin",
    "analytics" := "Analytics"]

  /** getPageTitle: the known title, or `Page`. */
  function PageTitle(pageId: string): (t: string)
    ensures pageId in Titles ==> t == Titles[pageId]
    ensures pageId !in Titles ==> t == "Page"
  {
    if pageId in Titles then Titles[pageId] else "Page"
  }

  /** The default title is shown exactly for the ids the table does not know. */
  lemma PageTitleDefaultIffUnknown(pageId: string)
    ensures PageTitle(pageId) == "Page" <==> pageId !in Titles
  {
    assert forall k | k in Titles :: |Titles[k]| != 4 || Titles[k][0] != 'P' by {
      assert Titles.Keys == {"explorer", "domains", "nfts", "profile", "dashboard", "users", "domains-admin", "analytics"};
      assert "NFTs"[0] == 'N';
    }
  }

  /** Every table page has a title of its own, which is the table's title except for the profile. */
  lemma TitlesCoverTable()
    ensures forall i | 0 <= i < |PublicPages + AdminPages| :: (PublicPages + AdminPages)[i].id in Titles
    ensures forall i | 0 <= i < |PublicPages + AdminPages| ::
      (PublicPages + AdminPages)[i].id != "profile" ==> PageTitle((PublicPages + AdminPages)[i].id) == (PublicPages + AdminPages)[i].title
    ensures PageTitle("profile") == "Profile" != PublicPages[3].title
  {
  }

  /** The text of the loading placeholder loadPageContent shows: the page's title between `Loading ` and `...`. */
  function LoadingText(pageId: string): (s: string)
    ensures |s| == |PageTitle(pageId)| + 11
    ensures s[..8] == "Loading " && s[|s| - 3..] == "..."
    ensures s[8..|s| - 3] == PageTitle(pageId)
  {
    var s := "Loading " + PageTitle(pageId) + "...";
    assert s[8..|s| - 3] == PageTitle(pageId);
    s
  }

  /**
   * Two pages show the same placeholder exactly when they have the same title;
   * an unknown page shows `Loading Page...`.
   */
  lemma LoadingTextNamesTitle(p: string, q: string)
    ensures LoadingText(p) == LoadingText(q) <==> PageTitle(p) == PageTitle(q)
    ensures LoadingText(p) == "Loading Page..." <==> p !in Titles
  {
    var s, t := LoadingText(p), LoadingText(q);
    if s == t {
      assert PageTitle(p) == s[8..|s| - 3] == t[8..|t| - 3] == PageTitle(q);
    }
    var u := "Loading Page...";
    if s == u {
      assert PageTitle(p) == u[8..|u| - 3] == "Page";
    }
    PageTitleDefaultIffUnknown(p);
  }

  /** A `.nav-link` element: its `data-page` (absent on links not rendered from the table), its `href`, and whether it has class `active`. */
  datatype NavLink = NavLink(page: Option<string>, href: string, active: bool)

  /** The links renderNavigation writes for a list of pages, the current one marked active. */
  function RenderItems(items: seq<PageItem>, currentPage: string): (r: seq<NavLink>)
    ensures |r| == |items|
    ensures forall i | 0 <= i < |items| :: r[i].page == Some(items[i].id) && r[i].href == items[i].url
    ensures forall i | 0 <= i < |items| :: r[i].active <==> items[i].id == currentPage
  {
    seq(|items|, i requires 0 <= i < |items| => NavLink(Some(items[i].id), items[i].url, items[i].id == currentPage))
  }

  /** With distinct ids, a rendered list has one active link when the current page is listed, and none otherwise. */
  lemma RenderedActiveLink(items: seq<PageItem>, currentPage: string)
    requires DistinctIds(items)
    ensures forall i, j | 0 <= i < |items| && 0 <= j < |items| ::
      RenderItems(items, currentPage)[i].active && RenderItems(items, currentPage)[j].active ==> i == j
    ensures (exists i | 0 <= i < |items| :: RenderItems(items, currentPage)[i].active)
        <==> (exists i | 0 <= i < |items| :: items[i].id == currentPage)
  {
    var r := RenderItems(items, currentPage);
    forall i, j | 0 <= i < |items| && 0 <= j < |items| && r[i].active && r[j].active
      ensures i == j
    {
      assert items[i].id == currentPage == items[j].id;
    }
  }

  /** `link.classList.toggle('active', link.dataset.page === pageId)` over a list of links. */
  function MarkActive(links: seq<NavLink>, pageId: string): (r: seq<NavLink>)
    ensures |r| == |links|
    ensures forall i | 0 <= i < |links| :: r[i] == links[i].(active := links[i].page == Some(pageId))
  {
    seq(|links|, i requires 0 <= i < |links| => links[i].(active := links[i].page == Some(pageId)))
  }

  /** The `forEach` loop of navigateTo over a list of links, one link at a time. */
  method MarkLinks(links: seq<NavLink>, pageId: string) returns (marked: seq<NavLink>)
    ensures marked == MarkActive(links, pageId)
  {
    marked := links;
    var i := 0;
    while i < |marked|
      invariant 0 <= i <= |marked| == |links|
      invariant forall k | 0 <= k < i :: marked[k] == links[k].(active := links[k].page == Some(pageId))
      invariant forall k | i <= k < |marked| :: marked[k] == links[k]
    {
      marked := marked[i := marked[i].(active := marked[i].page == Some(pageId))];
      i := i + 1;
    }
  }

  /** Marking depends only on the target page: it forgets which links were active before. */
  lemma MarkActiveForgetsOld(links: seq<NavLink>, p: string, q: string)
    ensures MarkActive(MarkActive(links, q), p) == MarkActive(links, p)
  {
  }

  /** What `history.pushState` records: the state object `{page}` and the URL. */
  datatype HistoryState = HistoryState(page: Option<string>)
  datatype HistoryEntry = HistoryEntry(state: HistoryState, url: string)

  /** The page the navigation starts on: a non-empty saved page, else the explorer. */
  function StartPage(storage: map<string, string>): (p: string)
    ensures Truthy(GetItem(storage, CurrentPageKey)) ==> p == storage[CurrentPageKey]
    ensures !Truthy(GetItem(storage, CurrentPageKey)) ==> p == DefaultPage
    ensures p != ""
  {
    var saved := GetItem(storage, CurrentPageKey);
    if Truthy(saved) then saved.value else DefaultPage
  }

  /** An AlsaniaNavigation instance and the parts of the page it reads and writes. */
  class AlsaniaNavigation {
    var currentPage: string
    var userRole: string
    var navigation: map<string, seq<PageItem>>
    /** The `.nav-link` elements inside the navigation container, and those elsewhere on the page. */
    var menuLinks: seq<NavLink>
    var otherLinks: seq<NavLink>
    /** Whether `.main-nav .nav-menu` or `.mobile-drawer .drawer-menu` exists. */
    const hasNavContainer: bool
    /** The content container's text, or None when there is no `#content-container`. */
    var content: Option<string>
    var history: seq<HistoryEntry>
    /** Local storage: the navigation reads it, and nothing here writes it. */
    const storage: map<string, string>

    /** `new AlsaniaNavigation()`: builds the table, binds the listeners and loads the saved page. */
    constructor (storage: map<string, string>, menuLinks: seq<NavLink>, otherLinks: seq<NavLink>,
                 hasNavContainer: bool, content: Option<string>)
      ensures this.storage == storage && this.hasNavContainer == hasNavContainer
      ensures this.menuLinks == menuLinks && this.otherLinks == otherLinks && this.content == content
      ensures currentPage == StartPage(storage)
      ensures userRole == DefaultRole && navigation == NavigationTable && history == []
    {
      this.storage := storage;
      this.hasNavContainer := hasNavContainer;
      this.menuLinks := menuLinks;
      this.otherLinks := otherLinks;
      this.content := content;
      history := [];
      currentPage := DefaultPage;
      userRole := DefaultRole;
      navigation := map[];
      new;
      CreateNavigationStructure();
      LoadUserPreferences();
    }

    method CreateNavigationStructure()
      modifies this
      ensures navigation == NavigationTable
      ensures currentPage == old(currentPage) && userRole == old(userRole) && history == old(history)
      ensures menuLinks == old(menuLinks) && otherLinks == old(otherLinks) && content == old(content)
    {
      navigation := NavigationTable;
    }

    /** loadUserPreferences: a non-empty saved page replaces the current one. */
    method LoadUserPreferences()
      modifies this
      ensures currentPage == (if Truthy(GetItem(storage, CurrentPageKey)) then storage[CurrentPageKey] else old(currentPage))
      ensures userRole == old(userRole) && navigation == old(navigation) && history == old(history)
      ensures menuLinks == old(menuLinks) && otherLinks == old(otherLinks) && content == old(content)
    {
      var saved := GetItem(storage, CurrentPageKey);
      if Truthy(saved) {
        currentPage := saved.value;
      }
    }

    /**
     * renderNavigation(role): without a container nothing happens; with one, its
     * links become the role's pages with the current one active. An unknown role
     * with a container present throws (`ok` is false) before anything changes.
     */
    method RenderNavigation(role: string) returns (ok: bool)
      modifies this
      ensures ok <==> !hasNavContainer || role in navigation
      ensures ok && hasNavContainer ==> menuLinks == RenderItems(navigation[role], currentPage)
      ensures !(ok && hasNavContainer) ==> menuLinks == old(menuLinks)
      ensures currentPage == old(currentPage) && userRole == old(userRole) && navigation == old(navigation)
      ensures otherLinks == old(otherLinks) && content == old(content) && history == old(history)
    {
      if !hasNavContainer {
        return true;
      }
      if role !in navigation {
        return false;
      }
      menuLinks := RenderItems(navigation[role], currentPage);
      ok := true;
    }

    /**
     * navigateTo(pageId): the page becomes current, exactly the links whose
     * `data-page` is `pageId` are active, the content container shows the
     * loading text, and one history entry `{page: pageId}` at `#pageId` is pushed.
     */
    method NavigateTo(pageId: string)
      modifies this
      ensures currentPage == pageId
      ensures menuLinks == MarkActive(old(menuLinks), pageId) && otherLinks == MarkActive(old(otherLinks), pageId)
      ensures content == (if old(content).Some? then Some(LoadingText(pageId)) else None)
      ensures history == old(history) + [HistoryEntry(HistoryState(Some(pageId)), "#" + pageId)]
      ensures userRole == old(userRole) && navigation == old(navigation)
    {
      currentPage := pageId;
      menuLinks := MarkLinks(menuLinks, pageId);
      otherLinks := MarkLinks(otherLinks, pageId);
      LoadPageContent(pageId);
      history := history + [HistoryEntry(HistoryState(Some(pageId)), "#" + pageId)];
    }

    /** loadPageContent: the loading placeholder, when the content container exists. */
    method LoadPageContent(pageId: string)
      modifies this
      ensures content == (if old(content).Some? then Some(LoadingText(pageId)) else None)
      ensures currentPage == old(currentPage) && userRole == old(userRole) && navigation == old(navigation)
      ensures menuLinks == old(menuLinks) && otherLinks == old(otherLinks) && history == old(history)
    {
      if content.None? {
        return;
      }
      content := Some(LoadingText(pageId));
    }

    /** The popstate listener: a state with a (non-empty) page navigates there again, pushing a new entry. */
    method OnPopState(state: Option<HistoryState>)
      modifies this
      ensures var target := if state.Some? && Truthy(state.value.page) then state.value.page else None;
        target.None? ==>
          currentPage == old(currentPage) && history == old(history) && content == old(content)
          && menuLinks == old(menuLinks) && otherLinks == old(otherLinks)
      ensures state.Some? && Truthy(state.value.page) ==>
        var p := state.value.page.value;
        currentPage == p
        && history == old(history) + [HistoryEntry(HistoryState(Some(p)), "#" + p)]
        && menuLinks == MarkActive(old(menuLinks), p) && otherLinks == MarkActive(old(otherLinks), p)
        && content == (if old(content).Some? then Some(LoadingText(p)) else None)
      ensures userRole == old(userRole) && navigation == old(navigation)
    {
      if state.Some? && Truthy(state.value.page) {
        NavigateTo(state.value.page.value);
      }
    }

    /** The document click listener, for a click on a `.nav-link` with a `data-page`. */
    method OnLinkClick(link: NavLink)
      modifies this
      ensures link.page.None? ==>
        currentPage == old(currentPage) && history == old(history) && menuLinks == old(menuLinks) && otherLinks == old(otherLinks)
        && content == old(content)
      ensures link.page.Some? ==>
        var p := link.page.value;
        currentPage == p && history == old(history) + [HistoryEntry(HistoryState(link.page), "#" + p)]
        && menuLinks == MarkActive(old(menuLinks), p) && otherLinks == MarkActive(old(otherLinks), p)
        && content == (if old(content).Some? then Some(LoadingText(p)) else None)
      ensures userRole == old(userRole) && navigation == old(navigation)
    {
      if link.page.Some? {
        NavigateTo(link.page.value);
      }
    }
  }
}
