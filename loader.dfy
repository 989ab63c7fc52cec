/**
 * The component loader shared by both copies of loadComponents.js: it fills the
 * page's header and footer placeholders with HTML fragments (from a built-in
 * registry when the page is opened from disk, fetched otherwise), wires up the
 * theme switch and the mobile menu, and, for pages opened from disk, rewrites the
 * site's root-relative links into `file://` URLs. The two copies differ only in
 * the values collected in Config.
 */
module Loader {
  import opened Strings
  import opened Browser
  import opened Widgets

  /**
   * What a placeholder holds: an HTML fragment, reduced to the ids and class
   * names it defines and its `<a>` elements, or the red error box the loader
   * writes when a load fails, which shows the failure's message.
   */
  datatype Markup =
    | Fragment(ids: set<string>, classes: set<string>, anchors: seq<Element>)
    | ErrorBox(message: string)

  function IdsOf(m: Markup): set<string> {
    if m.Fragment? then m.ids else {}
  }

  function ClassesOf(m: Markup): set<string> {
    if m.Fragment? then m.classes else {}
  }

  /** What `fetch(url)` settles to: a response with its `ok` flag, status and body, or a network error. */
  datatype Response = Response(ok: bool, status: nat, body: Markup) | NetworkError(message: string)

  /** How the promise returned by `loadComponent` settles. */
  datatype Outcome = Resolved | Rejected(reason: string)

  /** The values in which the two copies of the loader differ. */
  datatype Config = Config(
    basePathProtocol: string,       // the protocol getComponentsBasePath treats as "opened from disk"
    basePathAnchor: string,         // the directory name it searches the pathname for
    linkRootAnchor: string,         // what fixLinksForFileProtocol searches the pathname for
    linkRootAnchorLength: nat,      // and the length it adds to the match position
    inline: map<string, Markup>,    // INLINE_COMPONENTS, keyed by component name
    headerComponent: string,        // the component name requested for the header placeholder
    footerComponent: string,        // and for the footer placeholder
    theme: ThemeConfig)             // the theme switch's element id and storage keys

  const FileProtocol := "file:"
  const FileScheme := "file://"
  const ComponentsDir := "/components"
  const HeaderContainer := "header-container"
  const FooterContainer := "footer-container"
  const MenuButtonClass := "mobile-menu"
  const NavMenuClass := "alsania-nav"

  /** REDIRECTS: links that leave the local copy of the site, or point into it relatively. */
  /** The Redbubble shop, written as host and path. */
  const RedbubbleShop := "https://www.redbubble.com/" + "people/AlsaniaArt/shop"

  const Redirects: map<string, string> := map[
    "/dashery" := "https://mnemonic.dashery.com/",
    "/redbubble" := RedbubbleShop,
    "/merch" := "shop/index.html"]

  /**
   * `pathname.substring(0, pathname.indexOf(anchor) + length)`: the pathname cut
   * `length` characters after where `anchor` starts, or, when `anchor` does not
   * occur, cut after its first `length - 1` characters.
   */
  function ProjectRoot(pathname: string, anchor: string, length: nat): (r: string)
    ensures StartsWith(pathname, r)
    ensures IndexOf(pathname, anchor) >= 0 ==> r == pathname[..Clamp(IndexOf(pathname, anchor) + length, |pathname|)]
    ensures IndexOf(pathname, anchor) == -1 ==> r == pathname[..Clamp(length - 1, |pathname|)]
  {
    SubstringFromZero(pathname, IndexOf(pathname, anchor) + length);
    Substring(pathname, 0, IndexOf(pathname, anchor) + length)
  }

  /** getComponentsBasePath */
  function ComponentsBasePath(cfg: Config, loc: Location): (r: string)
    ensures loc.protocol != cfg.basePathProtocol ==> r == ComponentsDir
    ensures loc.protocol == cfg.basePathProtocol ==>
      r == FileScheme + ProjectRoot(loc.pathname, cfg.basePathAnchor, |cfg.basePathAnchor|) + ComponentsDir
    ensures loc.protocol == cfg.basePathProtocol ==>
      StartsWith(r, FileScheme) && EndsWith(r, ComponentsDir)
  {
    if loc.protocol == cfg.basePathProtocol then
      FileScheme + ProjectRoot(loc.pathname, cfg.basePathAnchor, |cfg.basePathAnchor|) + ComponentsDir
    else
      ComponentsDir
  }

  /** The URL `loadComponent` fetches a component from. */
  function ComponentUrl(cfg: Config, loc: Location, name: string): string {
    ComponentsBasePath(cfg, loc) + "/" + name
  }

  /** `HTTP ${response.status}` */
  function HttpError(status: nat): string {
    "HTTP " + NatToString(status)
  }

  /** The message of a non-ok response determines its status. */
  lemma HttpErrorReportsStatus(s1: nat, s2: nat)
    requires HttpError(s1) == HttpError(s2)
    ensures s1 == s2
  {
    assert NatToString(s1) == HttpError(s1)[5..];
    assert NatToString(s2) == HttpError(s2)[5..];
    NatToStringInjective(s1, s2);
  }

  /** What a load puts into its (existing) placeholder, and how its promise settles. */
  datatype LoadResult = LoadResult(content: Markup, outcome: Outcome)

  /**
   * `loadComponent` once its placeholder was found: from disk, the registry entry
   * or a rejection naming the missing component; otherwise a fetch of
   * ComponentUrl, whose non-ok status or network error rejects. Every rejection
   * leaves the error box showing its reason in the placeholder.
   */
  function Load(cfg: Config, loc: Location, name: string, fetch: string -> Response): (r: LoadResult)
    ensures r.outcome.Rejected? ==> r.content == ErrorBox(r.outcome.reason)
    ensures loc.protocol == FileProtocol ==>
      (r.outcome.Resolved? <==> name in cfg.inline)
      && (r.outcome.Resolved? ==> r.content == cfg.inline[name])
      && (r.outcome.Rejected? ==> r.outcome.reason == "Inline component not found: " + name)
    ensures loc.protocol != FileProtocol ==>
      var resp := fetch(ComponentUrl(cfg, loc, name));
      (r.outcome.Resolved? <==> resp.Response? && resp.ok)
      && (r.outcome.Resolved? ==> r.content == resp.body)
      && (resp.Response? && !resp.ok ==> r.outcome == Rejected(HttpError(resp.status)))
      && (resp.NetworkError? ==> r.outcome == Rejected(resp.message))
  {
    if loc.protocol == FileProtocol then
      if name in cfg.inline then LoadResult(cfg.inline[name], Resolved)
      else
        var message := "Inline component not found: " + name;
        LoadResult(ErrorBox(message), Rejected(message))
    else
      match fetch(ComponentUrl(cfg, loc, name))
      case NetworkError(message) => LoadResult(ErrorBox(message), Rejected(message))
      case Response(ok, status, body) =>
        if ok then LoadResult(body, Resolved)
        else LoadResult(ErrorBox(HttpError(status)), Rejected(HttpError(status)))
  }

  /** Opened from disk, a load makes no request: the network does not affect it. */
  lemma FileLoadIgnoresNetwork(cfg: Config, loc: Location, name: string, f1: string -> Response, f2: string -> Response)
    requires loc.protocol == FileProtocol
    ensures Load(cfg, loc, name, f1) == Load(cfg, loc, name, f2)
  {
  }

  /** Served over HTTP, a load depends on the response to ComponentUrl only. */
  lemma NetworkLoadRequestsComponentUrl(cfg: Config, loc: Location, name: string, f1: string -> Response, f2: string -> Response)
    requires loc.protocol != FileProtocol
    requires f1(ComponentUrl(cfg, loc, name)) == f2(ComponentUrl(cfg, loc, name))
    ensures Load(cfg, loc, name, f1) == Load(cfg, loc, name, f2)
  {
  }

  /**
   * The path a root-relative link is pointed at on disk: a trailing slash gets
   * `index.html`, an href without any dot gets `/index.html`, and an href with a
   * dot anywhere (not only in its last segment) is kept as it is.
   */
  function IndexPath(href: string): (r: string)
    ensures StartsWith(r, href)
    ensures '.' in r
    ensures r == href <==> ('.' in href && !EndsWith(href, "/"))
  {
    if EndsWith(href, "/") then
      assert (href + "index.html")[|href| + 5] == '.';
      href + "index.html"
    else if '.' !in href then
      assert (href + "/index.html")[|href| + 6] == '.';
      href + "/index.html"
    else
      href
  }

  /**
   * Which `index.html` a directory link gets: a trailing slash is completed
   * with `index.html`, a dotless path with `/index.html`; either way the
   * result then ends in `/index.html`.
   */
  lemma IndexPathBranches(href: string)
    ensures EndsWith(href, "/") ==> IndexPath(href) == href + "index.html"
    ensures !EndsWith(href, "/") && '.' !in href ==> IndexPath(href) == href + "/index.html"
    ensures IndexPath(href) != href ==> EndsWith(IndexPath(href), "/index.html")
  {
    var r := IndexPath(href);
    if EndsWith(href, "/") {
      assert r[|r| - 11..] == href[|href| - 1..] + "index.html";
    } else if '.' !in href {
      assert r[|r| - 11..] == "/index.html";
    }
  }

  /**
   * The new `href` fixLinksForFileProtocol gives a link whose attribute is `href`,
   * or None when it leaves the link alone: empty hrefs are skipped, a redirect
   * wins over everything else, and a root-relative href becomes a `file://` URL
   * under the project root.
   */
  function FileHref(root: string, href: string): (r: Option<string>)
    ensures href == "" ==> r.None?
    ensures href != "" && href in Redirects ==> r == Some(Redirects[href])
    ensures href !in Redirects ==>
      (r.Some? <==> StartsWith(href, "/") && !StartsWith(href, "//"))
      && (r.Some? ==> r.value == FileUrl(root, href))
  {
    if href == "" then None
    else if href in Redirects then Some(Redirects[href])
    else if StartsWith(href, "/") && !StartsWith(href, "//") then Some(FileUrl(root, href))
    else None
  }

  /** `"file://" + projectRoot + filePath`: a `file://` URL, so never root-relative. */
  function FileUrl(root: string, href: string): (u: string)
    ensures u == FileScheme + root + IndexPath(href)
    ensures u != [] && u[0] == 'f'
  {
    var prefix := FileScheme + root;
    assert prefix[0] == FileScheme[0];
    prefix + IndexPath(href)
  }

  /** Every redirect key is root-relative; no redirect target is. */
  lemma RedirectsShape()
    ensures forall k | k in Redirects :: k != [] && k[0] == '/' && k[|k| - 1] != '/' && Redirects[k] != [] && Redirects[k][0] != '/'
  {
    forall k | k in Redirects
      ensures k != [] && k[0] == '/' && k[|k| - 1] != '/' && Redirects[k] != [] && Redirects[k][0] != '/'
    {
      if |k| == 8 {
        var t := "https://mnemonic.dashery.com/";
        assert t[0] == 'h';
        assert k == "/dashery" && Redirects[k] == t;
        assert k[7] == 'y';
      } else if |k| == 10 {
        var t := RedbubbleShop;
        assert t[0] == "https://www.redbubble.com/"[0];
        assert k == "/redbubble" && Redirects[k] == t;
        assert k[9] == 'e';
      } else {
        var t := "shop/index.html";
        assert t[0] == 's';
        assert k == "/merch" && Redirects[k] == t;
        assert k[5] == 'h';
      }
    }
  }

  /** An href that does not start with `/` is never a redirect key and is left alone. */
  lemma NotSlashLeftAlone(root: string, n: string)
    requires n != [] && n[0] != '/'
    ensures FileHref(root, n).None?
  {
    RedirectsShape();
    assert !StartsWith(n, "/") by { assert n[..1][0] == n[0]; }
  }

  /** A new href is never root-relative and never a redirect key, so a second pass leaves it alone. */
  lemma FileHrefFinal(root: string, href: string)
    requires FileHref(root, href).Some?
    ensures FileHref(root, FileHref(root, href).value).None?
  {
    if href in Redirects {
      RedirectsShape();
    }
    NotSlashLeftAlone(root, FileHref(root, href).value);
  }

  /** `/merch` is root-relative, yet the redirect wins and points it at a relative path. */
  lemma MerchRedirectWins(root: string)
    ensures StartsWith("/merch", "/") && !StartsWith("/merch", "//")
    ensures FileHref(root, "/merch") == Some("shop/index.html")
  {
    assert "/merch"[..1] == "/";
    assert "/merch"[..2] != "//" by { assert "/merch"[..2][1] == 'm'; }
  }

  /** A directory with a dot earlier in its path is not given an `index.html`. */
  lemma DottedDirectoryKeptAsIs(root: string)
    ensures FileHref(root, "/v1.2/docs") == Some(FileScheme + root + "/v1.2/docs")
  {
    assert "/v1.2/docs"[..1] == "/";
    assert "/v1.2/docs"[..2] != "//" by { assert "/v1.2/docs"[..2][1] == 'v'; }
    assert "/v1.2/docs"[3] == '.';
    assert "/v1.2/docs"[9..] != "/";
  }

  /** A link with only an `href`. */
  function Link(href: string): Element {
    Element("a", map["href" := href])
  }

  /** A link with an `href` and a class. */
  function ClassedLink(href: string, className: string): Element {
    Element("a", map["href" := href, "class" := className])
  }

  /** One link after fixLinksForFileProtocol: only its `href` can change. */
  function FixAnchor(root: string, e: Element): (r: Element)
    ensures r.tag == e.tag && r.attrs.Keys == e.attrs.Keys
    ensures forall k :: k in e.attrs && k != "href" ==> r.attrs[k] == e.attrs[k]
    ensures "href" in e.attrs && FileHref(root, e.attrs["href"]).Some? ==>
      r.attrs["href"] == FileHref(root, e.attrs["href"]).value
    ensures "href" in e.attrs && FileHref(root, e.attrs["href"]).None? ==> r == e
  {
    match GetAttribute(e, "href")
    case None => e
    case Some(href) =>
      match FileHref(root, href)
      case None => e
      case Some(n) => SetAttribute(e, "href", n)
  }

  /** Fixing links twice is fixing them once. */
  lemma FixAnchorIdempotent(root: string, e: Element)
    ensures FixAnchor(root, FixAnchor(root, e)) == FixAnchor(root, e)
  {
    if "href" in e.attrs && FileHref(root, e.attrs["href"]).Some? {
      FileHrefFinal(root, e.attrs["href"]);
    }
  }

  /** A directory link under the site root is pointed at its `index.html` on disk. */
  lemma DirectoryLinkOnDisk(root: string, href: string)
    requires |href| >= 1 && href[0] == '/' && href[|href| - 1] == '/' && (|href| == 1 || href[1] != '/')
    ensures FileHref(root, href) == Some(FileScheme + root + href + "index.html")
  {
    RedirectsShape();
    assert href !in Redirects;
    assert StartsWith(href, "/") by { assert href[..1][0] == href[0]; }
    assert !StartsWith(href, "//") by { if |href| >= 2 { assert href[..2][1] == href[1]; } }
    assert EndsWith(href, "/") by { assert href[|href| - 1..][0] == href[|href| - 1]; }
    assert FileScheme + root + href + "index.html" == FileScheme + root + (href + "index.html");
  }

  /** A link whose href does not start with a slash, and is not empty, keeps its address. */
  lemma RelativeOrExternalLinkUntouched(root: string, e: Element)
    requires "href" in e.attrs && e.attrs["href"] != [] && e.attrs["href"][0] != '/'
    ensures FixAnchor(root, e) == e
  {
    RedirectsShape();
    var h := e.attrs["href"];
    assert h !in Redirects;
    assert !StartsWith(h, "/") by { assert h[..1][0] == h[0]; }
  }

  function FixAnchors(root: string, es: seq<Element>): (r: seq<Element>)
    ensures |r| == |es|
    ensures forall i :: 0 <= i < |es| ==> r[i] == FixAnchor(root, es[i])
  {
    seq(|es|, i requires 0 <= i < |es| => FixAnchor(root, es[i]))
  }

  /** The links inside a placeholder's fragment after fixLinksForFileProtocol. */
  function FixMarkup(root: string, m: Markup): (r: Markup)
    ensures IdsOf(r) == IdsOf(m) && ClassesOf(r) == ClassesOf(m)
    ensures m.ErrorBox? ==> r == m
    ensures m.Fragment? ==> r == m.(anchors := FixAnchors(root, m.anchors))
  {
    if m.Fragment? then m.(anchors := FixAnchors(root, m.anchors)) else m
  }

  function FixContainers(root: string, cs: map<string, Markup>): (r: map<string, Markup>)
    ensures r.Keys == cs.Keys
    ensures forall c :: c in cs ==> r[c] == FixMarkup(root, cs[c])
  {
    map c | c in cs :: FixMarkup(root, cs[c])
  }

  /** The ids defined inside the placeholders. */
  function IdsIn(cs: map<string, Markup>): set<string> {
    set c, x | c in cs && x in IdsOf(cs[c]) :: x
  }

  /** The class names used inside the placeholders. */
  function ClassesIn(cs: map<string, Markup>): set<string> {
    set c, x | c in cs && x in ClassesOf(cs[c]) :: x
  }

  /** Fixing links changes no id and no class name. */
  lemma FixContainersKeepsNames(root: string, cs: map<string, Markup>)
    ensures IdsIn(FixContainers(root, cs)) == IdsIn(cs)
    ensures ClassesIn(FixContainers(root, cs)) == ClassesIn(cs)
  {
    var fixed := FixContainers(root, cs);
    forall x | x in IdsIn(cs) ensures x in IdsIn(fixed) {
      var c :| c in cs && x in IdsOf(cs[c]);
      assert x in IdsOf(fixed[c]);
    }
    forall x | x in ClassesIn(cs) ensures x in ClassesIn(fixed) {
      var c :| c in cs && x in ClassesOf(cs[c]);
      assert x in ClassesOf(fixed[c]);
    }
  }

  /** The placeholders `initComponents` fills, in order: header, then footer, when present. */
  function Requests(cfg: Config, present: set<string>): (r: seq<(string, string)>)
    ensures |r| == (if HeaderContainer in present then 1 else 0) + (if FooterContainer in present then 1 else 0)
    ensures forall i :: 0 <= i < |r| ==> r[i].0 in present
    ensures HeaderContainer in present ==> r[0] == (HeaderContainer, cfg.headerComponent)
    ensures FooterContainer in present ==> r[|r| - 1] == (FooterContainer, cfg.footerComponent)
  {
    (if HeaderContainer in present then [(HeaderContainer, cfg.headerComponent)] else [])
    + (if FooterContainer in present then [(FooterContainer, cfg.footerComponent)] else [])
  }

  /** `Promise.all` resolves: every load resolved (vacuously so with no loads). */
  predicate AllResolved(os: seq<Outcome>) {
    forall i :: 0 <= i < |os| ==> os[i].Resolved?
  }

  function ResolvedCount(os: seq<Outcome>): (n: nat)
    ensures n <= |os|
    ensures n == |os| <==> AllResolved(os)
  {
    if os == [] then 0
    else
      var n := ResolvedCount(os[..|os| - 1]) + (if os[|os| - 1].Resolved? then 1 else 0);
      assert AllResolved(os) ==> AllResolved(os[..|os| - 1]);
      assert AllResolved(os[..|os| - 1]) && os[|os| - 1].Resolved? ==> AllResolved(os);
      n
  }

  /** The positions of the loads that resolved. */
  function ResolvedIndices(os: seq<Outcome>): set<nat> {
    set i: nat | i < |os| && os[i].Resolved?
  }

  /** ResolvedCount counts exactly the loads that resolved, whatever the others did. */
  lemma {:induction false} ResolvedCountCounts(os: seq<Outcome>)
    ensures ResolvedCount(os) == |ResolvedIndices(os)|
    decreases |os|
  {
    if os != [] {
      var init, last := os[..|os| - 1], os[|os| - 1];
      ResolvedCountCounts(init);
      var before := ResolvedIndices(init);
      if last.Resolved? {
        assert ResolvedIndices(os) == before + {|os| - 1};
        assert |os| - 1 !in before;
      } else {
        assert ResolvedIndices(os) == before;
      }
    }
  }

  /** One load rejected and one resolved: the resolved one still schedules its initialisation, and `Promise.all` adds none. */
  lemma OneRejectedStillInitialisesOnce(reason: string)
    ensures InitRuns([Resolved, Rejected(reason)]) == 1 && InitRuns([Rejected(reason), Resolved]) == 1
  {
    assert !AllResolved([Resolved, Rejected(reason)]) by { assert !([Resolved, Rejected(reason)][1].Resolved?); }
    assert !AllResolved([Rejected(reason), Resolved]) by { assert !([Rejected(reason), Resolved][0].Resolved?); }
    assert [Resolved, Rejected(reason)][..1] == [Resolved];
    assert [Rejected(reason), Resolved][..1] == [Rejected(reason)];
  }

  /**
   * How many times the theme and menu initialisation run: once per load that
   * resolved (its own `setTimeout`), and once more when `Promise.all` resolves.
   */
  function InitRuns(os: seq<Outcome>): nat {
    ResolvedCount(os) + (if AllResolved(os) then 1 else 0)
  }

  /** The page one copy of the loader runs on. */
  class Page {
    const config: Config
    const location: Location
    /** Ids and class names defined outside the placeholders (the placeholders' own ids included). */
    const staticIds: set<string>
    const staticClasses: set<string>
    /** The `<a>` elements outside the placeholders. */
    var anchors: seq<Element>
    /** The placeholders present, by id, with what they hold. */
    var containers: map<string, Markup>
    const theme: ThemeToggle
    const menu: MobileMenu

    constructor (config: Config, location: Location, staticIds: set<string>, staticClasses: set<string>,
                 anchors: seq<Element>, containers: map<string, Markup>, theme: ThemeToggle, menu: MobileMenu)
      ensures this.config == config && this.location == location
      ensures this.staticIds == staticIds && this.staticClasses == staticClasses
      ensures this.anchors == anchors && this.containers == containers
      ensures this.theme == theme && this.menu == menu
    {
      this.config := config;
      this.location := location;
      this.staticIds := staticIds;
      this.staticClasses := staticClasses;
      this.anchors := anchors;
      this.containers := containers;
      this.theme := theme;
      this.menu := menu;
    }

    /** Every id on the page, so `getElementById(id)` finds an element exactly when `id in Ids()`. */
    function Ids(): set<string>
      reads this
    {
      staticIds + containers.Keys + IdsIn(containers)
    }

    function Classes(): set<string>
      reads this
    {
      staticClasses + ClassesIn(containers)
    }

    /** What `initMobileMenu` looks for: the menu button and the navigation menu. */
    predicate MenuFound()
      reads this
    {
      MenuButtonClass in Classes() && NavMenuClass in Classes()
    }

    /** The placeholders after the requested loads, each holding its load's content. */
    function Loaded(fetch: string -> Response): (r: map<string, Markup>)
      reads this
      ensures r.Keys == containers.Keys
      ensures HeaderContainer in containers ==>
        r[HeaderContainer] == Load(config, location, config.headerComponent, fetch).content
      ensures FooterContainer in containers ==>
        r[FooterContainer] == Load(config, location, config.footerComponent, fetch).content
      ensures forall c :: c in containers && c != HeaderContainer && c != FooterContainer ==> r[c] == containers[c]
    {
      var afterHeader :=
        if HeaderContainer in containers
        then containers[HeaderContainer := Load(config, location, config.headerComponent, fetch).content]
        else containers;
      if FooterContainer in afterHeader
      then afterHeader[FooterContainer := Load(config, location, config.footerComponent, fetch).content]
      else afterHeader
    }

    /** How the requested loads settle, in request order. */
    function Outcomes(fetch: string -> Response): (r: seq<Outcome>)
      reads this
      ensures |r| == |Requests(config, containers.Keys)|
      ensures forall i :: 0 <= i < |r| ==>
        r[i] == Load(config, location, Requests(config, containers.Keys)[i].1, fetch).outcome
    {
      var reqs := Requests(config, containers.Keys);
      seq(|reqs|, i requires 0 <= i < |reqs| => Load(config, location, reqs[i].1, fetch).outcome)
    }

    /**
     * `loadComponent(containerId, name)`: a missing placeholder rejects and
     * changes nothing; otherwise the placeholder gets the load's content.
     */
    method LoadComponent(containerId: string, name: string, fetch: string -> Response) returns (o: Outcome)
      modifies this
      ensures anchors == old(anchors)
      ensures containerId !in old(containers) ==>
        containers == old(containers) && o == Rejected("Container #" + containerId + " not found")
      ensures containerId in old(containers) ==>
        containers == old(containers)[containerId := Load(config, location, name, fetch).content]
        && o == Load(config, location, name, fetch).outcome
    {
      if containerId !in containers {
        return Rejected("Container #" + containerId + " not found");
      }
      var r := Load(config, location, name, fetch);
      containers := containers[containerId := r.content];
      o := r.outcome;
    }

    /**
     * fixLinksForFileProtocol: opened from disk, every link on the page, inside
     * the placeholders or not, goes through FixAnchor under the project root.
     */
    method FixLinksForFileProtocol()
      modifies this
      ensures location.protocol != FileProtocol ==> anchors == old(anchors) && containers == old(containers)
      ensures location.protocol == FileProtocol ==>
        var root := ProjectRoot(location.pathname, config.linkRootAnchor, config.linkRootAnchorLength);
        anchors == FixAnchors(root, old(anchors)) && containers == FixContainers(root, old(containers))
      ensures Ids() == old(Ids()) && Classes() == old(Classes())
    {
      if location.protocol != FileProtocol {
        return;
      }
      var root := ProjectRoot(location.pathname, config.linkRootAnchor, config.linkRootAnchorLength);
      var i := 0;
      while i < |anchors|
        invariant 0 <= i <= |anchors| == |old(anchors)|
        invariant forall k | 0 <= k < i :: anchors[k] == FixAnchor(root, old(anchors)[k])
        invariant forall k | i <= k < |anchors| :: anchors[k] == old(anchors)[k]
        invariant containers == old(containers)
      {
        anchors := anchors[i := FixAnchor(root, anchors[i])];
        i := i + 1;
      }
      assert anchors == FixAnchors(root, old(anchors));
      FixContainersKeepsNames(root, containers);
      containers := FixContainers(root, containers);
    }

    /**
     * The `runs` scheduled calls of initThemeToggle and initMobileMenu: the theme
     * settles after the first, while every call adds a menu toggle listener.
     */
    method RunInitialisations(runs: nat, toggleFound: bool, menuFound: bool)
      modifies theme, menu
      ensures theme.State() == (if runs > 0 then ThemeAfterInit(old(theme.State()), config.theme, toggleFound) else old(theme.State()))
      ensures menu.State() == MenuAfterInits(old(menu.State()), menuFound, true, runs)
    {
      var k := 0;
      while k < runs
        invariant 0 <= k <= runs
        invariant theme.State() == (if k > 0 then ThemeAfterInit(old(theme.State()), config.theme, toggleFound) else old(theme.State()))
        invariant menu.State() == MenuAfterInits(old(menu.State()), menuFound, true, k)
      {
        ThemeInitIdempotent(old(theme.State()), config.theme, toggleFound);
        theme.Init(config.theme, toggleFound);
        menu.Init(menuFound, true);
        k := k + 1;
      }
    }

    /** The loads `initComponents` starts: the header's, then the footer's, for the placeholders present. */
    method LoadRequested(fetch: string -> Response) returns (outcomes: seq<Outcome>)
      modifies this
      ensures outcomes == old(Outcomes(fetch))
      ensures containers == old(Loaded(fetch)) && anchors == old(anchors)
    {
      outcomes := [];
      if HeaderContainer in containers {
        var o := LoadComponent(HeaderContainer, config.headerComponent, fetch);
        outcomes := outcomes + [o];
      }
      if FooterContainer in containers {
        var o := LoadComponent(FooterContainer, config.footerComponent, fetch);
        outcomes := outcomes + [o];
      }
    }

    /**
     * initComponents: loads the header, then the footer, into whichever
     * placeholders exist; runs the theme and menu initialisation once per
     * resolved load and once more when all resolved; and, when all resolved,
     * fixes the links. The initialisation sees the page after both loads.
     */
    method InitComponents(fetch: string -> Response) returns (outcomes: seq<Outcome>)
      modifies this, theme, menu
      ensures outcomes == old(Outcomes(fetch))
      ensures anchors == (if AllResolved(outcomes) && location.protocol == FileProtocol
                          then FixAnchors(ProjectRoot(location.pathname, config.linkRootAnchor, config.linkRootAnchorLength), old(anchors))
                          else old(anchors))
      ensures containers == (if AllResolved(outcomes) && location.protocol == FileProtocol
                             then FixContainers(ProjectRoot(location.pathname, config.linkRootAnchor, config.linkRootAnchorLength), old(Loaded(fetch)))
                             else old(Loaded(fetch)))
      ensures theme.State() == (if InitRuns(outcomes) > 0
                                then ThemeAfterInit(old(theme.State()), config.theme, config.theme.toggleId in Ids())
                                else old(theme.State()))
      ensures menu.State() == MenuAfterInits(old(menu.State()), MenuFound(), true, InitRuns(outcomes))
    {
      outcomes := LoadRequested(fetch);
      // The scheduled initialisations, on the page as the loads left it.
      RunInitialisations(InitRuns(outcomes), config.theme.toggleId in Ids(), MenuFound());
      if AllResolved(outcomes) {
        FixLinksForFileProtocol();
      }
    }
  }
}
