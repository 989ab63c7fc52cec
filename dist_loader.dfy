/**
 * The deployed copy of the loader (dist/loadComponents.js): its configuration,
 * its registry of built-in fragments, and what follows from them.
 */
module DistLoader {
  import opened Strings
  import opened Browser
  import opened Widgets
  import opened Loader

  const ProjectDir := "/alsania-io-site"

  /** One of the footer's social links, opened in a new tab. */
  function SocialLink(href: string, title: string): Element {
    Element("a", map["href" := href, "title" := title, "target" := "_blank", "rel" := "noopener"])
  }

  const HeaderAnchors: seq<Element> := [
    ClassedLink("/", "alsania-logo"),
    ClassedLink("/", "nav-link"),
    ClassedLink("/tools/nyx/", "nav-link"),
    ClassedLink("/shop/", "nav-link"),
    ClassedLink("/about/", "nav-link"),
    ClassedLink("/contact/", "nav-link"),
    ClassedLink("/donate/", "nav-link")]

  /** The built-in header: it has the placeholder for the theme switch, but not the switch itself. */
  const Header := Fragment(
    {"theme-toggle-container"},
    {"alsania-header", "nav-container", "alsania-logo", "logo-container", "logo-text",
     "alsania-nav", "nav-link", "header-right", "mobile-menu"},
    HeaderAnchors)

  const FooterAnchors: seq<Element> := [
    SocialLink("https://github.com/alsania-dev", "GitHub"),
    SocialLink("https://twitter.com/alsania-io", "Twitter"),
    SocialLink("https://discord.gg/alsania-io", "Discord"),
    Link("/tools/nyx/"),
    Link("/shop/"),
    Link("/redbubble"),
    Link("/dashery"),
    Link("/tools/devcon/"),
    Link("/tools/scrypgen/"),
    Link("/tools/nyx-unified/"),
    Link("/aed/"),
    Link("/legal/privacy-policy.html"),
    Link("/legal/terms.html"),
    Link("/legal/disclaimer.html"),
    Link("/legal/refund-policy.html")]

  const Footer := Fragment(
    {},
    {"footer", "footer-container", "footer-grid", "footer-section", "social-links", "footer-bottom"},
    FooterAnchors)

  const Dist := Config(
    FileProtocol,
    ProjectDir,
    ProjectDir,
    |ProjectDir|,
    map["header.html" := Header, "footer.html" := Footer],
    "header.html",
    "footer.html",
    ThemeConfig("theme-toggle", "alsania-theme", "alsania-theme"))

  /**
   * Served over HTTP the components live at `/components`; opened from disk
   * they live in the `components` folder of the first `alsania-io-site`
   * directory on the path, or, when there is none, under the first 15
   * characters of the path.
   */
  lemma BasePath(loc: Location)
    ensures loc.protocol != FileProtocol ==> ComponentsBasePath(Dist, loc) == ComponentsDir
    ensures loc.protocol == FileProtocol && IndexOf(loc.pathname, ProjectDir) >= 0 ==>
      ComponentsBasePath(Dist, loc)
        == FileScheme + loc.pathname[..IndexOf(loc.pathname, ProjectDir) + |ProjectDir|] + ComponentsDir
    ensures loc.protocol == FileProtocol && IndexOf(loc.pathname, ProjectDir) == -1 ==>
      ComponentsBasePath(Dist, loc)
        == FileScheme + loc.pathname[..Clamp(|ProjectDir| - 1, |loc.pathname|)] + ComponentsDir
  {
  }

  /** Over HTTP the header is fetched from `/components/header.html`. */
  lemma HeaderUrl(loc: Location)
    requires loc.protocol != FileProtocol
    ensures ComponentUrl(Dist, loc, Dist.headerComponent) == "/components/header.html"
  {
  }

  /** Opened from disk, both built-in fragments are found, whatever the network does. */
  lemma FileLoadsResolve(loc: Location, fetch: string -> Response)
    requires loc.protocol == FileProtocol
    ensures Load(Dist, loc, Dist.headerComponent, fetch) == LoadResult(Header, Resolved)
    ensures Load(Dist, loc, Dist.footerComponent, fetch) == LoadResult(Footer, Resolved)
  {
  }

  /** The built-in fragments define no element with the theme switch's id. */
  lemma RegistryHasNoThemeSwitch()
    ensures forall name | name in Dist.inline :: Dist.theme.toggleId !in IdsOf(Dist.inline[name])
  {
    assert Dist.inline.Keys == {"header.html", "footer.html"};
    assert "theme-toggle" != "theme-toggle-container";
  }

  /** A theme chosen on one page is the theme of the next: this copy reads the key it writes. */
  lemma ThemeChoicePersists(storage: map<string, string>)
    ensures var before := ThemeAfterToggle(ThemeAfterInit(FreshPage(storage), Dist.theme, true));
      var after := ThemeAfterInit(FreshPage(before.storage), Dist.theme, true);
      after.dataTheme == before.dataTheme && after.checked == before.checked
  {
    ChoiceSurvivesReload(storage, Dist.theme);
  }

  /**
   * On a page opened from disk with only a header placeholder, the
   * initialisation runs twice (after the header's own load and after
   * `Promise.all`), so the menu button gets two toggle listeners and a click on it
   * leaves the menu shut; with both placeholders it runs three times and the
   * button works. Both start from the page's own menu, shut and without listeners.
   */
  lemma MenuButtonOnDisk(p: Page, fetch: string -> Response)
    requires p.config == Dist && p.location.protocol == FileProtocol
    requires HeaderContainer in p.containers
    ensures FooterContainer !in p.containers ==> InitRuns(p.Outcomes(fetch)) == 2
    ensures FooterContainer in p.containers ==> InitRuns(p.Outcomes(fetch)) == 3
    ensures var s := p.menu.State();
      FooterContainer !in p.containers && s.toggles == 0 && !s.navActive ==>
        forall found: bool :: !MenuAfterClick(MenuAfterInits(s, found, true, InitRuns(p.Outcomes(fetch))), MenuButton).navActive
    ensures var s := p.menu.State();
      FooterContainer in p.containers && s.toggles == 0 && !s.navActive ==>
        MenuAfterClick(MenuAfterInits(s, true, true, InitRuns(p.Outcomes(fetch))), MenuButton).navActive
  {
    FileLoadsResolve(p.location, fetch);
    var os := p.Outcomes(fetch);
    var s := p.menu.State();
    if FooterContainer in p.containers {
      assert Requests(Dist, p.containers.Keys) == [(HeaderContainer, "header.html"), (FooterContainer, "footer.html")];
      assert AllResolved(os);
    } else {
      assert Requests(Dist, p.containers.Keys) == [(HeaderContainer, "header.html")];
      assert AllResolved(os);
    }
    forall found: bool {
      MenuInitsCount(s, found, true, InitRuns(os));
    }
  }

  /** Opened from disk, every header link points at the `index.html` of its directory under the project root. */
  lemma HeaderLinksOnDisk(root: string)
    ensures forall i | 0 <= i < |HeaderAnchors| ::
      FixAnchor(root, HeaderAnchors[i]).attrs["href"]
        == FileScheme + root + HeaderAnchors[i].attrs["href"] + "index.html"
  {
    forall i | 0 <= i < |HeaderAnchors|
      ensures FixAnchor(root, HeaderAnchors[i]).attrs["href"]
        == FileScheme + root + HeaderAnchors[i].attrs["href"] + "index.html"
    {
      DirectoryLinkOnDisk(root, HeaderAnchors[i].attrs["href"]);
    }
  }

  /** The header's Shop link, opened from disk, points at `shop/index.html` under the project root. */
  lemma ShopLinkOnDisk(root: string)
    ensures HeaderAnchors[3] == ClassedLink("/shop/", "nav-link")
    ensures FixAnchor(root, HeaderAnchors[3]).attrs["href"] == FileScheme + root + "/shop/" + "index.html"
  {
    DirectoryLinkOnDisk(root, "/shop/");
  }

  /** The store links of the footer leave the local copy for the stores themselves. */
  lemma StoreLinksRedirect(root: string)
    ensures FixAnchor(root, FooterAnchors[5]).attrs["href"] == RedbubbleShop
    ensures FixAnchor(root, FooterAnchors[6]).attrs["href"] == "https://mnemonic.dashery.com/"
  {
    assert FooterAnchors[5] == Link("/redbubble") && FooterAnchors[6] == Link("/dashery");
    assert Redirects["/redbubble"] == RedbubbleShop && Redirects["/dashery"] == "https://mnemonic.dashery.com/";
  }

  /** Links to other sites keep their address and their `target`. */
  lemma SocialLinksUntouched(root: string)
    ensures forall i | 0 <= i < 3 :: FixAnchor(root, FooterAnchors[i]) == FooterAnchors[i]
  {
    forall i | 0 <= i < 3 ensures FixAnchor(root, FooterAnchors[i]) == FooterAnchors[i] {
      var e := FooterAnchors[i];
      if i == 0 {
        assert e.attrs["href"][0] == 'h';
      } else if i == 1 {
        assert e.attrs["href"][0] == 'h';
      } else {
        assert e.attrs["href"][0] == 'h';
      }
      RelativeOrExternalLinkUntouched(root, e);
    }
  }

  /** A social link whose address does not start with `/` (an `https://` address, say) keeps every attribute. */
  lemma SocialLinkUntouched(root: string, href: string, title: string)
    requires href != [] && href[0] != '/'
    ensures FixAnchor(root, SocialLink(href, title)) == SocialLink(href, title)
  {
    RelativeOrExternalLinkUntouched(root, SocialLink(href, title));
  }
}
