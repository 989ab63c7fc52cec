/**
 * The copy of the loader at the repository root (loadComponents.js): the same
 * engine as the deployed copy, with a different configuration. Its protocol
 * test, its project-root needle, its component names and its theme keys all
 * differ, and the lemmas here spell out what each difference does.
 */
module RootLoader {
  import opened Strings
  import opened Browser
  import opened Widgets
  import opened Loader
  import DistLoader

  /** The first 16 characters of LongDir, as many as `"/alsania-io-site".length` keeps. */
  const LongDirKept := "/home/sigma/Desk"

  /** The absolute directory both project-root computations search the pathname for. */
  const LongDir := LongDirKept + "top/echo-lab/alsania-io-site"

  /** The built-in header: it contains the theme switch, under the id `theme-toggle`. */
  const Header := Fragment(
    {"theme-toggle-container", "theme-toggle"},
    {"alsania-header", "nav-container", "alsania-logo", "logo-text", "alsania-nav", "nav-link",
     "header-right", "theme-toggle", "theme-toggle-checkbox", "theme-toggle-label",
     "theme-toggle-icon", "theme-toggle-slider", "mobile-menu"},
    DistLoader.HeaderAnchors)  // the same seven links as the deployed header

  /** A link to another site, opened in a new tab. */
  function ExternalLink(href: string): Element {
    Element("a", map["href" := href, "target" := "_blank"])
  }

  const FooterAnchors: seq<Element> := [
    Link("/tools/nyx/"),
    Link("/tools/devcon/"),
    Link("/tools/scrypgen/"),
    Link("/tools/nyx-unified/"),
    Link("legal/privacy-policy.html"),
    Link("legal/terms.html"),
    Link("legal/disclaimer.html"),
    Link("legal/refund-policy.html"),
    ExternalLink("https://twitter.com/sigmasauer07"),
    ExternalLink("https://github.com/alsania-dev"),
    Link("contact/")]

  const Footer := Fragment(
    {},
    {"alsania-footer", "footer-content", "footer-section", "footer-bottom"},
    FooterAnchors)

  const Root := Config(
    "file//:",
    LongDir,
    LongDir,
    |"/alsania-io-site"|,
    map["components/header.html" := Header, "components/footer.html" := Footer],
    "components/header.html",
    "components/footer.html",
    ThemeConfig("components/theme-toggle", "assets/css/glass-theme", "alsania-theme"))

  /** `"file//:"` contains slashes, so no page location ever has it as its protocol. */
  lemma BasePathProtocolNeverMatches()
    ensures !ValidProtocol(Root.basePathProtocol)
  {
    assert !IsSchemeChar(Root.basePathProtocol[4]);
  }

  /** Wherever the page is, the components base path is `/components`, even opened from disk. */
  lemma BasePathAlwaysServerRelative(loc: Location)
    requires ValidProtocol(loc.protocol)
    ensures ComponentsBasePath(Root, loc) == ComponentsDir
  {
    BasePathProtocolNeverMatches();
  }

  /** Over HTTP the header is fetched from a doubled `components` directory. */
  lemma HeaderUrl(loc: Location)
    requires ValidProtocol(loc.protocol)
    ensures ComponentUrl(Root, loc, Root.headerComponent) == "/components/components/header.html"
  {
    BasePathAlwaysServerRelative(loc);
    assert ComponentUrl(Root, loc, Root.headerComponent) == ComponentsDir + "/" + "components/header.html";
    DoubledComponentsPath();
  }

  /** The base path, a slash and the component name spell the doubled directory. */
  lemma DoubledComponentsPath()
    ensures ComponentsDir + "/" + "components/header.html" == "/components/components/header.html"
  {
  }

  /** Opened from disk, both built-in fragments are found. */
  lemma FileLoadsResolve(loc: Location, fetch: string -> Response)
    requires loc.protocol == FileProtocol
    ensures Load(Root, loc, Root.headerComponent, fetch) == LoadResult(Header, Resolved)
    ensures Load(Root, loc, Root.footerComponent, fetch) == LoadResult(Footer, Resolved)
  {
  }

  /**
   * The link root is cut 16 characters into the absolute directory it found,
   * not at its end: it ends in `/home/sigma/Desk`. Without that directory on
   * the path it is the path's first 15 characters.
   */
  lemma LinkRootCutShort(pathname: string)
    ensures Root.linkRootAnchor == LongDir && Root.linkRootAnchorLength == 16
    ensures IndexOf(pathname, LongDir) >= 0 ==>
      ProjectRoot(pathname, LongDir, 16) == pathname[..IndexOf(pathname, LongDir)] + "/home/sigma/Desk"
    ensures IndexOf(pathname, LongDir) == -1 ==>
      ProjectRoot(pathname, LongDir, 16) == pathname[..Clamp(15, |pathname|)]
  {
    var k := IndexOf(pathname, LongDir);
    if k >= 0 {
      assert pathname[k..k + |LongDir|] == LongDir;
      assert pathname[..k + 16] == pathname[..k] + pathname[k..k + 16];
      assert pathname[k..k + 16] == LongDir[..16] == LongDirKept;
    }
  }

  /** Hence, opened from that directory, the Shop link points outside the project. */
  lemma ShopLinkOnDisk(pathname: string)
    requires IndexOf(pathname, LongDir) >= 0
    ensures FixAnchor(ProjectRoot(pathname, LongDir, 16), DistLoader.HeaderAnchors[3]).attrs["href"]
      == FileScheme + pathname[..IndexOf(pathname, LongDir)] + "/home/sigma/Desk" + "/shop/" + "index.html"
  {
    var prefix := pathname[..IndexOf(pathname, LongDir)];
    var root := ProjectRoot(pathname, LongDir, 16);
    LinkRootCutShort(pathname);
    assert root == prefix + "/home/sigma/Desk";
    DistLoader.ShopLinkOnDisk(root);
    assert FileScheme + root == FileScheme + prefix + "/home/sigma/Desk";
  }

  /** The footer's relative links and the links to other sites are left alone. */
  lemma FooterRelativeLinksUntouched(root: string)
    ensures forall i | 4 <= i < |FooterAnchors| :: FixAnchor(root, FooterAnchors[i]) == FooterAnchors[i]
  {
    forall i | 4 <= i < |FooterAnchors| ensures FixAnchor(root, FooterAnchors[i]) == FooterAnchors[i] {
      var e := FooterAnchors[i];
      if i == 4 {
        assert e.attrs["href"][0] == 'l';
      } else if i == 5 {
        assert e.attrs["href"][0] == 'l';
      } else if i == 6 {
        assert e.attrs["href"][0] == 'l';
      } else if i == 7 {
        assert e.attrs["href"][0] == 'l';
      } else if i == 8 {
        assert e.attrs["href"][0] == 'h';
      } else if i == 9 {
        assert e.attrs["href"][0] == 'h';
      } else {
        assert e.attrs["href"][0] == 'c';
      }
      RelativeOrExternalLinkUntouched(root, e);
    }
  }

  /**
   * The theme switch is looked up as `components/theme-toggle`, an id no
   * built-in fragment defines, while the built-in header names its switch
   * `theme-toggle`.
   */
  lemma ThemeSwitchNotFound()
    ensures forall name | name in Root.inline :: Root.theme.toggleId !in IdsOf(Root.inline[name])
    ensures "theme-toggle" in IdsOf(Header)
  {
    assert Root.inline.Keys == {"components/header.html", "components/footer.html"};
    assert Root.theme.toggleId != "theme-toggle" && Root.theme.toggleId != "theme-toggle-container" by {
      assert |Root.theme.toggleId| == 23;
    }
  }

  /**
   * Even where the switch is found, the choice does not survive a reload: it is
   * written under `alsania-theme` and read from `assets/css/glass-theme`.
   */
  lemma ThemeChoiceLost(storage: map<string, string>)
    ensures var first := ThemeAfterInit(FreshPage(storage), Root.theme, true);
      var before := ThemeAfterToggle(first);
      var after := ThemeAfterInit(FreshPage(before.storage), Root.theme, true);
      after.dataTheme == first.dataTheme && after.checked != before.checked
  {
    assert Root.theme.readKey != Root.theme.writeKey by { assert |Root.theme.readKey| == 22 && |Root.theme.writeKey| == 13; }
    ChoiceLostOnReload(storage, Root.theme);
  }
}
