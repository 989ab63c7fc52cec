# Alsania site browser glue, modelled in Dafny

This project models the scripts that run in the browser on the Alsania static
site. All five are vanilla JavaScript with no build step.

- **The asset path resolver** (`assets/js/fix-paths.js`):
  - On the GitHub Pages project host, it prefixes root-relative `href`, `src` and preview-image `content` values with the repository sub-path `/alsania-io-site`.
  - It rewrites the whole page once.
  - It then rewrites anchors and images inserted later, through a mutation observer.
- **The component loader**, in its deployed copy (`dist/loadComponents.js`) and its root copy (`loadComponents.js`):
  - It fills `#header-container` and `#footer-container`, either from built-in fragments (pages opened from disk) or by fetching `/components/<name>` (pages served over HTTP).
  - It reports a missing container, an HTTP error or a network failure with an error box.
  - It wires the theme switch and the mobile menu.
  - On disk, it rewrites root-relative links to `file://` URLs ending in `index.html`, and follows a small redirect table.
- **The dashboard navigation** (`utils/js/navigation.js`):
  - A role-keyed table of pages.
  - The `.nav-link` list rendered from it, with the current page marked `active`.
  - Navigation that marks links, shows a loading placeholder and pushes a history entry.
  - The back/forward listener.
  - The saved start page.
- **The site-wide script** (`assets/js/scripts.js`):
  - The waitlist form: trimming, the email pattern, button and message states, and the analytics failure path.
  - Its own theme switch and mobile menu.

## How the model is organised

Modules follow the source files:

- `Strings`: the JavaScript string operations the scripts use (`startsWith`, `indexOf`, clamping `substring`, `trim`'s whitespace set, number formatting).
- `Browser`: elements as tag plus attribute map, locations, local-storage reads, and truthiness.
- `FixPaths` models `fix-paths.js`.
  - The rewrite rule is a function on values. A page pass is a function on the sequence of elements, and so is an observer callback.
  - The `Document` class keeps the elements in a field and updates it.
- `Widgets` holds the theme switch and the mobile menu, which all three loader and script copies set up.
  - Each is a pure state transition, plus a class (`ThemeToggle`, `MobileMenu`) whose fields the methods update.
  - Each method's contract ties its new state to that transition.
- `Loader` is the engine both loader copies share, written once and parameterised by a `Config`:
  - path computation, `loadComponent`, the redirect and `index.html` rewrite, and the order of initialisations;
  - the `Page` class, whose `InitComponents` is the whole of `initComponents`.
- `DistLoader` and `RootLoader` give each copy its configuration and built-in fragments, and prove what follows from them.
  - The root copy's protocol test is `"file//:"`, which no location has.
  - Its project-root needle is cut 16 characters into the directory name.
  - It reads the theme from a key it never writes.
  - It looks the switch up under an id no fragment defines.
- `Navigation` models `navigation.js`: the table, rendering and the `AlsaniaNavigation` class.
- `Scripts` models `scripts.js`: the email check, `trim`, the `WaitlistForm` class, and the theme and menu set-up.

Where the code does not do what its own guards and comments evidently intend, the model follows the code:

- **fix-paths is not idempotent.** The "already prefixed" guard (`assets/js/fix-paths.js:31-33`) compares values with `'/' + basePath + '/'`, which begins with `//`. The guard before it has already rejected such values, so this one never fires. An already prefixed value is prefixed again: see `FixPaths.GuardIsDead` and `FixPaths.FixValueNotIdempotent`.
- **The loader's `index.html` rule looks for a dot in the whole `href`, not its last segment** (`dist/loadComponents.js:284-290`, under the comment "Determine if it needs index.html"). So `/v1.2/docs` is left without `index.html`: see `Loader.DottedDirectoryKeptAsIs`.
- **Handlers stack up.** Every successful `loadComponent` schedules `initThemeToggle(); initMobileMenu()`, and `Promise.all(...).then` runs them once more. Each run adds another click listener to the menu button.
  - Theme initialisation is idempotent, so repeating it is harmless.
  - Every pair of menu toggle listeners cancels out, so a click on the button changes the menu exactly when an odd number of runs happened.
  - The model counts the runs with `Loader.InitRuns` and proves what that count does.
  - A deployed page opened from disk with only a header placeholder gets two runs, so its menu button does nothing (`DistLoader.MenuButtonOnDisk`).

## Model

| member | source | states |
|---|---|---|
| Strings.IndexOf | dist/loadComponents.js:24-27 | `indexOf`: -1 exactly when the needle does not occur; otherwise the needle occurs at the result and at no earlier index |
| Strings.Substring | dist/loadComponents.js:24-27 | `substring` keeps the ordinary slice when its bounds are in range |
| Strings.SubstringFromZero | dist/loadComponents.js:24-27 | `substring(0, end)` is the prefix up to `end` clamped to `[0, length]`; a negative end gives the empty string |
| Strings.NatToString | dist/loadComponents.js:167 | the decimal text of a status is non-empty, all digits, and starts with `0` only for zero |
| Strings.NatToStringValue | dist/loadComponents.js:167 | reading the decimal text back gives the number |
| Strings.NatToStringInjective | dist/loadComponents.js:167 | two statuses with the same text are equal |
| Browser.GetAttribute | assets/js/fix-paths.js:26 | `getAttribute` is present exactly for attributes the element has, with their value |
| Browser.SetAttribute | assets/js/fix-paths.js:36-37 | `setAttribute` sets that one attribute and keeps the tag and every other attribute |
| FixPaths.BasePath | assets/js/fix-paths.js:14-18 | the base path is `/alsania-io-site` exactly on `alsania-dev.github.io`, and empty on every other host |
| FixPaths.AlnumRunThenColonIff | assets/js/fix-paths.js:34 | the recursive scan equals "a colon at some k ≥ 1 preceded only by letters and digits" |
| FixPaths.SchemeLikeIff | assets/js/fix-paths.js:34 | the scheme test is `/^\/[a-z0-9]+:/i`, read literally |
| FixPaths.GuardIsDead | assets/js/fix-paths.js:31-33 | for a base path starting with `/`, no value that passed the `//` test can start with `'/' + base + '/'` |
| FixPaths.FixValueExact | assets/js/fix-paths.js:25-43 | fixAttribute rewrites a value to `base + value` exactly when it starts with one slash (not two) and is not a disguised scheme; otherwise, including empty and relative values, it keeps the value |
| FixPaths.UnderBaseNotSchemeLike | assets/js/fix-paths.js:31-34 | a value already under the base path is never scheme-like |
| FixPaths.AlreadyPrefixedIsPrefixedAgain | assets/js/fix-paths.js:31-37 | a value that already starts with `/alsania-io-site/` is prefixed once more |
| FixPaths.FixValueNotIdempotent | assets/js/fix-paths.js:25-43 | applying the rewrite twice prefixes twice, and gives a different value than applying it once |
| FixPaths.FixAttribute | assets/js/fix-paths.js:25-43 | only the named attribute changes, to the rewritten value; the tag, the attribute names and every other value stay |
| FixPaths.FixMeta | assets/js/fix-paths.js:73-81 | a meta `content` is prefixed exactly when it has one leading slash and its property or name mentions `image` or `logo`; nothing else changes |
| FixPaths.MetaHasNoSchemeTest | assets/js/fix-paths.js:75-78 | unlike the other rules, the meta rule prefixes `/https:x` in `og:image` |
| FixPaths.StepKeepsShape | assets/js/fix-paths.js:46-84 | every rewrite keeps the tag, the attribute names and `rel`, so it keeps which selectors an element matches |
| FixPaths.Pass | assets/js/fix-paths.js:48-50 | one `querySelectorAll(...).forEach` changes each element by that selector's rule and keeps the page's length |
| FixPaths.StepsOnElement | assets/js/fix-paths.js:46-84 | the six passes, in order, act on one element as the single rule its kind receives |
| FixPaths.FixAllPathsElementwise | assets/js/fix-paths.js:46-84 | fixAllPaths gives every element exactly the rewrite for its kind (anchor, stylesheet, script, image, icon, meta image) |
| FixPaths.FixAt | assets/js/fix-paths.js:94-99 | fixing the element at `i` gives it that selector's rule once and leaves every other element as it was |
| FixPaths.FixEach | assets/js/fix-paths.js:102-103 | fixing a list of descendants gives each element the selector's rule once per time it is listed, and leaves unlisted elements as they were |
| FixPaths.FixNodeListed | assets/js/fix-paths.js:92-104 | handling one added node leaves each element as the observer reaching it as often as the node lists it (itself, or a descendant) |
| FixPaths.FixNodesListed | assets/js/fix-paths.js:91-105 | handling a record's added nodes leaves each element as the observer reaching it as often as the nodes list it in total |
| FixPaths.FixRecordsListed | assets/js/fix-paths.js:87-108 | a callback on a batch of records leaves each element as the observer reaching it as often as the records list it in total |
| FixPaths.RepeatKeepsShape | assets/js/fix-paths.js:94-103 | rewriting an element any number of times keeps its tag, its attribute names and which selectors it matches |
| FixPaths.RepeatUnmatched | assets/js/fix-paths.js:94-103 | an element the selector does not match is never changed, however often it is listed |
| FixPaths.RepeatAdd | assets/js/fix-paths.js:94-103 | `a` rewrites followed by `b` rewrites are `a + b` rewrites |
| FixPaths.ObservedMeaning | assets/js/fix-paths.js:94-103 | an element the observer does not reach, or that is neither anchor nor image, is unchanged; reached once, an anchor or image gets the initial pass's rule; an anchor reached twice is prefixed twice |
| FixPaths.ObservedAdd | assets/js/fix-paths.js:87-108 | the observer reaching an element `a` times and then `b` times is reaching it `a + b` times |
| FixPaths.AnchorThenImage | assets/js/fix-paths.js:94-103 | the anchor pass followed by the image pass, each `n` times, is the observer's effect for `n` reaches |
| FixPaths.InsertedNodesGetInitialRule | assets/js/fix-paths.js:87-108 | elements no record reaches are unchanged; an anchor or image reached exactly once gets exactly the rewrite the initial pass gives it |
| FixPaths.UntouchedTrans | assets/js/fix-paths.js:87-108 | "only anchors and images changed" composes across steps |
| FixPaths.FixAtUntouched | assets/js/fix-paths.js:94-99 | fixing one element as an anchor or an image leaves every non-anchor, non-image element intact |
| FixPaths.FixEachUntouched | assets/js/fix-paths.js:102-103 | fixing descendants leaves every non-anchor, non-image element intact |
| FixPaths.FixNodeUntouched | assets/js/fix-paths.js:92-104 | handling one added node leaves every non-anchor, non-image element intact |
| FixPaths.FixNodesUntouched | assets/js/fix-paths.js:91-105 | handling a record's nodes leaves every non-anchor, non-image element intact |
| FixPaths.FixRecordsUntouched | assets/js/fix-paths.js:87-108 | the observer never rewrites stylesheets, scripts, icons or meta tags, only anchors and images |
| FixPaths.InsertedLeafGetsInitialRule | assets/js/fix-paths.js:87-108 | an inserted anchor or image with no descendants gets exactly the rewrite the initial pass would give it |
| FixPaths.Document.constructor | assets/js/fix-paths.js:4 | a page with its elements and no observer yet |
| FixPaths.Document.Start | assets/js/fix-paths.js:8-22 | under `file:`, or when the base path is empty, nothing changes; otherwise the page becomes fixAllPaths of itself and the observer holds the base path |
| FixPaths.Document.FixAll | assets/js/fix-paths.js:46-84 | the six in-place passes leave the page equal to fixAllPaths of the old page |
| FixPaths.Document.RunPass | assets/js/fix-paths.js:48-50 | one in-place pass leaves the page equal to that selector's rule on the old page |
| FixPaths.Document.SetupMutationObserver | assets/js/fix-paths.js:111-123 | an empty base path installs nothing; any other base path installs the observer with that base |
| FixPaths.Document.OnMutations | assets/js/fix-paths.js:87-108 | without an observer nothing changes; with one, the page becomes FixRecords of the old page |
| FixPaths.Document.FixAddedNodes | assets/js/fix-paths.js:91-105 | the loop over added nodes leaves the page equal to FixNodes of the old page |
| FixPaths.Document.FixDescendants | assets/js/fix-paths.js:102-103 | the loop over descendants leaves the page equal to FixEach of the old page |
| Widgets.InitialTheme | dist/loadComponents.js:211-212 | the saved theme, or `dark` when nothing or an empty string is saved; never empty |
| Widgets.ThemeFor | dist/loadComponents.js:222 | the switch's new theme is `light` exactly when it is checked, `dark` exactly when not |
| Widgets.ThemeAfterInit | dist/loadComponents.js:203-227 | storage is never written; without the switch nothing changes; with it, `data-theme` becomes the theme saved under the read key (dark when nothing is saved), the switch is checked exactly when that theme is `light`, and the change listener writes the write key |
| Widgets.NothingSavedComesUpDark | dist/loadComponents.js:211-216 | with nothing or an empty string saved, the page comes up dark with the switch unchecked and the listener installed |
| Widgets.ThemeAfterToggle | dist/loadComponents.js:221-226 | the switch flips; with the listener installed, `data-theme` and the write key take the theme the new position means and no other stored key changes; without it nothing else changes |
| Widgets.ThemeInitIdempotent | dist/loadComponents.js:203-227 | running the theme initialisation twice is the same as running it once |
| Widgets.ChoiceSurvivesReload | dist/loadComponents.js:211-224 | when the read key is the write key, the theme chosen before a reload is the theme and switch position after it |
| Widgets.ChoiceLostOnReload | loadComponents.js:187-200 | when the keys differ, a reload brings back the first page's theme and leaves the switch in the other position |
| Widgets.ThemeToggle.constructor | dist/loadComponents.js:203 | the switch and the document start in the given state |
| Widgets.ThemeToggle.Init | dist/loadComponents.js:203-227 | the fields become ThemeAfterInit of the old state |
| Widgets.ThemeToggle.UserToggles | dist/loadComponents.js:221-226 | the fields become ThemeAfterToggle of the old state |
| Widgets.MenuAfterInit | dist/loadComponents.js:230-250 | a found button gains one toggle listener and the outside-click close is added when asked for; the active flags do not change |
| Widgets.MenuAfterClick | dist/loadComponents.js:238-249 | a button click flips both flags exactly when an odd number of toggle listeners is installed; an outside click closes both only when that listener exists; a click inside the nav does nothing |
| Widgets.MenuInitsCount | dist/loadComponents.js:150-153 | n initialisations with the button present install n toggle listeners, without one install none, and change no flag |
| Widgets.ButtonOpensIffOddInits | dist/loadComponents.js:238-242 | on a closed fresh menu, the first button click opens it exactly when the initialisation ran an odd number of times |
| Widgets.MenuClicksKeepAgreement | dist/loadComponents.js:238-249 | the button's and the nav's `active` flags stay equal through any clicks |
| Widgets.WithoutCloseListenerOnlyButtonCloses | assets/js/scripts.js:20-30 | without the outside-click listener, clicks off the button never change the menu |
| Widgets.MobileMenu.constructor | dist/loadComponents.js:230 | the menu starts in the given state |
| Widgets.MobileMenu.Init | dist/loadComponents.js:230-250 | the fields become MenuAfterInit of the old state |
| Widgets.MobileMenu.Click | dist/loadComponents.js:238-249 | the fields become MenuAfterClick of the old state |
| Loader.ProjectRoot | dist/loadComponents.js:24-27 | the project root is a prefix of the path: it is cut `length` characters after the needle's first occurrence, or at `length - 1` when the needle is absent (`indexOf` gives -1) |
| Loader.ComponentsBasePath | dist/loadComponents.js:16-33 | `/components` unless the protocol is the configured one; then exactly `file://` + the project root of the path + `/components` |
| Loader.HttpErrorReportsStatus | dist/loadComponents.js:167 | the `HTTP <status>` message tells statuses apart |
| Loader.Load | dist/loadComponents.js:133-200 | every rejection shows an error box with its reason; on disk a registered fragment is inserted and resolves, an unknown one rejects; over HTTP an OK response inserts the body, an error status rejects with `HTTP <status>`, a network error rejects with its message |
| Loader.FileLoadIgnoresNetwork | dist/loadComponents.js:145-157 | on disk the result does not depend on the network at all |
| Loader.NetworkLoadRequestsComponentUrl | dist/loadComponents.js:160-176 | over HTTP the result depends only on the response for `<base>/<name>` |
| Loader.IndexPath | dist/loadComponents.js:286-290 | the file path extends the `href` and contains a dot; it is the `href` itself exactly when the `href` has a dot and does not end with `/` |
| Loader.IndexPathBranches | dist/loadComponents.js:284-290 | a trailing `/` is completed with `index.html`, a dotless `href` with `/index.html`; whenever the `href` changes the result ends in `/index.html` |
| Loader.FileHref | dist/loadComponents.js:271-292 | an empty `href` is skipped; a redirect key takes its target; a root-relative `href` with one slash becomes FileUrl of root and `href`; any other `href` is left alone |
| Loader.FileUrl | dist/loadComponents.js:291 | the rewritten address is `file://` + root + the file path, and it starts with `f`, so it is never root-relative |
| Loader.NotSlashLeftAlone | dist/loadComponents.js:271-292 | an `href` that does not start with `/` is never a redirect key and is left alone |
| Loader.RedirectsShape | dist/loadComponents.js:253-257 | the redirect keys start with `/` and do not end with it; no target starts with `/` |
| Loader.FileHrefFinal | dist/loadComponents.js:271-292 | a rewritten `href` is never rewritten again |
| Loader.MerchRedirectWins | dist/loadComponents.js:276-280 | `/merch` takes the redirect's relative target even though it is root-relative |
| Loader.DottedDirectoryKeptAsIs | dist/loadComponents.js:286 | `/v1.2/docs` gets no `index.html`, because the dot test covers the whole `href` |
| Loader.FixAnchor | dist/loadComponents.js:271-292 | only `href` changes, to FileHref's value when there is one; otherwise the anchor is unchanged |
| Loader.FixAnchorIdempotent | dist/loadComponents.js:260-296 | fixing an anchor twice is fixing it once |
| Loader.DirectoryLinkOnDisk | dist/loadComponents.js:283-292 | a root-relative directory link `/…/` becomes `file://` + root + link + `index.html` |
| Loader.RelativeOrExternalLinkUntouched | dist/loadComponents.js:283 | a link not starting with `/` keeps every attribute |
| Loader.FixAnchors | dist/loadComponents.js:271 | every anchor is fixed, in place and in order |
| Loader.FixMarkup | dist/loadComponents.js:271-292 | a fragment keeps its ids and classes and has its anchors fixed; an error box is unchanged |
| Loader.FixContainers | dist/loadComponents.js:271 | every container is fixed and none is added or removed |
| Loader.FixContainersKeepsNames | dist/loadComponents.js:260-296 | fixing links adds and removes no id and no class on the page |
| Loader.Requests | dist/loadComponents.js:305-311 | one load per placeholder on the page: the header load is first and fetches the configured header component, the footer load is last and fetches the configured footer component |
| Loader.ResolvedCount | dist/loadComponents.js:150-153 | the number of loads that scheduled an initialisation equals the number of loads exactly when all resolved |
| Loader.ResolvedCountCounts | dist/loadComponents.js:150-153 | that number is exactly the number of positions whose load resolved, whatever the other loads did |
| Loader.OneRejectedStillInitialisesOnce | dist/loadComponents.js:150-153 | with one load resolved and one rejected, in either order, the initialisation runs once: from the resolved load's timer, and not from `Promise.all` |
| Loader.Page.constructor | dist/loadComponents.js:299 | a page with its static elements, containers, theme switch and menu |
| Loader.Page.Loaded | dist/loadComponents.js:305-311 | each present container holds what Load gives for its component; other containers are unchanged |
| Loader.Page.Outcomes | dist/loadComponents.js:305-314 | one outcome per request, each Load's outcome for that container's component |
| Loader.Page.LoadComponent | dist/loadComponents.js:133-200 | a missing container rejects with `Container #<id> not found` and changes nothing; otherwise the container takes Load's content and the outcome is Load's |
| Loader.Page.FixLinksForFileProtocol | dist/loadComponents.js:260-296 | over HTTP nothing changes; on disk every anchor on the page and in the containers is fixed; ids and classes are preserved |
| Loader.Page.LoadRequested | dist/loadComponents.js:305-311 | the header's load, then the footer's, only for placeholders present: the outcomes are Outcomes and the containers become Loaded; the other links are unchanged |
| Loader.Page.RunInitialisations | dist/loadComponents.js:150-153 | n runs leave the theme as one run would and install n menu toggle listeners |
| Loader.Page.InitComponents | dist/loadComponents.js:299-328 | the outcomes are the loads of the present containers; links are fixed only on disk and only when every load resolved; the theme is initialised when any run happens; the menu carries one toggle listener per run, each run seeing both loads' contents |
| DistLoader.BasePath | dist/loadComponents.js:16-33 | over HTTP `/components`; on disk `file://` + the path up to the end of `/alsania-io-site` + `/components`, or the first 15 characters when that directory is not on the path |
| DistLoader.HeaderUrl | dist/loadComponents.js:160-161 | over HTTP the header comes from `/components/header.html` |
| DistLoader.FileLoadsResolve | dist/loadComponents.js:36-130 | on disk both built-in fragments are found and inserted |
| DistLoader.RegistryHasNoThemeSwitch | dist/loadComponents.js:57 | the built-in fragments have the `theme-toggle-container` placeholder but no `theme-toggle`, so on disk the switch is not wired |
| DistLoader.ThemeChoicePersists | dist/loadComponents.js:211-224 | this copy reads the key it writes, so the choice survives a reload |
| DistLoader.MenuButtonOnDisk | dist/loadComponents.js:299-328 | on disk, from the page's own shut menu: with only a header placeholder the initialisation runs twice and a button click leaves the menu shut whether or not the menu is found; with both placeholders it runs three times and a click opens a found menu |
| DistLoader.HeaderLinksOnDisk | dist/loadComponents.js:283-292 | on disk every header link points at `index.html` of its directory under the project root |
| DistLoader.ShopLinkOnDisk | dist/loadComponents.js:283-292 | the header's fourth link is the Shop link `/shop/`, and on disk it points at `file://` + root + `/shop/index.html` |
| DistLoader.StoreLinksRedirect | dist/loadComponents.js:253-257 | the footer's `/redbubble` link goes to the Redbubble shop `https://www.redbubble.com/people/AlsaniaArt/shop` and its `/dashery` link to `https://mnemonic.dashery.com/` |
| DistLoader.SocialLinksUntouched | dist/loadComponents.js:283 | the footer's social links keep their address, title and target |
| DistLoader.SocialLinkUntouched | dist/loadComponents.js:283 | a social link whose address does not start with `/` (an `https://` address, say) keeps every attribute |
| RootLoader.BasePathProtocolNeverMatches | loadComponents.js:19 | `"file//:"` is not a protocol any location can have |
| RootLoader.BasePathAlwaysServerRelative | loadComponents.js:16-32 | the components base path is `/components` at every location, on disk too |
| RootLoader.HeaderUrl | loadComponents.js:136-137 | over HTTP the header is fetched from `/components/components/header.html` |
| RootLoader.DoubledComponentsPath | loadComponents.js:136-137 | the base path, a slash and the component name spell that doubled directory |
| RootLoader.FileLoadsResolve | loadComponents.js:121-130 | on disk both built-in fragments are found under their `components/` names |
| RootLoader.LinkRootCutShort | loadComponents.js:241-244 | the root copy looks for the long absolute directory but keeps only 16 characters of it: the link root ends 16 characters into the absolute directory it found (`…/home/sigma/Desk`), or is the path's first 15 characters when that directory is absent |
| RootLoader.ShopLinkOnDisk | loadComponents.js:241-268 | opened from that directory, the Shop link points at `…/home/sigma/Desk/shop/index.html` |
| RootLoader.FooterRelativeLinksUntouched | loadComponents.js:259 | the footer's relative and external links are left alone |
| RootLoader.ThemeSwitchNotFound | loadComponents.js:180 | the switch is looked up as `components/theme-toggle`, which no fragment defines, while the header's switch is `theme-toggle` |
| RootLoader.ThemeChoiceLost | loadComponents.js:187-200 | the choice is written to `alsania-theme` and read from `assets/css/glass-theme`, so a reload brings back the old theme with the switch in the other position |
| Navigation.TableShape | utils/js/navigation.js:17-83 | two roles of four pages each, no id used twice, and only the profile requires a login |
| Navigation.PageTitle | utils/js/navigation.js:304-316 | the known title, or `Page` for an unknown id |
| Navigation.PageTitleDefaultIffUnknown | utils/js/navigation.js:304-316 | the title is `Page` exactly for ids getPageTitle does not know |
| Navigation.TitlesCoverTable | utils/js/navigation.js:304-316 | every table page has a title, which is the table's own title except for the profile (`Profile`, not `My Profile`) |
| Navigation.LoadingText | utils/js/navigation.js:124-130 | the placeholder is `Loading ` + the page's title + `...`: the title can be read back between the fixed prefix and suffix |
| Navigation.LoadingTextNamesTitle | utils/js/navigation.js:124-130 | two pages show the same placeholder exactly when they have the same title; `Loading Page...` appears exactly for unknown pages |
| Navigation.RenderItems | utils/js/navigation.js:93-102 | one link per page, in order, with the page's id and url, active exactly when it is the current page |
| Navigation.RenderedActiveLink | utils/js/navigation.js:93-102 | with distinct ids, at most one rendered link is active, and one is exactly when the current page is in the list |
| Navigation.MarkActive | utils/js/navigation.js:108-111 | each link is active exactly when its `data-page` is the target; nothing else about a link changes |
| Navigation.MarkLinks | utils/js/navigation.js:108-111 | the `forEach` loop over the links yields exactly MarkActive of them |
| Navigation.MarkActiveForgetsOld | utils/js/navigation.js:108-111 | marking depends only on the target page, not on which links were active before |
| Navigation.StartPage | utils/js/navigation.js:5-9 | a non-empty saved page, else `explorer`; never empty |
| Navigation.AlsaniaNavigation.constructor | utils/js/navigation.js:5-15 | the table is built, the role is `public`, the history is empty and the current page is the start page |
| Navigation.AlsaniaNavigation.CreateNavigationStructure | utils/js/navigation.js:17-83 | the navigation table is installed and nothing else changes |
| Navigation.AlsaniaNavigation.LoadUserPreferences | utils/js/navigation.js:350-356 | a non-empty saved page becomes current; otherwise the current page stays |
| Navigation.AlsaniaNavigation.RenderNavigation | utils/js/navigation.js:85-103 | with no container nothing changes; with one the container's links are the role's pages rendered; an unknown role with a container throws before any change |
| Navigation.AlsaniaNavigation.NavigateTo | utils/js/navigation.js:105-118 | the page becomes current, every `.nav-link` is marked for it, the content shows its loading text and one history entry `#<page>` is pushed |
| Navigation.AlsaniaNavigation.LoadPageContent | utils/js/navigation.js:120-130 | the content container, when present, shows the loading text |
| Navigation.AlsaniaNavigation.OnPopState | utils/js/navigation.js:343-347 | a state with a non-empty page navigates there: it becomes current, both link lists are marked for it, the content (when present) shows its loading text and one entry is pushed; any other state changes nothing |
| Navigation.AlsaniaNavigation.OnLinkClick | utils/js/navigation.js:320-325 | a link with a `data-page` navigates to it: it becomes current, the links are marked for it, the content shows its loading text and one history entry is pushed; a link without one changes nothing: page, history, links and content stay as they were |
| Scripts.IsValidEmailMatchesPattern | assets/js/scripts.js:130-133 | the computed check accepts exactly what `/^[^\s@]+@[^\s@]+\.[^\s@]+$/` matches |
| Scripts.ValidEmailMatches | assets/js/scripts.js:130-133 | an accepted address matches the pattern |
| Scripts.MatchIsValidEmail | assets/js/scripts.js:130-133 | an address the pattern matches is accepted |
| Scripts.FirstAt | assets/js/scripts.js:131 | an `@` preceded only by allowed characters is the first one |
| Scripts.IsValidEmailAsParts | assets/js/scripts.js:131 | an address is valid exactly when some `@` splits it into an allowed local part and an allowed domain with an inner dot |
| Scripts.TwoAtsRejected | assets/js/scripts.js:131 | an address with two `@` is rejected |
| Scripts.WhitespaceRejected | assets/js/scripts.js:131 | an address with whitespace anywhere is rejected |
| Scripts.Examples | assets/js/scripts.js:131 | `a@b.c` is valid; `a@.c` and `a@b.` are not |
| Scripts.LeadingSpace | assets/js/scripts.js:63 | the count of leading whitespace characters, stopping at the first other character |
| Scripts.TrailingSpace | assets/js/scripts.js:63 | the count of trailing whitespace characters, stopping at the last other character |
| Scripts.Trim | assets/js/scripts.js:63 | the input without its leading and trailing whitespace: a slice of it, neither starting nor ending with whitespace |
| Scripts.TrimIdempotent | assets/js/scripts.js:63 | trimming twice is trimming once |
| Scripts.WaitlistForm.constructor | assets/js/scripts.js:57-61 | the form with its input value, default value and button label, no message shown and nothing pending |
| Scripts.WaitlistForm.ShowMessage | assets/js/scripts.js:135-139 | the message text, the class `form-message <type>`, shown |
| Scripts.WaitlistForm.HideMessage | assets/js/scripts.js:141-143 | the message is hidden, its text and class kept |
| Scripts.WaitlistForm.Submit | assets/js/scripts.js:54-71 | accepted exactly when the elements exist and the trimmed address is valid; a missing element changes nothing; a rejected address shows the error and leaves the button alone; an accepted one disables the button and shows `Submitting...` |
| Scripts.WaitlistForm.Settle | assets/js/scripts.js:73-104 | the form is reset and shows the success message, or the failure message when the analytics call throws; either way the button ends enabled with `Get Notified` |
| Scripts.ThemeChoicePersists | assets/js/scripts.js:33-47 | this copy reads and writes the key `theme`, so the choice survives a reload |
| Scripts.InitInteractive | assets/js/scripts.js:7-13 | the theme is initialised with this copy's keys and the menu gets one toggle listener and no outside-click close |
| Scripts.MenuIgnoresOutsideClicks | assets/js/scripts.js:20-30 | once this copy's menu is set up, clicks off the button never change it |

## Left out

- I/O and timing are parameters or are reduced to order.
  - `fetch` is a function from URL to response. Local storage is a map that the model only reads; the theme listener writes to it.
  - `setTimeout` delays and the mutation observer's asynchronous delivery become explicit calls (`OnMutations`, `HideMessage`, `Settle`).
  - `Loader.Page.InitComponents` runs all the initialisations after both loads. This is the order on disk, where both fragments are inserted before any scheduled initialisation runs.
- Markup is abstracted. A fragment is its set of ids, its set of classes and its anchors; anchors carry only `href`, `class`, `title`, `target` and `rel`.
  - The HTML text of the built-in fragments is not modelled beyond that.
  - The error box's styling is not modelled; only its message is.
- Logging, the `DEBUG`/`ALSANIA_DEBUG` flags and `trackEvent` are left out. They change nothing on the page.
  - The one analytics effect kept is `gtag` throwing inside the waitlist handler (`Scripts.WaitlistForm.Settle`).
- `initNyxDownload` in `assets/js/scripts.js` is left out. It only records an analytics event and sets `window.location` to a fixed page.
- `renderPageContent` and its three page renderers in `utils/js/navigation.js` are left out: they write fixed HTML strings. `LoadPageContent` models only the loading placeholder; the 300 ms follow-up render is not modelled.
- Parts of `bindEvents` in `utils/js/navigation.js` are left out:
  - The mobile drawer is not modelled. This includes the case where `.mobile-toggle` and `.mobile-drawer` exist but `.close-drawer` does not: there the constructor throws.
  - The page bootstrap (a `DOMContentLoaded` listener that constructs the navigation and calls `renderNavigation()`) is the constructor followed by `RenderNavigation("public")`.
- The `document.readyState` bootstraps of the loader and of `fix-paths.js` are not modelled. Each only decides when the entry point runs, and the entry points are `Loader.Page.InitComponents` and `FixPaths.Document.Start`.
- Object property lookups are map lookups. Keys such as `__proto__` or `toString`, which JavaScript would find on the prototype chain, are not modelled: module `Navigation` (`getPageTitle`, the role table) and module `Loader` (the registry, `REDIRECTS`).
- The registry and redirect lookups use `INLINE_COMPONENTS[name]` and `REDIRECTS[href]` as tests. The model assumes that every value stored there is a non-empty string, which holds for every entry in both copies.
- `Loader.Page.InitComponents`: the page's ids and classes after the loads are not stated. `FixLinksForFileProtocol` preserves them; the effect of the loads is stated container by container.
- The outer `catch` of `loadComponent` is modelled only for the error it actually receives, `Inline component not found: <name>` (an error box and a rejection, in `Loader.Load`). The model's element lookup and `innerHTML` assignment cannot throw.
- Loader.Page.InitComponents: over HTTP the model covers only the order in which both responses arrive before any scheduled initialisation runs. When the footer's response arrives and its initialisation runs before the header is inserted (`dist/loadComponents.js:173-176`), that run finds no menu button (`:230-236`). The button then gets two listeners where the model counts three, so a click leaves the menu shut. The model does not take the arrival order of responses as an input.
- FixPaths.RelIs: compares `rel` with `==`, so it is case-sensitive. Browsers match the `rel` values in `link[rel="stylesheet"]` and `link[rel="icon"]` (`assets/js/fix-paths.js:53`, `:68`) without regard to ASCII case, so `rel="ICON"` is rewritten in a browser but not in the model.
- Navigation.AlsaniaNavigation.OnLinkClick: the model's click target is the link itself. In `navigation.js:320-322` the test is `e.target.matches(...)`, so a click that lands on an element inside the link (its `<i>` icon or `<span>` label) matches nothing and does not navigate. The model does not cover that case.
- `tools/nyx/assets/js/nyx.js` is not part of this model.
