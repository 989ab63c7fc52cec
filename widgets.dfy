/**
 * The two interactive widgets every copy of the site's scripts wires up: the
 * light/dark theme switch, persisted in local storage, and the mobile menu
 * button. Each copy differs only in its storage keys and element id
 * (ThemeConfig) and in whether a click outside closes the menu.
 */
module Widgets {
  import opened Browser

  const Dark := "dark"
  const Light := "light"

  /** The id of the checkbox, the storage key read at start-up, and the key the change handler writes. */
  datatype ThemeConfig = ThemeConfig(toggleId: string, readKey: string, writeKey: string)

  /** `savedTheme || "dark"`: the stored value when it is present and non-empty, else dark. */
  function InitialTheme(saved: Option<string>): (t: string)
    ensures t != ""
    ensures saved.None? ==> t == Dark
    ensures saved.Some? ==> (t == saved.value || (saved.value == "" && t == Dark))
  {
    if Truthy(saved) then saved.value else Dark
  }

  /** `themeToggle.checked ? "light" : "dark"` */
  function ThemeFor(checked: bool): (t: string)
    ensures t == Light <==> checked
    ensures t == Dark <==> !checked
  {
    if checked then Light else Dark
  }

  /** Everything the theme switch touches. */
  datatype ThemeState = ThemeState(
    storage: map<string, string>,   // localStorage
    dataTheme: Option<string>,      // the `data-theme` attribute of the root element
    checked: bool,                  // the checkbox's `checked`
    listener: Option<string>)       // the key the installed change listener writes, if any

  /** The state of a freshly loaded page over the given local storage. */
  function FreshPage(storage: map<string, string>): ThemeState {
    ThemeState(storage, None, false, None)
  }

  /**
   * `initThemeToggle`: without the checkbox nothing changes; otherwise the saved
   * theme (default dark) is applied, the box is checked exactly for light, and the
   * change listener is installed. Storage is only read.
   */
  function ThemeAfterInit(s: ThemeState, cfg: ThemeConfig, toggleFound: bool): (r: ThemeState)
    ensures r.storage == s.storage
    ensures !toggleFound ==> r == s
    ensures toggleFound ==> r.dataTheme.Some? && (r.checked <==> r.dataTheme.value == Light)
    ensures toggleFound ==>
      r.dataTheme == Some(InitialTheme(GetItem(s.storage, cfg.readKey))) && r.listener == Some(cfg.writeKey)
  {
    if !toggleFound then s
    else
      var currentTheme := InitialTheme(GetItem(s.storage, cfg.readKey));
      s.(dataTheme := Some(currentTheme), checked := currentTheme == Light, listener := Some(cfg.writeKey))
  }

  /**
   * The user flips the checkbox and its change event fires: with a listener the
   * theme becomes light exactly when the box is now checked and is persisted under
   * the listener's key; without one only the checkbox changes.
   */
  function ThemeAfterToggle(s: ThemeState): (r: ThemeState)
    ensures r.checked == !s.checked && r.listener == s.listener
    ensures s.listener.None? ==> r.storage == s.storage && r.dataTheme == s.dataTheme
    ensures s.listener.Some? ==>
      r.dataTheme == Some(ThemeFor(r.checked)) && GetItem(r.storage, s.listener.value) == Some(ThemeFor(r.checked))
    ensures s.listener.Some? ==> r.storage == s.storage[s.listener.value := ThemeFor(r.checked)]
  {
    var c := !s.checked;
    match s.listener
    case None => s.(checked := c)
    case Some(k) => s.(checked := c, dataTheme := Some(ThemeFor(c)), storage := s.storage[k := ThemeFor(c)])
  }

  /** A page with nothing (or an empty string) saved under the read key comes up dark, with the box unchecked. */
  lemma NothingSavedComesUpDark(storage: map<string, string>, cfg: ThemeConfig)
    requires cfg.readKey !in storage || storage[cfg.readKey] == ""
    ensures var r := ThemeAfterInit(FreshPage(storage), cfg, true);
      r.dataTheme == Some(Dark) && !r.checked && r.listener == Some(cfg.writeKey)
  {
    assert Dark != Light by { assert Dark[0] != Light[0]; }
  }

  /** Running the initialisation again (after another component loads) changes nothing more. */
  lemma ThemeInitIdempotent(s: ThemeState, cfg: ThemeConfig, toggleFound: bool)
    ensures ThemeAfterInit(ThemeAfterInit(s, cfg, toggleFound), cfg, toggleFound) == ThemeAfterInit(s, cfg, toggleFound)
  {
  }

  /**
   * When the change handler writes the key that start-up reads, a reload restores
   * the choice: after toggling, the next page shows the same theme and the same
   * checkbox state.
   */
  lemma ChoiceSurvivesReload(storage: map<string, string>, cfg: ThemeConfig)
    requires cfg.readKey == cfg.writeKey
    ensures var before := ThemeAfterToggle(ThemeAfterInit(FreshPage(storage), cfg, true));
      var after := ThemeAfterInit(FreshPage(before.storage), cfg, true);
      after.dataTheme == before.dataTheme && after.checked == before.checked
  {
    var before := ThemeAfterToggle(ThemeAfterInit(FreshPage(storage), cfg, true));
    assert GetItem(before.storage, cfg.readKey) == Some(ThemeFor(before.checked));
  }

  /**
   * When the two keys differ, the choice is lost: after the user toggles, the next
   * page comes up in the theme the first one started in, with the box the other way.
   */
  lemma ChoiceLostOnReload(storage: map<string, string>, cfg: ThemeConfig)
    requires cfg.readKey != cfg.writeKey
    ensures var first := ThemeAfterInit(FreshPage(storage), cfg, true);
      var before := ThemeAfterToggle(first);
      var after := ThemeAfterInit(FreshPage(before.storage), cfg, true);
      after.dataTheme == first.dataTheme && after.checked != before.checked
  {
    var first := ThemeAfterInit(FreshPage(storage), cfg, true);
    var before := ThemeAfterToggle(first);
    assert GetItem(before.storage, cfg.readKey) == GetItem(storage, cfg.readKey);
  }

  /** The theme switch of one page. */
  class ThemeToggle {
    var storage: map<string, string>
    var dataTheme: Option<string>
    var checked: bool
    var listener: Option<string>

    function State(): ThemeState
      reads this
    {
      ThemeState(storage, dataTheme, checked, listener)
    }

    constructor (s: ThemeState)
      ensures State() == s
    {
      storage := s.storage;
      dataTheme := s.dataTheme;
      checked := s.checked;
      listener := s.listener;
    }

    method Init(cfg: ThemeConfig, toggleFound: bool)
      modifies this
      ensures State() == ThemeAfterInit(old(State()), cfg, toggleFound)
    {
      if !toggleFound {
        return;
      }
      var currentTheme := InitialTheme(GetItem(storage, cfg.readKey));
      dataTheme := Some(currentTheme);
      checked := currentTheme == Light;
      listener := Some(cfg.writeKey);
    }

    method UserToggles()
      modifies this
      ensures State() == ThemeAfterToggle(old(State()))
    {
      checked := !checked;
      if listener.Some? {
        var newTheme := ThemeFor(checked);
        dataTheme := Some(newTheme);
        storage := storage[listener.value := newTheme];
      }
    }
  }

  /** Where a click lands: on the menu button, inside the navigation menu, or elsewhere. */
  datatype ClickTarget = MenuButton | InsideNav | Outside

  /** The `active` class on the menu button and on the navigation menu, and the installed listeners. */
  datatype MenuState = MenuState(
    buttonActive: bool,
    navActive: bool,
    toggles: nat,                  // how many click listeners on the button toggle `active`
    closesOnOutsideClick: bool)    // the document-level close listener is installed

  /**
   * `initMobileMenu`: when both the button and the menu exist, adds one more
   * toggle listener to the button and, in the copies that have one, the
   * outside-click listener. Each call adds a new listener; none is removed.
   */
  function MenuAfterInit(s: MenuState, found: bool, closeOnOutsideClick: bool): (r: MenuState)
    ensures r.buttonActive == s.buttonActive && r.navActive == s.navActive
    ensures r.toggles == if found then s.toggles + 1 else s.toggles
    ensures r.closesOnOutsideClick == (s.closesOnOutsideClick || (found && closeOnOutsideClick))
  {
    if !found then s
    else s.(toggles := s.toggles + 1, closesOnOutsideClick := s.closesOnOutsideClick || closeOnOutsideClick)
  }

  /** `initMobileMenu` run `n` times over the same page. */
  function MenuAfterInits(s: MenuState, found: bool, closeOnOutsideClick: bool, n: nat): MenuState
  {
    if n == 0 then s else MenuAfterInit(MenuAfterInits(s, found, closeOnOutsideClick, n - 1), found, closeOnOutsideClick)
  }

  /**
   * A click: on the button every toggle listener flips `active` on both
   * elements, so they flip exactly when the number of listeners is odd; elsewhere
   * the outside-click listener removes `active` from both; inside the menu
   * nothing changes.
   */
  function MenuAfterClick(s: MenuState, target: ClickTarget): (r: MenuState)
    ensures r.toggles == s.toggles && r.closesOnOutsideClick == s.closesOnOutsideClick
    ensures target == MenuButton ==>
      (r.buttonActive <==> (s.buttonActive != (s.toggles % 2 == 1))) && (r.navActive <==> (s.navActive != (s.toggles % 2 == 1)))
    ensures target == Outside && s.closesOnOutsideClick ==> !r.buttonActive && !r.navActive
    ensures target == Outside && !s.closesOnOutsideClick ==> r == s
    ensures target == InsideNav ==> r == s
  {
    match target
    case MenuButton => if s.toggles % 2 == 1 then s.(navActive := !s.navActive, buttonActive := !s.buttonActive) else s
    case Outside => if s.closesOnOutsideClick then s.(navActive := false, buttonActive := false) else s
    case InsideNav => s
  }

  /** After `n` initialisations that find the elements there are `n` toggle listeners, and the open state is untouched. */
  lemma {:induction false} MenuInitsCount(s: MenuState, found: bool, closeOnOutsideClick: bool, n: nat)
    ensures var r := MenuAfterInits(s, found, closeOnOutsideClick, n);
      r.toggles == (if found then s.toggles + n else s.toggles)
      && r.closesOnOutsideClick == (s.closesOnOutsideClick || (found && closeOnOutsideClick && n > 0))
      && r.buttonActive == s.buttonActive && r.navActive == s.navActive
  {
    if n > 0 {
      MenuInitsCount(s, found, closeOnOutsideClick, n - 1);
    }
  }

  /**
   * On a page whose closed menu had no listener, a click on the button after `n`
   * initialisations opens the menu exactly when `n` is odd: with two listeners
   * the two toggles cancel out.
   */
  lemma ButtonOpensIffOddInits(s: MenuState, closeOnOutsideClick: bool, n: nat)
    requires s.toggles == 0 && !s.buttonActive && !s.navActive
    ensures var r := MenuAfterClick(MenuAfterInits(s, true, closeOnOutsideClick, n), MenuButton);
      (r.buttonActive <==> n % 2 == 1) && (r.navActive <==> n % 2 == 1)
  {
    MenuInitsCount(s, true, closeOnOutsideClick, n);
  }

  /** A run of clicks, in order. */
  function MenuAfterClicks(s: MenuState, clicks: seq<ClickTarget>): MenuState
    decreases |clicks|
  {
    if clicks == [] then s else MenuAfterClick(MenuAfterClicks(s, clicks[..|clicks| - 1]), clicks[|clicks| - 1])
  }

  /** Button and menu that agree keep agreeing, whatever is clicked. */
  lemma {:induction false} MenuClicksKeepAgreement(s: MenuState, clicks: seq<ClickTarget>)
    requires s.buttonActive == s.navActive
    ensures var r := MenuAfterClicks(s, clicks); r.buttonActive == r.navActive
  {
    if clicks != [] {
      MenuClicksKeepAgreement(s, clicks[..|clicks| - 1]);
    }
  }

  /** Without the outside-click listener, only a click on the button changes the menu. */
  lemma {:induction false} WithoutCloseListenerOnlyButtonCloses(s: MenuState, clicks: seq<ClickTarget>)
    requires !s.closesOnOutsideClick
    requires forall i :: 0 <= i < |clicks| ==> clicks[i] != MenuButton
    ensures MenuAfterClicks(s, clicks) == s
  {
    if clicks != [] {
      WithoutCloseListenerOnlyButtonCloses(s, clicks[..|clicks| - 1]);
    }
  }

  /** The mobile menu of one page. */
  class MobileMenu {
    var buttonActive: bool
    var navActive: bool
    var toggles: nat
    var closesOnOutsideClick: bool

    function State(): MenuState
      reads this
    {
      MenuState(buttonActive, navActive, toggles, closesOnOutsideClick)
    }

    constructor (s: MenuState)
      ensures State() == s
    {
      buttonActive := s.buttonActive;
      navActive := s.navActive;
      toggles := s.toggles;
      closesOnOutsideClick := s.closesOnOutsideClick;
    }

    method Init(found: bool, closeOnOutsideClick: bool)
      modifies this
      ensures State() == MenuAfterInit(old(State()), found, closeOnOutsideClick)
    {
      if !found {
        return;
      }
      toggles := toggles + 1;
      if closeOnOutsideClick {
        closesOnOutsideClick := true;
      }
    }

    method Click(target: ClickTarget)
      modifies this
      ensures State() == MenuAfterClick(old(State()), target)
    {
      match target
      case MenuButton =>
        if toggles % 2 == 1 {
          navActive := !navActive;
          buttonActive := !buttonActive;
        }
      case Outside =>
        if closesOnOutsideClick {
          navActive := false;
          buttonActive := false;
        }
      case InsideNav =>
    }
  }
}
