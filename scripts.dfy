/**
 * The site-wide interactive script (assets/js/scripts.js): the waitlist form
 * with its email check and button states, and this copy's own theme switch and
 * mobile menu set-up.
 */
module Scripts {
  import opened Strings
  import opened Browser
  import opened Widgets

  /** A character `[^\s@]` matches. */
  predicate EmailChar(c: char) {
    !IsJsWhitespace(c) && c != '@'
  }

  predicate AllEmailChars(s: string) {
    forall i | 0 <= i < |s| :: EmailChar(s[i])
  }

  /**
   * `/^[^\s@]+@[^\s@]+\.[^\s@]+$/.test(s)`, read off the pattern: an `@` at
   * `i` and a `.` at `j` split `s` into three non-empty runs of EmailChar.
   */
  ghost predicate MatchesEmailPattern(s: string) {
    exists i, j | 0 < i && i + 1 < j && j + 1 < |s| ::
      s[i] == '@' && s[j] == '.' && AllEmailChars(s[..i]) && AllEmailChars(s[i + 1..j]) && AllEmailChars(s[j + 1..])
  }

  /** A domain part has a dot that is neither its first nor its last character. */
  predicate HasInnerDot(d: string) {
    |d| >= 3 && '.' in d[1..|d| - 1]
  }

  /** isValidEmail, computed: split at the first `@`, then check both sides. */
  predicate IsValidEmail(s: string) {
    var at := IndexOf(s, "@");
    at >= 1 && AllEmailChars(s[..at]) && AllEmailChars(s[at + 1..]) && HasInnerDot(s[at + 1..])
  }

  /** The computed check accepts exactly what the regular expression matches. */
  lemma IsValidEmailMatchesPattern(s: string)
    ensures IsValidEmail(s) <==> MatchesEmailPattern(s)
  {
    if IsValidEmail(s) {
      ValidEmailMatches(s);
    }
    if MatchesEmailPattern(s) {
      var i, j :| 0 < i && i + 1 < j && j + 1 < |s| &&
        s[i] == '@' && s[j] == '.' && AllEmailChars(s[..i]) && AllEmailChars(s[i + 1..j]) && AllEmailChars(s[j + 1..]);
      MatchIsValidEmail(s, i, j);
    }
  }

  lemma ValidEmailMatches(s: string)
    requires IsValidEmail(s)
    ensures MatchesEmailPattern(s)
  {
    var at := IndexOf(s, "@");
    var d := s[at + 1..];
    var k :| 0 <= k < |d[1..|d| - 1]| && d[1..|d| - 1][k] == '.';
    var j := at + 2 + k;
    assert s[at] == '@' by { assert s[at..at + 1] == "@"; }
    assert s[j] == '.';
    assert s[at + 1..j] == d[..k + 1];
    assert s[j + 1..] == d[k + 2..];
    var middle, last := s[at + 1..j], s[j + 1..];
    forall m | 0 <= m < |middle| ensures EmailChar(middle[m]) { assert middle[m] == d[m]; }
    forall m | 0 <= m < |last| ensures EmailChar(last[m]) { assert last[m] == d[k + 2 + m]; }
  }

  lemma MatchIsValidEmail(s: string, i: int, j: int)
    requires 0 < i && i + 1 < j && j + 1 < |s|
    requires s[i] == '@' && s[j] == '.' && AllEmailChars(s[..i]) && AllEmailChars(s[i + 1..j]) && AllEmailChars(s[j + 1..])
    ensures IsValidEmail(s)
  {
    FirstAt(s, i);
    var d := s[i + 1..];
    assert AllEmailChars(d) by {
      forall m | 0 <= m < |d| ensures EmailChar(d[m]) {
        if m < j - i - 1 {
          assert d[m] == s[i + 1..j][m];
        } else if m > j - i - 1 {
          assert d[m] == s[j + 1..][m - (j - i)];
        }
      }
    }
    assert d[1..|d| - 1][j - i - 2] == '.';
  }

  /** An `@` preceded only by EmailChar is the first one. */
  lemma FirstAt(s: string, i: int)
    requires 0 <= i < |s| && s[i] == '@' && AllEmailChars(s[..i])
    ensures IndexOf(s, "@") == i
  {
    assert OccursAt(s, "@", i);
    forall k | 0 <= k < i ensures !OccursAt(s, "@", k) {
      assert s[..i][k] == s[k];
    }
  }

  /** The form with a local part and a domain part. */
  lemma IsValidEmailAsParts(s: string)
    ensures IsValidEmail(s) <==>
      exists at | 0 < at < |s| :: s[at] == '@' && AllEmailChars(s[..at]) && AllEmailChars(s[at + 1..]) && HasInnerDot(s[at + 1..])
  {
    if exists at | 0 < at < |s| :: s[at] == '@' && AllEmailChars(s[..at]) && AllEmailChars(s[at + 1..]) && HasInnerDot(s[at + 1..]) {
      var at :| 0 < at < |s| && s[at] == '@' && AllEmailChars(s[..at]) && AllEmailChars(s[at + 1..]) && HasInnerDot(s[at + 1..]);
      FirstAt(s, at);
    }
    if IsValidEmail(s) {
      var at := IndexOf(s, "@");
      assert s[at] == '@' by { assert s[at..at + 1] == "@"; }
    }
  }

  /** An address with two `@` is rejected. */
  lemma TwoAtsRejected(s: string, p: int, q: int)
    requires 0 <= p < q < |s| && s[p] == '@' && s[q] == '@'
    ensures !IsValidEmail(s)
  {
    var at := IndexOf(s, "@");
    if at >= 1 && AllEmailChars(s[..at]) {
      assert at <= p by {
        assert OccursAt(s, "@", p) by { assert s[p..p + 1] == [s[p]]; }
      }
      assert s[at + 1..][q - at - 1] == '@';
    }
  }

  /** An address with whitespace anywhere is rejected. */
  lemma WhitespaceRejected(s: string, k: int)
    requires 0 <= k < |s| && IsJsWhitespace(s[k])
    ensures !IsValidEmail(s)
  {
    IsValidEmailMatchesPattern(s);
    forall i, j | 0 < i && i + 1 < j && j + 1 < |s| && s[i] == '@' && s[j] == '.'
      ensures !(AllEmailChars(s[..i]) && AllEmailChars(s[i + 1..j]) && AllEmailChars(s[j + 1..]))
    {
      if k < i {
        assert !EmailChar(s[..i][k]);
      } else if k > j {
        assert !EmailChar(s[j + 1..][k - j - 1]);
      } else if i < k < j {
        assert !EmailChar(s[i + 1..j][k - i - 1]);
      }
    }
  }

  lemma Examples()
    ensures IsValidEmail("a@b.c")
    ensures !IsValidEmail("a@.c")
    ensures !IsValidEmail("a@b.")
  {
    FirstAt("a@b.c", 1);
    assert "a@b.c"[2..][1..2] == ".";
    FirstAt("a@.c", 1);
    assert "a@.c"[2..] == ".c";
    FirstAt("a@b.", 1);
    assert "a@b."[2..] == "b.";
  }

  /** How many whitespace characters `s` starts with. */
  function LeadingSpace(s: string): (n: nat)
    ensures n <= |s|
    ensures forall i | 0 <= i < n :: IsJsWhitespace(s[i])
    ensures n < |s| ==> !IsJsWhitespace(s[n])
  {
    if s == [] || !IsJsWhitespace(s[0]) then 0 else 1 + LeadingSpace(s[1..])
  }

  /** How many whitespace characters `s` ends with. */
  function TrailingSpace(s: string): (n: nat)
    ensures n <= |s|
    ensures forall i | |s| - n <= i < |s| :: IsJsWhitespace(s[i])
    ensures n < |s| ==> !IsJsWhitespace(s[|s| - 1 - n])
  {
    if s == [] || !IsJsWhitespace(s[|s| - 1]) then 0 else 1 + TrailingSpace(s[..|s| - 1])
  }

  /**
   * `String.prototype.trim`: the part of `s` after its leading whitespace, up to
   * its trailing whitespace; it neither starts nor ends with whitespace.
   */
  function Trim(s: string): (r: string)
    ensures LeadingSpace(s) + |r| <= |s| && r == s[LeadingSpace(s)..LeadingSpace(s) + |r|]
    ensures forall i | LeadingSpace(s) + |r| <= i < |s| :: IsJsWhitespace(s[i])
    ensures r == [] || (!IsJsWhitespace(r[0]) && !IsJsWhitespace(r[|r| - 1]))
  {
    var a := LeadingSpace(s);
    var t := s[a..];
    var r := t[..|t| - TrailingSpace(t)];
    assert forall i | a + |r| <= i < |s| :: s[i] == t[i - a];
    r
  }

  /** Trimming twice is trimming once. */
  lemma TrimIdempotent(s: string)
    ensures Trim(Trim(s)) == Trim(s)
  {
    var r := Trim(s);
    if r != [] {
      assert LeadingSpace(r) == 0;
      assert TrailingSpace(r[0..]) == 0 by { assert r[0..] == r; }
    }
  }

  const InvalidEmailMessage := "Please enter a valid email address."
  const SuccessMessage := "Thank you! You'll be notified when we launch."
  const FailureMessage := "Something went wrong. Please try again."
  const SubmittingLabel := "Submitting..."
  const IdleLabel := "Get Notified"

  /** The waitlist form, its submit button and its message element. */
  class WaitlistForm {
    /** `#waitlist-email`, the submit button and `#waitlist-message` all exist. */
    const wired: bool
    /** The email input's value, and the value `form.reset()` restores. */
    var email: string
    const defaultEmail: string
    var buttonDisabled: bool
    var buttonLabel: string
    var messageText: string
    var messageClass: string
    var messageShown: bool
    /** An accepted submission is waiting out its delay. */
    var pending: bool

    constructor (wired: bool, email: string, defaultEmail: string, buttonLabel: string)
      ensures this.wired == wired && this.email == email && this.defaultEmail == defaultEmail
      ensures this.buttonLabel == buttonLabel && !buttonDisabled && !messageShown && !pending
      ensures messageText == "" && messageClass == ""
    {
      this.wired := wired;
      this.email := email;
      this.defaultEmail := defaultEmail;
      this.buttonLabel := buttonLabel;
      buttonDisabled := false;
      messageText := "";
      messageClass := "";
      messageShown := false;
      pending := false;
    }

    /** showMessage: the text, the class `form-message <type>`, and shown. */
    method ShowMessage(message: string, kind: string)
      modifies this
      ensures messageText == message && messageClass == "form-message " + kind && messageShown
      ensures email == old(email) && buttonDisabled == old(buttonDisabled) && buttonLabel == old(buttonLabel)
      ensures pending == old(pending)
    {
      messageText := message;
      messageClass := "form-message " + kind;
      messageShown := true;
    }

    /** The auto-hide timer of showMessage firing. */
    method HideMessage()
      modifies this
      ensures !messageShown
      ensures messageText == old(messageText) && messageClass == old(messageClass)
      ensures email == old(email) && buttonDisabled == old(buttonDisabled) && buttonLabel == old(buttonLabel)
      ensures pending == old(pending)
    {
      messageShown := false;
    }

    /**
     * The submit handler up to its delay: a missing element stops it; a
     * trimmed address that is empty or invalid shows the error and leaves the
     * button alone; a valid one disables the button and shows `Submitting...`.
     */
    method Submit() returns (accepted: bool)
      modifies this
      ensures accepted <==> wired && IsValidEmail(Trim(old(email)))
      ensures !wired ==>
        buttonDisabled == old(buttonDisabled) && buttonLabel == old(buttonLabel) && messageShown == old(messageShown)
        && messageText == old(messageText) && messageClass == old(messageClass) && pending == old(pending)
      ensures wired && !accepted ==>
        messageText == InvalidEmailMessage && messageClass == "form-message error" && messageShown
        && buttonDisabled == old(buttonDisabled) && buttonLabel == old(buttonLabel) && pending == old(pending)
      ensures accepted ==>
        buttonDisabled && buttonLabel == SubmittingLabel && pending
        && messageText == old(messageText) && messageClass == old(messageClass) && messageShown == old(messageShown)
      ensures email == old(email)
    {
      if !wired {
        return false;
      }
      var address := Trim(email);
      if address == "" || !IsValidEmail(address) {
        ShowMessage(InvalidEmailMessage, "error");
        return false;
      }
      buttonDisabled := true;
      buttonLabel := SubmittingLabel;
      pending := true;
      accepted := true;
    }

    /**
     * The rest of the handler once the delay is over: the success message and a
     * form reset; if the analytics call then throws, the failure message
     * replaces it. Either way the button ends enabled, labelled `Get Notified`.
     */
    method Settle(trackingThrows: bool)
      requires pending
      modifies this
      ensures !buttonDisabled && buttonLabel == IdleLabel && !pending
      ensures email == defaultEmail && messageShown
      ensures messageText == (if trackingThrows then FailureMessage else SuccessMessage)
      ensures messageClass == (if trackingThrows then "form-message error" else "form-message success")
    {
      ShowMessage(SuccessMessage, "success");
      email := defaultEmail;
      if trackingThrows {
        ShowMessage(FailureMessage, "error");
      }
      buttonDisabled := false;
      buttonLabel := IdleLabel;
      pending := false;
    }
  }

  /** This copy's theme switch: id `theme-toggle`, and the key `theme` both read and written. */
  const ScriptsTheme := ThemeConfig("theme-toggle", "theme", "theme")

  /** A chosen theme survives a reload. */
  lemma ThemeChoicePersists(storage: map<string, string>)
    ensures var before := ThemeAfterToggle(ThemeAfterInit(FreshPage(storage), ScriptsTheme, true));
      var after := ThemeAfterInit(FreshPage(before.storage), ScriptsTheme, true);
      after.dataTheme == before.dataTheme && after.checked == before.checked
  {
    ChoiceSurvivesReload(storage, ScriptsTheme);
  }

  /** The `DOMContentLoaded` handler's theme and menu set-up; this copy installs no outside-click close. */
  method InitInteractive(theme: ThemeToggle, menu: MobileMenu, toggleFound: bool, menuFound: bool)
    modifies theme, menu
    ensures theme.State() == ThemeAfterInit(old(theme.State()), ScriptsTheme, toggleFound)
    ensures menu.State() == MenuAfterInit(old(menu.State()), menuFound, false)
  {
    theme.Init(ScriptsTheme, toggleFound);
    menu.Init(menuFound, false);
  }

  /** On a fresh page, once this copy's menu is set up, only clicks on the button change it. */
  lemma MenuIgnoresOutsideClicks(s: MenuState, menuFound: bool, clicks: seq<ClickTarget>)
    requires !s.closesOnOutsideClick
    requires forall i | 0 <= i < |clicks| :: clicks[i] != MenuButton
    ensures MenuAfterClicks(MenuAfterInit(s, menuFound, false), clicks) == MenuAfterInit(s, menuFound, false)
  {
    WithoutCloseListenerOnlyButtonCloses(MenuAfterInit(s, menuFound, false), clicks);
  }
}
