/**
  The theme-only switcher of static/js/theme-switcher.js: no flavors, a
  dropdown of three theme radios that closes once a theme is picked.

  The root element is a set of class names and a map of attributes; the cookie
  jar is the one of module Cookies. `data-theme-selector-enabled` is written by
  the page template and never changed here.
 */
module StaticSwitcher {
  import opened Cookies
  import opened Controls

  const THEMES: seq<string> := ["light", "dark", "auto"]
  const THEME_COOKIE_NAME: string := "preferred-theme"
  const THEME_SELECTOR_ATTR: string := "data-theme-selector-enabled"
  const THEME_ATTR: string := "data-theme"

  /** The radio values of the dropdown, in the order it lists them. */
  const RADIO_VALUES: seq<string> := ["auto", "light", "dark"]

  type Attrs = map<string, string>

  predicate ThemeSelectorEnabled(attrs: Attrs) { THEME_SELECTOR_ATTR in attrs }

  function ThemeClass(t: string): string { t + "-theme" }

  lemma CookieSafe(t: string)
    requires t in THEMES
    ensures ValidName(THEME_COOKIE_NAME) && ValidValue(t)
  {
  }

  // ---------------------------------------------------------------------------
  // Resolution

  /** `getDefaultTheme()`: the class the template put on the root, `light-theme` first. */
  function DefaultTheme(classes: set<string>): (r: string)
    ensures r in THEMES
  {
    if "light-theme" in classes then "light"
    else if "dark-theme" in classes then "dark"
    else "auto"
  }

  /** `getCurrentTheme()` over the cookie string `header`. */
  function CurrentTheme(classes: set<string>, header: string): (r: string)
    ensures r in THEMES
  {
    var cookie := CookieValue(header, THEME_COOKIE_NAME);
    if cookie.Some? && cookie.value != "" && cookie.value in THEMES then cookie.value
    else DefaultTheme(classes)
  }

  /** A stored theme counts only when it is one of the three; otherwise the
      `light-theme` class wins over `dark-theme`, and with neither it is `auto`. */
  lemma CurrentThemeFromJar(classes: set<string>, jar: seq<Cookie>)
    requires WellFormed(jar)
    ensures var stored := Lookup(jar, THEME_COOKIE_NAME);
      CurrentTheme(classes, Header(jar)) ==
        if stored.Some? && stored.value in THEMES then stored.value
        else if "light-theme" in classes then "light"
        else if "dark-theme" in classes then "dark"
        else "auto"
  {
    CookieRoundTrip(jar, THEME_COOKIE_NAME);
  }

  // ---------------------------------------------------------------------------
  // What applying a theme does to the root

  /** The root classes after `applyTheme(t)`. */
  function ThemeClasses(classes: set<string>, t: string): set<string>
  {
    var cleared := classes - {"light-theme", "dark-theme"};
    if t == "auto" then cleared else cleared + {ThemeClass(t)}
  }

  /** The root attributes after `applyTheme(t)`. */
  function ThemeAttrs(attrs: Attrs, t: string): Attrs
  {
    if t == "auto" then attrs - {THEME_ATTR} else attrs[THEME_ATTR := t]
  }

  /** After `applyTheme(t)`: `auto` leaves neither theme class and no
      `data-theme`; an explicit theme leaves exactly its own class of the pair
      and `data-theme = t`; other classes and attributes are untouched; the
      class default read back is `t`. */
  lemma ApplyThemeMarksRoot(classes: set<string>, attrs: Attrs, t: string)
    requires t in THEMES
    ensures var c := ThemeClasses(classes, t);
      && (t == "auto" ==> "light-theme" !in c && "dark-theme" !in c)
      && (t != "auto" ==> c * {"light-theme", "dark-theme"} == {ThemeClass(t)})
      && (forall k :: k != "light-theme" && k != "dark-theme" ==> (k in c <==> k in classes))
      && DefaultTheme(c) == t
    ensures var a := ThemeAttrs(attrs, t);
      && (t == "auto" ==> THEME_ATTR !in a)
      && (t != "auto" ==> THEME_ATTR in a && a[THEME_ATTR] == t)
      && (forall k :: k != THEME_ATTR ==> (k in a <==> k in attrs) && (k in a ==> a[k] == attrs[k]))
  {
    assert ThemeClass("light") == "light-theme";
    assert ThemeClass("dark") == "dark-theme";
  }

  /** Applying the same theme twice leaves the root and the jar as applying it once. */
  lemma ApplyThemeIdempotent(classes: set<string>, attrs: Attrs, jar: seq<Cookie>, t: string)
    ensures ThemeClasses(ThemeClasses(classes, t), t) == ThemeClasses(classes, t)
    ensures ThemeAttrs(ThemeAttrs(attrs, t), t) == ThemeAttrs(attrs, t)
    ensures SetCookie(SetCookie(jar, THEME_COOKIE_NAME, t), THEME_COOKIE_NAME, t) == SetCookie(jar, THEME_COOKIE_NAME, t)
  {
    SetCookieIdempotent(jar, THEME_COOKIE_NAME, t);
  }

  /** After `applyTheme(t)` the cookie holds `t` and the next `getCurrentTheme()` resolves to `t`. */
  lemma ApplyThemeThenResolve(classes: set<string>, jar: seq<Cookie>, t: string)
    requires WellFormed(jar) && t in THEMES
    ensures Lookup(SetCookie(jar, THEME_COOKIE_NAME, t), THEME_COOKIE_NAME) == Some(t)
    ensures CurrentTheme(ThemeClasses(classes, t), Header(SetCookie(jar, THEME_COOKIE_NAME, t))) == t
  {
    SetCookieWellFormed(jar, THEME_COOKIE_NAME, t);
    SetCookieThenLookup(jar, THEME_COOKIE_NAME, t, THEME_COOKIE_NAME);
    CookieRoundTrip(SetCookie(jar, THEME_COOKIE_NAME, t), THEME_COOKIE_NAME);
  }

  /** Marking the three fresh radios for a theme checks exactly one of them. */
  lemma FreshRadios(before: seq<Control>, after: seq<Control>, t: string)
    requires t in THEMES && MarkedFor(before, after, t)
    ensures before == Unmarked(RADIO_VALUES) ==> exists k :: OnlyOn(after, k)
  {
    if before == Unmarked(RADIO_VALUES) {
      assert Distinct(RADIO_VALUES);
      MarkedFreshGroup(RADIO_VALUES, after, t);
    }
  }

  // ---------------------------------------------------------------------------
  // The page

  class Page {
    var classes: set<string>
    var attrs: Attrs
    var jar: seq<Cookie>
    /** The `input[name="theme"]` radios of the dropdown. */
    var radios: seq<Control>
    /** Whether the `.config-menu` has been added to the header. */
    var menuBuilt: bool
    /** Whether the dropdown carries the `active` class. */
    var dropdownActive: bool
    /** Whether the page has a `header` element. */
    const hasHeader: bool

    ghost predicate Valid()
      reads this
    {
      && WellFormed(jar)
      && (!menuBuilt ==> radios == [] && !dropdownActive)
      && KeysIn(radios, THEMES)
      && (radios != [] ==> ThemeSelectorEnabled(attrs))
    }

    /** The page as the template delivers it, before the script runs. */
    constructor (classes: set<string>, attrs: Attrs, jar: seq<Cookie>, hasHeader: bool)
      requires WellFormed(jar)
      ensures Valid()
      ensures this.classes == classes && this.attrs == attrs && this.jar == jar && this.hasHeader == hasHeader
      ensures !menuBuilt
    {
      this.classes := classes;
      this.attrs := attrs;
      this.jar := jar;
      this.hasHeader := hasHeader;
      radios := [];
      menuBuilt := false;
      dropdownActive := false;
    }

    /** `applyTheme(theme)`. */
    method ApplyTheme(theme: string)
      requires Valid() && theme in THEMES
      modifies this
      ensures Valid()
      ensures classes == ThemeClasses(old(classes), theme)
      ensures attrs == ThemeAttrs(old(attrs), theme)
      ensures jar == SetCookie(old(jar), THEME_COOKIE_NAME, theme)
      ensures if ThemeSelectorEnabled(old(attrs)) then MarkedFor(old(radios), radios, theme)
              else radios == old(radios)
      ensures menuBuilt == old(menuBuilt) && dropdownActive == old(dropdownActive)
    {
      classes := classes - {"light-theme", "dark-theme"};
      if theme == "auto" {
        attrs := attrs - {THEME_ATTR};
      } else {
        classes := classes + {ThemeClass(theme)};
        attrs := attrs[THEME_ATTR := theme];
      }
      if ThemeSelectorEnabled(attrs) {
        ghost var before := radios;
        radios := MarkMatching(radios, theme);
        MarkedForKeepsKeys(before, radios, theme, THEMES);
      }
      CookieSafe(theme);
      SetCookieWellFormed(jar, THEME_COOKIE_NAME, theme);
      jar := SetCookie(jar, THEME_COOKIE_NAME, theme);
    }

    /** The state effects of `createThemeSwitcher()`: nothing when the theme
        selector is disabled or there is no header; otherwise a closed menu
        with three unchecked radios. */
    method CreateThemeSwitcher()
      requires Valid() && !menuBuilt
      modifies this
      ensures Valid()
      ensures classes == old(classes) && attrs == old(attrs) && jar == old(jar) && !dropdownActive
      ensures !ThemeSelectorEnabled(attrs) || !hasHeader ==> !menuBuilt && radios == []
      ensures ThemeSelectorEnabled(attrs) && hasHeader ==> menuBuilt && radios == Unmarked(RADIO_VALUES)
    {
      if !ThemeSelectorEnabled(attrs) {
        return;
      }
      if !hasHeader {
        return;
      }
      menuBuilt := true;
      radios := Unmarked(RADIO_VALUES);
    }

    /** A click on the gear button flips the dropdown's `active` class. */
    method OnToggleClick()
      requires Valid() && menuBuilt
      modifies this`dropdownActive
      ensures Valid()
      ensures dropdownActive == !old(dropdownActive)
    {
      dropdownActive := !dropdownActive;
    }

    /** A click anywhere in the document closes the dropdown unless it landed inside the menu. */
    method OnDocumentClick(insideMenu: bool)
      requires Valid() && menuBuilt
      modifies this`dropdownActive
      ensures Valid()
      ensures dropdownActive == (old(dropdownActive) && insideMenu)
    {
      if !insideMenu {
        dropdownActive := false;
      }
    }

    /** The `change` handler of radio `i`: apply its theme, then close the dropdown. */
    method OnRadioChange(i: nat)
      requires Valid() && i < |radios|
      modifies this
      ensures Valid()
      ensures var t := old(radios[i].key);
        && classes == ThemeClasses(old(classes), t)
        && attrs == ThemeAttrs(old(attrs), t)
        && jar == SetCookie(old(jar), THEME_COOKIE_NAME, t)
        && MarkedFor(old(radios), radios, t)
        && radios[i].on
      ensures !dropdownActive && menuBuilt == old(menuBuilt)
    {
      ApplyTheme(radios[i].key);
      dropdownActive := false;
    }

    /** `initTheme()` as written, returning the resolved theme `t`: apply it,
        then build the dropdown. The radio update inside `applyTheme` runs before
        the radios exist, so all three start unchecked. */
    method InitTheme() returns (t: string)
      requires Valid() && !menuBuilt
      modifies this
      ensures Valid()
      ensures t == CurrentTheme(old(classes), Header(old(jar)))
      ensures classes == ThemeClasses(old(classes), t)
      ensures attrs == ThemeAttrs(old(attrs), t)
      ensures jar == SetCookie(old(jar), THEME_COOKIE_NAME, t)
      ensures Lookup(jar, THEME_COOKIE_NAME) == Some(t)
      ensures menuBuilt == (ThemeSelectorEnabled(old(attrs)) && hasHeader)
      ensures !dropdownActive
      ensures radios == if menuBuilt then Unmarked(RADIO_VALUES) else []
      ensures forall i :: 0 <= i < |radios| ==> !radios[i].on
    {
      ghost var jar0 := jar;
      t := CurrentTheme(classes, Header(jar));
      ApplyTheme(t);
      SetCookieThenLookup(jar0, THEME_COOKIE_NAME, t, THEME_COOKIE_NAME);
      CreateThemeSwitcher();
    }

    /** `initTheme()` with the radio update run after the dropdown exists:
        exactly the radio of the resolved theme is checked. */
    method InitThemeSynced() returns (t: string)
      requires Valid() && !menuBuilt
      modifies this
      ensures Valid()
      ensures t == CurrentTheme(old(classes), Header(old(jar)))
      ensures classes == ThemeClasses(old(classes), t)
      ensures attrs == ThemeAttrs(old(attrs), t)
      ensures jar == SetCookie(old(jar), THEME_COOKIE_NAME, t)
      ensures Lookup(jar, THEME_COOKIE_NAME) == Some(t)
      ensures menuBuilt == (ThemeSelectorEnabled(old(attrs)) && hasHeader)
      ensures !dropdownActive
      ensures menuBuilt ==> MarkedFor(Unmarked(RADIO_VALUES), radios, t) && exists k :: OnlyOn(radios, k)
      ensures !menuBuilt ==> radios == []
    {
      t := InitTheme();
      ghost var built := radios;
      if ThemeSelectorEnabled(attrs) {
        radios := MarkMatching(radios, t);
        MarkedForKeepsKeys(built, radios, t, THEMES);
      }
      FreshRadios(built, radios, t);
    }
  }
}
