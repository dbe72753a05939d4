/**
  The theme and flavor switcher of public/js/theme-switcher.js.

  The page's root element is a set of class names and a map of attributes; the
  cookie jar is the one of module Cookies. Resolving the current theme and
  flavor is a pure function of those; applying a theme or a flavor, building
  the settings dropdown and reacting to its events change the page in place.
  The configuration markers `data-theme-selector-enabled`,
  `data-flavor-selector-enabled`, `data-static-flavor` and
  `data-default-flavor` are written by the page template and never changed here.
 */
module PublicSwitcher {
  import opened Cookies
  import opened Controls

  const THEMES: seq<string> := ["light", "dark", "auto"]
  const FLAVORS: seq<string> := ["none", "happy-headers", "happy", "deep-headers", "deep", "monochrome"]

  const THEME_COOKIE_NAME: string := "preferred-theme"
  const FLAVOR_COOKIE_NAME: string := "preferred-flavor"

  const THEME_SELECTOR_ATTR: string := "data-theme-selector-enabled"
  const FLAVOR_SELECTOR_ATTR: string := "data-flavor-selector-enabled"
  const STATIC_FLAVOR_ATTR: string := "data-static-flavor"
  const DEFAULT_FLAVOR_ATTR: string := "data-default-flavor"
  const THEME_ATTR: string := "data-theme"

  /** The radio values of the dropdown, in the order it lists them (there is no radio for `none`). */
  const THEME_RADIO_VALUES: seq<string> := ["auto", "light", "dark"]
  const FLAVOR_RADIO_VALUES: seq<string> := ["happy-headers", "happy", "deep-headers", "deep", "monochrome"]

  type Attrs = map<string, string>

  predicate ThemeSelectorEnabled(attrs: Attrs) { THEME_SELECTOR_ATTR in attrs }
  predicate FlavorSelectorEnabled(attrs: Attrs) { FLAVOR_SELECTOR_ATTR in attrs }
  predicate HasStaticFlavor(attrs: Attrs) { STATIC_FLAVOR_ATTR in attrs }

  function ThemeClass(t: string): string { t + "-theme" }
  function FlavorClass(f: string): string { f + "-flavor" }

  /** Every class `applyFlavor` removes: one per member of FLAVORS. */
  function FlavorClassSet(): set<string>
  {
    set f | f in FLAVORS :: FlavorClass(f)
  }

  /** The two cookie names and every theme and flavor value are safe in a cookie pair. */
  lemma CookieSafe(v: string)
    requires v in THEMES || v in FLAVORS
    ensures ValidName(THEME_COOKIE_NAME) && ValidName(FLAVOR_COOKIE_NAME) && ValidValue(v)
  {
  }

  // ---------------------------------------------------------------------------
  // Resolution

  /** `getStaticFlavor()`: the `data-static-flavor` value when it names a flavor, else `none`. */
  function StaticFlavor(attrs: Attrs): (r: string)
    ensures r in FLAVORS
    ensures r != "none" ==> STATIC_FLAVOR_ATTR in attrs && attrs[STATIC_FLAVOR_ATTR] == r
    ensures STATIC_FLAVOR_ATTR in attrs && attrs[STATIC_FLAVOR_ATTR] in FLAVORS ==> r == attrs[STATIC_FLAVOR_ATTR]
  {
    if STATIC_FLAVOR_ATTR in attrs && attrs[STATIC_FLAVOR_ATTR] != "" && attrs[STATIC_FLAVOR_ATTR] in FLAVORS
    then attrs[STATIC_FLAVOR_ATTR]
    else "none"
  }

  /** `getDefaultTheme()`: the class the template put on the root, `light-theme` first. */
  function DefaultTheme(classes: set<string>): (r: string)
    ensures r in THEMES
  {
    if "light-theme" in classes then "light"
    else if "dark-theme" in classes then "dark"
    else "auto"
  }

  /** `getDefaultFlavor()`: the `data-default-flavor` value when it names a flavor, else `none`. */
  function DefaultFlavor(attrs: Attrs): (r: string)
    ensures r in FLAVORS
    ensures r != "none" ==> DEFAULT_FLAVOR_ATTR in attrs && attrs[DEFAULT_FLAVOR_ATTR] == r
    ensures DEFAULT_FLAVOR_ATTR in attrs && attrs[DEFAULT_FLAVOR_ATTR] in FLAVORS ==> r == attrs[DEFAULT_FLAVOR_ATTR]
  {
    if DEFAULT_FLAVOR_ATTR in attrs && attrs[DEFAULT_FLAVOR_ATTR] != "" && attrs[DEFAULT_FLAVOR_ATTR] in FLAVORS
    then attrs[DEFAULT_FLAVOR_ATTR]
    else "none"
  }

  /** `getCurrentTheme()` over the cookie string `header`. */
  function CurrentTheme(classes: set<string>, header: string): (r: string)
    ensures r in THEMES
  {
    var cookie := CookieValue(header, THEME_COOKIE_NAME);
    if cookie.Some? && cookie.value != "" && cookie.value in THEMES then cookie.value
    else DefaultTheme(classes)
  }

  /** `getCurrentFlavor()` over the cookie string `header`. */
  function CurrentFlavor(attrs: Attrs, header: string): (r: string)
    ensures r in FLAVORS
  {
    if HasStaticFlavor(attrs) then StaticFlavor(attrs)
    else
      var cookie := CookieValue(header, FLAVOR_COOKIE_NAME);
      if FlavorSelectorEnabled(attrs) && cookie.Some? && cookie.value != "" && cookie.value in FLAVORS
      then cookie.value
      else DefaultFlavor(attrs)
  }

  /** The theme precedence in terms of the jar: a stored valid theme, else the
      `light-theme` class, else the `dark-theme` class, else `auto`. */
  lemma CurrentThemeFromJar(classes: set<string>, jar: seq<Cookie>)
    requires WellFormed(jar)
    ensures var stored := Lookup(jar, THEME_COOKIE_NAME);
      CurrentTheme(classes, Header(jar)) ==
        if stored.Some? && stored.value in THEMES then stored.value
        else if "light-theme" in classes then "light"
        else if "dark-theme" in classes then "dark"
        else "auto"
  {
    CookieRoundTrip(jar, THEME_COOKIE_NAME);
  }

  /** The flavor precedence in terms of the jar: a static flavor wins over
      everything; otherwise a stored valid flavor counts only while the flavor
      selector is enabled; otherwise the template's default flavor, else `none`. */
  lemma CurrentFlavorFromJar(attrs: Attrs, jar: seq<Cookie>)
    requires WellFormed(jar)
    ensures HasStaticFlavor(attrs) ==> CurrentFlavor(attrs, Header(jar)) == StaticFlavor(attrs)
    ensures var stored := Lookup(jar, FLAVOR_COOKIE_NAME);
      !HasStaticFlavor(attrs) ==>
        CurrentFlavor(attrs, Header(jar)) ==
          if FlavorSelectorEnabled(attrs) && stored.Some? && stored.value in FLAVORS then stored.value
          else if DEFAULT_FLAVOR_ATTR in attrs && attrs[DEFAULT_FLAVOR_ATTR] in FLAVORS then attrs[DEFAULT_FLAVOR_ATTR]
          else "none"
  {
    CookieRoundTrip(jar, FLAVOR_COOKIE_NAME);
  }

  // ---------------------------------------------------------------------------
  // What applying a theme or a flavor does to the root

  /** The root classes after `applyTheme(t)`. */
  function ThemeClasses(classes: set<string>, t: string): set<string>
  {
    var cleared := classes - {"light-theme", "dark-theme"};
    if t == "auto" then cleared else cleared + {ThemeClass(t)}
  }

  /** The root attributes after `applyTheme(t)`. */
  function ThemeAttrs(attrs: Attrs, t: string): Attrs
  {
    if t == "auto" then attrs - {THEME_ATTR} else attrs[THEME_ATTR := t]
  }

  /** The root classes after `applyFlavor(f)` without a static flavor. */
  function FlavorClasses(classes: set<string>, f: string): set<string>
  {
    var cleared := classes - FlavorClassSet();
    if f == "none" then cleared else cleared + {FlavorClass(f)}
  }

  /** After `applyTheme(t)`: `auto` leaves neither theme class and no
      `data-theme`; an explicit theme leaves exactly its own class of the pair
      and `data-theme = t`; no other class or attribute changes; and reading the
      class default back gives `t`. */
  lemma ApplyThemeMarksRoot(classes: set<string>, attrs: Attrs, t: string)
    requires t in THEMES
    ensures var c := ThemeClasses(classes, t);
      && (t == "auto" ==> "light-theme" !in c && "dark-theme" !in c)
      && (t != "auto" ==> c * {"light-theme", "dark-theme"} == {ThemeClass(t)})
      && (forall k :: k != "light-theme" && k != "dark-theme" ==> (k in c <==> k in classes))
      && DefaultTheme(c) == t
    ensures var a := ThemeAttrs(attrs, t);
      && (t == "auto" ==> THEME_ATTR !in a)
      && (t != "auto" ==> THEME_ATTR in a && a[THEME_ATTR] == t)
      && (forall k :: k != THEME_ATTR ==> (k in a <==> k in attrs) && (k in a ==> a[k] == attrs[k]))
  {
    assert ThemeClass("light") == "light-theme";
    assert ThemeClass("dark") == "dark-theme";
  }

  lemma SuffixCancels(a: string, b: string, s: string)
    requires a + s == b + s
    ensures a == b
  {
    assert |a| == |b|;
    assert a == (a + s)[..|a|];
    assert b == (b + s)[..|b|];
  }

  /** After `applyFlavor(f)` without a static flavor: of the six flavor classes
      exactly `f-flavor` is present (none of them for `none`), and no other
      class changes. */
  lemma ApplyFlavorMarksRoot(classes: set<string>, f: string)
    requires f in FLAVORS
    ensures forall g :: g in FLAVORS ==> (FlavorClass(g) in FlavorClasses(classes, f) <==> g == f && f != "none")
    ensures forall k :: k !in FlavorClassSet() ==> (k in FlavorClasses(classes, f) <==> k in classes)
  {
    forall g | g in FLAVORS && FlavorClass(g) == FlavorClass(f)
      ensures g == f
    {
      SuffixCancels(g, f, "-flavor");
    }
  }

  /** Applying the same theme twice leaves the root and the jar as applying it once. */
  lemma ApplyThemeIdempotent(classes: set<string>, attrs: Attrs, jar: seq<Cookie>, t: string)
    ensures ThemeClasses(ThemeClasses(classes, t), t) == ThemeClasses(classes, t)
    ensures ThemeAttrs(ThemeAttrs(attrs, t), t) == ThemeAttrs(attrs, t)
    ensures SetCookie(SetCookie(jar, THEME_COOKIE_NAME, t), THEME_COOKIE_NAME, t) == SetCookie(jar, THEME_COOKIE_NAME, t)
  {
    SetCookieIdempotent(jar, THEME_COOKIE_NAME, t);
  }

  /** Applying the same flavor twice leaves the root and the jar as applying it once. */
  lemma ApplyFlavorIdempotent(classes: set<string>, jar: seq<Cookie>, f: string)
    ensures FlavorClasses(FlavorClasses(classes, f), f) == FlavorClasses(classes, f)
    ensures SetCookie(SetCookie(jar, FLAVOR_COOKIE_NAME, f), FLAVOR_COOKIE_NAME, f) == SetCookie(jar, FLAVOR_COOKIE_NAME, f)
  {
    SetCookieIdempotent(jar, FLAVOR_COOKIE_NAME, f);
  }

  /** After `applyTheme(t)` the next `getCurrentTheme()` resolves to `t`. */
  lemma ApplyThemeThenResolve(classes: set<string>, jar: seq<Cookie>, t: string)
    requires WellFormed(jar) && t in THEMES
    ensures CurrentTheme(ThemeClasses(classes, t), Header(SetCookie(jar, THEME_COOKIE_NAME, t))) == t
  {
    SetCookieWellFormed(jar, THEME_COOKIE_NAME, t);
    SetCookieThenLookup(jar, THEME_COOKIE_NAME, t, THEME_COOKIE_NAME);
    CookieRoundTrip(SetCookie(jar, THEME_COOKIE_NAME, t), THEME_COOKIE_NAME);
  }

  /** With the flavor selector enabled and no static flavor, after
      `applyFlavor(f)` the next `getCurrentFlavor()` resolves to `f`. */
  lemma ApplyFlavorThenResolve(attrs: Attrs, jar: seq<Cookie>, f: string)
    requires WellFormed(jar) && f in FLAVORS
    requires FlavorSelectorEnabled(attrs) && !HasStaticFlavor(attrs)
    ensures CurrentFlavor(attrs, Header(SetCookie(jar, FLAVOR_COOKIE_NAME, f))) == f
  {
    SetCookieWellFormed(jar, FLAVOR_COOKIE_NAME, f);
    SetCookieThenLookup(jar, FLAVOR_COOKIE_NAME, f, FLAVOR_COOKIE_NAME);
    CookieRoundTrip(SetCookie(jar, FLAVOR_COOKIE_NAME, f), FLAVOR_COOKIE_NAME);
  }

  /** `applyTheme` leaves the flavor markers of the root alone. */
  lemma ThemeAttrsKeepFlavorMarkers(attrs: Attrs, t: string)
    ensures var a := ThemeAttrs(attrs, t);
      && HasStaticFlavor(a) == HasStaticFlavor(attrs)
      && FlavorSelectorEnabled(a) == FlavorSelectorEnabled(attrs)
      && ThemeSelectorEnabled(a) == ThemeSelectorEnabled(attrs)
      && StaticFlavor(a) == StaticFlavor(attrs)
      && DefaultFlavor(a) == DefaultFlavor(attrs)
  {
    var a := ThemeAttrs(attrs, t);
    assert forall k :: k != THEME_ATTR ==> (k in a <==> k in attrs) && (k in a ==> a[k] == attrs[k]);
  }

  /** Writing the theme cookie or the `data-theme` attribute does not change the resolved flavor. */
  lemma ThemeDoesNotAffectFlavor(attrs: Attrs, jar: seq<Cookie>, t: string)
    requires WellFormed(jar) && t in THEMES
    ensures CurrentFlavor(ThemeAttrs(attrs, t), Header(SetCookie(jar, THEME_COOKIE_NAME, t)))
         == CurrentFlavor(attrs, Header(jar))
  {
    var jar' := SetCookie(jar, THEME_COOKIE_NAME, t);
    SetCookieWellFormed(jar, THEME_COOKIE_NAME, t);
    SetCookieThenLookup(jar, THEME_COOKIE_NAME, t, FLAVOR_COOKIE_NAME);
    CookieRoundTrip(jar', FLAVOR_COOKIE_NAME);
    CookieRoundTrip(jar, FLAVOR_COOKIE_NAME);
    assert CookieValue(Header(jar'), FLAVOR_COOKIE_NAME) == CookieValue(Header(jar), FLAVOR_COOKIE_NAME);
    ThemeAttrsKeepFlavorMarkers(attrs, t);
  }

  /** The jar after `initTheme()` applies theme `t` and flavor `f`: the theme
      cookie is written, and the flavor cookie too unless the flavor selector
      is off or a static flavor is set. */
  function InitJar(attrs: Attrs, jar: seq<Cookie>, t: string, f: string): seq<Cookie>
  {
    var themed := SetCookie(jar, THEME_COOKIE_NAME, t);
    if FlavorSelectorEnabled(attrs) && !HasStaticFlavor(attrs) then SetCookie(themed, FLAVOR_COOKIE_NAME, f) else themed
  }

  /** The dropdown's radio values are pairwise distinct. */
  lemma RadioValuesDistinct()
    ensures Distinct(THEME_RADIO_VALUES) && Distinct(FLAVOR_RADIO_VALUES)
  {
  }

  /** Every radio of a fresh dropdown stands for a theme or a flavor. */
  lemma FreshRadioKeys()
    ensures KeysIn(Unmarked(THEME_RADIO_VALUES), THEMES) && KeysIn(Unmarked(FLAVOR_RADIO_VALUES), FLAVORS)
  {
    assert forall k :: k in THEME_RADIO_VALUES ==> k in THEMES;
    assert forall k :: k in FLAVOR_RADIO_VALUES ==> k in FLAVORS;
  }

  /** Marking the fresh theme radios for a theme checks exactly one of them. */
  lemma FreshThemeRadios(before: seq<Control>, after: seq<Control>, t: string)
    requires t in THEMES && MarkedFor(before, after, t)
    ensures before == Unmarked(THEME_RADIO_VALUES) ==> exists k :: OnlyOn(after, k)
  {
    if before == Unmarked(THEME_RADIO_VALUES) {
      RadioValuesDistinct();
      MarkedFreshGroup(THEME_RADIO_VALUES, after, t);
    }
  }

  /** Marking the fresh flavor radios for a flavor checks exactly one of them,
      or none for `none`. */
  lemma FreshFlavorRadios(before: seq<Control>, after: seq<Control>, f: string)
    requires f in FLAVORS && MarkedFor(before, after, f)
    ensures before == Unmarked(FLAVOR_RADIO_VALUES) ==>
      && (f != "none" ==> exists k :: OnlyOn(after, k))
      && (f == "none" ==> forall i :: 0 <= i < |after| ==> !after[i].on)
  {
    if before == Unmarked(FLAVOR_RADIO_VALUES) {
      RadioValuesDistinct();
      assert f in FLAVOR_RADIO_VALUES <==> f != "none";
      MarkedFreshGroup(FLAVOR_RADIO_VALUES, after, f);
    }
  }

  // ---------------------------------------------------------------------------
  // The page

  class Page {
    var classes: set<string>
    var attrs: Attrs
    var jar: seq<Cookie>
    /** The `input[name="theme"]` and `input[name="flavor"]` radios of the dropdown. */
    var themeRadios: seq<Control>
    var flavorRadios: seq<Control>
    /** Whether the `.config-menu` has been added to the header. */
    var menuBuilt: bool
    /** Whether the dropdown carries the `active` class. */
    var dropdownActive: bool
    /** Whether the page has a `header` element. */
    const hasHeader: bool

    ghost predicate Valid()
      reads this
    {
      && WellFormed(jar)
      && (!menuBuilt ==> themeRadios == [] && flavorRadios == [] && !dropdownActive)
      && KeysIn(themeRadios, THEMES) && KeysIn(flavorRadios, FLAVORS)
      && (themeRadios != [] ==> ThemeSelectorEnabled(attrs))
      && (flavorRadios != [] ==> FlavorSelectorEnabled(attrs))
    }

    /** The page as the template delivers it, before the script runs. */
    constructor (classes: set<string>, attrs: Attrs, jar: seq<Cookie>, hasHeader: bool)
      requires WellFormed(jar)
      ensures Valid()
      ensures this.classes == classes && this.attrs == attrs && this.jar == jar && this.hasHeader == hasHeader
      ensures !menuBuilt
    {
      this.classes := classes;
      this.attrs := attrs;
      this.jar := jar;
      this.hasHeader := hasHeader;
      themeRadios := [];
      flavorRadios := [];
      menuBuilt := false;
      dropdownActive := false;
    }

    /** `applyTheme(theme)`. */
    method ApplyTheme(theme: string)
      requires Valid() && theme in THEMES
      modifies this`classes, this`attrs, this`jar, this`themeRadios
      ensures Valid()
      ensures classes == ThemeClasses(old(classes), theme)
      ensures attrs == ThemeAttrs(old(attrs), theme)
      ensures jar == SetCookie(old(jar), THEME_COOKIE_NAME, theme)
      ensures if ThemeSelectorEnabled(old(attrs)) then MarkedFor(old(themeRadios), themeRadios, theme)
              else themeRadios == old(themeRadios)
      ensures flavorRadios == old(flavorRadios) && menuBuilt == old(menuBuilt) && dropdownActive == old(dropdownActive)
    {
      classes := classes - {"light-theme", "dark-theme"};
      if theme == "auto" {
        attrs := attrs - {THEME_ATTR};
      } else {
        classes := classes + {ThemeClass(theme)};
        attrs := attrs[THEME_ATTR := theme];
      }
      if ThemeSelectorEnabled(attrs) {
        ghost var before := themeRadios;
        themeRadios := MarkMatching(themeRadios, theme);
        MarkedForKeepsKeys(before, themeRadios, theme, THEMES);
      }
      CookieSafe(theme);
      SetCookieWellFormed(jar, THEME_COOKIE_NAME, theme);
      jar := SetCookie(jar, THEME_COOKIE_NAME, theme);
    }

    /** `applyFlavor(flavor)`. */
    method ApplyFlavor(flavor: string)
      requires Valid() && flavor in FLAVORS
      modifies this`classes, this`jar, this`flavorRadios
      ensures Valid()
      ensures attrs == old(attrs)
      ensures HasStaticFlavor(old(attrs)) ==>
        && classes == old(classes) && jar == old(jar)
        && if FlavorSelectorEnabled(old(attrs)) then MarkedFor(old(flavorRadios), flavorRadios, StaticFlavor(old(attrs)))
           else flavorRadios == old(flavorRadios)
      ensures !HasStaticFlavor(old(attrs)) ==>
        && classes == FlavorClasses(old(classes), flavor)
        && if FlavorSelectorEnabled(old(attrs))
           then MarkedFor(old(flavorRadios), flavorRadios, flavor) && jar == SetCookie(old(jar), FLAVOR_COOKIE_NAME, flavor)
           else flavorRadios == old(flavorRadios) && jar == old(jar)
      ensures themeRadios == old(themeRadios) && menuBuilt == old(menuBuilt) && dropdownActive == old(dropdownActive)
    {
      if HasStaticFlavor(attrs) {
        if FlavorSelectorEnabled(attrs) {
          ghost var before := flavorRadios;
          flavorRadios := MarkMatching(flavorRadios, StaticFlavor(attrs));
          MarkedForKeepsKeys(before, flavorRadios, StaticFlavor(attrs), FLAVORS);
        }
        return;
      }
      var i := 0;
      while i < |FLAVORS|
        invariant 0 <= i <= |FLAVORS|
        invariant classes == old(classes) - set j | 0 <= j < i :: FlavorClass(FLAVORS[j])
        invariant attrs == old(attrs) && jar == old(jar) && flavorRadios == old(flavorRadios)
        invariant themeRadios == old(themeRadios) && menuBuilt == old(menuBuilt) && dropdownActive == old(dropdownActive)
      {
        classes := classes - {FlavorClass(FLAVORS[i])};
        i := i + 1;
      }
      assert (set j | 0 <= j < |FLAVORS| :: FlavorClass(FLAVORS[j])) == FlavorClassSet();
      if flavor != "none" {
        classes := classes + {FlavorClass(flavor)};
      }
      if FlavorSelectorEnabled(attrs) {
        ghost var before := flavorRadios;
        flavorRadios := MarkMatching(flavorRadios, flavor);
        MarkedForKeepsKeys(before, flavorRadios, flavor, FLAVORS);
        CookieSafe(flavor);
        SetCookieWellFormed(jar, FLAVOR_COOKIE_NAME, flavor);
        jar := SetCookie(jar, FLAVOR_COOKIE_NAME, flavor);
      }
    }

    /** The state effects of `createThemeSwitcher()`: nothing unless a selector
        is enabled and the page has a header; otherwise the menu is added, closed,
        with unchecked radios for each enabled selector. */
    method CreateThemeSwitcher()
      requires Valid() && !menuBuilt
      modifies this
      ensures Valid()
      ensures classes == old(classes) && attrs == old(attrs) && jar == old(jar) && !dropdownActive
      ensures var builds := (ThemeSelectorEnabled(attrs) || FlavorSelectorEnabled(attrs)) && hasHeader;
        && menuBuilt == builds
        && themeRadios == (if builds && ThemeSelectorEnabled(attrs) then Unmarked(THEME_RADIO_VALUES) else [])
        && flavorRadios == (if builds && FlavorSelectorEnabled(attrs) then Unmarked(FLAVOR_RADIO_VALUES) else [])
    {
      if !ThemeSelectorEnabled(attrs) && !FlavorSelectorEnabled(attrs) {
        return;
      }
      if !hasHeader {
        return;
      }
      menuBuilt := true;
      FreshRadioKeys();
      if ThemeSelectorEnabled(attrs) {
        themeRadios := Unmarked(THEME_RADIO_VALUES);
      }
      if FlavorSelectorEnabled(attrs) {
        flavorRadios := Unmarked(FLAVOR_RADIO_VALUES);
      }
    }

    /** A click on the gear button flips the dropdown's `active` class. */
    method OnToggleClick()
      requires Valid() && menuBuilt
      modifies this`dropdownActive
      ensures Valid()
      ensures dropdownActive == !old(dropdownActive)
    {
      dropdownActive := !dropdownActive;
    }

    /** A click anywhere in the document closes the dropdown unless it landed inside the menu. */
    method OnDocumentClick(insideMenu: bool)
      requires Valid() && menuBuilt
      modifies this`dropdownActive
      ensures Valid()
      ensures dropdownActive == (old(dropdownActive) && insideMenu)
    {
      if !insideMenu {
        dropdownActive := false;
      }
    }

    /** The `change` handler of theme radio `i`: the radio is checked, so its theme is applied. */
    method OnThemeRadioChange(i: nat)
      requires Valid() && i < |themeRadios|
      modifies this
      ensures Valid()
      ensures var t := old(themeRadios[i].key);
        && classes == ThemeClasses(old(classes), t)
        && attrs == ThemeAttrs(old(attrs), t)
        && jar == SetCookie(old(jar), THEME_COOKIE_NAME, t)
        && MarkedFor(old(themeRadios), themeRadios, t)
        && themeRadios[i].on
      ensures flavorRadios == old(flavorRadios) && dropdownActive == old(dropdownActive)
    {
      ApplyTheme(themeRadios[i].key);
    }

    /** The `change` handler of flavor radio `i`. */
    method OnFlavorRadioChange(i: nat)
      requires Valid() && i < |flavorRadios|
      modifies this
      ensures Valid()
      ensures attrs == old(attrs)
      ensures var f := old(flavorRadios[i].key);
        !HasStaticFlavor(old(attrs)) ==>
          && classes == FlavorClasses(old(classes), f)
          && jar == SetCookie(old(jar), FLAVOR_COOKIE_NAME, f)
          && MarkedFor(old(flavorRadios), flavorRadios, f)
          && flavorRadios[i].on
      ensures HasStaticFlavor(old(attrs)) ==>
        && classes == old(classes) && jar == old(jar)
        && MarkedFor(old(flavorRadios), flavorRadios, StaticFlavor(old(attrs)))
      ensures themeRadios == old(themeRadios) && menuBuilt == old(menuBuilt) && dropdownActive == old(dropdownActive)
    {
      ApplyFlavor(flavorRadios[i].key);
    }

    /** The first half of `initTheme()`: resolve and apply the theme, then
        resolve (against the updated page) and apply the flavor. */
    method ApplyResolved() returns (t: string, f: string)
      requires Valid() && !menuBuilt
      modifies this
      ensures Valid() && !menuBuilt && !dropdownActive && themeRadios == [] && flavorRadios == []
      ensures t == CurrentTheme(old(classes), Header(old(jar)))
      ensures f == CurrentFlavor(old(attrs), Header(old(jar)))
      ensures attrs == ThemeAttrs(old(attrs), t)
      ensures jar == InitJar(old(attrs), old(jar), t, f)
      ensures Lookup(jar, THEME_COOKIE_NAME) == Some(t)
      ensures classes == (if HasStaticFlavor(old(attrs)) then ThemeClasses(old(classes), t)
                          else FlavorClasses(ThemeClasses(old(classes), t), f))
      ensures FlavorSelectorEnabled(old(attrs)) && !HasStaticFlavor(old(attrs)) ==> Lookup(jar, FLAVOR_COOKIE_NAME) == Some(f)
      ensures !FlavorSelectorEnabled(old(attrs)) || HasStaticFlavor(old(attrs)) ==>
                Lookup(jar, FLAVOR_COOKIE_NAME) == Lookup(old(jar), FLAVOR_COOKIE_NAME)
    {
      ghost var attrs0, jar0 := attrs, jar;
      t := CurrentTheme(classes, Header(jar));
      ApplyTheme(t);
      ghost var attrs1, jar1 := attrs, jar;
      SetCookieThenLookup(jar0, THEME_COOKIE_NAME, t, FLAVOR_COOKIE_NAME);
      ThemeDoesNotAffectFlavor(attrs0, jar0, t);
      f := CurrentFlavor(attrs, Header(jar));
      assert HasStaticFlavor(attrs1) == HasStaticFlavor(attrs0);
      assert FlavorSelectorEnabled(attrs1) == FlavorSelectorEnabled(attrs0);
      ApplyFlavor(f);
      SetCookieThenLookup(jar1, FLAVOR_COOKIE_NAME, f, THEME_COOKIE_NAME);
      SetCookieThenLookup(jar1, FLAVOR_COOKIE_NAME, f, FLAVOR_COOKIE_NAME);
    }

    /** `initTheme()` as written, returning the resolved theme `t` and flavor
        `f`: apply both, then build the dropdown. The radio updates inside the
        two apply calls run before any radio exists, so every radio of the new
        dropdown starts unchecked. */
    method InitTheme() returns (t: string, f: string)
      requires Valid() && !menuBuilt
      modifies this
      ensures Valid()
      ensures t == CurrentTheme(old(classes), Header(old(jar)))
      ensures f == CurrentFlavor(old(attrs), Header(old(jar)))
      ensures attrs == ThemeAttrs(old(attrs), t)
      ensures jar == InitJar(old(attrs), old(jar), t, f)
      ensures Lookup(jar, THEME_COOKIE_NAME) == Some(t)
      ensures classes == (if HasStaticFlavor(old(attrs)) then ThemeClasses(old(classes), t)
                          else FlavorClasses(ThemeClasses(old(classes), t), f))
      ensures FlavorSelectorEnabled(old(attrs)) && !HasStaticFlavor(old(attrs)) ==> Lookup(jar, FLAVOR_COOKIE_NAME) == Some(f)
      ensures !FlavorSelectorEnabled(old(attrs)) || HasStaticFlavor(old(attrs)) ==>
                Lookup(jar, FLAVOR_COOKIE_NAME) == Lookup(old(jar), FLAVOR_COOKIE_NAME)
      ensures menuBuilt == ((ThemeSelectorEnabled(old(attrs)) || FlavorSelectorEnabled(old(attrs))) && hasHeader)
      ensures !dropdownActive
      ensures themeRadios == (if menuBuilt && ThemeSelectorEnabled(old(attrs)) then Unmarked(THEME_RADIO_VALUES) else [])
      ensures flavorRadios == (if menuBuilt && FlavorSelectorEnabled(old(attrs)) then Unmarked(FLAVOR_RADIO_VALUES) else [])
      ensures forall i :: 0 <= i < |themeRadios| ==> !themeRadios[i].on
      ensures forall i :: 0 <= i < |flavorRadios| ==> !flavorRadios[i].on
    {
      t, f := ApplyResolved();
      ThemeAttrsKeepFlavorMarkers(old(attrs), t);
      CreateThemeSwitcher();
    }

    /** The radio updates `initTheme()` evidently intends: check the radios of
        the resolved theme and flavor. In a freshly built dropdown that leaves
        exactly one theme radio checked, and exactly one flavor radio unless
        the flavor is `none`, which has no radio. */
    method SyncRadios(t: string, f: string)
      requires Valid() && t in THEMES && f in FLAVORS
      modifies this`themeRadios, this`flavorRadios
      ensures Valid()
      ensures MarkedFor(old(themeRadios), themeRadios, t)
      ensures MarkedFor(old(flavorRadios), flavorRadios, f)
      ensures old(themeRadios) == Unmarked(THEME_RADIO_VALUES) ==> exists k :: OnlyOn(themeRadios, k)
      ensures old(flavorRadios) == Unmarked(FLAVOR_RADIO_VALUES) ==>
        && (f != "none" ==> exists k :: OnlyOn(flavorRadios, k))
        && (f == "none" ==> forall i :: 0 <= i < |flavorRadios| ==> !flavorRadios[i].on)
    {
      ghost var themeBuilt, flavorBuilt := themeRadios, flavorRadios;
      if ThemeSelectorEnabled(attrs) {
        themeRadios := MarkMatching(themeRadios, t);
        MarkedForKeepsKeys(themeBuilt, themeRadios, t, THEMES);
      }
      if FlavorSelectorEnabled(attrs) {
        flavorRadios := MarkMatching(flavorRadios, f);
        MarkedForKeepsKeys(flavorBuilt, flavorRadios, f, FLAVORS);
      }
      FreshThemeRadios(themeBuilt, themeRadios, t);
      FreshFlavorRadios(flavorBuilt, flavorRadios, f);
    }

    /** `initTheme()` with the radio updates run after the dropdown exists, so
        that the radios show the resolved theme `t` and flavor `f`: in a built
        dropdown exactly one theme radio is checked, and exactly one flavor
        radio unless the flavor is `none`, which has no radio. */
    method InitThemeSynced() returns (t: string, f: string)
      requires Valid() && !menuBuilt
      modifies this
      ensures Valid()
      ensures t == CurrentTheme(old(classes), Header(old(jar)))
      ensures f == CurrentFlavor(old(attrs), Header(old(jar)))
      ensures attrs == ThemeAttrs(old(attrs), t)
      ensures jar == InitJar(old(attrs), old(jar), t, f)
      ensures Lookup(jar, THEME_COOKIE_NAME) == Some(t)
      ensures FlavorSelectorEnabled(old(attrs)) && !HasStaticFlavor(old(attrs)) ==> Lookup(jar, FLAVOR_COOKIE_NAME) == Some(f)
      ensures !FlavorSelectorEnabled(old(attrs)) || HasStaticFlavor(old(attrs)) ==>
                Lookup(jar, FLAVOR_COOKIE_NAME) == Lookup(old(jar), FLAVOR_COOKIE_NAME)
      ensures classes == (if HasStaticFlavor(old(attrs)) then ThemeClasses(old(classes), t)
                          else FlavorClasses(ThemeClasses(old(classes), t), f))
      ensures menuBuilt == ((ThemeSelectorEnabled(old(attrs)) || FlavorSelectorEnabled(old(attrs))) && hasHeader)
      ensures !dropdownActive
      ensures menuBuilt && ThemeSelectorEnabled(old(attrs)) ==>
        && MarkedFor(Unmarked(THEME_RADIO_VALUES), themeRadios, t)
        && exists k :: OnlyOn(themeRadios, k)
      ensures !(menuBuilt && ThemeSelectorEnabled(old(attrs))) ==> themeRadios == []
      ensures menuBuilt && FlavorSelectorEnabled(old(attrs)) ==>
        && MarkedFor(Unmarked(FLAVOR_RADIO_VALUES), flavorRadios, f)
        && (f != "none" ==> exists k :: OnlyOn(flavorRadios, k))
        && (f == "none" ==> forall i :: 0 <= i < |flavorRadios| ==> !flavorRadios[i].on)
      ensures !(menuBuilt && FlavorSelectorEnabled(old(attrs))) ==> flavorRadios == []
    {
      t, f := InitTheme();
      ghost var themeBuilt, flavorBuilt := themeRadios, flavorRadios;
      ThemeAttrsKeepFlavorMarkers(old(attrs), t);
      SyncRadios(t, f);
      if menuBuilt && ThemeSelectorEnabled(old(attrs)) {
        assert themeBuilt == Unmarked(THEME_RADIO_VALUES);
      } else {
        assert themeBuilt == [];
      }
      if menuBuilt && FlavorSelectorEnabled(old(attrs)) {
        assert flavorBuilt == Unmarked(FLAVOR_RADIO_VALUES);
      } else {
        assert flavorBuilt == [];
      }
    }
  }
}
