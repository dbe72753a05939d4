/**
  The theme and flavor buttons and the Mermaid re-rendering of static/js/main.js.

  The root's attributes, `localStorage`, the `.mermaid` elements and the
  `[data-theme]`/`[data-flavor]` buttons are the state. The
  `prefers-color-scheme: dark` media query is passed in as `prefersDark`; the
  Mermaid library is seen only through the options handed to
  `mermaid.initialize`, which the page records in order.
 */
module MainScript {
  import opened Controls

  const COLOR_SCHEME_ATTR: string := "color-scheme"
  const FLAVOR_ATTR: string := "flavor"
  const THEME_KEY: string := "theme"
  const FLAVOR_KEY: string := "flavor"

  /** One `.mermaid` element: its markup and whether Mermaid marked it processed. */
  datatype Diagram = Diagram(html: string, processed: bool)

  /** The options object given to `mermaid.initialize`. */
  datatype MermaidConfig = MermaidConfig(startOnLoad: bool, theme: string)

  /** The options `mermaidRender(theme)` initializes Mermaid with. */
  function MermaidOptions(theme: string): (c: MermaidConfig)
    ensures !c.startOnLoad
    ensures c.theme in {"dark", "neutral"}
    ensures c.theme == "dark" <==> theme == "dark"
  {
    if theme == "dark" then MermaidConfig(false, "dark") else MermaidConfig(false, "neutral")
  }

  /** `getSystemTheme()`. */
  function SystemTheme(prefersDark: bool): (r: string)
    ensures r in {"light", "dark"}
    ensures r == "dark" <==> prefersDark
  {
    if prefersDark then "dark" else "light"
  }

  /** `getCurrentTheme()`: the `color-scheme` attribute, unless it is missing,
      empty or `auto`, in which case the system theme. */
  function CurrentTheme(attrs: map<string, string>, prefersDark: bool): (r: string)
    ensures r != "" && r != "auto"
    ensures COLOR_SCHEME_ATTR in attrs && attrs[COLOR_SCHEME_ATTR] !in {"", "auto"} ==> r == attrs[COLOR_SCHEME_ATTR]
    ensures !(COLOR_SCHEME_ATTR in attrs && attrs[COLOR_SCHEME_ATTR] !in {"", "auto"}) ==> r == SystemTheme(prefersDark)
  {
    if COLOR_SCHEME_ATTR !in attrs || attrs[COLOR_SCHEME_ATTR] == "auto" || attrs[COLOR_SCHEME_ATTR] == "" then
      SystemTheme(prefersDark)
    else
      attrs[COLOR_SCHEME_ATTR]
  }

  /** The theme `setTheme(theme)` renders diagrams in. */
  function EffectiveTheme(theme: string, prefersDark: bool): string
  {
    if theme == "auto" then SystemTheme(prefersDark) else theme
  }

  /** The `color-scheme` value `updateActiveStates()` highlights: `auto` when missing or empty. */
  function ActiveTheme(attrs: map<string, string>): (r: string)
    ensures r != ""
    ensures COLOR_SCHEME_ATTR in attrs && attrs[COLOR_SCHEME_ATTR] != "" ==> r == attrs[COLOR_SCHEME_ATTR]
    ensures !(COLOR_SCHEME_ATTR in attrs && attrs[COLOR_SCHEME_ATTR] != "") ==> r == "auto"
  {
    if COLOR_SCHEME_ATTR in attrs && attrs[COLOR_SCHEME_ATTR] != "" then attrs[COLOR_SCHEME_ATTR] else "auto"
  }

  /** The `flavor` value `updateActiveStates()` highlights: `monochrome` when missing or empty. */
  function ActiveFlavor(attrs: map<string, string>): (r: string)
    ensures r != ""
    ensures FLAVOR_ATTR in attrs && attrs[FLAVOR_ATTR] != "" ==> r == attrs[FLAVOR_ATTR]
    ensures !(FLAVOR_ATTR in attrs && attrs[FLAVOR_ATTR] != "") ==> r == "monochrome"
  {
    if FLAVOR_ATTR in attrs && attrs[FLAVOR_ATTR] != "" then attrs[FLAVOR_ATTR] else "monochrome"
  }

  /** After `setTheme(theme)` with a non-empty theme, the diagrams are rendered
      in the theme `getCurrentTheme()` then reports, and the highlighted button
      stands for the same choice. */
  lemma RenderMatchesCurrentTheme(attrs: map<string, string>, theme: string, prefersDark: bool)
    requires theme != ""
    ensures var after := attrs[COLOR_SCHEME_ATTR := theme];
      && EffectiveTheme(theme, prefersDark) == CurrentTheme(after, prefersDark)
      && (MermaidOptions(EffectiveTheme(theme, prefersDark)).theme == "dark" <==> CurrentTheme(after, prefersDark) == "dark")
      && ActiveTheme(after) == theme
  {
  }

  /** The highlighted theme and the reported theme agree on every root:
      `auto` is highlighted exactly when the system theme is reported for that reason. */
  lemma ActiveAgreesWithCurrent(attrs: map<string, string>, prefersDark: bool)
    ensures CurrentTheme(attrs, prefersDark) == EffectiveTheme(ActiveTheme(attrs), prefersDark)
  {
  }

  /** An empty `data-theme` is stored as it is and reported as the system
      theme, yet the diagrams are rendered in Mermaid's neutral theme even when
      the system is dark. */
  lemma EmptyThemeRendersNeutral(attrs: map<string, string>)
    ensures var after := attrs[COLOR_SCHEME_ATTR := ""];
      && CurrentTheme(after, true) == "dark"
      && MermaidOptions(EffectiveTheme("", true)).theme == "neutral"
  {
  }

  /** `localStorage.getItem(key)`, with a missing item read as empty (both are falsy). */
  function Saved(store: map<string, string>, key: string): string
  {
    if key in store then store[key] else ""
  }

  /** The root after `initializeThemeSwitcher()` re-applies the non-empty saved choices. */
  function WithSaved(attrs: map<string, string>, store: map<string, string>): (r: map<string, string>)
    ensures Saved(store, THEME_KEY) != "" ==> COLOR_SCHEME_ATTR in r && r[COLOR_SCHEME_ATTR] == Saved(store, THEME_KEY)
    ensures Saved(store, FLAVOR_KEY) != "" ==> FLAVOR_ATTR in r && r[FLAVOR_ATTR] == Saved(store, FLAVOR_KEY)
    ensures forall k :: k in attrs ==> k in r
    ensures forall k :: (k in r && !(k == COLOR_SCHEME_ATTR && Saved(store, THEME_KEY) != "")
                               && !(k == FLAVOR_ATTR && Saved(store, FLAVOR_KEY) != "")) ==> k in attrs && r[k] == attrs[k]
  {
    var themed := if Saved(store, THEME_KEY) != "" then attrs[COLOR_SCHEME_ATTR := Saved(store, THEME_KEY)] else attrs;
    if Saved(store, FLAVOR_KEY) != "" then themed[FLAVOR_ATTR := Saved(store, FLAVOR_KEY)] else themed
  }

  /** The loop at load time that copies every diagram's markup into `mmdHTML`. */
  method TakeSnapshot(diagrams: array<Diagram>) returns (html: seq<string>)
    ensures |html| == diagrams.Length
    ensures forall i :: 0 <= i < diagrams.Length ==> html[i] == diagrams[i].html
  {
    html := [];
    var i := 0;
    while i < diagrams.Length
      invariant 0 <= i <= diagrams.Length
      invariant |html| == i
      invariant forall j :: 0 <= j < i ==> html[j] == diagrams[j].html
    {
      html := html + [diagrams[i].html];
      i := i + 1;
    }
  }

  class Page {
    /** The root element's attributes. */
    var attrs: map<string, string>
    /** `localStorage`. */
    var store: map<string, string>
    /** The `.mermaid` elements. */
    const diagrams: array<Diagram>
    /** `mmdHTML`: each diagram's markup as it was when the script loaded. */
    const snapshot: seq<string>
    /** The options of every `mermaid.initialize` call so far. */
    var initialized: seq<MermaidConfig>
    /** The `[data-theme]` buttons and whether each has the `active` class. */
    var themeButtons: seq<Control>
    /** The `[data-flavor]` buttons and whether each has the `active` class. */
    var flavorButtons: seq<Control>
    /** Whether the page has a `.theme-switcher` element. */
    const hasSwitcher: bool

    ghost predicate Valid()
      reads this
    {
      |snapshot| == diagrams.Length
    }

    /** Loading the script: the snapshot holds every diagram's markup. */
    constructor (diagrams: array<Diagram>, attrs: map<string, string>, store: map<string, string>,
                 themeButtons: seq<Control>, flavorButtons: seq<Control>, hasSwitcher: bool)
      ensures Valid()
      ensures this.diagrams == diagrams && forall i :: 0 <= i < diagrams.Length ==> snapshot[i] == diagrams[i].html
      ensures this.attrs == attrs && this.store == store && initialized == []
      ensures this.themeButtons == themeButtons && this.flavorButtons == flavorButtons && this.hasSwitcher == hasSwitcher
    {
      var html := TakeSnapshot(diagrams);
      this.diagrams := diagrams;
      this.snapshot := html;
      this.attrs := attrs;
      this.store := store;
      this.initialized := [];
      this.themeButtons := themeButtons;
      this.flavorButtons := flavorButtons;
      this.hasSwitcher := hasSwitcher;
    }

    /** Every diagram is back to its load-time markup and unprocessed. */
    ghost predicate Restored()
      reads this, diagrams
      requires Valid()
    {
      forall i :: 0 <= i < diagrams.Length ==> diagrams[i] == Diagram(snapshot[i], false)
    }

    /** `mermaidRender(theme)`, up to the call into `mermaid.run()`. */
    method MermaidRender(theme: string)
      requires Valid()
      modifies this`initialized, diagrams
      ensures Restored()
      ensures initialized == old(initialized) + [MermaidOptions(theme)]
    {
      var options := MermaidOptions(theme);
      var i := 0;
      while i < diagrams.Length
        invariant 0 <= i <= diagrams.Length
        invariant forall j :: 0 <= j < i ==> diagrams[j] == Diagram(snapshot[j], false)
        invariant initialized == old(initialized)
      {
        diagrams[i] := Diagram(snapshot[i], false);
        i := i + 1;
      }
      initialized := initialized + [options];
    }

    /** `setTheme(theme)`: record and store the theme; re-render the diagrams, if any. */
    method SetTheme(theme: string, prefersDark: bool)
      requires Valid()
      modifies this`attrs, this`store, this`initialized, diagrams
      ensures attrs == old(attrs)[COLOR_SCHEME_ATTR := theme]
      ensures store == old(store)[THEME_KEY := theme]
      ensures diagrams.Length > 0 ==> Restored() && initialized == old(initialized) + [MermaidOptions(EffectiveTheme(theme, prefersDark))]
      ensures diagrams.Length == 0 ==> initialized == old(initialized)
    {
      attrs := attrs[COLOR_SCHEME_ATTR := theme];
      store := store[THEME_KEY := theme];
      if diagrams.Length > 0 {
        var effectiveTheme := if theme == "auto" then SystemTheme(prefersDark) else theme;
        MermaidRender(effectiveTheme);
      }
    }

    /** `setFlavor(flavor)`. */
    method SetFlavor(flavor: string)
      modifies this`attrs, this`store
      ensures attrs == old(attrs)[FLAVOR_ATTR := flavor]
      ensures store == old(store)[FLAVOR_KEY := flavor]
    {
      attrs := attrs[FLAVOR_ATTR := flavor];
      store := store[FLAVOR_KEY := flavor];
    }

    /** `updateActiveStates()`: a button is active exactly when it stands for the current value. */
    method UpdateActiveStates()
      modifies this`themeButtons, this`flavorButtons
      ensures MarkedFor(old(themeButtons), themeButtons, ActiveTheme(attrs))
      ensures MarkedFor(old(flavorButtons), flavorButtons, ActiveFlavor(attrs))
    {
      themeButtons := MarkMatching(themeButtons, ActiveTheme(attrs));
      flavorButtons := MarkMatching(flavorButtons, ActiveFlavor(attrs));
    }

    /** `initializeThemeSwitcher()`: re-apply the non-empty saved choices, then
        highlight the buttons. Storage ends as it began. */
    method InitializeThemeSwitcher(prefersDark: bool)
      requires Valid()
      modifies this, diagrams
      ensures store == old(store)
      ensures attrs == WithSaved(old(attrs), old(store))
      ensures Saved(old(store), THEME_KEY) != "" ==> ActiveTheme(attrs) == Saved(old(store), THEME_KEY)
      ensures Saved(old(store), FLAVOR_KEY) != "" ==> ActiveFlavor(attrs) == Saved(old(store), FLAVOR_KEY)
      ensures var saved := Saved(old(store), THEME_KEY);
        && (saved != "" && diagrams.Length > 0 ==>
              Restored() && initialized == old(initialized) + [MermaidOptions(EffectiveTheme(saved, prefersDark))])
        && (saved == "" || diagrams.Length == 0 ==> initialized == old(initialized))
        && (saved == "" ==> unchanged(diagrams))
      ensures MarkedFor(old(themeButtons), themeButtons, ActiveTheme(attrs))
      ensures MarkedFor(old(flavorButtons), flavorButtons, ActiveFlavor(attrs))
    {
      var savedTheme := Saved(store, THEME_KEY);
      var savedFlavor := Saved(store, FLAVOR_KEY);
      if savedTheme != "" {
        SetTheme(savedTheme, prefersDark);
      }
      if savedFlavor != "" {
        SetFlavor(savedFlavor);
      }
      UpdateActiveStates();
    }

    /** A click on the `i`-th `[data-theme]` button. */
    method OnThemeButtonClick(i: nat, prefersDark: bool)
      requires Valid() && i < |themeButtons|
      modifies this, diagrams
      ensures var theme := old(themeButtons[i].key);
        && attrs == old(attrs)[COLOR_SCHEME_ATTR := theme]
        && store == old(store)[THEME_KEY := theme]
        && (diagrams.Length > 0 ==> Restored() && initialized == old(initialized) + [MermaidOptions(EffectiveTheme(theme, prefersDark))])
        && (diagrams.Length == 0 ==> initialized == old(initialized))
      ensures MarkedFor(old(themeButtons), themeButtons, ActiveTheme(attrs))
      ensures MarkedFor(old(flavorButtons), flavorButtons, ActiveFlavor(attrs))
      ensures old(themeButtons[i].key) != "" ==> themeButtons[i].on
    {
      var theme := themeButtons[i].key;
      SetTheme(theme, prefersDark);
      UpdateActiveStates();
    }

    /** A click on the `i`-th `[data-flavor]` button. */
    method OnFlavorButtonClick(i: nat)
      requires i < |flavorButtons|
      modifies this
      ensures var flavor := old(flavorButtons[i].key);
        && attrs == old(attrs)[FLAVOR_ATTR := flavor]
        && store == old(store)[FLAVOR_KEY := flavor]
      ensures initialized == old(initialized)
      ensures MarkedFor(old(themeButtons), themeButtons, ActiveTheme(attrs))
      ensures MarkedFor(old(flavorButtons), flavorButtons, ActiveFlavor(attrs))
      ensures old(flavorButtons[i].key) != "" ==> flavorButtons[i].on
    {
      var flavor := flavorButtons[i].key;
      SetFlavor(flavor);
      UpdateActiveStates();
    }

    /** The `DOMContentLoaded` handler: the switcher is set up only on pages
        that have one; elsewhere nothing changes. */
    method OnContentLoaded(prefersDark: bool)
      requires Valid()
      modifies this, diagrams
      ensures store == old(store)
      ensures !hasSwitcher ==> attrs == old(attrs) && initialized == old(initialized) && unchanged(diagrams)
                               && themeButtons == old(themeButtons) && flavorButtons == old(flavorButtons)
      ensures hasSwitcher ==> attrs == WithSaved(old(attrs), old(store))
      ensures var saved := Saved(old(store), THEME_KEY);
        && (hasSwitcher && saved != "" && diagrams.Length > 0 ==>
              Restored() && initialized == old(initialized) + [MermaidOptions(EffectiveTheme(saved, prefersDark))])
        && (!hasSwitcher || saved == "" ==> initialized == old(initialized) && unchanged(diagrams))
      ensures hasSwitcher ==> MarkedFor(old(themeButtons), themeButtons, ActiveTheme(attrs))
                              && MarkedFor(old(flavorButtons), flavorButtons, ActiveFlavor(attrs))
    {
      if hasSwitcher {
        InitializeThemeSwitcher(prefersDark);
      }
    }
  }
}
