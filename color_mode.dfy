/**
  The light/dark toggle of public/js/theme.js.

  The root's classes, `localStorage` (a string map) and the `.theme-toggle`
  button's two ARIA attributes are the state. The computed `--color-mode`
  custom property and the `prefers-color-scheme: dark` media query are read
  from the browser; they are passed in as `cssRaw` (the raw property text) and
  `prefersDark` (false also when `window.matchMedia` is missing).
 */
module ColorMode {
  // Only the `Option` datatype is used from `Cookies`, which every script
  // module imports; it is declared once there.
  import opened Cookies

  const STORAGE_KEY: string := "user-color-scheme"

  // ---------------------------------------------------------------------------
  // getCSSCustomProp

  predicate IsQuote(c: char) { c == '\'' || c == '"' }

  /** The characters `String.prototype.trim` removes: JavaScript's WhiteSpace and LineTerminator. */
  predicate IsJsSpace(c: char)
  {
    || c == '\t' || c == '\n' || c == '\U{B}' || c == '\U{C}' || c == '\r' || c == ' '
    || c == '\U{A0}' || c == '\U{1680}' || ('\U{2000}' <= c <= '\U{200A}')
    || c == '\U{2028}' || c == '\U{2029}' || c == '\U{202F}' || c == '\U{205F}'
    || c == '\U{3000}' || c == '\U{FEFF}'
  }

  /** `s.replace(/\'|"/g, '')`. */
  function RemoveQuotes(s: string): string
  {
    if s == [] then []
    else if IsQuote(s[0]) then RemoveQuotes(s[1..])
    else [s[0]] + RemoveQuotes(s[1..])
  }

  function TrimStart(s: string): string
  {
    if |s| > 0 && IsJsSpace(s[0]) then TrimStart(s[1..]) else s
  }

  function TrimEnd(s: string): string
  {
    if |s| > 0 && IsJsSpace(s[|s| - 1]) then TrimEnd(s[..|s| - 1]) else s
  }

  /** `s.trim()`. */
  function Trim(s: string): string
  {
    TrimEnd(TrimStart(s))
  }

  /** `getCSSCustomProp(key)` given the raw computed value of the property. */
  function CssCustomProp(raw: string): string
  {
    if |raw| > 0 then Trim(RemoveQuotes(raw)) else ""
  }

  predicate NoQuote(s: string) { forall i :: 0 <= i < |s| ==> !IsQuote(s[i]) }

  predicate AllSpace(s: string) { forall i :: 0 <= i < |s| ==> IsJsSpace(s[i]) }

  predicate AllQuoteOrSpace(s: string) { forall i :: 0 <= i < |s| ==> IsQuote(s[i]) || IsJsSpace(s[i]) }

  /** Removing the quotes leaves no quote, and leaves only white space exactly
      when there was nothing but quotes and white space. */
  lemma {:induction false} RemoveQuotesMeans(s: string)
    ensures NoQuote(RemoveQuotes(s))
    ensures AllSpace(RemoveQuotes(s)) <==> AllQuoteOrSpace(s)
  {
    if s != [] {
      var r := RemoveQuotes(s[1..]);
      RemoveQuotesMeans(s[1..]);
      assert AllQuoteOrSpace(s) <==> (IsQuote(s[0]) || IsJsSpace(s[0])) && AllQuoteOrSpace(s[1..]) by {
        assert forall i :: 1 <= i < |s| ==> s[i] == s[1..][i - 1];
      }
      if !IsQuote(s[0]) {
        var t := [s[0]] + r;
        assert t[0] == s[0];
        assert forall i :: 0 <= i < |r| ==> r[i] == t[i + 1];
        if AllSpace(t) {
          forall i | 0 <= i < |r| ensures IsJsSpace(r[i]) {
            assert IsJsSpace(t[i + 1]);
          }
        }
      }
    }
  }

  /** `replace(/\'|"/g, '')` works piece by piece: the result for `s + t`
      is the result for `s` followed by the result for `t`. */
  lemma {:induction false} RemoveQuotesAppend(s: string, t: string)
    ensures RemoveQuotes(s + t) == RemoveQuotes(s) + RemoveQuotes(t)
  {
    if s == [] {
      assert s + t == t;
    } else {
      RemoveQuotesAppend(s[1..], t);
      assert (s + t)[1..] == s[1..] + t;
    }
  }

  /** Quote-free text is left as it is, and a lone character vanishes exactly
      when it is a quote; with `RemoveQuotesAppend` this pins `RemoveQuotes`
      down as deleting the quotes and keeping every other character in order. */
  lemma {:induction false} RemoveQuotesKeeps(s: string)
    ensures NoQuote(s) ==> RemoveQuotes(s) == s
    ensures |s| == 1 ==> (RemoveQuotes(s) == [] <==> IsQuote(s[0]))
  {
    if s != [] && NoQuote(s) {
      assert NoQuote(s[1..]) by {
        assert forall i :: 0 <= i < |s| - 1 ==> s[1..][i] == s[i + 1];
      }
      RemoveQuotesKeeps(s[1..]);
      assert [s[0]] + s[1..] == s;
    }
  }

  lemma AllSpaceFirst(s: string)
    requires |s| > 0
    ensures AllSpace(s) <==> IsJsSpace(s[0]) && AllSpace(s[1..])
  {
    assert forall i :: 0 <= i < |s| - 1 ==> s[1..][i] == s[i + 1];
  }

  lemma AllSpaceLast(s: string)
    requires |s| > 0
    ensures AllSpace(s) <==> IsJsSpace(s[|s| - 1]) && AllSpace(s[..|s| - 1])
  {
    assert forall i :: 0 <= i < |s| - 1 ==> s[..|s| - 1][i] == s[i];
  }

  /** `trimStart` drops the first `k` characters: exactly the leading white space. */
  lemma {:induction false} TrimStartMeans(s: string) returns (k: nat)
    ensures k <= |s| && TrimStart(s) == s[k..]
    ensures AllSpace(s[..k])
    ensures TrimStart(s) == [] <==> AllSpace(s)
    ensures TrimStart(s) != [] ==> !IsJsSpace(TrimStart(s)[0])
  {
    if |s| > 0 && IsJsSpace(s[0]) {
      var j := TrimStartMeans(s[1..]);
      k := j + 1;
      assert s[1..][j..] == s[k..];
      AllSpaceFirst(s);
      AllSpaceFirst(s[..k]);
      assert s[..k][1..] == s[1..][..j];
    } else {
      k := 0;
      if |s| > 0 {
        AllSpaceFirst(s);
      }
    }
  }

  /** `trimEnd` keeps the first `m` characters: all but the trailing white space. */
  lemma {:induction false} TrimEndMeans(s: string) returns (m: nat)
    ensures m <= |s| && TrimEnd(s) == s[..m]
    ensures AllSpace(s[m..])
    ensures TrimEnd(s) == [] <==> AllSpace(s)
    ensures TrimEnd(s) != [] ==> !IsJsSpace(TrimEnd(s)[|TrimEnd(s)| - 1])
  {
    if |s| > 0 && IsJsSpace(s[|s| - 1]) {
      var s' := s[..|s| - 1];
      m := TrimEndMeans(s');
      assert s'[..m] == s[..m];
      AllSpaceLast(s);
      AllSpaceLast(s[m..]);
      assert s[m..][..|s[m..]| - 1] == s'[m..];
    } else {
      m := |s|;
      if |s| > 0 {
        AllSpaceLast(s);
      }
    }
  }

  /** `trim()` keeps one contiguous piece of its input and drops only white
      space on either side of it. */
  lemma TrimSlice(s: string) returns (a: nat, b: nat)
    ensures a <= b <= |s| && Trim(s) == s[a..b]
    ensures AllSpace(s[..a]) && AllSpace(s[b..])
  {
    var k := TrimStartMeans(s);
    var x := TrimStart(s);
    var m := TrimEndMeans(x);
    a, b := k, k + m;
    assert x[..m] == s[a..b];
    assert x[m..] == s[b..];
  }

  /** `trim()` leaves no white space at either end, and empties exactly the
      all-white-space strings. */
  lemma TrimMeans(s: string)
    ensures Trim(s) == [] <==> AllSpace(s)
    ensures Trim(s) != [] ==> !IsJsSpace(Trim(s)[0]) && !IsJsSpace(Trim(s)[|Trim(s)| - 1])
  {
    var _ := TrimStartMeans(s);
    var x := TrimStart(s);
    var m := TrimEndMeans(x);
    if x != [] {
      assert !AllSpace(x) by { assert !IsJsSpace(x[0]); }
      if m > 0 {
        assert TrimEnd(x)[0] == x[0];
      }
    }
  }

  /** A piece of a string without quotes has none either. */
  lemma SliceNoQuote(s: string, a: int, b: int)
    requires 0 <= a <= b <= |s| && NoQuote(s)
    ensures NoQuote(s[a..b])
  {
    assert forall i :: 0 <= i < b - a ==> s[a..b][i] == s[a + i];
  }

  /** `getCSSCustomProp` yields a value with no quote character and no
      surrounding white space, taken in one piece `[a..b]` from the unquoted
      raw value with only white space cut away on either side; it is empty
      exactly when the raw value holds nothing but quotes and white space. */
  lemma CssCustomPropClean(raw: string) returns (a: nat, b: nat)
    ensures var r := CssCustomProp(raw);
      && NoQuote(r)
      && (r != [] ==> !IsJsSpace(r[0]) && !IsJsSpace(r[|r| - 1]))
      && (r == [] <==> AllQuoteOrSpace(raw))
    ensures var q := RemoveQuotes(raw);
      && a <= b <= |q| && CssCustomProp(raw) == q[a..b]
      && AllSpace(q[..a]) && AllSpace(q[b..])
  {
    var q := RemoveQuotes(raw);
    RemoveQuotesMeans(raw);
    TrimMeans(q);
    if |raw| > 0 {
      a, b := TrimSlice(q);
      SliceNoQuote(q, a, b);
    } else {
      a, b := 0, 0;
      assert CssCustomProp(raw) == q[0..0];
    }
  }

  // ---------------------------------------------------------------------------
  // getUserColorMode and the mode flip

  /** `getUserColorMode()`: a non-empty stored mode as it is, else a non-empty
      `--color-mode`, else `dark` when the system prefers dark, else `light`. */
  function UserColorMode(store: map<string, string>, cssRaw: string, prefersDark: bool): (r: string)
    ensures r != ""
  {
    if STORAGE_KEY in store && store[STORAGE_KEY] != "" then store[STORAGE_KEY]
    else if CssCustomProp(cssRaw) != "" then CssCustomProp(cssRaw)
    else if prefersDark then "dark"
    else "light"
  }

  /** The precedence of `getUserColorMode()`, source by source. */
  lemma UserColorModePrecedence(store: map<string, string>, cssRaw: string, prefersDark: bool)
    ensures STORAGE_KEY in store && store[STORAGE_KEY] != "" ==>
              UserColorMode(store, cssRaw, prefersDark) == store[STORAGE_KEY]
    ensures !(STORAGE_KEY in store && store[STORAGE_KEY] != "") && CssCustomProp(cssRaw) != "" ==>
              UserColorMode(store, cssRaw, prefersDark) == CssCustomProp(cssRaw)
    ensures !(STORAGE_KEY in store && store[STORAGE_KEY] != "")
            && AllQuoteOrSpace(cssRaw) ==>
              UserColorMode(store, cssRaw, prefersDark) == (if prefersDark then "dark" else "light")
  {
    var _, _ := CssCustomPropClean(cssRaw);
  }

  /** The new mode of `toggleColorMode()`. */
  function Flipped(mode: string): (r: string)
    ensures r in {"light", "dark"}
    ensures r == "light" <==> mode == "dark"
  {
    if mode == "dark" then "light" else "dark"
  }

  datatype ToggleButton = ToggleButton(ariaLabel: string, ariaPressed: string)

  /** The ARIA attributes `setColorMode` and `createToggleButton` give the toggle for `mode`. */
  function AriaFor(mode: string): (b: ToggleButton)
    ensures b.ariaPressed == "true" <==> mode == "dark"
    ensures b.ariaPressed in {"true", "false"}
    ensures b.ariaLabel == "Switch to light mode" <==> mode == "dark"
  {
    if mode == "dark" then ToggleButton("Switch to light mode", "true")
    else ToggleButton("Switch to dark mode", "false")
  }

  /** Toggling writes the flipped mode, and the next read returns it whatever
      the CSS property and the system say; so two toggles from `light` or
      `dark` come back to where they started. */
  lemma ToggleTwice(store: map<string, string>, css0: string, dark0: bool, css1: string, dark1: bool, css2: string, dark2: bool)
    ensures var m := UserColorMode(store, css0, dark0);
            var s1 := store[STORAGE_KEY := Flipped(m)];
            var s2 := s1[STORAGE_KEY := Flipped(UserColorMode(s1, css1, dark1))];
      && UserColorMode(s1, css1, dark1) == Flipped(m)
      && (m in {"light", "dark"} ==> UserColorMode(s2, css2, dark2) == m)
      && (m !in {"light", "dark"} ==> UserColorMode(s2, css2, dark2) == "light")
  {
  }

  // ---------------------------------------------------------------------------
  // Class tokens

  /** ASCII white space as the DOM standard defines it: tab, line feed, form feed, carriage return, space. */
  predicate IsAsciiSpace(c: char) { c == '\t' || c == '\n' || c == '\U{C}' || c == '\r' || c == ' ' }

  /** `classList.add(token)` accepts `token`: it is non-empty and holds no
      ASCII white space. Otherwise the call throws (`SyntaxError` for the
      empty token, `InvalidCharacterError` for white space). */
  predicate ValidToken(t: string)
  {
    t != [] && forall i :: 0 <= i < |t| ==> !IsAsciiSpace(t[i])
  }

  /** The class `setColorMode` adds for `mode` is accepted exactly when the
      mode holds no ASCII white space; a stored or CSS mode such as
      `dark mode` is not. */
  lemma ThemeTokenValid(mode: string)
    ensures ValidToken(mode + "-theme") <==> forall i :: 0 <= i < |mode| ==> !IsAsciiSpace(mode[i])
    ensures !ValidToken("dark mode-theme")
  {
    var t := mode + "-theme";
    assert forall i :: 0 <= i < |mode| ==> t[i] == mode[i];
    assert forall i :: |mode| <= i < |t| ==> t[i] == "-theme"[i - |mode|];
    assert "dark mode-theme"[4] == ' ';
  }

  /** The two modes the toggle and the system-change handler set are always
      accepted, so those never throw. */
  lemma LightDarkValid()
    ensures ValidToken("light-theme") && ValidToken("dark-theme")
  {
    ThemeTokenValid("light");
    ThemeTokenValid("dark");
  }

  // ---------------------------------------------------------------------------
  // The page

  class Page {
    var classes: set<string>
    /** `localStorage`. */
    var store: map<string, string>
    /** The `.theme-toggle` element, if the page has one, by its two ARIA attributes. */
    var button: Option<ToggleButton>
    /** Whether the page has a `header` element. */
    const hasHeader: bool

    /** The user's mode is stored, so the system-preference handler keeps out. */
    predicate Pinned()
      reads this
    {
      STORAGE_KEY in store && store[STORAGE_KEY] != ""
    }

    constructor (classes: set<string>, store: map<string, string>, button: Option<ToggleButton>, hasHeader: bool)
      ensures this.classes == classes && this.store == store && this.button == button && this.hasHeader == hasHeader
    {
      this.classes := classes;
      this.store := store;
      this.button := button;
      this.hasHeader := hasHeader;
    }

    /** The visible half of `setColorMode(mode)`: the root class and the
        toggle's ARIA attributes. When `classList.add` throws on the mode's
        class, the two theme classes are already gone and nothing else
        happens; `ok` is false exactly then. */
    method ApplyColorMode(mode: string) returns (ok: bool)
      modifies this`classes, this`button
      ensures ok <==> ValidToken(mode + "-theme")
      ensures ok ==> classes == (old(classes) - {"light-theme", "dark-theme"}) + {mode + "-theme"}
      ensures ok ==> button == (if old(button).Some? then Some(AriaFor(mode)) else None)
      ensures !ok ==> classes == old(classes) - {"light-theme", "dark-theme"} && button == old(button)
    {
      classes := classes - {"light-theme", "dark-theme"};
      if !ValidToken(mode + "-theme") {
        return false;
      }
      classes := classes + {mode + "-theme"};
      if button.Some? {
        button := Some(AriaFor(mode));
      }
      ok := true;
    }

    /** `setColorMode(mode)`: apply the mode, then store it; a throw on the
        class leaves storage as it was. */
    method SetColorMode(mode: string) returns (ok: bool)
      modifies this
      ensures ok <==> ValidToken(mode + "-theme")
      ensures ok ==> classes == (old(classes) - {"light-theme", "dark-theme"}) + {mode + "-theme"}
      ensures ok ==> button == (if old(button).Some? then Some(AriaFor(mode)) else None)
      ensures ok ==> store == old(store)[STORAGE_KEY := mode]
      ensures !ok ==> classes == old(classes) - {"light-theme", "dark-theme"} && button == old(button) && store == old(store)
    {
      ok := ApplyColorMode(mode);
      if ok {
        store := store[STORAGE_KEY := mode];
      }
    }

    /** `toggleColorMode()`: `light` when the current mode is `dark`, `dark`
        otherwise; both are valid classes, so the toggle never throws. */
    method ToggleColorMode(cssRaw: string, prefersDark: bool)
      modifies this
      ensures var m := Flipped(UserColorMode(old(store), cssRaw, prefersDark));
        && classes == (old(classes) - {"light-theme", "dark-theme"}) + {m + "-theme"}
        && button == (if old(button).Some? then Some(AriaFor(m)) else None)
        && store == old(store)[STORAGE_KEY := m]
      ensures Pinned()
    {
      var currentMode := UserColorMode(store, cssRaw, prefersDark);
      var newMode := Flipped(currentMode);
      LightDarkValid();
      var _ := SetColorMode(newMode);
    }

    /** `createToggleButton()`: nothing without a header or with a `.theme-toggle` already present. */
    method CreateToggleButton(cssRaw: string, prefersDark: bool)
      modifies this`button
      ensures !hasHeader || old(button).Some? ==> button == old(button)
      ensures hasHeader && old(button).None? ==> button == Some(AriaFor(UserColorMode(store, cssRaw, prefersDark)))
    {
      if !hasHeader {
        return;
      }
      if button.Some? {
        return;
      }
      var currentMode := UserColorMode(store, cssRaw, prefersDark);
      button := Some(AriaFor(currentMode));
    }

    /** `init()`: apply the user's mode, add the toggle and (with
        `window.matchMedia`) register the system-change listener. Afterwards
        the mode is stored and the button (old or new) describes it. When the
        mode's class throws, `init` stops inside `setColorMode`: no toggle, no
        listener, nothing stored; `listening` is false exactly then. */
    method Init(cssRaw: string, prefersDark: bool) returns (mode: string, listening: bool)
      modifies this
      ensures mode == UserColorMode(old(store), cssRaw, prefersDark)
      ensures listening <==> ValidToken(mode + "-theme")
      ensures listening ==>
        && classes == (old(classes) - {"light-theme", "dark-theme"}) + {mode + "-theme"}
        && store == old(store)[STORAGE_KEY := mode]
        && button == (if old(button).Some? || hasHeader then Some(AriaFor(mode)) else None)
        && Pinned()
      ensures !listening ==>
        classes == old(classes) - {"light-theme", "dark-theme"} && store == old(store) && button == old(button)
    {
      mode := UserColorMode(store, cssRaw, prefersDark);
      listening := SetColorMode(mode);
      if !listening {
        return;
      }
      CreateToggleButton(cssRaw, prefersDark);
    }

    /** The `prefers-color-scheme` change handler: it only acts while no mode is stored. */
    method OnSystemChange(matches: bool)
      modifies this
      ensures old(Pinned()) ==> classes == old(classes) && store == old(store) && button == old(button)
      ensures !old(Pinned()) ==>
        var m := if matches then "dark" else "light";
        && classes == (old(classes) - {"light-theme", "dark-theme"}) + {m + "-theme"}
        && store == old(store)[STORAGE_KEY := m]
        && button == (if old(button).Some? then Some(AriaFor(m)) else None)
      ensures Pinned()
    {
      if !(STORAGE_KEY in store && store[STORAGE_KEY] != "") {
        LightDarkValid();
        var _ := SetColorMode(if matches then "dark" else "light");
      }
    }

    /** `init()` followed by a system change, as written: whatever the system
        now prefers, the root keeps the mode `init` chose, because `init`
        stored that mode and the handler's guard then fails. When `init`
        threw, no listener exists and the change has no effect either. */
    method InitThenSystemChange(cssRaw: string, prefersDark: bool, matches: bool) returns (mode: string, listening: bool)
      modifies this
      ensures mode == UserColorMode(old(store), cssRaw, prefersDark)
      ensures listening <==> ValidToken(mode + "-theme")
      ensures listening ==>
        && classes == (old(classes) - {"light-theme", "dark-theme"}) + {mode + "-theme"}
        && store == old(store)[STORAGE_KEY := mode]
        && button == (if old(button).Some? || hasHeader then Some(AriaFor(mode)) else None)
      ensures !listening ==>
        classes == old(classes) - {"light-theme", "dark-theme"} && store == old(store) && button == old(button)
    {
      mode, listening := Init(cssRaw, prefersDark);
      if listening {
        OnSystemChange(matches);
      }
    }

    /** `init()` as the handler's guard means it: apply the resolved mode but
        store nothing, so only a toggle pins the user's choice. A throw on the
        mode's class still stops it before the toggle and the listener. */
    method InitFollowingSystem(cssRaw: string, prefersDark: bool) returns (mode: string, listening: bool)
      modifies this
      ensures mode == UserColorMode(old(store), cssRaw, prefersDark)
      ensures store == old(store)
      ensures listening <==> ValidToken(mode + "-theme")
      ensures listening ==>
        && classes == (old(classes) - {"light-theme", "dark-theme"}) + {mode + "-theme"}
        && button == (if old(button).Some? || hasHeader then Some(AriaFor(mode)) else None)
      ensures !listening ==> classes == old(classes) - {"light-theme", "dark-theme"} && button == old(button)
    {
      mode := UserColorMode(store, cssRaw, prefersDark);
      listening := ApplyColorMode(mode);
      if !listening {
        return;
      }
      CreateToggleButton(cssRaw, prefersDark);
    }

    /** The system-change handler as its guard means it: follow the system
        while no mode is stored, without storing one. */
    method OnSystemChangeFollowing(matches: bool)
      modifies this
      ensures store == old(store)
      ensures Pinned() ==> classes == old(classes) && button == old(button)
      ensures !Pinned() ==>
        var m := if matches then "dark" else "light";
        && classes == (old(classes) - {"light-theme", "dark-theme"}) + {m + "-theme"}
        && button == (if old(button).Some? then Some(AriaFor(m)) else None)
    {
      if !(STORAGE_KEY in store && store[STORAGE_KEY] != "") {
        LightDarkValid();
        var _ := ApplyColorMode(if matches then "dark" else "light");
      }
    }

    /** With the corrected `init`, an unpinned page follows every system
        change, once `init` has registered the listener. */
    method FollowSystemAfterInit(cssRaw: string, prefersDark: bool, matches: bool) returns (mode: string, listening: bool)
      modifies this
      ensures mode == UserColorMode(old(store), cssRaw, prefersDark)
      ensures store == old(store)
      ensures listening <==> ValidToken(mode + "-theme")
      ensures listening && old(Pinned()) ==>
        && mode == old(store)[STORAGE_KEY]
        && classes == (old(classes) - {"light-theme", "dark-theme"}) + {mode + "-theme"}
        && button == (if old(button).Some? || hasHeader then Some(AriaFor(mode)) else None)
      ensures listening && !old(Pinned()) ==>
        var m := if matches then "dark" else "light";
        && m + "-theme" in classes && Flipped(m) + "-theme" !in classes
        && button == (if old(button).Some? || hasHeader then Some(AriaFor(m)) else None)
      ensures !listening ==> classes == old(classes) - {"light-theme", "dark-theme"} && button == old(button)
    {
      mode, listening := InitFollowingSystem(cssRaw, prefersDark);
      if !listening {
        return;
      }
      OnSystemChangeFollowing(matches);
      if matches {
        assert Flipped("dark") + "-theme" == "light-theme";
      } else {
        assert Flipped("light") + "-theme" == "dark-theme";
      }
    }
  }
}
