# Theme and flavor preferences of the zola-pechersk theme, in Dafny

This project models the client-side scripts that choose a page's colour theme
(`light`, `dark`, `auto`) and, in one variant, its "flavor" (`none`,
`happy-headers`, `happy`, `deep-headers`, `deep`, `monochrome`). The scripts
work out the preference from competing sources, apply it to the root element,
persist it, and keep a small settings UI in step. The model covers four scripts:

- `public/js/theme-switcher.js` (module `PublicSwitcher`): theme and flavor,
  stored in cookies, with a settings dropdown of radio inputs.
- `static/js/theme-switcher.js` (module `StaticSwitcher`): the theme-only
  variant of the same switcher. It is modelled separately.
- `public/js/theme.js` (module `ColorMode`): the light/dark toggle button,
  stored in `localStorage`, plus the system-preference listener.
- `static/js/main.js` (module `MainScript`): `[data-theme]`/`[data-flavor]`
  buttons, stored in `localStorage`, and re-rendering of Mermaid diagrams.

Two modules are shared:

- `Cookies` models the cookie jar behind `document.cookie`. Both switchers use
  the same `setCookie`/`getCookie` code.
  - The jar is a sequence of name/value pairs.
  - `document.cookie` is those pairs joined by `"; "`, as in section 5.4 of
    RFC 6265.
  - `setCookie` replaces the first pair with that name, or appends one.
  - `getCookie` is the split-and-scan parser of the scripts.
- `Controls` models a group of radios or buttons. It holds the single loop
  that turns each control on exactly when its value equals the current one.

Browser services become plain values:

- The root element is a set of class names and a map of attributes.
- `localStorage` is a string map.
- `matchMedia('(prefers-color-scheme: dark)').matches` is a boolean parameter.
- The computed `--color-mode` property is a string parameter.
- `classList.add` throws on a class token holding ASCII white space. The `ColorMode` methods that add the mode's class return whether the call went through, and model the abort that follows a throw.

Resolution functions are pure functions of that state. Operations that change
the page are methods of a `Page` class per script.

## Model

| member | source | states |
|---|---|---|
| Controls.Unmarked | public/js/theme-switcher.js:195-242 | the dropdown creates one radio per listed value, in order, none of them checked |
| Controls.MarkMatching | public/js/theme-switcher.js:290-303 | after the update loop, each control keeps its value and is on exactly when its value equals the current one |
| Controls.MarkedForIdempotent | public/js/theme-switcher.js:290-303 | running the update loop again with the same value changes nothing |
| Controls.MarkedForExactlyOne | public/js/theme-switcher.js:198-210 | with distinct radio values, marking a listed value leaves exactly that radio on |
| Controls.MarkedFreshGroup | public/js/theme-switcher.js:290-303 | marking a freshly built group with distinct values turns on exactly one control when the value is listed, and none otherwise |
| Cookies.GetCookie | public/js/theme-switcher.js:313-322 | the loop (split on `;`, strip leading spaces, first segment starting with `name=`) returns the value of the first matching segment, or null; identical to static/js/theme-switcher.js:157-166 |
| Cookies.FirstMatchMeans | public/js/theme-switcher.js:316-321 | the scan yields null iff no segment names the cookie; otherwise it returns the first naming segment `k`, and the result is the text after `name=` in it |
| Cookies.CookieValueMeans | public/js/theme-switcher.js:313-322 | `getCookie` returns null iff no `;`-separated segment names the cookie; otherwise segment `k` is the first that does, and the value is the rest of it |
| Cookies.CookieValueHasNoSemicolon | public/js/theme-switcher.js:313-322 | a value returned by `getCookie` never contains `;` |
| Cookies.CookieRoundTrip | public/js/theme-switcher.js:306-322 | for a jar of valid pairs, `getCookie(name)` over `document.cookie` returns exactly the jar's value for that name, or null when there is none |
| Cookies.SetCookieThenLookup | public/js/theme-switcher.js:306-311 | after `setCookie(n, v)`, cookie `n` reads `v` and every other cookie reads as before |
| Cookies.SetCookieNames | public/js/theme-switcher.js:306-311 | `setCookie(n, v)` adds the name `n` to the jar's names and no other |
| Cookies.SetCookieWellFormed | public/js/theme-switcher.js:306-311 | writing a valid name and value keeps every pair in the jar valid, and keeps one cookie per name when the jar had one per name |
| Cookies.SetCookieIdempotent | public/js/theme-switcher.js:306-311 | writing the same cookie twice gives the same jar as writing it once |
| PublicSwitcher.StaticFlavor | public/js/theme-switcher.js:47-56 | the result is always a flavor: the `data-static-flavor` value when that names a flavor, otherwise `none` |
| PublicSwitcher.DefaultTheme | public/js/theme-switcher.js:59-69 | the default theme read from the root classes is always one of the three themes |
| PublicSwitcher.DefaultFlavor | public/js/theme-switcher.js:72-82 | the result is always a flavor: the `data-default-flavor` value when that names a flavor, otherwise `none` |
| PublicSwitcher.CurrentTheme | public/js/theme-switcher.js:85-93 | whatever the cookie string, the resolved theme is one of the three themes |
| PublicSwitcher.CurrentFlavor | public/js/theme-switcher.js:96-112 | whatever the cookie string, the resolved flavor is one of the six flavors |
| PublicSwitcher.CurrentThemeFromJar | public/js/theme-switcher.js:85-93 | theme precedence: a stored valid theme, else the `light-theme` class, else the `dark-theme` class, else `auto` |
| PublicSwitcher.CurrentFlavorFromJar | public/js/theme-switcher.js:96-112 | flavor precedence: the static flavor wins; otherwise a stored valid flavor counts only while the flavor selector is enabled; otherwise the valid default flavor, else `none` |
| PublicSwitcher.ApplyThemeMarksRoot | public/js/theme-switcher.js:115-125 | after `applyTheme(t)`, `t-theme` is the only theme class and `data-theme` is `t`, except for `auto`, which has neither; other classes stay; the default theme read back is `t` |
| PublicSwitcher.ApplyFlavorMarksRoot | public/js/theme-switcher.js:147-156 | after `applyFlavor(f)`, `f-flavor` is the only flavor class, and there is none for `none`; classes that are not flavor classes stay |
| PublicSwitcher.ApplyThemeIdempotent | public/js/theme-switcher.js:115-135 | applying the same theme twice leaves classes, attributes and cookie jar as applying it once |
| PublicSwitcher.ApplyFlavorIdempotent | public/js/theme-switcher.js:138-165 | applying the same flavor twice leaves classes and cookie jar as applying it once |
| PublicSwitcher.ApplyThemeThenResolve | public/js/theme-switcher.js:115-135 | after applying `t`, `getCurrentTheme()` resolves to `t` |
| PublicSwitcher.ApplyFlavorThenResolve | public/js/theme-switcher.js:138-165 | with the flavor selector enabled and no static flavor, after applying `f`, `getCurrentFlavor()` resolves to `f` |
| PublicSwitcher.ThemeAttrsKeepFlavorMarkers | public/js/theme-switcher.js:115-126 | `applyTheme` changes no selector or flavor marker of the root, so the static and default flavors read the same |
| PublicSwitcher.ThemeDoesNotAffectFlavor | public/js/theme-switcher.js:115-135 | applying a theme does not change the resolved flavor |
| PublicSwitcher.FreshThemeRadios | public/js/theme-switcher.js:195-210 | marking the fresh theme radios for a theme checks exactly one of them |
| PublicSwitcher.FreshFlavorRadios | public/js/theme-switcher.js:213-242 | marking the fresh flavor radios checks exactly one, or none for `none`, which has no radio |
| PublicSwitcher.Page.ApplyTheme | public/js/theme-switcher.js:115-135 | the new classes, attributes and jar; with the theme selector on, the theme radios are marked for the theme; nothing else changes |
| PublicSwitcher.Page.ApplyFlavor | public/js/theme-switcher.js:138-165 | with a static flavor: only the radios move, to the static flavor, and only when the selector is on. Otherwise: all flavor classes removed and the new one added. The cookie and radios are written only when the flavor selector is on |
| PublicSwitcher.Page.CreateThemeSwitcher | public/js/theme-switcher.js:168-287 | the menu is built only when a selector is enabled and there is a header; it holds unchecked radios for exactly the enabled selectors; the dropdown starts closed |
| PublicSwitcher.Page.OnToggleClick | public/js/theme-switcher.js:253-255 | the gear button flips the dropdown open or closed; the page stays consistent |
| PublicSwitcher.Page.OnDocumentClick | public/js/theme-switcher.js:258-262 | a click outside the menu closes the dropdown; a click inside leaves it as it was; the page stays consistent |
| PublicSwitcher.Page.OnThemeRadioChange | public/js/theme-switcher.js:265-274 | choosing a theme radio applies its theme and leaves that radio checked |
| PublicSwitcher.Page.OnFlavorRadioChange | public/js/theme-switcher.js:276-286 | choosing a flavor radio applies its flavor and leaves that radio checked; with a static flavor, classes and cookies stay and the radios move to the static flavor; attributes, theme radios and menu never change |
| PublicSwitcher.Page.ApplyResolved | public/js/theme-switcher.js:325-332 | init resolves theme and flavor from the jar as it was, then applies both: the jar is the old one with the theme cookie written, then the flavor cookie only with the selector on and no static flavor |
| PublicSwitcher.Page.InitTheme | public/js/theme-switcher.js:325-346 | as written: resolve and apply, then build the menu; the whole new root, jar and menu state, with the radios of each enabled selector present and all unchecked |
| PublicSwitcher.Page.SyncRadios | public/js/theme-switcher.js:290-303 | both radio groups are marked for the given theme and flavor; in a freshly built dropdown exactly one theme radio, and exactly one flavor radio unless the flavor is `none`, end up checked |
| PublicSwitcher.Page.InitThemeSynced | public/js/theme-switcher.js:325-335 | corrected init: the same root, jar and menu state as `InitTheme`; in a built dropdown exactly the resolved theme's radio is checked, and the resolved flavor's (none for `none`) |
| StaticSwitcher.DefaultTheme | static/js/theme-switcher.js:22-32 | the default theme read from the root classes is always one of the three themes |
| StaticSwitcher.CurrentTheme | static/js/theme-switcher.js:35-43 | whatever the cookie string, the resolved theme is one of the three themes |
| StaticSwitcher.CurrentThemeFromJar | static/js/theme-switcher.js:35-43 | theme precedence: a stored valid theme, else `light-theme`, else `dark-theme`, else `auto` |
| StaticSwitcher.ApplyThemeMarksRoot | static/js/theme-switcher.js:46-57 | after `applyTheme(t)`, `t-theme` is the only theme class and `data-theme` is `t`, except `auto`, which has neither; the default read back is `t` |
| StaticSwitcher.ApplyThemeIdempotent | static/js/theme-switcher.js:46-66 | applying the same theme twice equals applying it once |
| StaticSwitcher.ApplyThemeThenResolve | static/js/theme-switcher.js:46-66 | after applying `t`, the cookie holds `t` and `getCurrentTheme()` resolves to `t` |
| StaticSwitcher.Page.ApplyTheme | static/js/theme-switcher.js:46-66 | the new classes, attributes and jar; with the selector on, the radios are marked for the theme; nothing else changes |
| StaticSwitcher.Page.CreateThemeSwitcher | static/js/theme-switcher.js:69-139 | the menu is built only with the theme selector enabled and a header present; three unchecked radios; dropdown closed |
| StaticSwitcher.FreshRadios | static/js/theme-switcher.js:95-108 | marking the three fresh radios for a theme checks exactly one of them |
| StaticSwitcher.Page.OnToggleClick | static/js/theme-switcher.js:118-120 | the gear button flips the dropdown; the page stays consistent |
| StaticSwitcher.Page.OnDocumentClick | static/js/theme-switcher.js:123-127 | a click outside the menu closes the dropdown; the page stays consistent |
| StaticSwitcher.Page.OnRadioChange | static/js/theme-switcher.js:130-138 | choosing a radio applies its theme and closes the dropdown |
| StaticSwitcher.Page.InitTheme | static/js/theme-switcher.js:169-176 | as written: resolve and apply (the jar gains the theme cookie), then build the closed menu; every radio is unchecked |
| StaticSwitcher.Page.InitThemeSynced | static/js/theme-switcher.js:169-176 | corrected init: the same root, jar and menu state as `InitTheme`, and when the menu exists exactly the resolved theme's radio is checked |
| ColorMode.RemoveQuotesMeans | public/js/theme.js:13 | removing quotes leaves none; the rest is all white space iff the input was only quotes and white space |
| ColorMode.RemoveQuotesAppend | public/js/theme.js:13 | quote removal works piece by piece: on `s + t` it is the result on `s` followed by the result on `t` |
| ColorMode.RemoveQuotesKeeps | public/js/theme.js:13 | text without quotes is left as it is, and a lone character is removed iff it is a quote; with the previous row, every other character stays in order |
| ColorMode.TrimStartMeans | public/js/theme.js:13 | the leading part dropped is all white space, and what is left is empty or starts with a non-space |
| ColorMode.TrimEndMeans | public/js/theme.js:13 | the trailing part dropped is all white space, and what is left is empty or ends with a non-space |
| ColorMode.TrimSlice | public/js/theme.js:13 | `trim()` keeps one contiguous piece of its input and drops only white space on either side of it |
| ColorMode.TrimMeans | public/js/theme.js:13 | `trim()` leaves no white space at either end, and is empty iff the input is all white space |
| ColorMode.CssCustomPropClean | public/js/theme.js:11-14 | `getCSSCustomProp` returns a piece of the unquoted value with only white space cut away on either side, with no quote and no surrounding white space; it is empty iff the raw value is only quotes and white space (including the empty value) |
| ColorMode.UserColorMode | public/js/theme.js:17-36 | the mode is never empty |
| ColorMode.UserColorModePrecedence | public/js/theme.js:17-36 | precedence: a non-empty stored mode, else a non-empty CSS property, else `dark` when the system prefers dark, else `light` |
| ColorMode.Flipped | public/js/theme.js:58 | the toggled mode is `light` iff the current one is `dark`, else `dark` |
| ColorMode.AriaFor | public/js/theme.js:47-48 | `aria-pressed` is `"true"` iff the mode is `dark`, and the label says "Switch to light mode" iff the mode is `dark` |
| ColorMode.ToggleTwice | public/js/theme.js:52-60 | a toggle stores its mode, so the next read returns it; two toggles from `light` or `dark` come back to it, and from any other mode reach `light` |
| ColorMode.ThemeTokenValid | public/js/theme.js:42 | the class `mode-theme` is accepted by `classList.add` iff the mode holds no ASCII white space; `dark mode` is not |
| ColorMode.LightDarkValid | public/js/theme.js:58-59 | `light-theme` and `dark-theme` are always accepted, so the toggle and the system-change handler never throw |
| ColorMode.Page.ApplyColorMode | public/js/theme.js:41-49 | the theme classes are replaced by `mode-theme` and an existing toggle gets the matching ARIA attributes; when `classList.add` throws on a mode with ASCII white space, only the two theme classes are removed and the toggle is untouched |
| ColorMode.Page.SetColorMode | public/js/theme.js:39-53 | as `ApplyColorMode`; the mode is stored under `user-color-scheme` only when the class was accepted, and a throw leaves storage as it was |
| ColorMode.Page.ToggleColorMode | public/js/theme.js:56-60 | the flipped current mode (always `light` or `dark`, so never a throw) is applied and stored |
| ColorMode.Page.CreateToggleButton | public/js/theme.js:63-84 | nothing happens without a header or with an existing `.theme-toggle`; otherwise a button describing the current mode |
| ColorMode.Page.Init | public/js/theme.js:87-104 | the resolved mode is applied and stored, the toggle (old or new) describes it, the mode is pinned and the listener is registered; for a mode with ASCII white space `init` stops in `setColorMode`: the theme classes are removed, nothing is stored, no toggle is made and no listener is registered |
| ColorMode.Page.OnSystemChange | public/js/theme.js:97-102 | a system change sets `dark`/`light` only while no mode is stored, stores it and updates an existing toggle's ARIA attributes; with a stored mode nothing changes |
| ColorMode.Page.InitThenSystemChange | public/js/theme.js:87-102 | as written: after `init`, a later system change leaves the mode `init` chose (classes, storage and toggle), whatever the system now prefers; after a throwing `init` no listener exists and the change does nothing |
| ColorMode.Page.InitFollowingSystem | public/js/theme.js:87-104 | corrected init: applies the resolved mode and adds the toggle without storing anything; a mode with ASCII white space still throws before the toggle and the listener |
| ColorMode.Page.OnSystemChangeFollowing | public/js/theme.js:97-102 | corrected handler: follows the system while nothing is stored, and stores nothing |
| ColorMode.Page.FollowSystemAfterInit | public/js/theme.js:87-102 | with the corrected init and handler, the mode is the resolved user mode; an unpinned page shows the system's mode after a change, and a pinned page keeps the stored mode; in both cases the toggle (old or new) describes the mode shown; when `init` threw, no listener exists and only the theme classes were removed |
| MainScript.MermaidOptions | static/js/main.js:7-18 | Mermaid is never started on load; its theme is `dark` iff the requested theme is `dark`, else `neutral` |
| MainScript.SystemTheme | static/js/main.js:27-29 | the system theme is `dark` iff the system prefers dark, else `light` |
| MainScript.CurrentTheme | static/js/main.js:31-39 | never empty and never `auto`: the `color-scheme` attribute unless it is missing, empty or `auto`, else the system theme |
| MainScript.ActiveTheme | static/js/main.js:92 | the highlighted theme is the `color-scheme` value when it is present and non-empty, and `auto` otherwise |
| MainScript.ActiveFlavor | static/js/main.js:93 | the highlighted flavor is the `flavor` value when it is present and non-empty, and `monochrome` otherwise |
| MainScript.RenderMatchesCurrentTheme | static/js/main.js:31-50 | after `setTheme(t)` with a non-empty `t`, diagrams are rendered in the theme `getCurrentTheme()` reports, and the highlighted value is `t` |
| MainScript.ActiveAgreesWithCurrent | static/js/main.js:31-39 | the reported theme is the highlighted value with `auto` resolved against the system |
| MainScript.EmptyThemeRendersNeutral | static/js/main.js:35-48 | an empty theme is reported as the system theme (`dark`), yet diagrams are rendered neutral |
| MainScript.WithSaved | static/js/main.js:59-67 | re-applying saved choices sets exactly the attributes whose saved value is non-empty, and keeps every other attribute |
| MainScript.TakeSnapshot | static/js/main.js:1-5 | the snapshot holds every diagram's markup, in order |
| MainScript.Page.MermaidRender | static/js/main.js:7-25 | every diagram is back to its load-time markup and unprocessed; one more `mermaid.initialize` with the theme's options |
| MainScript.Page.SetTheme | static/js/main.js:41-50 | attribute and storage hold the theme; only with diagrams present, a re-render in the theme, with `auto` resolved against the system |
| MainScript.Page.SetFlavor | static/js/main.js:52-56 | attribute and storage hold the flavor |
| MainScript.Page.UpdateActiveStates | static/js/main.js:91-102 | each button is active exactly when its value is the highlighted theme or flavor |
| MainScript.Page.InitializeThemeSwitcher | static/js/main.js:58-89 | non-empty saved choices are re-applied and then highlighted; storage ends unchanged; diagrams re-render only for a saved theme, and are untouched without one |
| MainScript.Page.OnThemeButtonClick | static/js/main.js:72-78 | a click sets the button's theme and highlights it (when its value is non-empty) |
| MainScript.Page.OnFlavorButtonClick | static/js/main.js:80-86 | a click sets the button's flavor and highlights it (when its value is non-empty), without a re-render |
| MainScript.Page.OnContentLoaded | static/js/main.js:104-108 | with `.theme-switcher`: the saved choices are re-applied, diagrams re-render for a saved theme, and the buttons are highlighted; without it, root, diagrams, Mermaid calls and buttons stay; storage never changes |

## Left out

- Cookie expiry, `path=/` and `SameSite=Lax`: the jar keeps names and values only. Browser-side expiry and scoping are not modelled.
- Nameless cookies: a browser keeps them and lists them in `document.cookie` as a bare value, but a well-formed jar, and with it the switchers' `Valid()`, has only non-empty names. `Cookies.CookieValueMeans` still covers any cookie string, nameless entries included.
- The DOM tree itself: element creation, SVG icons, inner markup, headings and labels of the dropdown. Only the controls' values and checked/active flags are kept.
- Event registration (`addEventListener`) is not modelled. Each handler is a method the caller invokes.
- The browser checks a radio before firing `change`, so the `this.checked` guard always passes. The radio handlers are modelled from that point on.
- Console debug output in the public switcher's `initTheme` is not modelled.
- `getComputedStyle`, `matchMedia` and `localStorage` are inputs or maps. In `public/js/theme.js` a missing `window.matchMedia` reads as "does not prefer dark" (the guards at public/js/theme.js:31 and :96), and then no system-change listener is registered; `ColorMode.Page.Init`'s `listening` assumes `matchMedia` exists.
- MainScript.SystemTheme: `getSystemTheme` at static/js/main.js:27-29 calls `window.matchMedia` without a guard, so without it the call throws; the model takes `prefersDark` as given and does not model that throw.
- Mermaid internals: `mermaid.run()` is not modelled. The model records the `mermaid.initialize` options and the restored markup only.
- `mmdElements` is a live collection in the browser. The model fixes the set of diagrams at load time.
- static/js/footnotes.js is not part of this model.
- PublicSwitcher.Page.ApplyTheme, PublicSwitcher.Page.ApplyFlavor, StaticSwitcher.Page.ApplyTheme: require a listed theme or flavor. Every caller passes one (the resolved value or a radio value). This keeps `;` out of the cookie value.
- PublicSwitcher.Page.CreateThemeSwitcher, StaticSwitcher.Page.CreateThemeSwitcher: require that the menu was not built before. The scripts call it once, from `initTheme`.
- MainScript.RenderMatchesCurrentTheme: holds only for a non-empty theme. For an empty `data-theme`, see `MainScript.EmptyThemeRendersNeutral`.

## Findings

| source | as written | input that shows it | evidently intended | confidence | as-written member | corrected member |
|---|---|---|---|---|---|---|
| public/js/theme-switcher.js:325-335 | `initTheme` applies theme and flavor, which sync the radios, before `createThemeSwitcher` has created any radio; the new radios are never synced | root with `data-theme-selector-enabled` and class `dark-theme`, a `header`, no cookies: after load no theme radio is checked | the resolved theme's and flavor's radios are checked once the menu exists, as the comments at public/js/theme-switcher.js:128 and :158 say the apply steps are meant to update the switcher's active state | medium, not executed | PublicSwitcher.Page.InitTheme | PublicSwitcher.Page.InitThemeSynced |
| static/js/theme-switcher.js:169-176 | same ordering: `applyTheme` syncs radios before they exist | root with `data-theme-selector-enabled` and class `dark-theme`, a `header`, no cookies: no radio checked after load | the resolved theme's radio is checked, as the comment at static/js/theme-switcher.js:59 says `applyTheme` is meant to update the switcher's active state | medium, not executed | StaticSwitcher.Page.InitTheme | StaticSwitcher.Page.InitThemeSynced |
| public/js/theme.js:89-102 | `init` stores the resolved mode through `setColorMode`, so the system-change handler's guard "no stored mode" never holds afterwards | first visit, empty `localStorage`, no `--color-mode`, system light; the system then switches to dark: the page stays `light-theme` | follow the system until the user toggles: the comment at public/js/theme.js:98 says the handler acts only while the user has not set a preference manually | medium, not executed | ColorMode.Page.InitThenSystemChange | ColorMode.Page.FollowSystemAfterInit |
