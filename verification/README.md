# Portfolio page behaviour, modelled in Dafny

A model of the three pieces of sequential logic in the portfolio site's
`js/script.js`, written as pure functions over explicit state:

- **Typewriter** (`typewriter.dfy`): the hero's typing effect. One call of
  `type` is one `Step` over the state `(titleIndex, charIndex, isDeleting)`; it
  yields the text shown, the next state and the delay before the next call.
- **Navbar** (`navbar.dfy`): the scroll handler `updateNavbar` — the navbar's
  scrolled/top look, the choice of the active section, and the highlighting of
  the nav links.
- **Theme** (`theme.dfy`): the dark/light decision at load and the toggle
  button's click handler, over the root's classes, the `data-lucide` attribute
  of the theme icon element, the hero image source and the stored `theme` value.
- `js_string.dfy` models JavaScript's `substring` (clamped, order-insensitive
  positions), which both the typewriter and the link highlighting depend on;
  `wrappers.dfy` holds `Option`, the model of `null` from `getAttribute` and
  `localStorage.getItem`.

Browser inputs are parameters: the scroll offset, each section's `id` and
`offsetTop`, each link's `href`, the stored theme and the system colour-scheme
preference. Class lists are `set<string>`. The typewriter's timer loop is
replaced by `Run`, the state after a given number of calls.

## Model

| member | source | states |
|---|---|---|
| JsString.SubstringFrom | js/script.js:139 | `s.substring(k)` is the suffix from `k` when `k` is in range and the empty string past the end |
| JsString.SubstringFromZero | js/script.js:16-20 | `s.substring(0, k)` is the length-`k` prefix in range, `""` for negative `k`, the whole string past the end |
| Typewriter.Step | js/script.js:12-35 | the shown text is the current title cut at the new cursor; the cursor moves one step in the current direction; typing the last character turns to deleting with delay 2000; deleting to 0 moves to the next title modulo the title count with delay 500; otherwise 100 while typing and 50 while deleting, so every delay is one of those four |
| Typewriter.Run | js/script.js:34-38 | repeated calls of `type` never leave the title range |
| Typewriter.StepShowsPrefix | js/script.js:15-23 | on valid states the text shown equals the first `charIndex` characters of `titles[titleIndex]`, across the title switch too |
| Typewriter.StepPreservesInv | js/script.js:20-31 | with non-empty titles one step keeps `titleIndex` in range and the cursor inside the title |
| Typewriter.RunPreservesInv | js/script.js:7-31 | from a valid state (such as the initial `(0, 0, false)`) every reached state has `0 <= titleIndex < |titles|` and `0 <= charIndex <= |title|` |
| Typewriter.TypingReachesEnd | js/script.js:19-27 | typing from cursor `c` reaches the end of the title, switched to deleting, after exactly `|title| - c` calls |
| Typewriter.DeletingReachesStart | js/script.js:15-31 | deleting from cursor `c > 0` reaches `(next title, 0, typing)` after exactly `c` calls |
| Typewriter.TitleCycle | js/script.js:12-35 | a non-empty title is typed and deleted in `2 * |title|` calls, then the next title starts |
| Typewriter.EmptyTitleNeverDeletes | js/script.js:20-25 | on an empty title the cursor grows by one per call and never turns to deleting |
| Typewriter.PageTitlesCycle | js/script.js:5-9 | with the page's two titles every reached state is valid, and the titles alternate after 48 and 58 calls |
| Navbar.NavbarClasses | js/script.js:118-124 | past 50 pixels the navbar has every scrolled class and no top class, otherwise the reverse; all other classes are unchanged |
| Navbar.NavbarClassesLatestWins | js/script.js:118-124 | the navbar's look depends only on the latest scroll offset |
| Navbar.ScanSections | js/script.js:127-136 | the `forEach` over the sections yields the id of the last section (found from the end) with `scrollY >= offsetTop - 250`, or its starting value when none qualifies |
| Navbar.ActiveSection | js/script.js:127-136 | the active id is that of the last reached section in document order, or `""` when no section is reached |
| Navbar.LinkTarget | js/script.js:139 | a link's target is its `href` without the first character, `""` for an empty `href` |
| Navbar.HighlightLink | js/script.js:140-157 | a highlighted link has `text-primary` and none of the idle classes and its underline shown (`block`, not `hidden`); an unhighlighted one the reverse; no other class of the link or underline changes |
| Navbar.HighlightLinkLatestWins | js/script.js:143-157 | highlighting a link twice equals the second highlighting alone |
| Navbar.UpdateLinks | js/script.js:138-158 | each link reached is highlighted iff its target equals the active id; a link without `href` throws, and it and all later links stay untouched |
| Navbar.UpdateNavbar | js/script.js:116-159 | the handler's navbar look follows the 50-pixel threshold, it throws iff some link lacks an `href`, and every link it reaches has `text-primary` iff it points at the active section |
| Navbar.UpdateLinksLatestWins | js/script.js:138-158 | two link passes equal the second pass alone, also when a missing `href` stops both |
| Navbar.UpdateNavbarLatestWins | js/script.js:116-162 | the page after two scroll events equals the page after the second alone, and with every `href` present the handler never throws |
| Navbar.AtMostOneHighlighted | js/script.js:138-157 | when no two links share a target, at most one link is highlighted |
| Navbar.BareHashActiveAboveSections | js/script.js:127-143 | above every section the active id is `""`, so a link whose `href` is `#` is highlighted |
| Theme.StartsDark | js/script.js:175-178 | the page starts dark iff `dark` is stored, or nothing or `""` is stored and the system prefers dark; any other stored value means light |
| Theme.ShowMode | js/script.js:179-185 | the icon attribute is `sun` for dark and `moon` for light, and an existing hero image gets the dark or light asset accordingly; a page without hero image keeps none; classes and storage are untouched |
| Theme.InitTheme | js/script.js:175-186 | after loading, the dark class is present iff the start decision says dark, icon and image agree with it, nothing is stored and no other root class changes |
| Theme.Toggle | js/script.js:194-205 | a click flips the dark class; afterwards the stored value is `dark` iff dark (else `light`), the icon is `sun` iff dark and the hero image is the dark asset iff dark |
| Theme.ToggleTwice | js/script.js:194-205 | two clicks restore the root's classes and, on a consistent page, everything but the stored value |
| Theme.ReloadKeepsToggledMode | js/script.js:175-202 | a page loaded with the value a click stored starts in the mode that click chose, whatever the system prefers |
| Theme.InitAfterToggleIsIdentity | js/script.js:178-205 | running the load-time initialisation on a page a click produced changes nothing |

## Left out

- Scroll animations (js/script.js:44-110): calls into a third-party animation library with no logic of their own.
- The `setTimeout` scheduling and real time (js/script.js:34, 38): only the delay each step returns is modelled; `Run` counts calls instead.
- Icon re-rendering through the icon library (js/script.js:189-191, 208-210): a foreign call.
- Browser storage, the colour-scheme media query and DOM queries: their results are inputs to the model; the write to storage is the `stored` field.
- Scroll and offset values are integers, not floating-point numbers. `window.scrollY` and `pageYOffset` are one parameter, since the browser keeps them equal.
- `sectionHeight` (js/script.js:132) is computed but never used, so it is not modelled.
- Strings are sequences of characters; JavaScript's UTF-16 code units are not distinguished, which makes no difference for the page's ASCII titles and ids.
- Missing page elements: the model assumes the theme toggle button and icon element (js/script.js:165-166), the `#navbar` element (js/script.js:113) and the `#typing-text` element (js/script.js:6) exist. Without the toggle button or icon the source throws at load; without `#navbar` every `updateNavbar` call throws at js/script.js:119 or 122, before the section scan and link pass; without `#typing-text` every `type` call throws at js/script.js:16 or 20. A missing hero image is modelled (`heroSrc` is `None`).
- Typewriter.Step: requires `titleIndex < |titles|`; with the index out of range the current title is `undefined` and the source throws at the `substring` call (js/script.js:16 or 20), and its modulo keeps the index in range.
- The icon shown depends on the icon library re-rendering from the `data-lucide` attribute; the model tracks only that attribute.
