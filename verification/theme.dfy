/** Light/dark theme in js/script.js: the decision made when the script loads,
    and the toggle button's click handler.

    The page's state is the root element's classes (`dark` among them or not), the
    `data-lucide` attribute of the theme icon element, the hero image's source (when the page has a
    hero image) and the value stored under the `theme` key. The stored value and
    the system preference are read once at load and passed in. */
module Theme {
  import opened Wrappers

  const DarkClass: string := "dark"
  const StoredDark: string := "dark"
  const StoredLight: string := "light"
  const SunIcon: string := "sun"
  const MoonIcon: string := "moon"
  const LightImage: string := "assets/hero-image.png"
  const DarkImage: string := "assets/hero-image-dark.png"

  /** `icon` is the `data-lucide` attribute of the theme icon element; `heroSrc` is `None` when the page has no hero image; `stored` is `None` when
      nothing is stored under the `theme` key. */
  datatype ThemePage = ThemePage(rootClasses: set<string>, icon: string, heroSrc: Option<string>, stored: Option<string>)

  predicate IsDark(p: ThemePage)
  {
    DarkClass in p.rootClasses
  }

  /** Icon and hero image agree with the root's dark class: the sun and the dark
      image in dark mode, the moon and the light image otherwise. */
  predicate Consistent(p: ThemePage)
  {
    && p.icon == (if IsDark(p) then SunIcon else MoonIcon)
    && (p.heroSrc.Some? ==> p.heroSrc.value == if IsDark(p) then DarkImage else LightImage)
  }

  /** JavaScript truthiness of a stored value: `null` and the empty string are falsy. */
  predicate Truthy(stored: Option<string>)
  {
    stored.Some? && stored.value != ""
  }

  /** The load-time decision: dark when `dark` is stored, or when nothing (or the
      empty string) is stored and the system prefers dark; light for any other
      stored value, whatever the system prefers. */
  function StartsDark(stored: Option<string>, systemPrefersDark: bool): (r: bool)
    ensures r <==> stored == Some(StoredDark) || ((stored == None || stored == Some("")) && systemPrefersDark)
    ensures stored.Some? && stored.value != "" ==> (r <==> stored.value == StoredDark)
  {
    stored == Some(StoredDark) || (!Truthy(stored) && systemPrefersDark)
  }

  /** Sets the icon attribute and the hero image (if there is one) for a mode. */
  function ShowMode(p: ThemePage, dark: bool): (r: ThemePage)
    ensures r.rootClasses == p.rootClasses && r.stored == p.stored
    ensures r.heroSrc.Some? <==> p.heroSrc.Some?
    ensures r.icon == (if dark then SunIcon else MoonIcon)
    ensures r.heroSrc.Some? ==> r.heroSrc.value == (if dark then DarkImage else LightImage)
    ensures IsDark(r) == dark ==> Consistent(r)
  {
    p.(icon := if dark then SunIcon else MoonIcon,
       heroSrc := if p.heroSrc.Some? then Some(if dark then DarkImage else LightImage) else None)
  }

  /** The initialisation when the script loads. Nothing is written to storage. */
  function InitTheme(p: ThemePage, systemPrefersDark: bool): (r: ThemePage)
    ensures IsDark(r) <==> StartsDark(p.stored, systemPrefersDark)
    ensures Consistent(r)
    ensures r.stored == p.stored
    ensures r.rootClasses - {DarkClass} == p.rootClasses - {DarkClass}
    ensures r.heroSrc.Some? <==> p.heroSrc.Some?
  {
    var dark := StartsDark(p.stored, systemPrefersDark);
    var classes := if dark then p.rootClasses + {DarkClass} else p.rootClasses - {DarkClass};
    ShowMode(p.(rootClasses := classes), dark)
  }

  /** The click handler: flip the dark class, then store, show the icon and swap
      the image for the mode the root is now in. */
  function Toggle(p: ThemePage): (r: ThemePage)
    ensures IsDark(r) <==> !IsDark(p)
    ensures r.stored == Some(if IsDark(r) then StoredDark else StoredLight)
    ensures Consistent(r)
    ensures r.rootClasses - {DarkClass} == p.rootClasses - {DarkClass}
    ensures r.heroSrc.Some? <==> p.heroSrc.Some?
  {
    var classes := if DarkClass in p.rootClasses then p.rootClasses - {DarkClass}
                   else p.rootClasses + {DarkClass};
    var dark := DarkClass in classes;
    ShowMode(p.(rootClasses := classes, stored := Some(if dark then StoredDark else StoredLight)), dark)
  }

  /** Two clicks restore the root's classes; on a consistent page they restore
      everything but the stored value, which then names the original mode. */
  lemma ToggleTwice(p: ThemePage)
    ensures Toggle(Toggle(p)).rootClasses == p.rootClasses
    ensures IsDark(Toggle(Toggle(p))) == IsDark(p)
    ensures Consistent(p) ==>
              Toggle(Toggle(p)) == p.(stored := Some(if IsDark(p) then StoredDark else StoredLight))
  {
  }

  /** The stored choice survives a reload: initialising any freshly loaded page with the
      value a click stored gives the mode that click chose, whatever the system
      prefers. */
  lemma ReloadKeepsToggledMode(p: ThemePage, loaded: ThemePage, systemPrefersDark: bool)
    ensures IsDark(InitTheme(loaded.(stored := Toggle(p).stored), systemPrefersDark)) == IsDark(Toggle(p))
  {
  }

  /** Running the initialisation on a page a click produced changes nothing. */
  lemma InitAfterToggleIsIdentity(p: ThemePage, systemPrefersDark: bool)
    ensures InitTheme(Toggle(p), systemPrefersDark) == Toggle(p)
  {
  }
}
