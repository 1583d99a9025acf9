/** The colour theme (`ThemeContext`): the theme read at start-up, the
    toggle, and the effect that stores the theme and sets the `dark` class
    on the root element. */
module Theme {
  import opened Options
  import opened WebStorage

  const ThemeKey := "clustify-theme"
  const Light := "light"
  const Dark := "dark"
  /** The class the effect puts on `document.documentElement`. */
  const DarkClass := "dark"

  predicate IsTheme(t: string) {
    t == Light || t == Dark
  }

  /** `getInitialTheme()`: a saved "dark" or "light" when running in a
      browser, anything else, or no window at all, gives "light". */
  function InitialTheme(hasWindow: bool, storage: Storage): (t: string)
    ensures IsTheme(t)
    ensures t == Dark <==> hasWindow && GetItem(storage, ThemeKey) == Some(Dark)
  {
    if hasWindow && GetItem(storage, ThemeKey) == Some(Dark) then Dark
    else if hasWindow && GetItem(storage, ThemeKey) == Some(Light) then Light
    else Light
  }

  /** `toggleTheme`: "light" becomes "dark", and anything else "light". */
  function Toggle(prev: string): (t: string)
    ensures IsTheme(t) && t != prev
    ensures t == Dark <==> prev == Light
  {
    if prev == Light then Dark else Light
  }

  /** Toggling twice gives a theme back. */
  lemma ToggleTwice(t: string)
    requires IsTheme(t)
    ensures Toggle(Toggle(t)) == t
  {
  }

  /** What the effect acts on: the storage and the classes of the root
      element. */
  datatype Page = Page(storage: Storage, rootClasses: set<string>)

  /** The effect run for `theme`: the theme is stored, and the root carries
      the `dark` class exactly when the theme is "dark". No other entry and
      no other class changes. */
  function Apply(theme: string, page: Page): (p: Page)
    ensures GetItem(p.storage, ThemeKey) == Some(theme)
    ensures OthersKept(p.storage, page.storage, {ThemeKey})
    ensures DarkClass in p.rootClasses <==> theme == Dark
    ensures p.rootClasses - {DarkClass} == page.rootClasses - {DarkClass}
  {
    var classes := if theme == Dark then page.rootClasses + {DarkClass} else page.rootClasses - {DarkClass};
    Page(page.storage[ThemeKey := theme], classes)
  }

  /** The provider's theme and the page it has been applied to. */
  datatype State = State(theme: string, page: Page)

  /** The page shows the theme: a theme value, stored, with the `dark`
      class present exactly when it is "dark". */
  predicate Shows(st: State) {
    && IsTheme(st.theme)
    && GetItem(st.page.storage, ThemeKey) == Some(st.theme)
    && (DarkClass in st.page.rootClasses <==> st.theme == Dark)
  }

  /** Mounting the provider: the initial theme, then the effect. */
  function Mount(hasWindow: bool, page: Page): (st: State)
    ensures Shows(st)
    ensures st.theme == InitialTheme(hasWindow, page.storage)
  {
    var t := InitialTheme(hasWindow, page.storage);
    State(t, Apply(t, page))
  }

  /** A toggle, then the effect for the new theme. */
  function ToggleStep(st: State): (r: State)
    ensures Shows(r)
    ensures r.theme == Toggle(st.theme)
  {
    var t := Toggle(st.theme);
    State(t, Apply(t, st.page))
  }

  /** Each toggle flips the `dark` class of a page that shows its theme. */
  lemma ToggleFlipsDarkClass(st: State)
    requires Shows(st)
    ensures DarkClass in ToggleStep(st).page.rootClasses <==> DarkClass !in st.page.rootClasses
  {
  }

  /** A reload in the browser comes back with the theme the page shows:
      the stored theme is read back. */
  lemma ReloadKeepsTheme(st: State)
    requires Shows(st)
    ensures Mount(true, st.page).theme == st.theme
    ensures Mount(true, st.page).page == st.page
  {
    var p := Apply(st.theme, st.page);
    assert p.storage == st.page.storage && p.rootClasses == st.page.rootClasses;
  }

  /** Two toggles bring a page that shows its theme back to where it
      was. */
  lemma ToggleTwiceRestores(st: State)
    requires Shows(st)
    ensures ToggleStep(ToggleStep(st)) == st
  {
    ToggleTwice(st.theme);
    ReloadKeepsTheme(st);
    var once := ToggleStep(st);
    assert once.page.storage == st.page.storage[ThemeKey := once.theme];
    assert ToggleStep(once).page.storage == st.page.storage by {
      assert st.page.storage == st.page.storage[ThemeKey := st.theme];
    }
    assert ToggleStep(once).page.rootClasses == st.page.rootClasses;
  }
}
