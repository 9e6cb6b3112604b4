/**
 * The client's theme store: light or dark, either chosen by the user and remembered in
 * `localStorage`, or following the system preference. The page's root element carries
 * the theme as its class. The system preference (the `prefers-color-scheme` media query)
 * is a parameter; the browser window is taken to exist.
 */
module ThemeSlice {
  import opened Base
  import opened Storage

  /** The two themes the reducers are given. */
  type Theme = t: string | t == "light" || t == "dark" witness "light"

  /** The stored theme's key and the key of the follow-the-system flag. */
  const ThemeKey: string := "theme"
  const SystemFlagKey: string := "isSystemTheme"

  /** `getSystemTheme`: dark exactly when the system prefers dark. */
  function SystemTheme(prefersDark: bool): (t: Theme)
    ensures t == "dark" <==> prefersDark
  {
    if prefersDark then "dark" else "light"
  }

  /**
   * A theme and whether it follows the system. The theme is a string: the stored value
   * is read back without being checked.
   */
  datatype SavedTheme = SavedTheme(theme: string, isSystemTheme: bool)

  /**
   * `getSavedTheme`: the stored theme, not following the system, when one is stored and
   * the flag is not `'true'`; otherwise the system's theme, following the system.
   */
  function GetSavedTheme(local: map<string, string>, prefersDark: bool): (r: SavedTheme)
    ensures !r.isSystemTheme <==> Truthy(Get(local, ThemeKey)) && Get(local, SystemFlagKey) != Some("true")
    ensures !r.isSystemTheme ==> r.theme == local[ThemeKey]
    ensures r.isSystemTheme ==> r.theme == SystemTheme(prefersDark)
  {
    var saved := Get(local, ThemeKey);
    var followsSystem := Get(local, SystemFlagKey) == Some("true");
    if Truthy(saved) && !followsSystem then SavedTheme(saved.value, false)
    else SavedTheme(SystemTheme(prefersDark), true)
  }

  /** `toggleTheme`'s choice: light becomes dark, anything else becomes light. */
  function Toggled(theme: string): (r: Theme)
    ensures theme == "light" <==> r == "dark"
  {
    if theme == "light" then "dark" else "light"
  }

  /** Toggling twice gives back a light or dark theme; any other stored value ends as dark. */
  lemma ToggleTwice(theme: string)
    ensures theme == "light" || theme == "dark" ==> Toggled(Toggled(theme)) == theme
    ensures theme != "light" && theme != "dark" ==> Toggled(Toggled(theme)) == "dark"
  {
  }

  /** What `setTheme` stores is read back at the next start as that theme, chosen by the user. */
  lemma SetThemeRoundTrip(local: map<string, string>, t: Theme, prefersDark: bool)
    ensures GetSavedTheme(local[ThemeKey := t][SystemFlagKey := "false"], prefersDark) == SavedTheme(t, false)
  {
    var stored := local[ThemeKey := t][SystemFlagKey := "false"];
    var chosen: string := t;
    assert Get(stored, ThemeKey) == Some(chosen);
    assert Get(stored, SystemFlagKey) == Some("false");
  }

  /** What `useSystemTheme` stores is read back at the next start as following the system. */
  lemma UseSystemRoundTrip(local: map<string, string>, prefersDark: bool)
    ensures GetSavedTheme(local[SystemFlagKey := "true"] - {ThemeKey}, prefersDark) == SavedTheme(SystemTheme(prefersDark), true)
  {
    var stored := local[SystemFlagKey := "true"] - {ThemeKey};
    assert Get(stored, ThemeKey) == None;
  }

  /** `ThemeState`, the root element's class and the stores, updated in place. */
  class ThemeStore {
    var theme: string
    var isSystemTheme: bool
    var rootClass: string
    const storage: BrowserStorage

    /** Every reducer applies the theme it sets, so the page always shows the state's theme. */
    predicate Valid()
      reads this
    {
      rootClass == theme
    }

    /** The initial state is the saved theme, applied to the page. */
    constructor (storage: BrowserStorage, prefersDark: bool)
      ensures this.storage == storage && Valid()
      ensures SavedTheme(theme, isSystemTheme) == GetSavedTheme(storage.local, prefersDark)
    {
      this.storage := storage;
      var saved := GetSavedTheme(storage.local, prefersDark);
      theme := saved.theme;
      isSystemTheme := saved.isSystemTheme;
      rootClass := saved.theme;
    }

    /** `setTheme`: the user's choice, stored with the flag `'false'` and applied. */
    method SetTheme(t: Theme)
      requires Valid()
      modifies this, storage
      ensures Valid() && theme == t && !isSystemTheme
      ensures storage.local == old(storage.local)[ThemeKey := t][SystemFlagKey := "false"]
      ensures storage.session == old(storage.session)
      ensures forall prefersDark: bool :: GetSavedTheme(storage.local, prefersDark) == SavedTheme(t, false)
    {
      theme := t;
      isSystemTheme := false;
      storage.SetLocal(ThemeKey, t);
      storage.SetLocal(SystemFlagKey, "false");
      rootClass := t;
      forall prefersDark: bool
        ensures GetSavedTheme(storage.local, prefersDark) == SavedTheme(t, false)
      {
        SetThemeRoundTrip(old(storage.local), t, prefersDark);
      }
    }

    /** `toggleTheme`: the other theme becomes the user's choice, stored and applied. */
    method ToggleTheme()
      requires Valid()
      modifies this, storage
      ensures Valid() && theme == Toggled(old(theme)) && !isSystemTheme
      ensures storage.local == old(storage.local)[ThemeKey := theme][SystemFlagKey := "false"]
      ensures storage.session == old(storage.session)
      ensures forall prefersDark: bool :: GetSavedTheme(storage.local, prefersDark) == SavedTheme(theme, false)
    {
      var newTheme := Toggled(theme);
      theme := newTheme;
      isSystemTheme := false;
      storage.SetLocal(ThemeKey, newTheme);
      storage.SetLocal(SystemFlagKey, "false");
      rootClass := newTheme;
      forall prefersDark: bool
        ensures GetSavedTheme(storage.local, prefersDark) == SavedTheme(newTheme, false)
      {
        SetThemeRoundTrip(old(storage.local), newTheme, prefersDark);
      }
    }

    /** `useSystemTheme`: follow the system; the stored theme is removed and the flag set. */
    method UseSystemTheme(prefersDark: bool)
      requires Valid()
      modifies this, storage
      ensures Valid() && theme == SystemTheme(prefersDark) && isSystemTheme
      ensures storage.local == old(storage.local)[SystemFlagKey := "true"] - {ThemeKey}
      ensures storage.session == old(storage.session)
      ensures forall pd: bool :: GetSavedTheme(storage.local, pd) == SavedTheme(SystemTheme(pd), true)
    {
      var systemTheme := SystemTheme(prefersDark);
      theme := systemTheme;
      isSystemTheme := true;
      storage.SetLocal(SystemFlagKey, "true");
      storage.RemoveLocal(ThemeKey);
      rootClass := systemTheme;
      forall pd: bool
        ensures GetSavedTheme(storage.local, pd) == SavedTheme(SystemTheme(pd), true)
      {
        UseSystemRoundTrip(old(storage.local), pd);
      }
    }

    /** `updateSystemTheme`: when following the system, take up its current theme; otherwise nothing. */
    method UpdateSystemTheme(prefersDark: bool)
      requires Valid()
      modifies this
      ensures Valid() && isSystemTheme == old(isSystemTheme)
      ensures old(isSystemTheme) ==> theme == SystemTheme(prefersDark)
      ensures !old(isSystemTheme) ==> theme == old(theme) && rootClass == old(rootClass)
    {
      if isSystemTheme {
        var systemTheme := SystemTheme(prefersDark);
        theme := systemTheme;
        rootClass := systemTheme;
      }
    }
  }
}
