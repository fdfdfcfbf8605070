/**
 * The colour theme store: the three theme names, reading a remembered
 * theme from the browser's local storage, persisting one, and the store's
 * initial theme.
 */
module ThemeStore {
  import opened Wrappers

  datatype Theme = Light | Dark | System

  /** The name a theme is stored and compared under. */
  function Name(t: Theme): string {
    match t
    case Light => "light"
    case Dark => "dark"
    case System => "system"
  }

  const ThemeStorageKey := "theme"
  const DefaultTheme := System

  /** `isTheme`: a present value that is one of the three theme names. */
  predicate IsTheme(value: Option<string>) {
    value.Some? && exists t: Theme :: Name(t) == value.value
  }

  /** Exactly `"light"`, `"dark"` and `"system"` are themes, and each theme's name is one. */
  lemma IsThemeExactly(value: Option<string>)
    ensures IsTheme(value) <==> value == Some("light") || value == Some("dark") || value == Some("system")
    ensures forall t: Theme :: IsTheme(Some(Name(t)))
  {
    if value == Some("light") {
      assert Name(Light) == value.value;
    } else if value == Some("dark") {
      assert Name(Dark) == value.value;
    } else if value == Some("system") {
      assert Name(System) == value.value;
    }
    forall t: Theme ensures IsTheme(Some(Name(t))) {
      assert Name(t) == Some(Name(t)).value;
    }
  }

  /** The theme a valid stored name stands for. */
  function ThemeNamed(value: Option<string>): (r: Option<Theme>)
    ensures r.Some? <==> IsTheme(value)
    ensures r.Some? ==> Name(r.value) == value.value
  {
    IsThemeExactly(value);
    if value == Some("light") then Some(Light)
    else if value == Some("dark") then Some(Dark)
    else if value == Some("system") then Some(System)
    else None
  }

  /**
   * The browser's local storage. `blocked` stands for storage that throws
   * on every access (private mode, storage disabled).
   */
  class LocalStorage {
    var items: map<string, string>
    var blocked: bool

    constructor(items: map<string, string>, blocked: bool)
      ensures this.items == items && this.blocked == blocked
    {
      this.items := items;
      this.blocked := blocked;
    }
  }

  /**
   * `readStoredTheme`: nothing without a window (`storage` is absent) or
   * when storage throws; otherwise the stored value under the key when it
   * is a theme name, else nothing.
   */
  function ReadStoredTheme(storage: Option<LocalStorage>, key: string): (r: Option<Theme>)
    reads if storage.Some? then {storage.value} else {}
    ensures storage.None? ==> r.None?
    ensures storage.Some? && storage.value.blocked ==> r.None?
    ensures r.Some? <==> storage.Some? && !storage.value.blocked &&
                         key in storage.value.items && IsTheme(Some(storage.value.items[key]))
    ensures r.Some? ==> Name(r.value) == storage.value.items[key]
  {
    if storage.None? || storage.value.blocked then None
    else
      var stored := if key in storage.value.items then Some(storage.value.items[key]) else None;
      ThemeNamed(stored)
  }

  /**
   * `persistTheme`: the theme's name stored under the key; a failure
   * (no window, storage that throws) is swallowed and changes nothing.
   * With working storage, reading the same key back gives the theme.
   */
  method PersistTheme(storage: Option<LocalStorage>, theme: Theme, key: string)
    modifies if storage.Some? then {storage.value} else {}
    ensures storage.Some? ==> storage.value.blocked == old(storage.value.blocked)
    ensures storage.Some? && old(storage.value.blocked) ==> storage.value.items == old(storage.value.items)
    ensures storage.Some? && !old(storage.value.blocked) ==>
              storage.value.items == old(storage.value.items)[key := Name(theme)]
    ensures storage.Some? && !old(storage.value.blocked) ==> ReadStoredTheme(storage, key) == Some(theme)
  {
    if storage.Some? && !storage.value.blocked {
      storage.value.items := storage.value.items[key := Name(theme)];
      assert ThemeNamed(Some(Name(theme))) == Some(theme);
    }
  }

  /** The theme store; it starts at the default theme. */
  class ThemeStoreState {
    var theme: Theme

    constructor()
      ensures theme == DefaultTheme && Name(theme) == "system"
    {
      theme := DefaultTheme;
    }
  }
}
