/**
 The light/dark theme logic of main.js: the stored preference read from local storage,
 the effective theme (stored preference, else the system colour scheme), the toggle
 button and the reaction to a system colour-scheme change. Storage and media queries are
 inputs; the button's label and icon are not modelled.
 */
module ThemeSwitch {
  import opened Wrappers

  datatype Theme = Dark | Light

  /** The string a theme is stored and applied under. */
  function Name(t: Theme): string {
    match t
    case Dark => "dark"
    case Light => "light"
  }

  function Opposite(t: Theme): (r: Theme)
    ensures r != t
  {
    match t
    case Dark => Light
    case Light => Dark
  }

  /** What `localStorage.getItem` gave: a value, no value (null), or an exception. */
  datatype StorageRead = StorageThrew | StorageValue(value: Option<string>)

  /**
   `getStoredTheme`: only the exact strings "dark" and "light" are recognised; anything
   else, a missing value or a storage exception yields no preference.
   */
  function GetStoredTheme(read: StorageRead): (r: Option<Theme>)
    ensures r.Some? <==> read.StorageValue? && read.value.Some? && read.value.value in {"dark", "light"}
    ensures r.Some? ==> read == StorageValue(Some(Name(r.value)))
  {
    match read
    case StorageThrew => None
    case StorageValue(v) =>
      if v == Some("dark") then Some(Dark)
      else if v == Some("light") then Some(Light)
      else None
  }

  /** Storing a theme and reading it back recovers it. */
  lemma StoredThemeRoundTrip(t: Theme)
    ensures GetStoredTheme(StorageValue(Some(Name(t)))) == Some(t)
  {
  }

  /**
   `getSystemTheme`: dark exactly when the colour-scheme query exists and matches;
   `query` is None when the browser has no `matchMedia`.
   */
  function SystemTheme(query: Option<bool>): (r: Theme)
    ensures r == Dark <==> query == Some(true)
  {
    if query == Some(true) then Dark else Light
  }

  /**
   The page's theme state: the in-memory `storedTheme`, the colour-scheme query's current
   answer, and the theme applied to the document root (`data-theme` and `color-scheme`).
   */
  datatype ThemeState = ThemeState(stored: Option<Theme>, query: Option<bool>, applied: Theme)

  /** `getEffectiveTheme`. */
  function Effective(s: ThemeState): (r: Theme)
    ensures s.stored.Some? ==> r == s.stored.value
    ensures s.stored.None? ==> r == SystemTheme(s.query)
  {
    s.stored.GetOr(SystemTheme(s.query))
  }

  /** The document shows the effective theme. */
  predicate Synced(s: ThemeState) {
    s.applied == Effective(s)
  }

  /** Page start-up: read the stored preference, then `applyTheme`. */
  function Load(read: StorageRead, query: Option<bool>): (r: ThemeState)
    ensures r.stored == GetStoredTheme(read) && r.query == query
    ensures Synced(r)
  {
    var s := ThemeState(GetStoredTheme(read), query, Light);
    s.(applied := Effective(s))
  }

  /**
   The toggle click: store the opposite of the current effective theme, then apply it.
   Returns the new state and the string handed to `setStoredTheme` (whose failure is ignored).
   */
  function Toggle(s: ThemeState): (r: (ThemeState, string))
    ensures r.0.stored == Some(Opposite(Effective(s)))
    ensures Effective(r.0) == Opposite(Effective(s)) && Synced(r.0)
    ensures r.0.query == s.query
    ensures GetStoredTheme(StorageValue(Some(r.1))) == r.0.stored
  {
    var t := Opposite(Effective(s));
    (ThemeState(Some(t), s.query, t), Name(t))
  }

  /** Two toggles restore the effective theme, whatever the system scheme is. */
  lemma ToggleTwiceRestores(s: ThemeState)
    ensures Effective(Toggle(Toggle(s).0).0) == Effective(s)
    ensures Toggle(Toggle(s).0).0.applied == Effective(s)
  {
  }

  /**
   After a toggle, a reload whose storage returns what was written shows the same theme,
   whatever the system colour scheme is then.
   */
  lemma ToggleSurvivesReload(s: ThemeState, query: Option<bool>)
    ensures Load(StorageValue(Some(Toggle(s).1)), query).applied == Effective(Toggle(s).0)
  {
  }

  /**
   `handleSystemThemeChange`: the query now answers `query`; with a stored preference
   nothing is re-applied, otherwise the new system theme is applied.
   */
  function SystemChange(s: ThemeState, query: Option<bool>): (r: ThemeState)
    ensures r.query == query && r.stored == s.stored
    ensures s.stored.Some? ==> r.applied == s.applied && Effective(r) == Effective(s)
    ensures s.stored.None? ==> r.applied == SystemTheme(query)
    ensures Synced(s) ==> Synced(r)
  {
    var s' := s.(query := query);
    if s.stored.Some? then s' else s'.(applied := Effective(s'))
  }
}
