/** The colour theme: the service that persists the mode under Chakra's
    colour-mode key, and the `useTheme` hook that syncs the UI's mode with it
    on mount and flips it on request. */
module ThemePreference {
  import opened Wrappers
  import opened KeyValueStore

  datatype ThemeMode = Light | Dark

  function ModeName(m: ThemeMode): string {
    match m
    case Light => "light"
    case Dark => "dark"
  }

  function Flip(m: ThemeMode): (r: ThemeMode)
    ensures r != m
  {
    match m
    case Light => Dark
    case Dark => Light
  }

  const ThemeKey: string := "chakra-ui-color-mode"

  /** `saveTheme`: a failing write is swallowed and changes nothing. */
  function SaveTheme(st: Store, m: ThemeMode): (r: Store)
    ensures st.writable ==> ThemeKey in r.items && r.items[ThemeKey] == ModeName(m)
    ensures !st.writable ==> r == st
    ensures r.readable == st.readable && r.writable == st.writable
    ensures forall k :: k != ThemeKey ==> GetItem(r, k) == GetItem(st, k)
  {
    match SetItem(st, ThemeKey, ModeName(m))
    case Success(st') => st'
    case Failure(_) => st
  }

  /** `loadTheme`: the stored mode when it is exactly `light` or `dark`;
      `light` for anything else, a missing key, or a failing read. */
  function LoadTheme(st: Store): (m: ThemeMode)
    ensures st.readable && ThemeKey in st.items && st.items[ThemeKey] == "dark" ==> m == Dark
    ensures !(st.readable && ThemeKey in st.items && st.items[ThemeKey] == "dark") ==> m == Light
  {
    match GetItem(st, ThemeKey)
    case Failure(_) => Light
    case Success(saved) =>
      if saved == Some("light") then Light
      else if saved == Some("dark") then Dark
      else Light
  }

  /** With working storage, loading after saving gives the saved mode. */
  lemma SaveLoadRoundTrip(st: Store, m: ThemeMode)
    requires Working(st)
    ensures LoadTheme(SaveTheme(st, m)) == m
  {
  }

  // ---------------------------------------------------------------------
  // useTheme
  // ---------------------------------------------------------------------

  /** The UI's current colour mode and the store behind the hook. */
  datatype ThemeState = ThemeState(colorMode: ThemeMode, store: Store)

  /** The mount effect: one toggle when the saved mode differs from the
      current one. Nothing is written. */
  function Mount(s: ThemeState): (r: ThemeState)
    ensures r.colorMode == LoadTheme(s.store)
    ensures r.store == s.store
  {
    if LoadTheme(s.store) != s.colorMode then s.(colorMode := Flip(s.colorMode)) else s
  }

  /** `toggleTheme`: flip the UI's mode and save the mode opposite to the
      one seen before the flip. */
  function ToggleTheme(s: ThemeState): (r: ThemeState)
    ensures r.colorMode != s.colorMode
    ensures r.store == SaveTheme(s.store, if s.colorMode == Light then Dark else Light)
  {
    ThemeState(Flip(s.colorMode), SaveTheme(s.store, Flip(s.colorMode)))
  }

  /** The saved value agrees with the displayed mode after a toggle when the
      store works. */
  lemma ToggleStoresDisplayedMode(s: ThemeState)
    requires Working(s.store)
    ensures LoadTheme(ToggleTheme(s).store) == ToggleTheme(s).colorMode
  {
  }

  /** Two toggles restore the mode, and with working storage leave it saved. */
  lemma ToggleTwice(s: ThemeState)
    ensures ToggleTheme(ToggleTheme(s)).colorMode == s.colorMode
    ensures Working(s.store) ==> LoadTheme(ToggleTheme(ToggleTheme(s)).store) == s.colorMode
  {
  }

  /** Mounting twice changes nothing more than mounting once. */
  lemma MountIdempotent(s: ThemeState)
    ensures Mount(Mount(s)) == Mount(s)
  {
  }
}
