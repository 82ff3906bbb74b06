/**
 * `useTheme`: the light/dark preference, its initial value from local
 * storage, the toggle, and the effect that writes it back and sets the
 * document's `dark` class. The stored value is cast without a check, so any
 * non-empty stored string becomes the theme.
 */
module Theme {
  import opened Wrappers

  const StorageKey: string := "theme"

  /** The initial theme: the stored string when non-empty, otherwise "dark". */
  function InitialTheme(saved: Option<string>): (theme: string)
    ensures theme != ""
    ensures saved.Some? && saved.value != "" ==> theme == saved.value
    ensures (saved.None? || saved.value == "") ==> theme == "dark"
  {
    if saved.Some? && saved.value != "" then saved.value else "dark"
  }

  /** `prev === 'light' ? 'dark' : 'light'`. */
  function Toggle(theme: string): (next: string)
    ensures next != theme
    ensures next == "light" || next == "dark"
    ensures next == "dark" <==> theme == "light"
  {
    if theme == "light" then "dark" else "light"
  }

  /** Two toggles restore the theme exactly when it is "light" or "dark". */
  lemma ToggleTwiceRestores(theme: string)
    ensures Toggle(Toggle(theme)) == theme <==> (theme == "light" || theme == "dark")
  {
  }

  /** What the page holds: the theme state, local storage, and the `dark` class. */
  datatype Page = Page(theme: string, storage: map<string, string>, darkClass: bool)

  /** The effect run whenever the theme changes (and on mount). */
  function ApplyTheme(p: Page): (q: Page)
    ensures q.theme == p.theme
    ensures StorageKey in q.storage && q.storage[StorageKey] == p.theme
    ensures forall k :: k in p.storage && k != StorageKey ==> k in q.storage && q.storage[k] == p.storage[k]
    ensures q.storage.Keys == p.storage.Keys + {StorageKey}
    ensures q.darkClass <==> p.theme == "dark"
  {
    Page(p.theme, p.storage[StorageKey := p.theme], p.theme == "dark")
  }

  function Saved(storage: map<string, string>): Option<string> {
    if StorageKey in storage then Some(storage[StorageKey]) else None
  }

  /** Mounting: read storage, then run the effect once. */
  function Mount(storage: map<string, string>, darkClass: bool): Page {
    ApplyTheme(Page(InitialTheme(Saved(storage)), storage, darkClass))
  }

  /** The toggle button, followed by the effect, since a toggle always changes the theme. */
  function ToggleAndApply(p: Page): Page {
    ApplyTheme(p.(theme := Toggle(p.theme)))
  }

  /** Mount and then press the toggle `n` times. */
  function AfterToggles(storage: map<string, string>, darkClass: bool, n: nat): Page
    decreases n
  {
    if n == 0 then Mount(storage, darkClass) else ToggleAndApply(AfterToggles(storage, darkClass, n - 1))
  }

  /** The page stays consistent: storage holds the theme and the class tracks it. */
  ghost predicate Consistent(p: Page) {
    && StorageKey in p.storage && p.storage[StorageKey] == p.theme
    && (p.darkClass <==> p.theme == "dark")
    && p.theme != ""
  }

  /**
   * After any number of toggles the page is consistent, so a reload starts
   * from the theme the user last saw.
   */
  lemma PreferenceSurvivesReload(storage: map<string, string>, darkClass: bool, n: nat)
    ensures Consistent(AfterToggles(storage, darkClass, n))
    ensures InitialTheme(Saved(AfterToggles(storage, darkClass, n).storage))
         == AfterToggles(storage, darkClass, n).theme
  {
  }
}
