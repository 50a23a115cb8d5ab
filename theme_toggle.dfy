/**
 * The light/dark colour scheme. The page shows the theme held in the
 * `data-theme` attribute of the document element; the browser's local
 * storage keeps the chosen theme under the key "theme" across visits.
 */
module ThemeToggle {

  const ThemeKey := "theme"
  const Light := "light"
  const Dark := "dark"

  /** `localStorage.getItem('theme') || 'light'`: the stored theme, or
      "light" when nothing (or the empty string) is stored. */
  function InitialTheme(storage: map<string, string>): (r: string)
    ensures r != ""
    ensures ThemeKey in storage && storage[ThemeKey] != "" ==> r == storage[ThemeKey]
    ensures (ThemeKey !in storage || storage[ThemeKey] == "") ==> r == Light
  {
    if ThemeKey in storage && storage[ThemeKey] != "" then storage[ThemeKey] else Light
  }

  /** The theme a click switches to: "dark" from "light", "light" from
      anything else. */
  function Toggled(current: string): (r: string)
    ensures r == Light || r == Dark
    ensures r == Dark <==> current == Light
  {
    if current == Light then Dark else Light
  }

  /** Two clicks restore the theme exactly when it was "light" or "dark". */
  lemma ToggleTwice(t: string)
    ensures Toggled(Toggled(t)) == t <==> t == Light || t == Dark
  {
  }

  /** The document's theme attribute together with the browser's storage. */
  class ThemeState {
    var displayed: string
    var storage: map<string, string>

    /** The stored entry agrees with the theme on display. */
    predicate Synced()
      reads this
    {
      ThemeKey in storage && storage[ThemeKey] == displayed
    }

    /** Page load: read the stored preference and display it; storage is
        left as it was. */
    constructor (storage: map<string, string>)
      ensures this.storage == storage
      ensures displayed == InitialTheme(storage)
    {
      this.storage := storage;
      displayed := InitialTheme(storage);
    }

    /** A click on the theme button: switch the displayed theme and write
        the new one to storage, leaving every other key alone. */
    method Toggle()
      modifies this
      ensures displayed == Toggled(old(displayed))
      ensures storage == old(storage)[ThemeKey := displayed]
      ensures Synced()
      ensures displayed == Light || displayed == Dark
    {
      var newTheme := Toggled(displayed);
      displayed := newTheme;
      storage := storage[ThemeKey := newTheme];
    }
  }

  /** After a first click the state stays synced and alternates between
      the two themes. */
  method TwoClicks(storage: map<string, string>)
  {
    var page := new ThemeState(storage);
    page.Toggle();
    var first := page.displayed;
    page.Toggle();
    assert page.Synced();
    assert page.displayed == Toggled(first) != first;
  }
}
