# Elcode page script: filter, theme, accordion and contact form

A Dafny model of the four pieces of logic in the site's page script
(`assets/js/main.js`) that keep state or decide something:

- **Service filter** (`service_filter.dfy`, module `ServiceFilter`): the service
  cards are an array of `Card(category, language, visible)`. `FilterServices`
  walks the array in place, as `filterServices` does, setting each card's
  `visible` flag and counting the shown cards. It is proved against the
  specification function `Filtered`: a card is shown exactly when the category
  selection is empty or equals the card's category, and likewise for the
  language. An absent attribute or control reads as `""` (the `|| ''` of the
  script); it is an `Option<string>` that is `None`. An absent card grid is a
  `null` array: nothing changes and no count is reported.
- **Theme toggle** (`theme_toggle.dfy`, module `ThemeToggle`): class
  `ThemeState` holds the displayed theme (the `data-theme` attribute) and the
  browser's local storage as a `map<string, string>`. Page load shows the stored
  `"theme"` entry, or `"light"` when it is missing or empty. A click switches
  `"light"` to `"dark"` and anything else to `"light"`, and writes the new theme
  back under `"theme"`.
- **FAQ accordion** (`faq_accordion.dfy`, module `FaqAccordion`): the items'
  `active` classes are an `array<bool>`. `Click` remembers whether the clicked
  item was open, closes every item in a loop, and reopens the clicked item only
  if it was closed.
- **Contact form** (`contact_form.dfy`, module `ContactForm`): `Validate` checks
  the seven fields in the script's order. An empty field gives `MissingFields`.
  Otherwise an address that does not match `^[^\s@]+@[^\s@]+\.[^\s@]+$` gives
  `InvalidEmail`. Otherwise the result is `Ok`. `Submit` resets the form only on
  `Ok`. `EmailPattern` states the regular expression's meaning directly: some
  `@` and a later `.` split the address into three non-empty runs of characters
  that are neither white space nor `@`. `EmailPatternIff` proves this equal to a
  plain description of the address. `\s` is the JavaScript class: U+0009 to
  U+000D, space, U+00A0, U+1680, U+2000 to U+200A, U+2028, U+2029, U+202F,
  U+205F, U+3000 and U+FEFF.

`wrappers.dfy` (module `Wrappers`) holds the `Option` type used for absent
attributes and controls.

## Model

| member | source | states |
|---|---|---|
| `ServiceFilter.Text` | assets/js/main.js:70-77 | an absent attribute or control reads as the empty string, a present one as its value |
| `ServiceFilter.Filtered` | assets/js/main.js:75-91 | filtering keeps every card, in order, with its category and language; a card is shown iff (category selection empty or equal to the card's) and (language selection empty or equal to the card's) |
| `ServiceFilter.FilterServices` | assets/js/main.js:66-96 | with no grid nothing is reported; otherwise the array afterwards is exactly `Filtered` of the array before (only the flags change) and the reported count is the number of shown cards |
| `ServiceFilter.FilteredCount` | assets/js/main.js:73-94 | the number of shown cards after filtering equals the number of cards that match the selection (and so never exceeds the number of cards) |
| `ServiceFilter.FilterIdempotent` | assets/js/main.js:66-96 | filtering again with the same selection gives the same cards, flags and count |
| `ServiceFilter.FilterIgnoresVisibility` | assets/js/main.js:82-90 | the result does not depend on which cards were shown before |
| `ServiceFilter.NoSelectionShowsAll` | assets/js/main.js:70-82 | with both selections empty every card is shown and all of them are counted |
| `ServiceFilter.DeadlineIrrelevant` | assets/js/main.js:107-109 | the deadline control's value never changes the result; it only re-runs the filter |
| `ServiceFilter.TwoCardExample` | assets/js/main.js:79-84 | an essay/id card and a code/en card filtered on category "code": only the second is shown, count 1 |
| `ThemeToggle.InitialTheme` | assets/js/main.js:41 | the initial theme is the stored value, or "light" when it is absent or empty; it is never empty |
| `ThemeToggle.Toggled` | assets/js/main.js:46-47 | a click always yields "light" or "dark", and yields "dark" iff the current theme is "light" |
| `ThemeToggle.ToggleTwice` | assets/js/main.js:46-47 | two clicks restore the theme iff it was "light" or "dark" |
| `ThemeToggle.ThemeState.constructor` | assets/js/main.js:41-42 | page load displays `InitialTheme` of the storage and writes nothing to storage |
| `ThemeToggle.ThemeState.Toggle` | assets/js/main.js:45-51 | a click displays the toggled theme, stores it under "theme" leaving other keys alone, and afterwards storage agrees with the display |
| `FaqAccordion.AfterClick` | assets/js/main.js:130-140 | after a click on item i every other item is closed and item i is open iff it was closed before |
| `FaqAccordion.Click` | assets/js/main.js:129-141 | the handler leaves the flags equal to `AfterClick` of the flags before |
| `FaqAccordion.ClickOpenCount` | assets/js/main.js:133-140 | after any click at most one item is open: one if the clicked item was closed, none if it was open |
| `FaqAccordion.ClickSwitches` | assets/js/main.js:138-140 | clicking a closed item makes exactly that item open; clicking the open item leaves none open |
| `FaqAccordion.OpenAnother` | assets/js/main.js:133-140 | opening B while A is open closes A and opens B |
| `ContactForm.Validate` | assets/js/main.js:163-174 | `MissingFields` iff some field is empty; `InvalidEmail` iff all are filled and the address fails the pattern; `Ok` iff all are filled and it matches |
| `ContactForm.Submit` | assets/js/main.js:163-180 | the outcome is `Validate`'s; the form is reset to its defaults only on `Ok` and keeps its values otherwise |
| `ContactForm.MissingBeforeEmail` | assets/js/main.js:164-171 | an empty address is reported as a missing field, although it also fails the pattern |
| `ContactForm.PatternIsPlain` | assets/js/main.js:170 | an address matching the pattern has no white space, exactly one `@` with something before it, and a `.` after it that is neither first nor last in the domain |
| `ContactForm.PlainIsPattern` | assets/js/main.js:170 | an address with those plain properties matches the pattern |
| `ContactForm.EmailPatternIff` | assets/js/main.js:170-171 | the pattern holds iff the plain description does |
| `ContactForm.EmailExamples` | assets/js/main.js:170-174 | with the other fields filled, "a@b.co" is accepted and "bad" is rejected as an invalid address |

## Left out

- DOM lookups, event-listener wiring, `querySelectorAll` and `classList`: cards, accordion items and form fields are plain arrays and records. An accordion item without a question element gets no handler; the model covers the handler only.
- The count display: `serviceCount` is only written when present. The model returns the count and leaves out whether an element shows it.
- The fade-in animation assigned to shown cards and the transition assigned on a theme switch: cosmetic.
- Local storage is a `map<string, string>` field, not browser I/O; the `alert` messages are the `Outcome` values, and the `console.log` of the submitted form is left out.
- `form.reset()` restores the markup's default values; the model takes them as the `defaults` parameter of `Submit`.
- Strings are sequences of Unicode scalar values, whereas JavaScript strings are UTF-16 code units. Every character in `\s` and `@` is a single code unit, so the pattern accepts the same addresses either way.
- The navbar toggle, smooth scrolling, the scroll-to-top button, the scroll-triggered fade-ins, the image loading effects, lazy loading with its CDN fallback and the console welcome message: presentation and browser callbacks with no logic to state.
