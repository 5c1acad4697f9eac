# Restaurant landing page script, modelled in Dafny

The page script `assets/js/script.js` drives a restaurant landing page. This
project models its stateful controllers and proves properties of them:

- **Navbar** (`Navbar`): each toggler click flips `active` on the navbar and
  on the overlay, and flips `nav-active` on the body.
- **Header and back-to-top button** (`Header`): at or past 50 px of scroll,
  both elements get `active`. The header gets `hide` while the page moves
  down from the last recorded scroll position.
- **Hero slider** (`HeroSlider`): the next and previous buttons step a
  position with wrap-around and move the `active` class from the last
  active slide to the current one.
- **Autoplay** (`Autoplay`): a 7000 ms interval that mouseover stops and
  mouseout starts again.
- **Menu search** (`MenuSearch`, over `Text`): trim and lower-case the query,
  find the first of the six static menu items whose lower-cased name
  contains it, highlight that item's element or show "No matching food
  found."
- **Theme** (`Theme`): a `dark-theme` or `light-theme` class on the body, a
  sun or moon icon, and the `theme` entry of local storage.

Element class lists are `Dom.ClassList` objects holding a set of tokens.
The navbar and the theme share one body class-list object. The slides'
`active` flags are an `array<bool>`.

Each controller is a class whose methods' `ensures` tie the new state to
pure functions: `NextPos`, `Activate`, `Scrolled`, `SearchIn`, `Applied` and
`StartupTheme`. The properties are proved as lemmas about those functions.

Browser inputs are parameters:
- `window.scrollY` is an integer argument.
- The element ids found by `document.getElementById` are a set `present`.
- The input field's value is a string argument.
- Local storage's `theme` entry is an `Option<string>` field.

## Model

| member | source | states |
|---|---|---|
| Dom.Toggled | assets/js/script.js:40-44 | `classList.toggle(t)` puts `t` in the list exactly when it was absent and keeps every other token |
| Dom.ToggledTwice | assets/js/script.js:40-44 | toggling the same token twice restores the class list |
| Dom.ClassList.Add | assets/js/script.js:72-73 | `classList.add(t)`: the tokens gain `t` and keep all others |
| Dom.ClassList.Remove | assets/js/script.js:220 | `classList.remove(t1, t2, …)`: the tokens lose exactly the named ones |
| Dom.ClassList.Toggle | assets/js/script.js:41-43 | the element's tokens become `Toggled` of the old tokens |
| Navbar.NavbarController.ToggleNavbar | assets/js/script.js:40-44 | navbar and overlay toggle `active` and the body toggles `nav-active`; if the three agreed on whether the menu is open, they still agree |
| Navbar.NavbarController.ToggleTwice | assets/js/script.js:40-46 | two toggler clicks restore all three class lists |
| Header.Scrolled | assets/js/script.js:57-79 | both active flags equal `scrollY >= 50`; at or past 50 the header hides iff the recorded position is below `scrollY`, and the position becomes `scrollY`; below 50 the hide flag and the position are unchanged |
| Header.Qualifying | assets/js/script.js:70-79 | the scroll positions at or past the threshold, all of them and only them |
| Header.ReplayIgnoresActive | assets/js/script.js:59-68 | after any scroll sequence, the hide flag and the recorded position do not depend on the initial active flags |
| Header.OnlyQualifyingCount | assets/js/script.js:70-79 | events below 50 leave no trace: replaying all events or only those at or past 50 gives the same hide flag and recorded position |
| Header.ActiveFollowsLastEvent | assets/js/script.js:71-78 | after any non-empty event sequence, both active flags say whether the last event was at or past 50 |
| Header.DownUpDownShowsHeader | assets/js/script.js:57-79 | scrolling to 100, then 10, then 60 leaves the header active and shown, because 10 was not recorded |
| Header.HeaderWatcher.constructor | assets/js/script.js:57 | the recorded scroll position starts at 0 |
| Header.HeaderWatcher.HideHeader | assets/js/script.js:59-68 | `hide` is added iff the recorded position is below `scrollY`, otherwise removed; the position becomes `scrollY` |
| Header.HeaderWatcher.OnScroll | assets/js/script.js:70-79 | the header and button state after the handler is `Scrolled` of the state before; no other class changes |
| HeroSlider.NextPos | assets/js/script.js:101-107 | the next position is `(pos + 1) % n`, within `0..n-1` |
| HeroSlider.PrevPos | assets/js/script.js:113-119 | the previous position is `(pos - 1 + n) % n`, within `0..n-1` |
| HeroSlider.PrevUndoesNext | assets/js/script.js:101-121 | a previous click undoes a next click |
| HeroSlider.NextUndoesPrev | assets/js/script.js:101-121 | a next click undoes a previous click |
| HeroSlider.Step | assets/js/script.js:101-123 | one button click keeps the position in range |
| HeroSlider.Run | assets/js/script.js:101-123 | any click sequence keeps the position in range |
| HeroSlider.Undo | assets/js/script.js:101-123 | the undoing clicks are the opposite buttons in reverse order |
| HeroSlider.RunAppend | assets/js/script.js:101-123 | clicking `a` and then `b` is clicking `a + b` |
| HeroSlider.UndoRestores | assets/js/script.js:101-123 | any click sequence followed by its undo returns to the starting slide |
| HeroSlider.RunIsNetShift | assets/js/script.js:101-123 | any click sequence lands at `(pos + nexts - prevs) % n` |
| HeroSlider.Activate | assets/js/script.js:95-99 | the current slide becomes active, the last one inactive, others unchanged; a single active slide moves to the current position |
| HeroSlider.Slider.constructor | assets/js/script.js:92-93 | position 0, with the first slide as the last active one |
| HeroSlider.Slider.UpdateSliderPos | assets/js/script.js:95-99 | the flags become `Activate(old flags, last, current)` and `last` becomes `current` |
| HeroSlider.Slider.SlideNext | assets/js/script.js:101-109 | the position becomes `NextPos` and the flags are updated; exactly one active slide, the current one, is preserved |
| HeroSlider.Slider.SlidePrev | assets/js/script.js:113-121 | the position becomes `PrevPos` and the flags are updated; exactly one active slide, the current one, is preserved |
| Autoplay.AutoSlider.constructor | assets/js/script.js:129 | `autoSlideInterval` starts undefined and no interval runs |
| Autoplay.AutoSlider.StartInterval | assets/js/script.js:132-134 | `setInterval` hands out a fresh handle and adds one running interval |
| Autoplay.AutoSlider.ClearAutoSlide | assets/js/script.js:137-139 | mouseover stops the interval whose handle is stored, if any; nothing else |
| Autoplay.AutoSlider.AutoSlideAsWritten | assets/js/script.js:131-135 | `autoSlide` as written adds a running interval and overwrites the stored handle without stopping the old one |
| Autoplay.AutoSlider.AutoSlide | assets/js/script.js:131-135 | corrected `autoSlide`: stops the stored interval first, so at most one interval runs, and it is the stored one |
| Autoplay.HoverDuringLoadAsWritten | assets/js/script.js:137-143 | pointer resting on a slider button during load, then leaving: two intervals run |
| Autoplay.HoverDuringLoad | assets/js/script.js:137-143 | the same events with the corrected `autoSlide`: one interval runs |
| Text.TrimStart | assets/js/script.js:187 | removes exactly the leading whitespace: the result is a suffix starting with a kept character, and everything removed is whitespace |
| Text.TrimEnd | assets/js/script.js:187 | removes exactly the trailing whitespace: the result is a prefix ending with a kept character, and everything removed is whitespace |
| Text.Trim | assets/js/script.js:187 | `trim()` leaves no whitespace at either end and is empty iff the input is all whitespace |
| Text.TrimIdempotent | assets/js/script.js:187 | trimming twice is trimming once |
| Text.TrimPadded | assets/js/script.js:187 | whitespace added before and after a string does not change its trim |
| Text.LowerChar | assets/js/script.js:187 | maps exactly the ASCII capitals, each to its own lower-case letter (`'A'` to `'a'`, …, `'Z'` to `'z'`); every other character is unchanged |
| Text.ToLower | assets/js/script.js:187 | `toLowerCase()` keeps the length, maps each character by `LowerChar` and leaves no capital |
| Text.ToLowerIdempotent | assets/js/script.js:187 | lower-casing twice is lower-casing once |
| Text.ToLowerAppend | assets/js/script.js:187 | lower-casing distributes over concatenation |
| Text.TrimLowerCommute | assets/js/script.js:187 | trimming and lower-casing commute |
| Text.MatchesAtIffSlice | assets/js/script.js:190 | the character-by-character comparison holds iff the slice of `s` equals the rest of `q` |
| Text.IncludesFromIffOccurs | assets/js/script.js:190 | the left-to-right scan from `i` succeeds iff `q` occurs at `i` or later |
| Text.Includes | assets/js/script.js:190 | `s.includes(q)` holds iff `q` occurs somewhere in `s`; in particular the empty query is always contained |
| MenuSearch.Normalize | assets/js/script.js:187 | the query is empty iff the input is all whitespace, and has no capital |
| MenuSearch.Matches | assets/js/script.js:190 | the `find` test holds iff the query occurs somewhere in the item's lower-cased name |
| MenuSearch.FirstMatch | assets/js/script.js:190 | `find` returns the position of the first matching item, or nothing when no item matches |
| MenuSearch.FirstMatchIsFirst | assets/js/script.js:190 | whenever item `k` is the first match, `find` returns it |
| MenuSearch.SearchIn | assets/js/script.js:186-201 | the message is "" or the no-match text, shown iff the query is non-empty and nothing matches; a highlight happens iff the query is non-empty and the first match's element exists, and it is that element |
| MenuSearch.Search | assets/js/script.js:177-201 | over the page's six items, the message is "" or the no-match text, and a highlighted id is present in the document and belongs to the first matching item |
| MenuSearch.NormalizeIgnoresCase | assets/js/script.js:187 | lower-casing the input first does not change the query |
| MenuSearch.SearchIgnoresCase | assets/js/script.js:186-201 | the search result does not depend on the input's case |
| MenuSearch.SearchIgnoresBlanks | assets/js/script.js:186-201 | whitespace typed around the query does not change the search result |
| MenuSearch.NormalizeKeeps | assets/js/script.js:187 | an input with no surrounding whitespace and no capital is its own query |
| MenuSearch.MissingCharNoMatch | assets/js/script.js:190 | a name whose lower-cased form lacks a character of the query does not match it |
| MenuSearch.OccurrenceMatches | assets/js/script.js:190 | a name whose lower-cased form holds the query at some position matches it |
| MenuSearch.LasagneIsSecond | assets/js/script.js:177-190 | "lasagne" first matches the second menu item |
| MenuSearch.SearchLasagne | assets/js/script.js:186-197 | searching "lasagne" highlights `menu-lasagne` and shows no message |
| MenuSearch.NoItemIsPasta | assets/js/script.js:177-190 | no menu name contains "pasta" |
| MenuSearch.NothingIsPasta | assets/js/script.js:177-190 | `find` returns nothing for "pasta" |
| MenuSearch.SearchPasta | assets/js/script.js:186-200 | searching "pasta" highlights nothing and shows "No matching food found." |
| MenuSearch.SearchFirstMatchWins | assets/js/script.js:177-197 | "sa" occurs in two names; the first in menu order, Greek Salad, is highlighted |
| MenuSearch.SearchMissingElement | assets/js/script.js:190-197 | a found item whose element is missing gives neither a highlight nor a message |
| MenuSearch.SearchBlank | assets/js/script.js:187-189 | a whitespace-only input clears the message and does nothing else |
| MenuSearch.SearchBar.SearchMenu | assets/js/script.js:186-201 | the message and the highlighted element are those `SearchIn` gives over the page's menu |
| Theme.ThemeClass | assets/js/script.js:221 | `theme + '-theme'`: the theme name followed by the suffix `-theme` |
| Theme.ThemeClassInjective | assets/js/script.js:221 | different theme names give different body classes |
| Theme.ThemeClassCases | assets/js/script.js:221 | only "dark" gives `dark-theme` and only "light" gives `light-theme` |
| Theme.Applied | assets/js/script.js:219-221 | after `setTheme(t)` the body has `dark-theme` iff t is "dark", `light-theme` iff t is "light", and `t + '-theme'`; other classes are kept |
| Theme.AppliedOneTheme | assets/js/script.js:219-221 | setting "dark" or "light" leaves exactly one theme class |
| Theme.IconFor | assets/js/script.js:222-226 | the sun icon iff the theme is "dark", the moon otherwise |
| Theme.CurrentTheme | assets/js/script.js:231 | the current theme is "dark" iff the body has `dark-theme`, otherwise "light" |
| Theme.OtherTheme | assets/js/script.js:232 | the toggle's target is "dark" or "light" and differs from the current theme |
| Theme.ToggleFlips | assets/js/script.js:230-233 | a toggle flips the theme read off the body and leaves exactly one theme class |
| Theme.ToggleTwiceRestores | assets/js/script.js:230-233 | two toggles from a body with exactly one theme class restore its class list |
| Theme.ToggleKeepsOtherClasses | assets/js/script.js:219-233 | a toggle adds or removes no body class other than the two theme classes |
| Theme.StartupTheme | assets/js/script.js:238-246 | the start theme is "dark" or "light", and "dark" iff storage holds "dark" |
| Theme.ReloadKeepsTheme | assets/js/script.js:227-246 | startup writes what it applies, so the next load starts with the same theme |
| Theme.ToggleSurvivesReload | assets/js/script.js:227-241 | the theme a toggle chose is the one the next load applies |
| Theme.ThemeController.SetTheme | assets/js/script.js:219-228 | body classes become `Applied`, the icon `IconFor`, and storage holds the theme |
| Theme.ThemeController.ToggleTheme | assets/js/script.js:230-233 | applies `OtherTheme` of the body; exactly one theme class results, and it differs from before |
| Theme.ThemeController.Startup | assets/js/script.js:238-246 | applies `StartupTheme` of storage, writes it back to storage, and leaves exactly one theme class |

## Left out

- Behaviour the model takes from the code as written:
  - The recorded scroll position is updated only at or past 50 px (script.js:67 runs inside the branch at 71-74).
  - Startup with no valid stored theme writes "light" to storage, despite the comment at script.js:244, because `setTheme` always writes.
  - The message is cleared even when the query is empty.
  - `autoSlide` does not clear the previous interval (see Findings).
- Preloader (script.js:11-16): it only adds a `loaded` class on the load event. It has no logic to state.
- `addEventOnElements` and the other event wiring (script.js:24-28, 46, 111, 123, 203-208): each handler is a method called directly. Event dispatch, bubbling and the Enter-key filter are not modelled.
- Parallax (script.js:151-170): floating-point arithmetic on pointer coordinates. The code shares `x` and `y` across items, so each item's offset is multiplied by all earlier items' speeds. That is noted here but not modelled.
- Timers: `setInterval`, `setTimeout` and time itself are not modelled.
  - Autoplay records which intervals run, not when they tick.
  - The 1500 ms removal of `highlight-menu-item` (script.js:196) is not modelled.
  - The 7000 ms period of the autoplay interval is not modelled.
  - `Autoplay` is separate from `HeroSlider.Slider`; a tick is a `SlideNext` call, as `RunIsNetShift` with only next clicks states.
- `scrollIntoView` and the `highlight-menu-item` class (script.js:194-195): they are reduced to the id of the element the search highlights.
- The injected highlight style (script.js:210-213): it is presentation only.
- `Text.ToLower`: lower-cases ASCII capitals only. `toLowerCase` also maps non-ASCII letters, for example the Kelvin sign U+212A to `k`. Queries and names outside ASCII are therefore not modelled faithfully.
- `Text.Trim`: uses the ECMAScript WhiteSpace and LineTerminator code points, with the Unicode Zs category as of the standard's current tables.
- `window.scrollY` is modelled as an integer. Fractional scroll positions are not modelled.
- `HeroSlider.Slider.constructor`: requires at least one slide. With none, the script fails at the first click on `heroSliderItems[0]`, which is undefined.
- `MenuSearch.FirstMatch`: returns the found item's position, not the item object that `find` returns.
- `Header.HeaderWatcher.HideHeader`: requires nothing of the two elements. `OnScroll` requires that the header and the button are distinct elements.

## Findings

| source | as written | input that shows it | evidently intended | confidence | as-written member | corrected member |
|---|---|---|---|---|---|---|
| assets/js/script.js:131-143 | `autoSlide` starts a new interval and overwrites `autoSlideInterval` without clearing the interval already running | the pointer rests on a slider button while the page loads (mouseover comes before load and clears nothing), then leaves: load and mouseout each start an interval, and the slides advance twice every 7 s from then on | at most one autoplay interval runs: clear the stored interval before starting a new one | not executed | Autoplay.HoverDuringLoadAsWritten | Autoplay.HoverDuringLoad |

`Autoplay.AutoSlider.AutoSlideAsWritten` models the code as written.
`Autoplay.AutoSlider.AutoSlide` is the corrected version, and it preserves
`AtMostOneLive`.
