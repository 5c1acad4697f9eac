/**
 * The light/dark theme: a theme class on the body, an icon, and the
 * `theme` entry of the browser's local storage.
 */
module Theme {
  import opened Wrappers
  import opened Dom

  /** The icon shown while the dark theme is on (U+2600 U+FE0F). */
  const Sun: string := "\U{2600}\U{FE0F}"
  /** The icon shown otherwise (U+1F319). */
  const Moon: string := "\U{1F319}"

  /** The class a theme name stands for on the body: `theme + '-theme'`. */
  function ThemeClass(theme: string): (c: string)
    ensures |c| == |theme| + 6 && c[..|theme|] == theme && c[|theme|..] == "-theme"
  {
    theme + "-theme"
  }

  /** Different theme names give different classes. */
  lemma ThemeClassInjective(a: string, b: string)
    requires ThemeClass(a) == ThemeClass(b)
    ensures a == b
  {
    assert |a| == |b|;
    assert a == ThemeClass(a)[..|a|];
    assert b == ThemeClass(b)[..|b|];
  }

  /** Only "dark" gives `dark-theme` and only "light" gives `light-theme`. */
  lemma ThemeClassCases(theme: string)
    ensures ThemeClass(theme) == "dark-theme" <==> theme == "dark"
    ensures ThemeClass(theme) == "light-theme" <==> theme == "light"
  {
    assert ThemeClass("dark") == "dark-theme";
    assert ThemeClass("light") == "light-theme";
    if ThemeClass(theme) == "dark-theme" {
      ThemeClassInjective(theme, "dark");
    }
    if ThemeClass(theme) == "light-theme" {
      ThemeClassInjective(theme, "light");
    }
  }

  /** The body's class list after `setTheme(theme)`. */
  function Applied(tokens: set<string>, theme: string): (r: set<string>)
    ensures "dark-theme" in r <==> theme == "dark"
    ensures "light-theme" in r <==> theme == "light"
    ensures ThemeClass(theme) in r
    ensures forall u :: u != "dark-theme" && u != "light-theme" && u != ThemeClass(theme) ==> (u in r <==> u in tokens)
  {
    ThemeClassCases(theme);
    tokens - {"dark-theme", "light-theme"} + {ThemeClass(theme)}
  }

  /** Exactly one of the two theme classes is on the body. */
  predicate OneTheme(tokens: set<string>) {
    ("dark-theme" in tokens) != ("light-theme" in tokens)
  }

  /** `setTheme` with either theme the page uses leaves exactly one theme class. */
  lemma AppliedOneTheme(tokens: set<string>, theme: string)
    requires theme == "dark" || theme == "light"
    ensures OneTheme(Applied(tokens, theme))
  {
  }

  /** The icon `setTheme(theme)` shows. */
  function IconFor(theme: string): (icon: string)
    ensures icon == Sun <==> theme == "dark"
    ensures icon == Moon <==> theme != "dark"
  {
    if theme == "dark" then Sun else Moon
  }

  /** The theme `toggleTheme` reads off the body: dark iff the body has `dark-theme`. */
  function CurrentTheme(tokens: set<string>): (theme: string)
    ensures theme == "dark" || theme == "light"
    ensures theme == "dark" <==> "dark-theme" in tokens
  {
    if "dark-theme" in tokens then "dark" else "light"
  }

  /** The theme `toggleTheme` applies: the other one. */
  function OtherTheme(tokens: set<string>): (theme: string)
    ensures theme == "dark" || theme == "light"
    ensures theme != CurrentTheme(tokens)
  {
    if CurrentTheme(tokens) == "dark" then "light" else "dark"
  }

  /** A toggle flips the theme shown and leaves exactly one theme class. */
  lemma ToggleFlips(tokens: set<string>)
    ensures OneTheme(Applied(tokens, OtherTheme(tokens)))
    ensures CurrentTheme(Applied(tokens, OtherTheme(tokens))) != CurrentTheme(tokens)
  {
  }

  /** Two toggles from a body with exactly one theme class restore its class list. */
  lemma ToggleTwiceRestores(tokens: set<string>)
    requires OneTheme(tokens)
    ensures Applied(Applied(tokens, OtherTheme(tokens)), OtherTheme(Applied(tokens, OtherTheme(tokens)))) == tokens
  {
    var once := Applied(tokens, OtherTheme(tokens));
    var twice := Applied(once, OtherTheme(once));
    assert OtherTheme(once) == CurrentTheme(tokens);
    assert forall u :: u in twice <==> u in tokens;
  }

  /** Exactly one theme class survives toggles, and no other body class is touched. */
  lemma ToggleKeepsOtherClasses(tokens: set<string>, u: string)
    requires u != "dark-theme" && u != "light-theme"
    ensures u in Applied(tokens, OtherTheme(tokens)) <==> u in tokens
  {
  }

  /** The theme the page starts with, given the stored `theme` entry. */
  function StartupTheme(saved: Option<string>): (theme: string)
    ensures theme == "dark" || theme == "light"
    ensures theme == "dark" <==> saved == Some("dark")
  {
    if saved == Some("dark") || saved == Some("light") then saved.value else "light"
  }

  /**
   * The startup writes what it applies, so a reload finds the same theme:
   * the stored entry after a startup starts the page the same way again.
   */
  lemma ReloadKeepsTheme(saved: Option<string>)
    ensures StartupTheme(Some(StartupTheme(saved))) == StartupTheme(saved)
  {
  }

  /** The theme chosen by a toggle is the one the next page load applies. */
  lemma ToggleSurvivesReload(tokens: set<string>)
    ensures StartupTheme(Some(OtherTheme(tokens))) == OtherTheme(tokens)
  {
  }

  /** The body's class list (shared with the navbar), the icon's text and the stored theme. */
  class ThemeController {
    const body: ClassList
    var icon: string
    var storage: Option<string>

    constructor (body: ClassList, storage: Option<string>)
      ensures this.body == body && this.storage == storage && icon == ""
    {
      this.body := body;
      this.storage := storage;
      icon := "";
    }

    /** `setTheme(theme)` */
    method SetTheme(theme: string)
      modifies this, body
      ensures body.tokens == Applied(old(body.tokens), theme)
      ensures icon == IconFor(theme)
      ensures storage == Some(theme)
    {
      body.Remove({"dark-theme", "light-theme"});
      body.Add(ThemeClass(theme));
      if theme == "dark" {
        icon := Sun;
      } else {
        icon := Moon;
      }
      storage := Some(theme);
    }

    /** `toggleTheme()` */
    method ToggleTheme()
      modifies this, body
      ensures body.tokens == Applied(old(body.tokens), OtherTheme(old(body.tokens)))
      ensures icon == IconFor(OtherTheme(old(body.tokens)))
      ensures storage == Some(OtherTheme(old(body.tokens)))
      ensures OneTheme(body.tokens)
      ensures CurrentTheme(body.tokens) != CurrentTheme(old(body.tokens))
    {
      var currentTheme := if "dark-theme" in body.tokens then "dark" else "light";
      SetTheme(if currentTheme == "dark" then "light" else "dark");
      ToggleFlips(old(body.tokens));
    }

    /** The page-load step: apply the stored theme if it is valid, else light. */
    method Startup()
      modifies this, body
      ensures body.tokens == Applied(old(body.tokens), StartupTheme(old(storage)))
      ensures icon == IconFor(StartupTheme(old(storage)))
      ensures storage == Some(StartupTheme(old(storage)))
      ensures OneTheme(body.tokens)
    {
      var savedTheme := storage;
      if savedTheme == Some("dark") || savedTheme == Some("light") {
        SetTheme(savedTheme.value);
      } else {
        SetTheme("light");
      }
    }
  }
}
