/**
 * The menu search bar: the query is trimmed and lower-cased, the static
 * menu list is scanned in order for the first item whose lower-cased name
 * contains the query, and the status message is cleared or set to the
 * "no match" text. The DOM lookups of the item elements are a parameter:
 * the set of element ids present in the document.
 */
module MenuSearch {
  import opened Wrappers
  import opened Text

  datatype MenuItem = MenuItem(id: string, name: string)

  /** The menu, in the order the search scans it. */
  const MenuItems: seq<MenuItem> := [
    MenuItem("menu-greek-salad", "Greek Salad"),
    MenuItem("menu-lasagne", "Lasagne"),
    MenuItem("menu-butternut-pumpkin", "Butternut Pumpkin"),
    MenuItem("menu-tokusen-wagyu", "Tokusen Wagyu"),
    MenuItem("menu-olivas-rellenas", "Olivas Rellenas"),
    MenuItem("menu-opu-fish", "Opu Fish")
  ]

  const NoMatchMessage: string := "No matching food found."

  /** The query as the search uses it: `value.trim().toLowerCase()`. */
  function Normalize(input: string): (q: string)
    ensures q == [] <==> AllTrimmable(input)
    ensures forall k :: 0 <= k < |q| ==> !IsUpperAscii(q[k])
  {
    ToLower(Trim(input))
  }

  /** `item.name.toLowerCase()` */
  function LowerName(item: MenuItem): string {
    ToLower(item.name)
  }

  /** `item.name.toLowerCase().includes(query)`: the query occurs in the lower-cased name. */
  predicate Matches(item: MenuItem, query: string)
    ensures Matches(item, query) <==> exists i :: OccursAt(query, LowerName(item), i)
  {
    Includes(LowerName(item), query)
  }

  /** `k` is the position of the first item of `items` that matches `query`. */
  predicate IsFirstMatch(items: seq<MenuItem>, query: string, k: int) {
    && 0 <= k < |items|
    && Matches(items[k], query)
    && forall j :: 0 <= j < k ==> !Matches(items[j], query)
  }

  /** `items.find(...)`, as the position of the item it returns. */
  function FirstMatch(items: seq<MenuItem>, query: string): (r: Option<nat>)
    ensures r.Some? ==> IsFirstMatch(items, query, r.value)
    ensures r.None? ==> forall j :: 0 <= j < |items| ==> !Matches(items[j], query)
  {
    if items == [] then None
    else if Matches(items[0], query) then Some(0)
    else match FirstMatch(items[1..], query)
      case None => None
      case Some(k) => Some(k + 1)
  }

  /** The search returns the first match, whichever position it is at. */
  lemma FirstMatchIsFirst(items: seq<MenuItem>, query: string, k: int)
    requires IsFirstMatch(items, query, k)
    ensures FirstMatch(items, query) == Some(k)
  {
  }

  /**
   * What one search leaves behind: the text of the message element and the
   * id of the element scrolled into view and highlighted, if any.
   */
  datatype Outcome = Outcome(message: string, highlight: Option<string>)

  /** `searchMenu()` over the menu `items`, with the input field holding `input`. */
  function SearchIn(items: seq<MenuItem>, input: string, present: set<string>): (o: Outcome)
    ensures o.message == "" || o.message == NoMatchMessage
    ensures o.message == NoMatchMessage <==>
      !AllTrimmable(input) && forall j :: 0 <= j < |items| ==> !Matches(items[j], Normalize(input))
    ensures o.highlight.Some? <==>
      !AllTrimmable(input) && exists k :: IsFirstMatch(items, Normalize(input), k) && items[k].id in present
    ensures o.highlight.Some? ==>
      exists k :: IsFirstMatch(items, Normalize(input), k) && o.highlight.value == items[k].id
  {
    var query := Normalize(input);
    if query == [] then
      Outcome("", None)
    else
      match FirstMatch(items, query)
      case None => Outcome(NoMatchMessage, None)
      case Some(k) =>
        if items[k].id in present then Outcome("", Some(items[k].id)) else Outcome("", None)
  }

  /** `searchMenu()` over the page's menu. */
  function Search(input: string, present: set<string>): (o: Outcome)
    ensures o.message == "" || o.message == NoMatchMessage
    ensures o.highlight.Some? ==> o.highlight.value in present
    ensures o.highlight.Some? ==>
      exists k :: IsFirstMatch(MenuItems, Normalize(input), k) && o.highlight.value == MenuItems[k].id
  {
    SearchIn(MenuItems, input, present)
  }

  /** The query does not depend on the case of the input. */
  lemma NormalizeIgnoresCase(input: string)
    ensures Normalize(ToLower(input)) == Normalize(input)
  {
    TrimLowerCommute(input);
    ToLowerIdempotent(Trim(input));
  }

  /** Typing the query in capitals finds the same item and shows the same message. */
  lemma SearchIgnoresCase(items: seq<MenuItem>, input: string, present: set<string>)
    ensures SearchIn(items, ToLower(input), present) == SearchIn(items, input, present)
  {
    NormalizeIgnoresCase(input);
  }

  /** Blanks typed around the query change nothing. */
  lemma SearchIgnoresBlanks(items: seq<MenuItem>, before: string, input: string, after: string, present: set<string>)
    requires AllTrimmable(before) && AllTrimmable(after)
    ensures SearchIn(items, before + input + after, present) == SearchIn(items, input, present)
  {
    TrimPadded(before, input, after);
  }

  /** Trimming and lower-casing leave a query without surrounding blanks or capitals as it is. */
  lemma NormalizeKeeps(s: string)
    requires s != [] && !IsTrimmable(s[0]) && !IsTrimmable(s[|s| - 1])
    requires forall k :: 0 <= k < |s| ==> !IsUpperAscii(s[k])
    ensures Normalize(s) == s
  {
  }

  /** An item whose lower-cased name lacks a character of the query does not match it. */
  lemma MissingCharNoMatch(item: MenuItem, query: string, c: char)
    requires c in query
    requires forall k :: 0 <= k < |item.name| ==> LowerChar(item.name[k]) != c
    ensures !Matches(item, query)
  {
    var lowered := ToLower(item.name);
    assert c !in lowered;
  }

  /** An item whose lower-cased name has `query` at position `i` matches it. */
  lemma OccurrenceMatches(item: MenuItem, query: string, i: nat)
    requires i + |query| <= |item.name|
    requires forall k :: 0 <= k < |query| ==> LowerChar(item.name[i + k]) == query[k]
    ensures Matches(item, query)
  {
    var lowered := ToLower(item.name);
    assert lowered[i..i + |query|] == query;
    assert OccursAt(query, lowered, i);
  }

  /** "greek salad" has no 'n', so it does not contain "lasagne". */
  lemma SaladIsNotLasagne()
    ensures !Matches(MenuItems[0], "lasagne")
  {
    MissingCharNoMatch(MenuItems[0], "lasagne", 'n');
  }

  lemma LasagneIsLasagne()
    ensures Matches(MenuItems[1], "lasagne")
  {
    OccurrenceMatches(MenuItems[1], "lasagne", 0);
  }

  /** "lasagne" first occurs in the second item's name. */
  lemma LasagneIsSecond()
    ensures IsFirstMatch(MenuItems, "lasagne", 1)
  {
    SaladIsNotLasagne();
    LasagneIsLasagne();
  }

  lemma NormalizedLasagne()
    ensures Normalize("lasagne") == "lasagne"
  {
    NormalizeKeeps("lasagne");
  }

  /** Searching "lasagne" scrolls to and highlights the Lasagne item and shows no message. */
  lemma SearchLasagne(present: set<string>)
    requires "menu-lasagne" in present
    ensures Search("lasagne", present) == Outcome("", Some("menu-lasagne"))
  {
    NormalizedLasagne();
    LasagneIsSecond();
    FirstMatchIsFirst(MenuItems, "lasagne", 1);
  }

  /**
   * No lower-cased menu name contains "pasta": each lacks its 'p' or its 'a'.
   * Each name gets a lemma of its own, so that the solver evaluates one
   * literal name at a time; `NoItemIsPasta` and `NoItemsArePasta` then
   * combine the six facts.
   */
  lemma SaladIsNotPasta()
    ensures !Matches(MenuItems[0], "pasta")
  {
    MissingCharNoMatch(MenuItems[0], "pasta", 'p');
  }

  lemma LasagneIsNotPasta()
    ensures !Matches(MenuItems[1], "pasta")
  {
    MissingCharNoMatch(MenuItems[1], "pasta", 'p');
  }

  lemma PumpkinIsNotPasta()
    ensures !Matches(MenuItems[2], "pasta")
  {
    MissingCharNoMatch(MenuItems[2], "pasta", 'a');
  }

  lemma WagyuIsNotPasta()
    ensures !Matches(MenuItems[3], "pasta")
  {
    MissingCharNoMatch(MenuItems[3], "pasta", 'p');
  }

  lemma OlivasIsNotPasta()
    ensures !Matches(MenuItems[4], "pasta")
  {
    MissingCharNoMatch(MenuItems[4], "pasta", 'p');
  }

  lemma FishIsNotPasta()
    ensures !Matches(MenuItems[5], "pasta")
  {
    MissingCharNoMatch(MenuItems[5], "pasta", 'a');
  }

  lemma NoItemIsPasta(j: nat)
    requires j < |MenuItems|
    ensures !Matches(MenuItems[j], "pasta")
  {
    if j == 0 {
      SaladIsNotPasta();
    } else if j == 1 {
      LasagneIsNotPasta();
    } else if j == 2 {
      PumpkinIsNotPasta();
    } else if j == 3 {
      WagyuIsNotPasta();
    } else if j == 4 {
      OlivasIsNotPasta();
    } else {
      FishIsNotPasta();
    }
  }

  lemma NormalizedPasta()
    ensures Normalize("pasta") == "pasta"
  {
    NormalizeKeeps("pasta");
  }

  lemma NoItemsArePasta()
    ensures forall j :: 0 <= j < |MenuItems| ==> !Matches(MenuItems[j], "pasta")
  {
    forall j | 0 <= j < |MenuItems|
      ensures !Matches(MenuItems[j], "pasta")
    {
      NoItemIsPasta(j);
    }
  }

  lemma NothingIsPasta()
    ensures FirstMatch(MenuItems, "pasta") == None
  {
    NoItemsArePasta();
  }

  /** Searching "pasta" matches nothing and sets the "no match" message. */
  lemma SearchPasta(present: set<string>)
    ensures Search("pasta", present) == Outcome(NoMatchMessage, None)
  {
    NormalizedPasta();
    NothingIsPasta();
  }

  lemma SaladHasSa()
    ensures Matches(MenuItems[0], "sa")
  {
    OccurrenceMatches(MenuItems[0], "sa", 6);
  }

  lemma LasagneHasSa()
    ensures Matches(MenuItems[1], "sa")
  {
    OccurrenceMatches(MenuItems[1], "sa", 2);
  }

  lemma NormalizedSa()
    ensures Normalize("sa") == "sa"
  {
    NormalizeKeeps("sa");
  }

  /**
   * "sa" occurs in both "greek salad" and "lasagne": the first item in menu
   * order wins.
   */
  lemma SearchFirstMatchWins(present: set<string>)
    requires "menu-greek-salad" in present
    ensures Matches(MenuItems[1], "sa")
    ensures Search("sa", present) == Outcome("", Some("menu-greek-salad"))
  {
    NormalizedSa();
    SaladHasSa();
    LasagneHasSa();
    FirstMatchIsFirst(MenuItems, "sa", 0);
  }

  /** A found item whose element is missing from the document gives neither a highlight nor a message. */
  lemma SearchMissingElement(present: set<string>)
    requires "menu-lasagne" !in present
    ensures Search("lasagne", present) == Outcome("", None)
  {
    NormalizedLasagne();
    LasagneIsSecond();
    FirstMatchIsFirst(MenuItems, "lasagne", 1);
  }

  /** An input of blanks only clears the message and does nothing else. */
  lemma SearchBlank(input: string, present: set<string>)
    requires AllTrimmable(input)
    ensures Search(input, present) == Outcome("", None)
  {
  }

  /** The message element and its text; only the message is page state the search keeps. */
  class SearchBar {
    var message: string

    constructor ()
      ensures message == ""
    {
      message := "";
    }

    /** `searchMenu()`: returns the id of the element it scrolls to and highlights. */
    method SearchMenu(input: string, present: set<string>) returns (highlighted: Option<string>)
      modifies this
      ensures message == Search(input, present).message
      ensures highlighted == Search(input, present).highlight
    {
      var query := Normalize(input);
      message := "";
      highlighted := None;
      if query == [] {
        return;
      }
      var found := FirstMatch(MenuItems, query);
      if found.Some? {
        var id := MenuItems[found.value].id;
        if id in present {
          highlighted := Some(id);
        }
      } else {
        message := NoMatchMessage;
      }
    }
  }
}
