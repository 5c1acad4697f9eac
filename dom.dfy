/**
 * The slice of the browser's document model that the page script touches:
 * the class list of an element (DOMTokenList), modelled as a set of tokens.
 */
module Dom {

  /** The class list of `s` after `classList.toggle(t)`. */
  function Toggled(s: set<string>, t: string): (r: set<string>)
    ensures t in r <==> t !in s
    ensures forall u :: u != t ==> (u in r <==> u in s)
  {
    if t in s then s - {t} else s + {t}
  }

  /** Toggling the same token twice restores the class list. */
  lemma ToggledTwice(s: set<string>, t: string)
    ensures Toggled(Toggled(s, t), t) == s
  {
    assert forall u :: u in Toggled(Toggled(s, t), t) <==> u in s;
  }

  /** One element's class list. Elements are objects: two handles may alias. */
  class ClassList {
    var tokens: set<string>

    constructor (initial: set<string>)
      ensures tokens == initial
    {
      tokens := initial;
    }

    predicate Contains(t: string)
      reads this
    {
      t in tokens
    }

    /** `classList.add(t)` */
    method Add(t: string)
      modifies this
      ensures tokens == old(tokens) + {t}
    {
      tokens := tokens + {t};
    }

    /** `classList.remove(t1, t2, ...)` */
    method Remove(ts: set<string>)
      modifies this
      ensures tokens == old(tokens) - ts
    {
      tokens := tokens - ts;
    }

    /** `classList.toggle(t)` */
    method Toggle(t: string)
      modifies this
      ensures tokens == Toggled(old(tokens), t)
    {
      tokens := Toggled(tokens, t);
    }
  }
}
