/**
 * The three string operations the menu search relies on:
 * `String.prototype.trim`, `toLowerCase` restricted to ASCII letters,
 * and `includes` (substring containment).
 */
module Text {

  /**
   * The code points `trim` strips: ECMAScript's WhiteSpace (TAB, VT, FF,
   * ZWNBSP and the Unicode category Zs) and LineTerminator (LF, CR, LS, PS).
   */
  predicate IsTrimmable(c: char) {
    || c == '\t' || c == '\n' || c == '\U{000B}' || c == '\U{000C}' || c == '\r'
    || c == ' ' || c == '\U{00A0}' || c == '\U{1680}'
    || ('\U{2000}' <= c <= '\U{200A}')
    || c == '\U{2028}' || c == '\U{2029}' || c == '\U{202F}' || c == '\U{205F}'
    || c == '\U{3000}' || c == '\U{FEFF}'
  }

  /** Every character of `s` is stripped by `trim`. */
  predicate AllTrimmable(s: string) {
    forall k :: 0 <= k < |s| ==> IsTrimmable(s[k])
  }

  /** Leading trimmable characters removed: the longest suffix that starts with a kept character. */
  function TrimStart(s: string): (r: string)
    ensures |r| <= |s| && r == s[|s| - |r|..]
    ensures r == [] || !IsTrimmable(r[0])
    ensures AllTrimmable(s[..|s| - |r|])
    decreases |s|
  {
    if s != [] && IsTrimmable(s[0]) then
      var r := TrimStart(s[1..]);
      assert s[1..][|s| - 1 - |r|..] == s[|s| - |r|..];
      assert s[..|s| - |r|] == [s[0]] + s[1..][..|s| - 1 - |r|];
      r
    else s
  }

  /** Trailing trimmable characters removed: the longest prefix that ends with a kept character. */
  function TrimEnd(s: string): (r: string)
    ensures |r| <= |s| && r == s[..|r|]
    ensures r == [] || !IsTrimmable(r[|r| - 1])
    ensures AllTrimmable(s[|r|..])
    decreases |s|
  {
    if s != [] && IsTrimmable(s[|s| - 1]) then
      var r := TrimEnd(s[..|s| - 1]);
      assert s[..|s| - 1][..|r|] == s[..|r|];
      assert s[|r|..] == s[..|s| - 1][|r|..] + [s[|s| - 1]];
      r
    else s
  }

  /** `s.trim()` */
  function Trim(s: string): (r: string)
    ensures r == [] || (!IsTrimmable(r[0]) && !IsTrimmable(r[|r| - 1]))
    ensures r == [] <==> AllTrimmable(s)
  {
    TrimEnd(TrimStart(s))
  }

  /** Trimming is idempotent. */
  lemma TrimIdempotent(s: string)
    ensures Trim(Trim(s)) == Trim(s)
  {
    var t := Trim(s);
    if t != [] {
      assert TrimStart(t) == t;
      assert TrimEnd(t) == t;
    }
  }

  /** Leading blanks in front of `s` are all stripped. */
  lemma {:induction false} TrimStartPrefix(w: string, s: string)
    requires AllTrimmable(w)
    ensures TrimStart(w + s) == TrimStart(s)
    decreases |w|
  {
    if w == [] {
      assert w + s == s;
    } else {
      assert (w + s)[0] == w[0];
      assert (w + s)[1..] == w[1..] + s;
      assert AllTrimmable(w[1..]) by {
        forall k | 0 <= k < |w[1..]| ensures IsTrimmable(w[1..][k]) {
          assert w[1..][k] == w[k + 1];
        }
      }
      TrimStartPrefix(w[1..], s);
    }
  }

  /** Trailing blanks after `s` are all stripped. */
  lemma {:induction false} TrimEndSuffix(s: string, w: string)
    requires AllTrimmable(w)
    ensures TrimEnd(s + w) == TrimEnd(s)
    decreases |w|
  {
    if w == [] {
      assert s + w == s;
    } else {
      var x := s + w;
      var w' := w[..|w| - 1];
      assert x[|x| - 1] == w[|w| - 1];
      assert x[..|x| - 1] == s + w';
      assert AllTrimmable(w') by {
        forall k | 0 <= k < |w'| ensures IsTrimmable(w'[k]) {
          assert w'[k] == w[k];
        }
      }
      TrimEndSuffix(s, w');
    }
  }

  /** Once `s` holds a kept character, what follows it survives `TrimStart`. */
  lemma {:induction false} TrimStartAppend(s: string, w: string)
    requires !AllTrimmable(s)
    ensures TrimStart(s + w) == TrimStart(s) + w
    decreases |s|
  {
    assert (s + w)[0] == s[0];
    if IsTrimmable(s[0]) {
      assert (s + w)[1..] == s[1..] + w;
      assert !AllTrimmable(s[1..]) by {
        var k :| 0 <= k < |s| && !IsTrimmable(s[k]);
        assert k != 0 && s[1..][k - 1] == s[k];
      }
      TrimStartAppend(s[1..], w);
    }
  }

  /** Blanks around a string do not change what `trim` returns. */
  lemma TrimPadded(before: string, s: string, after: string)
    requires AllTrimmable(before) && AllTrimmable(after)
    ensures Trim(before + s + after) == Trim(s)
  {
    assert before + s + after == before + (s + after);
    TrimStartPrefix(before, s + after);
    if AllTrimmable(s) {
      TrimStartPrefix(s, after);
      assert Trim(after) == [];
    } else {
      TrimStartAppend(s, after);
      TrimEndSuffix(TrimStart(s), after);
    }
  }

  predicate IsUpperAscii(c: char) {
    'A' <= c <= 'Z'
  }

  /** ASCII case mapping of one character; every other character is left as it is. */
  function LowerChar(c: char): (d: char)
    ensures !IsUpperAscii(d)
    ensures d != c <==> IsUpperAscii(c)
    ensures !IsUpperAscii(c) ==> d == c
    ensures IsUpperAscii(c) ==> 'a' <= d <= 'z' && d as int - 'a' as int == c as int - 'A' as int
  {
    if IsUpperAscii(c) then (c as int - 'A' as int + 'a' as int) as char else c
  }

  /** `s.toLowerCase()` over ASCII letters. */
  function ToLower(s: string): (r: string)
    ensures |r| == |s|
    ensures forall k :: 0 <= k < |s| ==> r[k] == LowerChar(s[k])
    ensures forall k :: 0 <= k < |r| ==> !IsUpperAscii(r[k])
  {
    if s == [] then [] else [LowerChar(s[0])] + ToLower(s[1..])
  }

  /** Lower-casing twice is lower-casing once. */
  lemma ToLowerIdempotent(s: string)
    ensures ToLower(ToLower(s)) == ToLower(s)
  {
    assert forall k :: 0 <= k < |s| ==> LowerChar(LowerChar(s[k])) == LowerChar(s[k]);
  }

  /** Lower-casing neither makes nor unmakes a blank. */
  lemma LowerKeepsBlank(c: char)
    ensures IsTrimmable(LowerChar(c)) <==> IsTrimmable(c)
  {
    if IsUpperAscii(c) {
      assert 'a' <= LowerChar(c) <= 'z';
    }
  }

  /** Lower-casing and stripping leading blanks commute. */
  lemma {:induction false} TrimStartLower(s: string)
    ensures TrimStart(ToLower(s)) == ToLower(TrimStart(s))
    decreases |s|
  {
    if s != [] {
      var l := ToLower(s);
      assert l[0] == LowerChar(s[0]);
      assert l[1..] == ToLower(s[1..]);
      LowerKeepsBlank(s[0]);
      if IsTrimmable(s[0]) {
        TrimStartLower(s[1..]);
      }
    }
  }

  /** Lower-casing works character by character, so it distributes over concatenation. */
  lemma {:induction false} ToLowerAppend(a: string, b: string)
    ensures ToLower(a + b) == ToLower(a) + ToLower(b)
    decreases |a|
  {
    if a == [] {
      assert a + b == b;
    } else {
      assert (a + b)[0] == a[0];
      assert (a + b)[1..] == a[1..] + b;
      ToLowerAppend(a[1..], b);
    }
  }

  /** Lower-casing and stripping trailing blanks commute. */
  lemma {:induction false} TrimEndLower(s: string)
    ensures TrimEnd(ToLower(s)) == ToLower(TrimEnd(s))
    decreases |s|
  {
    if s != [] {
      var l, s' := ToLower(s), s[..|s| - 1];
      assert s == s' + [s[|s| - 1]];
      ToLowerAppend(s', [s[|s| - 1]]);
      assert l == ToLower(s') + [LowerChar(s[|s| - 1])];
      assert l[..|l| - 1] == ToLower(s');
      LowerKeepsBlank(s[|s| - 1]);
      if IsTrimmable(s[|s| - 1]) {
        assert TrimEnd(s) == TrimEnd(s');
        assert TrimEnd(l) == TrimEnd(ToLower(s'));
        TrimEndLower(s');
      } else {
        assert TrimEnd(s) == s;
        assert TrimEnd(l) == l;
      }
    }
  }

  /** Lower-casing and trimming commute. */
  lemma TrimLowerCommute(s: string)
    ensures Trim(ToLower(s)) == ToLower(Trim(s))
  {
    TrimStartLower(s);
    TrimEndLower(TrimStart(s));
  }

  /** `q` occurs in `s` starting at index `i`. */
  predicate OccursAt(q: string, s: string, i: int) {
    0 <= i && i + |q| <= |s| && s[i..i + |q|] == q
  }

  /** The characters of `q` from `k` on agree with those of `s` from `i + k` on. */
  predicate MatchesAt(s: string, q: string, i: nat, k: nat)
    requires i + |q| <= |s| && k <= |q|
    decreases |q| - k
  {
    k == |q| || (s[i + k] == q[k] && MatchesAt(s, q, i, k + 1))
  }

  /** The character comparison decides that `q` occurs at `i`. */
  lemma {:induction false} MatchesAtIffSlice(s: string, q: string, i: nat, k: nat)
    requires i + |q| <= |s| && k <= |q|
    ensures MatchesAt(s, q, i, k) <==> s[i + k..i + |q|] == q[k..]
    decreases |q| - k
  {
    if k < |q| {
      MatchesAtIffSlice(s, q, i, k + 1);
      assert s[i + k..i + |q|] == [s[i + k]] + s[i + k + 1..i + |q|];
      assert q[k..] == [q[k]] + q[k + 1..];
      if s[i + k..i + |q|] == q[k..] {
        assert s[i + k] == s[i + k..i + |q|][0] == q[k..][0] == q[k];
      }
    }
  }

  /**
   * `s.includes(q)`, trying the start positions of `s` from `i` on, left to
   * right; `s.includes(q)` itself is `IncludesFrom(s, q, 0)`.
   */
  function IncludesFrom(s: string, q: string, i: nat): (b: bool)
    ensures b ==> |q| <= |s|
    decreases |s| - i
  {
    if i + |q| > |s| then false
    else if MatchesAt(s, q, i, 0) then true
    else IncludesFrom(s, q, i + 1)
  }

  /** `s.includes(q)` */
  function Includes(s: string, q: string): (b: bool)
    ensures q == [] ==> b
    ensures b <==> exists i :: OccursAt(q, s, i)
  {
    IncludesFromIffOccurs(s, q, 0);
    IncludesFrom(s, q, 0)
  }

  /** The scan from `i` finds an occurrence exactly when one starts at `i` or later. */
  lemma {:induction false} IncludesFromIffOccurs(s: string, q: string, i: nat)
    ensures IncludesFrom(s, q, i) <==> exists j :: i <= j && OccursAt(q, s, j)
    decreases |s| - i
  {
    if i + |q| <= |s| {
      MatchesAtIffSlice(s, q, i, 0);
      if MatchesAt(s, q, i, 0) {
        assert OccursAt(q, s, i);
      } else {
        IncludesFromIffOccurs(s, q, i + 1);
        if exists j :: i <= j && OccursAt(q, s, j) {
          var j :| i <= j && OccursAt(q, s, j);
          assert j != i;
          assert i + 1 <= j && OccursAt(q, s, j);
        }
      }
    }
  }
}
