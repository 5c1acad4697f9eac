/**
 * The header and the back-to-top button react to scrolling: at or past
 * 50 pixels both get `active`, and the header gets `hide` while the page
 * moves down relative to the last scroll position recorded. That position
 * is recorded only at or past the threshold.
 */
module Header {
  import opened Dom

  const Threshold: int := 50

  /** What the scroll handler reads and writes. */
  datatype View = View(headerActive: bool, backTopActive: bool, hidden: bool, lastScrollPos: int)

  /** The page's start: nothing active, header shown, last position 0. */
  const Initial: View := View(false, false, false, 0)

  /** The view after one scroll event at `scrollY`. */
  function Scrolled(v: View, scrollY: int): (r: View)
    ensures r.headerActive == r.backTopActive == (scrollY >= Threshold)
    ensures scrollY >= Threshold ==> (r.hidden <==> v.lastScrollPos < scrollY) && r.lastScrollPos == scrollY
    ensures scrollY < Threshold ==> r.hidden == v.hidden && r.lastScrollPos == v.lastScrollPos
  {
    if scrollY >= Threshold then View(true, true, v.lastScrollPos < scrollY, scrollY)
    else v.(headerActive := false, backTopActive := false)
  }

  /** The view after scroll events at the positions `ys`, in order. */
  function Replay(v: View, ys: seq<int>): View
    decreases |ys|
  {
    if ys == [] then v else Replay(Scrolled(v, ys[0]), ys[1..])
  }

  /** The positions of `ys` at or past the threshold, in order. */
  function Qualifying(ys: seq<int>): (q: seq<int>)
    ensures |q| <= |ys|
    ensures forall k :: 0 <= k < |q| ==> q[k] >= Threshold
    ensures forall k :: 0 <= k < |ys| && ys[k] >= Threshold ==> ys[k] in q
    ensures forall x :: x in q <==> x in ys && x >= Threshold
  {
    if ys == [] then []
    else (if ys[0] >= Threshold then [ys[0]] else []) + Qualifying(ys[1..])
  }

  /** The part of the view that survives a scroll below the threshold. */
  function Tracked(v: View): (bool, int) {
    (v.hidden, v.lastScrollPos)
  }

  /** The hide flag and the recorded position never depend on the two active flags. */
  lemma {:induction false} ReplayIgnoresActive(v: View, w: View, ys: seq<int>)
    requires Tracked(v) == Tracked(w)
    ensures Tracked(Replay(v, ys)) == Tracked(Replay(w, ys))
    decreases |ys|
  {
    if ys != [] {
      ReplayIgnoresActive(Scrolled(v, ys[0]), Scrolled(w, ys[0]), ys[1..]);
    }
  }

  /**
   * Scroll events below the threshold leave no trace on the hide flag or
   * on the recorded position: only the qualifying positions count.
   */
  lemma {:induction false} OnlyQualifyingCount(v: View, ys: seq<int>)
    ensures Tracked(Replay(v, ys)) == Tracked(Replay(v, Qualifying(ys)))
    decreases |ys|
  {
    if ys != [] {
      var y, rest := ys[0], ys[1..];
      OnlyQualifyingCount(Scrolled(v, y), rest);
      if y >= Threshold {
        assert Qualifying(ys) == [y] + Qualifying(rest);
        assert Qualifying(ys)[0] == y && Qualifying(ys)[1..] == Qualifying(rest);
      } else {
        assert Qualifying(ys) == Qualifying(rest);
        ReplayIgnoresActive(Scrolled(v, y), v, Qualifying(rest));
      }
    }
  }

  /** After any events, the two active flags say whether the last event reached the threshold. */
  lemma {:induction false} ActiveFollowsLastEvent(v: View, ys: seq<int>)
    requires ys != []
    ensures Replay(v, ys).headerActive == Replay(v, ys).backTopActive == (ys[|ys| - 1] >= Threshold)
    decreases |ys|
  {
    if |ys| > 1 {
      ActiveFollowsLastEvent(Scrolled(v, ys[0]), ys[1..]);
    }
  }

  /**
   * Scrolling to 100, back up to 10 and down again to 60 leaves the header
   * shown: the recorded position is still 100, since 10 was below the
   * threshold and was not recorded.
   */
  lemma DownUpDownShowsHeader()
    ensures Replay(Initial, [100, 10, 60]) == View(true, true, false, 60)
  {
    assert Replay(Initial, [100, 10, 60]) == Replay(View(true, true, true, 100), [10, 60]);
    assert [100, 10, 60][1..] == [10, 60] && [10, 60][1..] == [60];
  }

  /** The header and back-to-top elements and the recorded scroll position. */
  class HeaderWatcher {
    const header: ClassList
    const backTopBtn: ClassList
    var lastScrollPos: int

    ghost predicate Valid() {
      header != backTopBtn
    }

    ghost function Current(): View
      reads this, header, backTopBtn
    {
      View("active" in header.tokens, "active" in backTopBtn.tokens, "hide" in header.tokens, lastScrollPos)
    }

    constructor (header: ClassList, backTopBtn: ClassList)
      requires header != backTopBtn
      ensures Valid() && this.header == header && this.backTopBtn == backTopBtn
      ensures lastScrollPos == 0
    {
      this.header := header;
      this.backTopBtn := backTopBtn;
      lastScrollPos := 0;
    }

    /** `hideHeader()` with `window.scrollY` at `scrollY` */
    method HideHeader(scrollY: int)
      modifies this, header
      ensures header.tokens ==
        if old(lastScrollPos) < scrollY then old(header.tokens) + {"hide"} else old(header.tokens) - {"hide"}
      ensures lastScrollPos == scrollY
    {
      var isScrollBottom := lastScrollPos < scrollY;
      if isScrollBottom {
        header.Add("hide");
      } else {
        header.Remove({"hide"});
      }
      lastScrollPos := scrollY;
    }

    /** The window's scroll handler, with `window.scrollY` at `scrollY`. */
    method OnScroll(scrollY: int)
      requires Valid()
      modifies this, header, backTopBtn
      ensures Current() == Scrolled(old(Current()), scrollY)
      ensures header.tokens - {"active", "hide"} == old(header.tokens) - {"active", "hide"}
      ensures backTopBtn.tokens - {"active"} == old(backTopBtn.tokens) - {"active"}
    {
      if scrollY >= Threshold {
        header.Add("active");
        backTopBtn.Add("active");
        HideHeader(scrollY);
      } else {
        header.Remove({"active"});
        backTopBtn.Remove({"active"});
      }
    }
  }
}
