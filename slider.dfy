/**
 * The hero slider: N >= 1 slides, each with an `active` class, a current
 * position and a reference to the slide activated last. The next and
 * previous buttons step the position with wrap-around and then move the
 * `active` class from the last active slide to the current one.
 */
module HeroSlider {

  /** The position `slideNext` moves to. */
  function NextPos(pos: int, n: int): (r: int)
    requires 0 <= pos < n
    ensures 0 <= r < n
    ensures r == (pos + 1) % n
  {
    if pos >= n - 1 then 0 else pos + 1
  }

  /** The position `slidePrev` moves to. */
  function PrevPos(pos: int, n: int): (r: int)
    requires 0 <= pos < n
    ensures 0 <= r < n
    ensures r == (pos - 1 + n) % n
  {
    if pos <= 0 then n - 1 else pos - 1
  }

  lemma PrevUndoesNext(pos: int, n: int)
    requires 0 <= pos < n
    ensures PrevPos(NextPos(pos, n), n) == pos
  {
  }

  lemma NextUndoesPrev(pos: int, n: int)
    requires 0 <= pos < n
    ensures NextPos(PrevPos(pos, n), n) == pos
  {
  }

  /** The two slider buttons. */
  datatype Button = Next | Prev

  function Step(pos: int, n: int, b: Button): (r: int)
    requires 0 <= pos < n
    ensures 0 <= r < n
  {
    match b
    case Next => NextPos(pos, n)
    case Prev => PrevPos(pos, n)
  }

  /** The position after the buttons `presses` are clicked in order. */
  function Run(pos: int, n: int, presses: seq<Button>): (r: int)
    requires 0 <= pos < n
    ensures 0 <= r < n
    decreases |presses|
  {
    if presses == [] then pos else Run(Step(pos, n, presses[0]), n, presses[1..])
  }

  function Opposite(b: Button): Button {
    match b
    case Next => Prev
    case Prev => Next
  }

  /** The clicks that take back `presses`: the opposite buttons, in reverse order. */
  function Undo(presses: seq<Button>): (u: seq<Button>)
    ensures |u| == |presses|
    ensures forall k :: 0 <= k < |presses| ==> u[k] == Opposite(presses[|presses| - 1 - k])
  {
    if presses == [] then [] else Undo(presses[1..]) + [Opposite(presses[0])]
  }

  lemma {:induction false} RunAppend(pos: int, n: int, a: seq<Button>, b: seq<Button>)
    requires 0 <= pos < n
    ensures Run(pos, n, a + b) == Run(Run(pos, n, a), n, b)
    decreases |a|
  {
    if a == [] {
      assert a + b == b;
    } else {
      assert (a + b)[0] == a[0];
      assert (a + b)[1..] == a[1..] + b;
      RunAppend(Step(pos, n, a[0]), n, a[1..], b);
    }
  }

  /** Any sequence of clicks is taken back by the opposite clicks in reverse order. */
  lemma {:induction false} UndoRestores(pos: int, n: int, presses: seq<Button>)
    requires 0 <= pos < n
    ensures Run(Run(pos, n, presses), n, Undo(presses)) == pos
    decreases |presses|
  {
    if presses != [] {
      var b, rest := presses[0], presses[1..];
      var p := Step(pos, n, b);
      RunAppend(Run(p, n, rest), n, Undo(rest), [Opposite(b)]);
      UndoRestores(p, n, rest);
      assert Run(p, n, [Opposite(b)]) == Step(p, n, Opposite(b));
      if b == Next {
        PrevUndoesNext(pos, n);
      } else {
        NextUndoesPrev(pos, n);
      }
    }
  }

  /** Next clicks minus previous clicks. */
  function Net(presses: seq<Button>): int {
    if presses == [] then 0
    else (if presses[0] == Next then 1 else -1) + Net(presses[1..])
  }

  lemma ModShift(a: int, d: int, n: int)
    requires n >= 1
    ensures (a % n + d) % n == (a + d) % n
  {
    var q := a / n;
    assert a == q * n + a % n;
    ModPlusMultiple(a % n + d, q, n);
  }

  lemma ModPlusMultiple(x: int, q: int, n: int)
    requires n >= 1
    ensures (x + q * n) % n == x % n
  {
    var r := x % n;
    var t := x / n;
    assert x == t * n + r;
    assert x + q * n == (t + q) * n + r;
    ModUnique(x + q * n, t + q, r, n);
  }

  lemma ModUnique(y: int, q: int, r: int, n: int)
    requires n >= 1 && 0 <= r < n && y == q * n + r
    ensures y % n == r
  {
    var q' := y / n;
    var r' := y % n;
    assert y == q' * n + r';
    assert (q - q') * n == r' - r;
    if q > q' {
      MulAtLeast(q - q', n);
    } else if q < q' {
      MulAtLeast(q' - q, n);
    }
  }

  lemma {:induction false} MulAtLeast(k: int, n: int)
    requires k >= 1 && n >= 1
    ensures k * n >= n
    decreases k
  {
    if k > 1 {
      MulAtLeast(k - 1, n);
      assert k * n == (k - 1) * n + n;
    }
  }

  /**
   * Clicking lands where the net number of forward clicks says, counted
   * modulo the number of slides; autoplay's k ticks are k next clicks.
   */
  lemma {:induction false} RunIsNetShift(pos: int, n: int, presses: seq<Button>)
    requires 0 <= pos < n
    ensures Run(pos, n, presses) == (pos + Net(presses)) % n
    decreases |presses|
  {
    if presses == [] {
      ModUnique(pos, 0, pos, n);
    } else {
      var b, rest := presses[0], presses[1..];
      var d := if b == Next then 1 else -1;
      var p := Step(pos, n, b);
      if b == Prev {
        ModPlusMultiple(pos - 1, 1, n);
      }
      assert p == (pos + d) % n;
      RunIsNetShift(p, n, rest);
      ModShift(pos + d, Net(rest), n);
      assert Net(presses) == d + Net(rest);
    }
  }

  /** `k` is the only active slide. */
  predicate OnlyActive(flags: seq<bool>, k: int) {
    && 0 <= k < |flags|
    && forall i :: 0 <= i < |flags| ==> (flags[i] <==> i == k)
  }

  /** The active flags after `updateSliderPos` moves the class from slide `last` to slide `pos`. */
  function Activate(flags: seq<bool>, last: int, pos: int): (r: seq<bool>)
    requires 0 <= last < |flags| && 0 <= pos < |flags|
    ensures |r| == |flags| && r[pos]
    ensures last != pos ==> !r[last]
    ensures forall i :: 0 <= i < |r| && i != last && i != pos ==> r[i] == flags[i]
    ensures OnlyActive(flags, last) ==> OnlyActive(r, pos)
  {
    flags[last := false][pos := true]
  }

  /** The slider's state: the slides' active flags and the two position variables. */
  class Slider {
    const items: array<bool>
    var currentSlidePos: int
    var lastActiveSliderItem: int

    ghost predicate Valid()
      reads this
    {
      && 1 <= items.Length
      && 0 <= currentSlidePos < items.Length
      && 0 <= lastActiveSliderItem < items.Length
    }

    /** Exactly one slide is active, and it is the current one. */
    ghost predicate OneActive()
      reads this, items
      requires Valid()
    {
      lastActiveSliderItem == currentSlidePos && OnlyActive(items[..], currentSlidePos)
    }

    /** The script's start: position 0, the first slide taken as the active one. */
    constructor (markup: seq<bool>)
      requires |markup| >= 1
      ensures Valid() && fresh(items)
      ensures items[..] == markup
      ensures currentSlidePos == 0 && lastActiveSliderItem == 0
      ensures OnlyActive(markup, 0) ==> OneActive()
    {
      items := new bool[|markup|](i requires 0 <= i < |markup| => markup[i]);
      currentSlidePos := 0;
      lastActiveSliderItem := 0;
    }

    /** `updateSliderPos()` */
    method UpdateSliderPos()
      requires Valid()
      modifies items, this`lastActiveSliderItem
      ensures Valid()
      ensures currentSlidePos == old(currentSlidePos) && lastActiveSliderItem == currentSlidePos
      ensures items[..] == Activate(old(items[..]), old(lastActiveSliderItem), currentSlidePos)
      ensures OnlyActive(old(items[..]), old(lastActiveSliderItem)) ==> OneActive()
    {
      items[lastActiveSliderItem] := false;
      items[currentSlidePos] := true;
      lastActiveSliderItem := currentSlidePos;
    }

    /** `slideNext()` */
    method SlideNext()
      requires Valid()
      modifies this, items
      ensures Valid()
      ensures currentSlidePos == NextPos(old(currentSlidePos), items.Length)
      ensures lastActiveSliderItem == currentSlidePos
      ensures items[..] == Activate(old(items[..]), old(lastActiveSliderItem), currentSlidePos)
      ensures old(OneActive()) ==> OneActive()
    {
      if currentSlidePos >= items.Length - 1 {
        currentSlidePos := 0;
      } else {
        currentSlidePos := currentSlidePos + 1;
      }
      UpdateSliderPos();
    }

    /** `slidePrev()` */
    method SlidePrev()
      requires Valid()
      modifies this, items
      ensures Valid()
      ensures currentSlidePos == PrevPos(old(currentSlidePos), items.Length)
      ensures lastActiveSliderItem == currentSlidePos
      ensures items[..] == Activate(old(items[..]), old(lastActiveSliderItem), currentSlidePos)
      ensures old(OneActive()) ==> OneActive()
    {
      if currentSlidePos <= 0 {
        currentSlidePos := items.Length - 1;
      } else {
        currentSlidePos := currentSlidePos - 1;
      }
      UpdateSliderPos();
    }
  }
}
