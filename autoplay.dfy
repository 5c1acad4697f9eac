/**
 * The slider's autoplay bookkeeping: `autoSlide` starts a 7000 ms interval
 * and stores its handle, a mouseover on either slider button clears the
 * stored handle, a mouseout starts autoplay again. Time itself is not
 * modelled: the browser's table of running intervals is a set of handles.
 */
module Autoplay {
  import opened Wrappers

  class AutoSlider {
    /** The script's `autoSlideInterval`; None while it is still undefined. */
    var autoSlideInterval: Option<nat>
    /** The intervals the browser is running. */
    var live: set<nat>
    /** The handles handed out so far are those below `issued`. */
    var issued: nat

    ghost predicate Valid()
      reads this
    {
      && (forall h :: h in live ==> h < issued)
      && (autoSlideInterval.Some? ==> autoSlideInterval.value < issued)
    }

    /** At most one interval runs, and it is the one the stored handle can stop. */
    predicate AtMostOneLive()
      reads this
    {
      live <= if autoSlideInterval.Some? then {autoSlideInterval.value} else {}
    }

    constructor ()
      ensures Valid() && AtMostOneLive()
      ensures autoSlideInterval == None && live == {} && issued == 0
    {
      autoSlideInterval := None;
      live := {};
      issued := 0;
    }

    /** `setInterval(...)`: a fresh handle for a new running interval. */
    method StartInterval() returns (h: nat)
      requires Valid()
      modifies this`live, this`issued
      ensures Valid()
      ensures h == old(issued) && h !in old(live)
      ensures live == old(live) + {h} && issued == old(issued) + 1
    {
      h := issued;
      live := live + {h};
      issued := issued + 1;
    }

    /** `clearInterval(autoSlideInterval)`: the mouseover handler. The variable keeps its value. */
    method ClearAutoSlide()
      requires Valid()
      modifies this`live
      ensures Valid()
      ensures live == if autoSlideInterval.Some? then old(live) - {autoSlideInterval.value} else old(live)
      ensures autoSlideInterval.Some? ==> autoSlideInterval.value !in live
    {
      if autoSlideInterval.Some? {
        live := live - {autoSlideInterval.value};
      }
    }

    /** `autoSlide()` as written: the load and mouseout handler overwrites the handle. */
    method AutoSlideAsWritten()
      requires Valid()
      modifies this
      ensures Valid()
      ensures autoSlideInterval == Some(old(issued))
      ensures live == old(live) + {old(issued)} && issued == old(issued) + 1
    {
      var h := StartInterval();
      autoSlideInterval := Some(h);
    }

    /** `autoSlide()` as meant: clear the stored interval before starting the next one. */
    method AutoSlide()
      requires Valid()
      modifies this
      ensures Valid()
      ensures autoSlideInterval == Some(old(issued)) && issued == old(issued) + 1
      ensures live == (if old(autoSlideInterval).Some? then old(live) - {old(autoSlideInterval).value} else old(live)) + {old(issued)}
      ensures old(AtMostOneLive()) ==> AtMostOneLive() && live == {old(issued)}
    {
      ClearAutoSlide();
      var h := StartInterval();
      autoSlideInterval := Some(h);
    }
  }

  /**
   * The pointer rests on a slider button while the page loads: mouseover
   * comes before load, so nothing is cleared; load and the later mouseout
   * both start an interval, and two run from then on.
   */
  method HoverDuringLoadAsWritten() returns (running: nat)
    ensures running == 2
  {
    var a := new AutoSlider();
    a.ClearAutoSlide();
    a.AutoSlideAsWritten();
    a.AutoSlideAsWritten();
    running := |a.live|;
  }

  /** The same events with the corrected `autoSlide` leave one interval running. */
  method HoverDuringLoad() returns (running: nat)
    ensures running == 1
  {
    var a := new AutoSlider();
    a.ClearAutoSlide();
    a.AutoSlide();
    a.AutoSlide();
    running := |a.live|;
  }
}
