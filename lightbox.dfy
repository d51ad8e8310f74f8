/** The project image viewer (`#screen`): the gallery of the project last opened, the
    index of the shown image, the overlay's `display` and `show` / `hide` classes, and the
    `slide-out-*` / `slide-in` classes of its image.

    Timers are explicit: `changeImage` arms a phase-1 step, phase 1 arms a phase-2 step,
    and the host runs any armed step when it chooses (`Fire`). The `animationend`
    listeners that `closeScreen` registers are counted; one `animationend` runs them all. */
module Lightbox {
  import opened JsArith

  /** The `direction` argument of `changeImage`. */
  datatype Direction = Backward | Forward

  /** A timer armed by the viewer and not yet run. `SwapIn` carries the index that
      `changeImage` was called with; `ClearSlideIn` is the nested 300 ms timer. */
  datatype Step = SwapIn(index: Num) | ClearSlideIn

  /** The classes the image transition puts on the image. */
  const SlideClasses: set<string> := {"slide-out-prev", "slide-out-next", "slide-in"}

  /** The outgoing class of phase 0: `slide-out-prev` backwards, `slide-out-next` otherwise. */
  function OutgoingClass(d: Direction): (c: string)
    ensures c in SlideClasses && c != "slide-in"
    ensures (c == "slide-out-prev") <==> d == Backward
  {
    if d == Backward then "slide-out-prev" else "slide-out-next"
  }

  /** Phase 0, at call time: the outgoing class is added. */
  function OutPhase(c: set<string>, d: Direction): (r: set<string>)
    ensures OutgoingClass(d) in r
    ensures forall l :: l != OutgoingClass(d) ==> (l in r <==> l in c)
  {
    c + {OutgoingClass(d)}
  }

  /** Phase 1, the first timer: both outgoing classes leave, `slide-in` arrives. */
  function InPhase(c: set<string>): (r: set<string>)
    ensures r * SlideClasses == {"slide-in"}
    ensures r - SlideClasses == c - SlideClasses
  {
    c - {"slide-out-prev", "slide-out-next"} + {"slide-in"}
  }

  /** Phase 2, the nested timer: `slide-in` leaves. */
  function SettlePhase(c: set<string>): (r: set<string>)
    ensures "slide-in" !in r
    ensures r - {"slide-in"} == c - {"slide-in"}
  {
    c - {"slide-in"}
  }

  /** After the three phases of one transition no slide class remains on the image, and
      every other class is as it was before the transition began. */
  lemma TransitionLeavesNoSlideClass(c: set<string>, d: Direction)
    ensures SettlePhase(InPhase(OutPhase(c, d))) == c - SlideClasses
    ensures SettlePhase(InPhase(OutPhase(c, d))) * SlideClasses == {}
  {
  }

  /** The viewer's state, held by the closure of `setupProjectSliders`. */
  class Viewer {
    var images: seq<string>      // `images`: the srcs of the gallery last opened
    var currentIndex: Num        // `currentIndex`
    var src: string              // `screenImg.src`
    var display: string          // `screen.style.display`
    var screenClasses: set<string>
    var imgClasses: set<string>
    var pending: seq<Step>       // armed timers, in arming order
    var closeHandlers: nat       // `animationend` listeners registered by `closeScreen`

    /** Once a gallery is open, `currentIndex` is an index into it. */
    ghost predicate Valid()
      reads this
    {
      |images| > 0 ==> currentIndex.Int? && 0 <= currentIndex.v < |images|
    }

    /** The state before any project is opened: `images` is `[]`, `currentIndex` 0; the
        image, the display and both class lists are as the page's markup has them. */
    constructor (src0: string, display0: string, screen0: set<string>, img0: set<string>)
      ensures Valid()
      ensures images == [] && currentIndex == Int(0)
      ensures src == src0 && display == display0
      ensures screenClasses == screen0 && imgClasses == img0
      ensures pending == [] && closeHandlers == 0
    {
      images, currentIndex := [], Int(0);
      src, display := src0, display0;
      screenClasses, imgClasses := screen0, img0;
      pending, closeHandlers := [], 0;
    }

    /** A project's `.toggle-btn` click. A project without images is refused and nothing
        changes; otherwise its gallery replaces `images` wholesale, the first image is
        shown and the overlay is displayed with `show` in place of `hide`. */
    method Open(project: seq<string>)
      requires Valid()
      modifies this
      ensures Valid()
      ensures |project| == 0 ==> (images == old(images) && currentIndex == old(currentIndex)
        && src == old(src) && display == old(display) && screenClasses == old(screenClasses))
      ensures |project| > 0 ==> (images == project && currentIndex == Int(0)
        && src == project[0] && display == "flex"
        && screenClasses == old(screenClasses) - {"hide"} + {"show"})
      ensures imgClasses == old(imgClasses) && pending == old(pending)
      ensures closeHandlers == old(closeHandlers)
    {
      if |project| == 0 {
        return;
      }
      images := project;
      currentIndex := Int(0);
      src := images[currentIndex.v];
      display := "flex";
      screenClasses := screenClasses - {"hide"};
      screenClasses := screenClasses + {"show"};
    }

    /** `closeScreen`: `show` gives way to `hide` and one more `animationend` listener is
        registered. The display, the gallery and the index are left as they are. */
    method Close()
      requires Valid()
      modifies this
      ensures Valid()
      ensures screenClasses == old(screenClasses) - {"show"} + {"hide"}
      ensures closeHandlers == old(closeHandlers) + 1
      ensures images == old(images) && currentIndex == old(currentIndex)
      ensures src == old(src) && display == old(display)
      ensures imgClasses == old(imgClasses) && pending == old(pending)
    {
      screenClasses := screenClasses - {"show"};
      screenClasses := screenClasses + {"hide"};
      closeHandlers := closeHandlers + 1;
    }

    /** A click that reaches the overlay's own listener closes only when its target is the
        overlay itself (the backdrop). */
    method ScreenClick(onBackdrop: bool)
      requires Valid()
      modifies this
      ensures Valid()
      ensures !onBackdrop ==> screenClasses == old(screenClasses) && closeHandlers == old(closeHandlers)
      ensures onBackdrop ==> (screenClasses == old(screenClasses) - {"show"} + {"hide"}
        && closeHandlers == old(closeHandlers) + 1)
      ensures images == old(images) && currentIndex == old(currentIndex)
      ensures src == old(src) && display == old(display)
      ensures imgClasses == old(imgClasses) && pending == old(pending)
    {
      if onBackdrop {
        Close();
      }
    }

    /** The document's `keydown` listener: Escape closes, but only while the overlay's
        display is `flex`. */
    method KeyDown(key: string)
      requires Valid()
      modifies this
      ensures Valid()
      ensures key == "Escape" && old(display) == "flex" ==>
        screenClasses == old(screenClasses) - {"show"} + {"hide"} && closeHandlers == old(closeHandlers) + 1
      ensures !(key == "Escape" && old(display) == "flex") ==>
        screenClasses == old(screenClasses) && closeHandlers == old(closeHandlers)
      ensures images == old(images) && currentIndex == old(currentIndex)
      ensures src == old(src) && display == old(display)
      ensures imgClasses == old(imgClasses) && pending == old(pending)
    {
      if key == "Escape" && display == "flex" {
        Close();
      }
    }

    /** An `animationend` on the overlay: every listener `closeScreen` registered sets the
        display to `none` and removes itself. With none registered nothing happens. */
    method AnimationEnd()
      requires Valid()
      modifies this
      ensures Valid()
      ensures old(closeHandlers) > 0 ==> display == "none"
      ensures old(closeHandlers) == 0 ==> display == old(display)
      ensures closeHandlers == 0
      ensures images == old(images) && currentIndex == old(currentIndex) && src == old(src)
      ensures screenClasses == old(screenClasses) && imgClasses == old(imgClasses)
      ensures pending == old(pending)
    {
      if closeHandlers > 0 {
        display := "none";
        closeHandlers := 0;
      }
    }

    /** `changeImage(index, direction)`: nothing without a gallery; otherwise phase 0
        adds the outgoing class and phase 1 is armed with `index` as it is now. */
    method ChangeImage(index: Num, d: Direction)
      requires Valid()
      modifies this
      ensures Valid()
      ensures |images| == 0 ==> imgClasses == old(imgClasses) && pending == old(pending)
      ensures |images| > 0 ==> (imgClasses == OutPhase(old(imgClasses), d)
        && pending == old(pending) + [SwapIn(index)])
      ensures images == old(images) && currentIndex == old(currentIndex) && src == old(src)
      ensures display == old(display) && screenClasses == old(screenClasses)
      ensures closeHandlers == old(closeHandlers)
    {
      if |images| == 0 {
        return;
      }
      imgClasses := imgClasses + {OutgoingClass(d)};
      pending := pending + [SwapIn(index)];
    }

    /** The `.prev` click: `currentIndex` steps back with wraparound (NaN when no gallery
        was ever opened) and the transition starts backwards. */
    method PrevClick()
      requires Valid()
      modifies this
      ensures Valid()
      ensures currentIndex == Prev(old(currentIndex), |images|)
      ensures |images| == 0 ==> imgClasses == old(imgClasses) && pending == old(pending)
      ensures |images| > 0 ==> (imgClasses == OutPhase(old(imgClasses), Backward)
        && pending == old(pending) + [SwapIn(currentIndex)])
      ensures images == old(images) && src == old(src) && display == old(display)
      ensures screenClasses == old(screenClasses) && closeHandlers == old(closeHandlers)
    {
      if |images| > 0 {
        StepsStayInRange(currentIndex.v, |images|);
      }
      currentIndex := Prev(currentIndex, |images|);
      ChangeImage(currentIndex, Backward);
    }

    /** The `.next` click: `currentIndex` steps forward with wraparound (NaN when no
        gallery was ever opened) and the transition starts forwards. */
    method NextClick()
      requires Valid()
      modifies this
      ensures Valid()
      ensures currentIndex == Next(old(currentIndex), |images|)
      ensures |images| == 0 ==> imgClasses == old(imgClasses) && pending == old(pending)
      ensures |images| > 0 ==> (imgClasses == OutPhase(old(imgClasses), Forward)
        && pending == old(pending) + [SwapIn(currentIndex)])
      ensures images == old(images) && src == old(src) && display == old(display)
      ensures screenClasses == old(screenClasses) && closeHandlers == old(closeHandlers)
    {
      if |images| > 0 {
        StepsStayInRange(currentIndex.v, |images|);
      }
      currentIndex := Next(currentIndex, |images|);
      ChangeImage(currentIndex, Forward);
    }

    /** The host runs the armed timer at position k.
        Phase 1 shows `images[index]` (the gallery as it is now, the index captured when
        the timer was armed), moves the image to `InPhase` and arms phase 2. If that
        index is outside the current gallery, `images[index].src` throws and the
        callback stops before changing anything. Phase 2 moves the image to `SettlePhase`. */
    method Fire(k: nat)
      requires Valid() && k < |pending|
      modifies this
      ensures Valid()
      ensures var rest := old(pending[..k] + pending[k + 1..]);
        match old(pending[k])
        case SwapIn(i) =>
          if i.Int? && 0 <= i.v < |images| then
            src == images[i.v] && imgClasses == InPhase(old(imgClasses)) && pending == rest + [ClearSlideIn]
          else
            src == old(src) && imgClasses == old(imgClasses) && pending == rest
        case ClearSlideIn =>
          src == old(src) && imgClasses == SettlePhase(old(imgClasses)) && pending == rest
      ensures images == old(images) && currentIndex == old(currentIndex)
      ensures display == old(display) && screenClasses == old(screenClasses)
      ensures closeHandlers == old(closeHandlers)
    {
      var step := pending[k];
      pending := pending[..k] + pending[k + 1..];
      match step
      case SwapIn(i) =>
        if i.Int? && 0 <= i.v < |images| {
          src := images[i.v];
          imgClasses := imgClasses - {"slide-out-prev", "slide-out-next"};
          imgClasses := imgClasses + {"slide-in"};
          pending := pending + [ClearSlideIn];
        }
      case ClearSlideIn =>
        imgClasses := imgClasses - {"slide-in"};
    }
  }

  /** What the page can do to the viewer: a project's open button, the overlay's three
      buttons, a click reaching the overlay, a key press, an `animationend` on the overlay,
      and the host running the k-th armed timer (nothing happens if there is none). */
  datatype Event =
    | OpenProject(gallery: seq<string>)
    | PrevButton
    | NextButton
    | CloseButton
    | OverlayClick(onBackdrop: bool)
    | Key(key: string)
    | AnimationEnded
    | TimerRuns(k: nat)

  /** The gallery of the last project with images that was opened, or [] if none was. */
  function LastGallery(events: seq<Event>): (g: seq<string>)
    ensures g == [] || exists i :: 0 <= i < |events| && events[i] == OpenProject(g)
    ensures g == [] <==> forall i :: 0 <= i < |events| ==> !(events[i].OpenProject? && |events[i].gallery| > 0)
  {
    if events == [] then []
    else
      var e := events[|events| - 1];
      assert forall i :: 0 <= i < |events| - 1 ==> events[..|events| - 1][i] == events[i];
      if e.OpenProject? && |e.gallery| > 0 then e.gallery
      else LastGallery(events[..|events| - 1])
  }

  /** Whether a prev or next click happened. */
  predicate Stepped(events: seq<Event>)
  {
    exists i :: 0 <= i < |events| && (events[i].PrevButton? || events[i].NextButton?)
  }

  /** The viewer's reaction to one event. */
  method Dispatch(v: Viewer, e: Event)
    requires v.Valid()
    modifies v
    ensures v.Valid()
    ensures v.images == (if e.OpenProject? && |e.gallery| > 0 then e.gallery else old(v.images))
    ensures e.OpenProject? && |e.gallery| > 0 ==> v.currentIndex == Int(0)
    ensures !(e.OpenProject? || e.PrevButton? || e.NextButton?) ==> v.currentIndex == old(v.currentIndex)
    ensures e.OpenProject? && |e.gallery| == 0 ==> v.currentIndex == old(v.currentIndex)
    ensures e.PrevButton? ==> v.currentIndex == Prev(old(v.currentIndex), |v.images|)
    ensures e.NextButton? ==> v.currentIndex == Next(old(v.currentIndex), |v.images|)
    // An open: the image, the display and the overlay's classes follow the new gallery.
    ensures e.OpenProject? && |e.gallery| > 0 ==> (v.src == e.gallery[0] && v.display == "flex"
      && v.screenClasses == old(v.screenClasses) - {"hide"} + {"show"})
    ensures e.OpenProject? ==> (v.imgClasses == old(v.imgClasses) && v.pending == old(v.pending)
      && v.closeHandlers == old(v.closeHandlers))
    // Prev and next: the transition starts in their direction, if there is a gallery.
    ensures (e.PrevButton? || e.NextButton?) && |v.images| > 0 ==> (v.pending == old(v.pending) + [SwapIn(v.currentIndex)]
      && v.imgClasses == OutPhase(old(v.imgClasses), if e.PrevButton? then Backward else Forward))
    ensures (e.PrevButton? || e.NextButton?) && |v.images| == 0 ==>
      (v.pending == old(v.pending) && v.imgClasses == old(v.imgClasses))
    ensures (e.PrevButton? || e.NextButton?) ==> (v.src == old(v.src) && v.display == old(v.display)
      && v.screenClasses == old(v.screenClasses) && v.closeHandlers == old(v.closeHandlers))
    // The close button, a backdrop click and Escape while displayed all close.
    ensures e.CloseButton? || (e.OverlayClick? && e.onBackdrop) || (e.Key? && e.key == "Escape" && old(v.display) == "flex") ==>
      (v.screenClasses == old(v.screenClasses) - {"show"} + {"hide"} && v.closeHandlers == old(v.closeHandlers) + 1
      && v.src == old(v.src) && v.display == old(v.display)
      && v.imgClasses == old(v.imgClasses) && v.pending == old(v.pending))
    // `animationend` runs the registered listeners.
    ensures e.AnimationEnded? ==> (v.display == (if old(v.closeHandlers) > 0 then "none" else old(v.display))
      && v.closeHandlers == 0 && v.src == old(v.src) && v.screenClasses == old(v.screenClasses)
      && v.imgClasses == old(v.imgClasses) && v.pending == old(v.pending))
    // The host runs an armed timer, as `Fire` states; a position with no timer changes nothing.
    ensures e.TimerRuns? && e.k < old(|v.pending|) ==>
      (var rest := old(v.pending[..e.k] + v.pending[e.k + 1..]);
      match old(v.pending[e.k])
      case SwapIn(i) =>
        if i.Int? && 0 <= i.v < |v.images| then
          v.src == v.images[i.v] && v.imgClasses == InPhase(old(v.imgClasses)) && v.pending == rest + [ClearSlideIn]
        else
          v.src == old(v.src) && v.imgClasses == old(v.imgClasses) && v.pending == rest
      case ClearSlideIn =>
        v.src == old(v.src) && v.imgClasses == SettlePhase(old(v.imgClasses)) && v.pending == rest)
    ensures e.TimerRuns? ==> (v.display == old(v.display) && v.screenClasses == old(v.screenClasses)
      && v.closeHandlers == old(v.closeHandlers))
    // Every other event changes nothing.
    ensures ((e.OpenProject? && |e.gallery| == 0) || (e.OverlayClick? && !e.onBackdrop)
      || (e.Key? && !(e.key == "Escape" && old(v.display) == "flex"))
      || (e.TimerRuns? && e.k >= old(|v.pending|))) ==>
      (v.src == old(v.src) && v.display == old(v.display) && v.screenClasses == old(v.screenClasses)
      && v.imgClasses == old(v.imgClasses) && v.pending == old(v.pending) && v.closeHandlers == old(v.closeHandlers))
  {
    match e
    case OpenProject(gallery) => v.Open(gallery);
    case PrevButton => v.PrevClick();
    case NextButton => v.NextClick();
    case CloseButton => v.Close();
    case OverlayClick(onBackdrop) => v.ScreenClick(onBackdrop);
    case Key(key) => v.KeyDown(key);
    case AnimationEnded => v.AnimationEnd();
    case TimerRuns(k) =>
      if k < |v.pending| {
        v.Fire(k);
      }
  }

  /** Any sequence of events from the initial state. The gallery shown is the one last
      opened with images (closing never resets it); once there is one, `currentIndex`
      indexes into it; before that, `currentIndex` is NaN exactly when prev or next was
      clicked, since both compute `x % 0`. */
  method Replay(src0: string, display0: string, screen0: set<string>, img0: set<string>, events: seq<Event>)
    returns (images: seq<string>, index: Num)
    ensures images == LastGallery(events)
    ensures |images| > 0 ==> index.Int? && 0 <= index.v < |images|
    ensures |images| == 0 ==> (index.NaN? <==> Stepped(events))
  {
    var v := new Viewer(src0, display0, screen0, img0);
    for i := 0 to |events|
      invariant v.Valid()
      invariant v.images == LastGallery(events[..i])
      invariant |v.images| == 0 ==> (v.currentIndex.NaN? <==> Stepped(events[..i]))
      invariant |v.images| == 0 ==> v.currentIndex in {Int(0), NaN}
    {
      assert events[..i + 1][..i] == events[..i];
      assert events[..i + 1][i] == events[i];
      Dispatch(v, events[i]);
      if |v.images| == 0 {
        assert !Stepped(events[..i]) ==> (Stepped(events[..i + 1]) <==> events[i].PrevButton? || events[i].NextButton?);
        assert Stepped(events[..i]) ==> Stepped(events[..i + 1]);
      }
    }
    assert events[..|events|] == events;
    images, index := v.images, v.currentIndex;
  }

  /** Closing and reopening before the closing animation ends: the listener `closeScreen`
      left behind still runs on the next `animationend` (the opening animation's), so the
      overlay carries `show` while its display is `none`. */
  method ReopenBeforeAnimationEnd(gallery: seq<string>) returns (display: string, classes: set<string>)
    requires |gallery| > 0
    ensures display == "none"
    ensures "show" in classes && "hide" !in classes
  {
    var v := new Viewer("", "none", {}, {});
    v.Open(gallery);
    v.Close();
    v.Open(gallery);
    v.AnimationEnd();
    display, classes := v.display, v.screenClasses;
  }

  /** Escape closes an open viewer, the display becomes `none` only with the
      `animationend`, a second Escape then does nothing, and the gallery and index survive. */
  method EscapeClose(gallery: seq<string>)
    returns (beforeEnd: string, afterEnd: string, images: seq<string>, index: Num, listeners: nat)
    requires |gallery| > 0
    ensures beforeEnd == "flex" && afterEnd == "none"
    ensures images == gallery && index == Int(if |gallery| == 1 then 0 else 1)
    ensures listeners == 0
  {
    var v := new Viewer("", "none", {"hide"}, {});
    v.Open(gallery);
    v.NextClick();
    NextWraps(0, |gallery|);
    v.KeyDown("Escape");
    beforeEnd := v.display;
    v.AnimationEnd();
    afterEnd := v.display;
    v.KeyDown("Escape");
    images, index, listeners := v.images, v.currentIndex, v.closeHandlers;
  }

  /** One transition run to its end: the image shows the neighbour in the chosen
      direction, no slide class remains and no timer is left armed. */
  method OneTransition(gallery: seq<string>, d: Direction, img0: set<string>)
    returns (src: string, classes: set<string>, armed: nat)
    requires |gallery| > 0
    ensures d == Forward ==> src == gallery[if |gallery| == 1 then 0 else 1]
    ensures d == Backward ==> src == gallery[|gallery| - 1]
    ensures classes == img0 - SlideClasses
    ensures armed == 0
  {
    var v := new Viewer("", "none", {}, img0);
    v.Open(gallery);
    if d == Forward {
      v.NextClick();
      NextWraps(0, |gallery|);
    } else {
      v.PrevClick();
      PrevWraps(0, |gallery|);
    }
    v.Fire(0);
    v.Fire(0);
    TransitionLeavesNoSlideClass(img0, d);
    src, classes, armed := v.src, v.imgClasses, |v.pending|;
  }

  /** A phase-1 timer still armed when another project is opened reads the new gallery
      at the old index: the image shows `second[1]` while `currentIndex` is 0. */
  method StaleTimerAfterReopen(first: seq<string>, second: seq<string>)
    returns (src: string, index: Num)
    requires |first| >= 2 && |second| >= 2
    ensures src == second[1] && index == Int(0)
  {
    var v := new Viewer("", "none", {}, {});
    v.Open(first);
    v.NextClick();
    NextWraps(0, |first|);
    v.Open(second);
    v.Fire(0);
    src, index := v.src, v.currentIndex;
  }

  /** When the newly opened gallery is too short for the index a phase-1 timer captured,
      the timer's callback throws before it removes the outgoing class: `slide-out-prev`
      stays on the image with no timer left to clear it. */
  method ShrunkGalleryKeepsSlideOut(first: seq<string>, second: seq<string>, img0: set<string>)
    returns (classes: set<string>, armed: nat)
    requires |second| > 0 && |first| > |second|
    ensures "slide-out-prev" in classes && armed == 0
  {
    var v := new Viewer("", "none", {}, img0);
    v.Open(first);
    v.PrevClick();
    PrevWraps(0, |first|);
    v.Open(second);
    v.Fire(0);
    classes, armed := v.imgClasses, |v.pending|;
  }
}
