/** The scroll-to-bottom button (`#scroll-bottom-btn`): the flag `scrolling`, the button's
    text, which must read "Stop" while scrolling and "Start" otherwise, and its display. */
module ScrollButton {

  /** The text the click handler writes for a scrolling state. */
  function Caption(scrolling: bool): (t: string)
    ensures t == "Stop" <==> scrolling
    ensures t == "Start" <==> !scrolling
  {
    if scrolling then "Stop" else "Start"
  }

  /** `nearBottom`: the window is within 200 px of the bottom of the page. */
  predicate NearBottom(scrollY: int, scrollHeight: int, innerHeight: int)
  {
    scrollY >= scrollHeight - innerHeight - 200
  }

  /** The state of the closure of `setupScrollButton`. */
  class Button {
    var scrolling: bool
    var text: string
    var display: string

    /** The text agrees with the flag. */
    ghost predicate Agrees()
      reads this
    {
      text == Caption(scrolling)
    }

    /** Before any event: not scrolling; text and display as the markup has them. */
    constructor (text0: string, display0: string)
      ensures !scrolling && text == text0 && display == display0
    {
      scrolling, text, display := false, text0, display0;
    }

    /** The click handler: the flag flips and the text follows it. */
    method Clicked()
      modifies this
      ensures scrolling == !old(scrolling)
      ensures Agrees()
      ensures display == old(display)
    {
      scrolling := !scrolling;
      text := if scrolling then "Stop" else "Start";
    }

    /** The scroll handler: near the bottom the button is hidden and scrolling stops,
        with the text back to "Start"; elsewhere the button is shown and nothing else
        changes. */
    method Scrolled(scrollY: int, scrollHeight: int, innerHeight: int)
      modifies this
      ensures display == (if NearBottom(scrollY, scrollHeight, innerHeight) then "none" else "block")
      ensures NearBottom(scrollY, scrollHeight, innerHeight) ==> !scrolling && Agrees()
      ensures !NearBottom(scrollY, scrollHeight, innerHeight) ==>
        scrolling == old(scrolling) && text == old(text)
      ensures old(Agrees()) ==> Agrees()
    {
      var nearBottom := scrollY >= scrollHeight - innerHeight - 200;
      display := if nearBottom then "none" else "block";
      if nearBottom {
        scrolling := false;
        text := "Start";
      }
    }
  }

  /** A click on the button, or a scroll to the given geometry. */
  datatype Event = Click | Scroll(scrollY: int, scrollHeight: int, innerHeight: int)

  /** The flag after a sequence of events: each click flips it, each scroll that ends
      near the bottom clears it. */
  function ScrollingAfter(events: seq<Event>): bool
  {
    if events == [] then false
    else
      var before := ScrollingAfter(events[..|events| - 1]);
      match events[|events| - 1]
      case Click => !before
      case Scroll(y, h, w) => if NearBottom(y, h, w) then false else before
  }

  /** Whether some click, or some scroll near the bottom, has happened: after the first
      of these the text always matches the flag. */
  predicate Synced(events: seq<Event>)
  {
    exists i :: 0 <= i < |events| && (events[i].Click? ||
      (events[i].Scroll? && NearBottom(events[i].scrollY, events[i].scrollHeight, events[i].innerHeight)))
  }

  /** Any sequence of events: the flag is `ScrollingAfter(events)`, and once a click or a
      scroll near the bottom has happened the text agrees with it; before that the text is
      the markup's. */
  method Replay(text0: string, display0: string, events: seq<Event>) returns (scrolling: bool, text: string)
    ensures scrolling == ScrollingAfter(events)
    ensures Synced(events) ==> text == Caption(scrolling)
    ensures !Synced(events) ==> !scrolling && text == text0
  {
    var b := new Button(text0, display0);
    for i := 0 to |events|
      invariant b.scrolling == ScrollingAfter(events[..i])
      invariant Synced(events[..i]) ==> b.Agrees()
      invariant !Synced(events[..i]) ==> !b.scrolling && b.text == text0
    {
      assert events[..i + 1][..i] == events[..i];
      assert Synced(events[..i]) ==> Synced(events[..i + 1]);
      match events[i]
      case Click =>
        b.Clicked();
        assert events[..i + 1][i].Click?;
      case Scroll(y, h, w) =>
        b.Scrolled(y, h, w);
        if NearBottom(y, h, w) {
          assert events[..i + 1][i].Scroll?;
        }
    }
    assert events[..|events|] == events;
    scrolling, text := b.scrolling, b.text;
  }
}
