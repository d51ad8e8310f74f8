/** The "slidy" carousel: the `.itm` slides, the index `current` of the shown slide,
    and the `active` / `prev` / `next` labels that `updateSlides` rewrites. */
module Slidy {
  import opened JsArith
  import opened ClassList

  /** The three labels `updateSlides` manages; every other class is left alone. */
  const Labels: set<string> := {"active", "prev", "next"}

  /** The label slide i receives, by the else-if chain of `updateSlides`: `active` wins
      over `prev`, which wins over `next`. A NaN `current` equals no index. */
  function Label(i: int, current: Num, n: int): (r: set<string>)
    ensures r <= Labels
    ensures forall a, b :: a in r && b in r ==> a == b
    ensures "active" in r <==> current == Int(i)
  {
    if current == Int(i) then {"active"}
    else if Prev(current, n) == Int(i) then {"prev"}
    else if Next(current, n) == Int(i) then {"next"}
    else {}
  }

  /** The class lists after `updateSlides`: the three labels cleared, then set again. */
  function Relabelled(cs: seq<set<string>>, current: Num): (r: seq<set<string>>)
    ensures |r| == |cs|
  {
    seq(|cs|, i requires 0 <= i < |cs| => (cs[i] - Labels) + Label(i, current, |cs|))
  }

  /** Classes other than the three labels survive relabelling unchanged. */
  lemma RelabelledKeepsOtherClasses(cs: seq<set<string>>, current: Num, i: int, l: string)
    requires 0 <= i < |cs| && l !in Labels
    ensures l in Relabelled(cs, current)[i] <==> l in cs[i]
  {
  }

  /** Exactly the slide at `current` is `active`. */
  lemma RelabelledActive(cs: seq<set<string>>, c: int)
    requires 0 <= c < |cs|
    ensures Holders(Relabelled(cs, Int(c)), "active") == {c}
  {
    var r := Relabelled(cs, Int(c));
    assert "active" in r[c];
    forall i | i in Holders(r, "active") ensures i == c {
      assert "active" in Label(i, Int(c), |cs|);
    }
  }

  /** With three or more slides, exactly one is `prev`, at (current - 1 + n) % n, and
      exactly one is `next`, at (current + 1) % n. */
  lemma RelabelledThreeOrMore(cs: seq<set<string>>, c: int)
    requires |cs| >= 3 && 0 <= c < |cs|
    ensures Holders(Relabelled(cs, Int(c)), "prev") == {(c - 1 + |cs|) % |cs|}
    ensures Holders(Relabelled(cs, Int(c)), "next") == {(c + 1) % |cs|}
  {
    var n, r := |cs|, Relabelled(cs, Int(c));
    NextWraps(c, n);
    PrevWraps(c, n);
    var p, q := (c - 1 + n) % n, (c + 1) % n;
    assert p != c && q != c && p != q;
    assert "prev" in r[p];
    assert "next" in r[q];
    forall i | i in Holders(r, "prev") ensures i == p {
      assert "prev" in Label(i, Int(c), n);
    }
    forall i | i in Holders(r, "next") ensures i == q {
      assert "next" in Label(i, Int(c), n);
    }
  }

  /** With two slides the other slide is `prev`, because that test comes first in the
      else-if chain, and no slide is `next`. */
  lemma RelabelledTwo(cs: seq<set<string>>, c: int)
    requires |cs| == 2 && 0 <= c < 2
    ensures Holders(Relabelled(cs, Int(c)), "prev") == {1 - c}
    ensures Holders(Relabelled(cs, Int(c)), "next") == {}
  {
    var r := Relabelled(cs, Int(c));
    PrevWraps(c, 2);
    NextWraps(c, 2);
    assert "prev" in r[1 - c];
    assert "next" !in r[0] && "next" !in r[1];
    forall i | i in Holders(r, "prev") ensures i == 1 - c {
      assert "prev" in Label(i, Int(c), 2);
    }
  }

  /** With one slide only `active` is set. */
  lemma RelabelledOne(cs: seq<set<string>>)
    requires |cs| == 1
    ensures Holders(Relabelled(cs, Int(0)), "active") == {0}
    ensures Holders(Relabelled(cs, Int(0)), "prev") == {}
    ensures Holders(Relabelled(cs, Int(0)), "next") == {}
  {
    RelabelledActive(cs, 0);
    var r := Relabelled(cs, Int(0));
    assert r[0] == (cs[0] - Labels) + {"active"};
  }

  /** The carousel's state: the slides' class lists and the index `current`. */
  class Carousel {
    var slides: seq<set<string>>
    var current: Num

    /** With at least one slide, `current` is an index into the slides. */
    ghost predicate Valid()
      reads this
    {
      |slides| > 0 ==> current.Int? && 0 <= current.v < |slides|
    }

    /** `setupSlidy`: `current` starts at 0 and the slides are labelled once. */
    constructor (initial: seq<set<string>>)
      ensures Valid()
      ensures current == Int(0)
      ensures slides == Relabelled(initial, Int(0))
    {
      slides := initial;
      current := Int(0);
      new;
      UpdateSlides();
    }

    /** `updateSlides`: walks the slides in order, clearing the three labels and then
        setting the one the else-if chain picks. */
    method UpdateSlides()
      modifies this
      ensures current == old(current)
      ensures slides == Relabelled(old(slides), current)
    {
      var n := |slides|;
      var i := 0;
      while i < n
        invariant 0 <= i <= n == |slides| == |old(slides)|
        invariant current == old(current)
        invariant forall k :: 0 <= k < i ==> slides[k] == Relabelled(old(slides), current)[k]
        invariant forall k :: i <= k < n ==> slides[k] == old(slides)[k]
      {
        var c := slides[i] - {"active", "prev", "next"};
        if current == Int(i) {
          c := c + {"active"};
        } else if Prev(current, n) == Int(i) {
          c := c + {"prev"};
        } else if Next(current, n) == Int(i) {
          c := c + {"next"};
        }
        slides := slides[i := c];
        i := i + 1;
      }
    }

    /** `showNext`: one step forward with wraparound, then relabel. */
    method ShowNext()
      requires Valid()
      modifies this
      ensures Valid()
      ensures current == Next(old(current), |old(slides)|)
      ensures slides == Relabelled(old(slides), current)
    {
      if |slides| > 0 {
        StepsStayInRange(current.v, |slides|);
      }
      current := Next(current, |slides|);
      UpdateSlides();
    }

    /** `showPrev`: one step back with wraparound, then relabel. */
    method ShowPrev()
      requires Valid()
      modifies this
      ensures Valid()
      ensures current == Prev(old(current), |old(slides)|)
      ensures slides == Relabelled(old(slides), current)
    {
      if |slides| > 0 {
        StepsStayInRange(current.v, |slides|);
      }
      current := Prev(current, |slides|);
      UpdateSlides();
    }
  }

  /** A click on next followed by a click on prev shows the first slide again, with the
      labels it had before: the observable round trip of the two buttons. */
  method NextThenPrev(initial: seq<set<string>>) returns (shown: Num, labels: seq<set<string>>)
    requires |initial| > 0
    ensures shown == Int(0)
    ensures labels == Relabelled(initial, Int(0))
  {
    var carousel := new Carousel(initial);
    ghost var n, labelled := |initial|, carousel.slides;
    carousel.ShowNext();
    ghost var stepped := carousel.current;
    assert carousel.slides == Relabelled(labelled, stepped);
    carousel.ShowPrev();
    PrevNextInverse(0, n);
    assert carousel.current == Int(0);
    RelabelledTwice(labelled, stepped, Int(0));
    RelabelledTwice(initial, Int(0), Int(0));
    shown, labels := carousel.current, carousel.slides;
  }

  /** Relabelling depends only on the classes outside the three labels, so a second
      relabelling overrides the first. */
  lemma RelabelledTwice(cs: seq<set<string>>, a: Num, b: Num)
    ensures Relabelled(Relabelled(cs, a), b) == Relabelled(cs, b)
  {
    var r1, r2, r := Relabelled(cs, a), Relabelled(Relabelled(cs, a), b), Relabelled(cs, b);
    forall i | 0 <= i < |cs| ensures r2[i] == r[i] {
      assert r1[i] - Labels == cs[i] - Labels;
    }
  }
}
