/** The image slider under each education item: its `img` elements' class lists and
    the index of the image that carries `active`. */
module EduSlider {
  import opened JsArith
  import opened ClassList

  /** The class lists after `showNextImage` from index i: `active` leaves image i and
      goes to image (i + 1) % n. */
  function AfterShowNext(cs: seq<set<string>>, i: nat): (r: seq<set<string>>)
    requires i < |cs|
    ensures |r| == |cs|
  {
    var removed := cs[i := cs[i] - {"active"}];
    var j := (i + 1) % |cs|;
    removed[j := removed[j] + {"active"}]
  }

  /** If exactly image i was active, exactly image (i + 1) % n is active afterwards, and
      no other class of any image changed. */
  lemma AfterShowNextMovesActive(cs: seq<set<string>>, i: nat)
    requires i < |cs| && Holders(cs, "active") == {i}
    ensures Holders(AfterShowNext(cs, i), "active") == {(i + 1) % |cs|}
    ensures forall k, l :: 0 <= k < |cs| && l != "active" ==> (l in AfterShowNext(cs, i)[k] <==> l in cs[k])
  {
    var r, j := AfterShowNext(cs, i), (i + 1) % |cs|;
    NextWraps(i, |cs|);
    assert "active" in r[j];
  }

  /** The images' class lists and the index after k ticks of the interval. */
  function Ticks(cs: seq<set<string>>, i: nat, k: nat): (r: (seq<set<string>>, nat))
    requires i < |cs|
    ensures |r.0| == |cs| && r.1 < |cs|
    ensures Int(r.1) == NextIterated(Int(i), |cs|, k)
  {
    if k == 0 then (cs, i)
    else
      var (prev, at) := Ticks(cs, i, k - 1);
      NextWraps(at, |cs|);
      (AfterShowNext(prev, at), (at + 1) % |cs|)
  }

  /** Starting with only image 0 active, after k ticks exactly image k % n is active:
      the slider cycles through every image, one at a time. */
  lemma {:induction false} TicksCycle(cs: seq<set<string>>, k: nat)
    requires |cs| > 0 && Holders(cs, "active") == {0}
    ensures Ticks(cs, 0, k).1 == k % |cs|
    ensures Holders(Ticks(cs, 0, k).0, "active") == {k % |cs|}
  {
    NextIteratedCycles(0, |cs|, k);
    if k > 0 {
      TicksCycle(cs, k - 1);
      var (prev, at) := Ticks(cs, 0, k - 1);
      AfterShowNextMovesActive(prev, at);
    }
  }

  /** One `.edu-slider`: its images' class lists and `index`. */
  class Slider {
    var images: seq<set<string>>
    var index: nat

    /** `index` points into the images whenever there is one. */
    ghost predicate Valid()
      reads this
    {
      |images| > 0 ==> index < |images|
    }

    /** The setup for one slider: `index` is 0 and, if there is an image, the first one
        gets `active` (only then is the interval started). */
    constructor (initial: seq<set<string>>)
      ensures Valid() && index == 0
      ensures |images| == |initial|
      ensures |initial| > 0 ==> images == initial[0 := initial[0] + {"active"}]
      ensures |initial| == 0 ==> images == []
      ensures |initial| > 0 && Holders(initial, "active") <= {0} ==> Holders(images, "active") == {0}
    {
      images := initial;
      index := 0;
      if |initial| > 0 {
        images := initial[0 := initial[0] + {"active"}];
      }
    }

    /** `showNextImage`: the interval's callback, armed only when there are images. */
    method ShowNextImage()
      requires Valid() && |images| > 0
      modifies this
      ensures Valid()
      ensures Int(index) == Next(Int(old(index)), |images|)
      ensures images == AfterShowNext(old(images), old(index))
      ensures old(Holders(images, "active") == {index}) ==> Holders(images, "active") == {index}
    {
      ghost var before := images;
      images := images[index := images[index] - {"active"}];
      StepsStayInRange(index, |images|);
      index := Next(Int(index), |images|).v;
      images := images[index := images[index] + {"active"}];
      NextWraps(old(index), |images|);
      if Holders(before, "active") == {old(index)} {
        AfterShowNextMovesActive(before, old(index));
      }
    }
  }

  /** A slider set up on non-empty markup where at most the first image is `active`, then
      left to tick k times: the index is k % n and exactly that image is `active`, so the
      slider cycles through every image one at a time. */
  method RunTicks(initial: seq<set<string>>, k: nat) returns (images: seq<set<string>>, index: nat)
    requires |initial| > 0 && Holders(initial, "active") <= {0}
    ensures |images| == |initial|
    ensures index == k % |initial|
    ensures Holders(images, "active") == {index}
  {
    var s := new Slider(initial);
    var j := 0;
    RemOfSmall(0, |initial|);
    while j < k
      invariant 0 <= j <= k
      invariant s.Valid() && |s.images| == |initial|
      invariant s.index == j % |initial|
      invariant Holders(s.images, "active") == {s.index}
    {
      var before := s.index;
      s.ShowNextImage();
      NextWraps(before, |initial|);
      ModSuccessor(j, |initial|);
      j := j + 1;
    }
    images, index := s.images, s.index;
  }
}
