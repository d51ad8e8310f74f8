/** The click effect on the `.list .item` elements: one item at a time is `active`, a
    second click on it collapses it, a click outside the `.list` container collapses
    every item, and one auto-deactivate timer (`deactivateTimer`) collapses the item it
    was armed for unless it is cleared first. */
module ItemClick {
  import opened ClassList
  import opened Optional

  /** At most one element carries `active`. */
  predicate AtMostOneActive(cs: seq<set<string>>)
  {
    forall i, j :: 0 <= i < |cs| && 0 <= j < |cs| && "active" in cs[i] && "active" in cs[j] ==> i == j
  }

  /** The class lists after a click on item k that was not active: all others lose
      `active`, then k gains it. */
  function Activated(cs: seq<set<string>>, k: nat): (r: seq<set<string>>)
    requires k < |cs|
    ensures |r| == |cs|
  {
    var cleared := RemovedFromAll(cs, "active");
    cleared[k := cleared[k] + {"active"}]
  }

  /** Activating item k leaves k as the only active item and touches no other class. */
  lemma ActivatedIsExclusive(cs: seq<set<string>>, k: nat)
    requires k < |cs|
    ensures Holders(Activated(cs, k), "active") == {k}
    ensures AtMostOneActive(Activated(cs, k))
    ensures forall i, l :: 0 <= i < |cs| && l != "active" ==> (l in Activated(cs, k)[i] <==> l in cs[i])
  {
    var r := Activated(cs, k);
    assert "active" in r[k];
    forall i, l | 0 <= i < |cs| && l != "active" ensures l in r[i] <==> l in cs[i] {
      assert r[i] + {"active"} == cs[i] + {"active"} || i == k;
    }
  }

  /** If no item but k is active, collapsing k leaves no item active. */
  lemma CollapsedLeavesNoneActive(cs: seq<set<string>>, k: nat)
    requires k < |cs| && Holders(cs, "active") <= {k}
    ensures Holders(cs[k := cs[k] - {"active"}], "active") == {}
  {
    var r := cs[k := cs[k] - {"active"}];
    forall i | 0 <= i < |r| ensures "active" !in r[i] {
      if i != k {
        assert i !in Holders(cs, "active");
      }
    }
  }

  /** The state of one `enableItemClickEffect` call: the items' class lists and the item
      the live auto-deactivate timer was armed for, if one is live. */
  class Effect {
    var items: seq<set<string>>
    var timer: Option<nat>

    /** A live timer belongs to the one active item. */
    ghost predicate Valid()
      reads this
    {
      timer.Some? ==> timer.value < |items| && Holders(items, "active") == {timer.value}
    }

    /** A timer is live exactly while an item is active. This holds once any handler has
        run, and from the start when the markup marks no item active. */
    ghost predicate Settled()
      reads this
    {
      Valid() && (timer.None? ==> Holders(items, "active") == {})
    }

    /** The items as the markup has them; no timer. */
    constructor (initial: seq<set<string>>)
      ensures Valid() && items == initial && timer == None
    {
      items, timer := initial, None;
    }

    /** `items.forEach(i => i.classList.remove('active'))`. */
    method DeactivateAll()
      modifies this
      ensures items == RemovedFromAll(old(items), "active")
      ensures timer == old(timer)
    {
      var i := 0;
      while i < |items|
        invariant 0 <= i <= |items| == |old(items)|
        invariant timer == old(timer)
        invariant forall j :: 0 <= j < i ==> items[j] == old(items)[j] - {"active"}
        invariant forall j :: i <= j < |items| ==> items[j] == old(items)[j]
      {
        items := items[i := items[i] - {"active"}];
        i := i + 1;
      }
    }

    /** A click on item k. If it is active it collapses at once and the timer is cleared.
        Otherwise every item loses `active`, the timer is cleared, k becomes active and a
        new timer is armed for k. */
    method ItemClicked(k: nat)
      requires Valid() && k < |items|
      modifies this
      ensures Valid()
      ensures "active" in old(items)[k] ==>
        (items == old(items)[k := old(items)[k] - {"active"}] && timer == None)
      ensures "active" !in old(items)[k] ==>
        (items == Activated(old(items), k) && timer == Some(k))
      ensures old(AtMostOneActive(items)) ==> AtMostOneActive(items)
      ensures old(Settled()) ==> Settled()
    {
      if "active" in items[k] {
        if Settled() {
          CollapsedLeavesNoneActive(items, k);
        }
        items := items[k := items[k] - {"active"}];
        timer := None;
        return;
      }
      DeactivateAll();
      timer := None;
      items := items[k := items[k] + {"active"}];
      timer := Some(k);
      ActivatedIsExclusive(old(items), k);
    }

    /** A click on the document. Outside the container every item loses `active` and the
        timer is cleared; inside, nothing happens. */
    method DocumentClicked(insideContainer: bool)
      requires Valid()
      modifies this
      ensures Valid()
      ensures insideContainer ==> items == old(items) && timer == old(timer)
      ensures !insideContainer ==> items == RemovedFromAll(old(items), "active") && timer == None
      ensures old(Settled()) ==> Settled()
      ensures !insideContainer ==> Settled()
    {
      if !insideContainer {
        DeactivateAll();
        timer := None;
      }
    }

    /** The live timer runs out: its item, and only its item, loses `active`. */
    method TimerFires()
      requires Valid() && timer.Some?
      modifies this
      ensures Valid()
      ensures items == old(items)[old(timer).value := old(items)[old(timer).value] - {"active"}]
      ensures Settled() && Holders(items, "active") == {}
      ensures timer == None
    {
      var k := timer.value;
      CollapsedLeavesNoneActive(items, k);
      items := items[k := items[k] - {"active"}];
      timer := None;
    }
  }

  /** What the page can do: click item k, click the document (inside or outside the
      container), or let the live timer run out (nothing happens if none is live). */
  datatype Event = Click(k: nat) | Document(insideContainer: bool) | Timeout

  /** Any sequence of events from markup where no item is active: at most one item is
      ever active, and a timer is live exactly while an item is active, armed for it. */
  method Replay(initial: seq<set<string>>, events: seq<Event>)
    returns (items: seq<set<string>>, timer: Option<nat>)
    requires Holders(initial, "active") == {}
    ensures |items| == |initial|
    ensures AtMostOneActive(items)
    ensures timer.None? <==> Holders(items, "active") == {}
    ensures timer.Some? ==> Holders(items, "active") == {timer.value}
  {
    var effect := new Effect(initial);
    for i := 0 to |events|
      invariant effect.Valid() && |effect.items| == |initial|
      invariant effect.Settled()
    {
      match events[i]
      case Click(k) =>
        if k < |effect.items| {
          effect.ItemClicked(k);
        }
      case Document(inside) =>
        effect.DocumentClicked(inside);
      case Timeout =>
        if effect.timer.Some? {
          effect.TimerFires();
        }
    }
    items, timer := effect.items, effect.timer;
    if timer.Some? {
      assert Holders(items, "active") == {timer.value};
    }
  }
}
