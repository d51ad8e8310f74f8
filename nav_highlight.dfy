/** Navigation highlighting: on every scroll, the side navigation's links get or lose
    `active` from the scroll position and the `main section[id]` elements' geometry. */
module NavHighlight {
  import opened ClassList
  import opened Optional

  /** A `main section[id]`: its id and its `offsetTop` / `offsetHeight` in pixels. */
  datatype Section = Section(id: string, offsetTop: int, offsetHeight: int)

  /** A navigation link: `href` is the resolved URL, `attr` the raw `href` attribute. */
  datatype Link = Link(href: string, attr: string)

  /** Below this scroll position only the home link is highlighted. */
  const HomeThreshold: int := 900

  /** Each section's range starts this far below its `offsetTop`. */
  const SectionShift: int := 800

  predicate EndsWith(s: string, suffix: string)
  {
    |suffix| <= |s| && s[|s| - |suffix|..] == suffix
  }

  /** The section's range [offsetTop + 800, offsetTop + 800 + offsetHeight) holds pos. */
  predicate Covers(s: Section, pos: int)
  {
    s.offsetTop + SectionShift <= pos < s.offsetTop + SectionShift + s.offsetHeight
  }

  /** The links' class lists after the home rule: `active` exactly on links whose
      resolved URL ends with `#main`. */
  function HomeMarked(links: seq<Link>, cs: seq<set<string>>): (r: seq<set<string>>)
    requires |cs| == |links|
    ensures |r| == |cs|
  {
    seq(|cs|, i requires 0 <= i < |cs| => Toggle(cs[i], "active", EndsWith(links[i].href, "#main")))
  }

  /** The links' class lists after one covering section rewrites them: `active` exactly
      on links whose `href` attribute is `#` + id. */
  function SectionMarked(links: seq<Link>, cs: seq<set<string>>, id: string): (r: seq<set<string>>)
    requires |cs| == |links|
    ensures |r| == |cs|
  {
    seq(|cs|, i requires 0 <= i < |cs| => Toggle(cs[i], "active", links[i].attr == "#" + id))
  }

  /** The walk over the sections in document order: each covering section rewrites the
      links; a section that does not cover pos leaves them alone. */
  function Swept(sections: seq<Section>, pos: int, links: seq<Link>, cs: seq<set<string>>): (r: seq<set<string>>)
    requires |cs| == |links|
    ensures |r| == |cs|
  {
    if sections == [] then cs
    else
      var before := Swept(sections[..|sections| - 1], pos, links, cs);
      var s := sections[|sections| - 1];
      if Covers(s, pos) then SectionMarked(links, before, s.id) else before
  }

  /** The position of the last section that covers pos, if any. */
  function LastCovering(sections: seq<Section>, pos: int): (r: Option<nat>)
    ensures r.Some? ==> r.value < |sections| && Covers(sections[r.value], pos)
    ensures r.Some? ==> forall k :: r.value < k < |sections| ==> !Covers(sections[k], pos)
    ensures r.None? ==> forall k :: 0 <= k < |sections| ==> !Covers(sections[k], pos)
  {
    if sections == [] then None
    else if Covers(sections[|sections| - 1], pos) then Some(|sections| - 1)
    else LastCovering(sections[..|sections| - 1], pos)
  }

  /** A later rewrite by a section overrides an earlier one completely. */
  lemma SectionMarkedOverrides(links: seq<Link>, cs: seq<set<string>>, a: string, b: string)
    requires |cs| == |links|
    ensures SectionMarked(links, SectionMarked(links, cs, a), b) == SectionMarked(links, cs, b)
  {
    var r1 := SectionMarked(links, cs, a);
    var r2, r := SectionMarked(links, r1, b), SectionMarked(links, cs, b);
    forall i | 0 <= i < |cs| ensures r2[i] == r[i] {
      assert r1[i] - {"active"} == cs[i] - {"active"};
    }
  }

  /** The walk over the sections amounts to the last covering section alone: if none
      covers pos the links are unchanged, otherwise the last one decides. */
  lemma {:induction false} SweptIsLastCovering(sections: seq<Section>, pos: int, links: seq<Link>, cs: seq<set<string>>)
    requires |cs| == |links|
    ensures Swept(sections, pos, links, cs) ==
      match LastCovering(sections, pos)
      case None => cs
      case Some(j) => SectionMarked(links, cs, sections[j].id)
  {
    if sections != [] {
      var init := sections[..|sections| - 1];
      SweptIsLastCovering(init, pos, links, cs);
      var s := sections[|sections| - 1];
      if Covers(s, pos) {
        match LastCovering(init, pos)
        case None =>
        case Some(j) =>
          SectionMarkedOverrides(links, cs, init[j].id, s.id);
      }
    }
  }

  /** `updateActiveNav` as a function of the scroll position and the links' classes. */
  function ActiveNav(pos: int, sections: seq<Section>, links: seq<Link>, cs: seq<set<string>>): (r: seq<set<string>>)
    requires |cs| == |links|
    ensures |r| == |cs|
  {
    if pos < HomeThreshold then HomeMarked(links, cs) else Swept(sections, pos, links, cs)
  }

  /** The selection rule. Below 900 a link is active exactly when its URL ends with
      `#main`. From 900 on, if some section covers the position, a link is active exactly
      when its `href` attribute names the last such section; if none does, nothing
      changes. No class other than `active` is ever touched. */
  lemma ActiveNavSelects(pos: int, sections: seq<Section>, links: seq<Link>, cs: seq<set<string>>)
    requires |cs| == |links|
    ensures var r := ActiveNav(pos, sections, links, cs);
      (pos < HomeThreshold ==>
        forall i :: 0 <= i < |r| ==> ("active" in r[i] <==> EndsWith(links[i].href, "#main")))
      && (pos >= HomeThreshold && LastCovering(sections, pos).Some? ==>
        forall i :: 0 <= i < |r| ==>
          ("active" in r[i] <==> links[i].attr == "#" + sections[LastCovering(sections, pos).value].id))
      && (pos >= HomeThreshold && LastCovering(sections, pos).None? ==> r == cs)
      && forall i, l :: 0 <= i < |r| && l != "active" ==> (l in r[i] <==> l in cs[i])
  {
    SweptIsLastCovering(sections, pos, links, cs);
  }

  /** The side navigation's links and their class lists. The sections' geometry is read
      afresh on every scroll, so it is an argument of `UpdateActiveNav`, not a field. */
  class Highlighter {
    const links: seq<Link>
    var linkClasses: seq<set<string>>

    ghost predicate Valid()
      reads this
    {
      |linkClasses| == |links|
    }

    /** `setupNavHighlighting`: the links start under the home rule. */
    constructor (links: seq<Link>, initial: seq<set<string>>)
      requires |initial| == |links|
      ensures Valid()
      ensures this.links == links
      ensures linkClasses == HomeMarked(links, initial)
    {
      this.links := links;
      linkClasses := initial;
      new;
      MarkHome();
    }

    /** `navLinks.forEach(link => link.classList.toggle('active', link.href.endsWith('#main')))`. */
    method MarkHome()
      requires Valid()
      modifies this
      ensures Valid()
      ensures linkClasses == HomeMarked(links, old(linkClasses))
    {
      for i := 0 to |linkClasses|
        invariant |linkClasses| == |links|
        invariant forall k :: 0 <= k < i ==> linkClasses[k] == HomeMarked(links, old(linkClasses))[k]
        invariant forall k :: i <= k < |linkClasses| ==> linkClasses[k] == old(linkClasses)[k]
      {
        linkClasses := linkClasses[i := Toggle(linkClasses[i], "active", EndsWith(links[i].href, "#main"))];
      }
    }

    /** The inner `navLinks.forEach` for a covering section: `active` exactly on the links
        whose `href` attribute is `#` + id. */
    method MarkSection(id: string)
      requires Valid()
      modifies this
      ensures Valid()
      ensures linkClasses == SectionMarked(links, old(linkClasses), id)
    {
      for i := 0 to |linkClasses|
        invariant |linkClasses| == |links|
        invariant forall k :: 0 <= k < i ==> linkClasses[k] == SectionMarked(links, old(linkClasses), id)[k]
        invariant forall k :: i <= k < |linkClasses| ==> linkClasses[k] == old(linkClasses)[k]
      {
        linkClasses := linkClasses[i := Toggle(linkClasses[i], "active", links[i].attr == "#" + id)];
      }
    }

    /** `updateActiveNav`, the scroll listener, with `scrollY` as `scrollPos` and the
        sections' geometry as it is at this scroll. */
    method UpdateActiveNav(scrollPos: int, sections: seq<Section>)
      requires Valid()
      modifies this
      ensures Valid()
      ensures linkClasses == ActiveNav(scrollPos, sections, links, old(linkClasses))
    {
      if scrollPos < HomeThreshold {
        MarkHome();
        return;
      }
      for s := 0 to |sections|
        invariant Valid()
        invariant linkClasses == Swept(sections[..s], scrollPos, links, old(linkClasses))
      {
        assert sections[..s + 1][..s] == sections[..s];
        var top := sections[s].offsetTop + SectionShift;
        var bottom := top + sections[s].offsetHeight;
        if scrollPos >= top && scrollPos < bottom {
          MarkSection(sections[s].id);
        }
      }
      assert sections[..|sections|] == sections;
    }
  }
}
