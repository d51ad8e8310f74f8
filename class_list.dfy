/** Element class lists. A class list is the set of class names on one element; a
    NodeList of elements is a sequence of class lists in document order. */
module ClassList {

  /** The positions of the elements whose class list holds `name`. */
  function Holders(cs: seq<set<string>>, name: string): (h: set<int>)
    ensures forall i :: i in h <==> 0 <= i < |cs| && name in cs[i]
  {
    set i | 0 <= i < |cs| && name in cs[i]
  }

  /** `classList.toggle(name, on)`: the name is present exactly when `on` holds. */
  function Toggle(c: set<string>, name: string, on: bool): (r: set<string>)
    ensures name in r <==> on
    ensures forall l :: l != name ==> (l in r <==> l in c)
  {
    if on then c + {name} else c - {name}
  }

  /** `forEach(e => e.classList.remove(name))` over a whole NodeList. */
  function RemovedFromAll(cs: seq<set<string>>, name: string): (r: seq<set<string>>)
    ensures |r| == |cs|
    ensures Holders(r, name) == {}
    ensures forall i :: 0 <= i < |cs| ==> r[i] + {name} == cs[i] + {name}
  {
    seq(|cs|, i requires 0 <= i < |cs| => cs[i] - {name})
  }
}
