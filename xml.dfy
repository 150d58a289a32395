/** The part of ElementTree that the answer parser and the form builder use. */
module Xml {
  import opened Wrappers

  /** An element: its tag (a namespaced tag is written "{uri}local"), its
      attributes, the text before its first child (None when it has none),
      and its child elements in document order. */
  datatype Element = Element(tag: string, attrib: map<string, string>, text: Option<string>, children: seq<Element>)

  /** An element with text and neither attributes nor children. */
  function Leaf(tag: string, text: string): Element
  {
    Element(tag, map[], Some(text), [])
  }

  /** An element with children and neither attributes nor text. */
  function Node(tag: string, children: seq<Element>): Element
  {
    Element(tag, map[], None, children)
  }

  /** The position of the first child with the given tag. */
  function FirstIndex(children: seq<Element>, tag: string): (r: Option<nat>)
    ensures r.Some? ==> r.value < |children| && children[r.value].tag == tag
    ensures r.Some? ==> forall j :: 0 <= j < r.value ==> children[j].tag != tag
    ensures r.None? ==> forall j :: 0 <= j < |children| ==> children[j].tag != tag
  {
    if children == [] then None
    else if children[0].tag == tag then Some(0)
    else match FirstIndex(children[1..], tag)
      case None => None
      case Some(k) => Some(k + 1)
  }

  /** `e.find(tag)`: the first direct child with that tag, or None. */
  function Find(e: Element, tag: string): (r: Option<Element>)
    ensures r.None? <==> forall j :: 0 <= j < |e.children| ==> e.children[j].tag != tag
    ensures r.Some? ==> exists k :: 0 <= k < |e.children| && r.value == e.children[k]
                          && forall j :: 0 <= j < k ==> e.children[j].tag != tag
    ensures r.Some? ==> r.value.tag == tag
  {
    match FirstIndex(e.children, tag)
    case None => None
    case Some(k) => Some(e.children[k])
  }

  /** The elements of `cs` whose tag is `tag`, in their order. */
  function Matching(cs: seq<Element>, tag: string): (r: seq<Element>)
    ensures |r| <= |cs|
    ensures forall i :: 0 <= i < |r| ==> r[i].tag == tag && r[i] in cs
  {
    if cs == [] then []
    else if cs[0].tag == tag then [cs[0]] + Matching(cs[1..], tag)
    else Matching(cs[1..], tag)
  }

  /** `e.findall(tag)`: every direct child with that tag, in document order. */
  function FindAll(e: Element, tag: string): seq<Element>
  {
    Matching(e.children, tag)
  }

  lemma {:induction false} MatchingAppend(a: seq<Element>, b: seq<Element>, tag: string)
    ensures Matching(a + b, tag) == Matching(a, tag) + Matching(b, tag)
    decreases |a|
  {
    if a != [] {
      assert (a + b)[1..] == a[1..] + b;
      MatchingAppend(a[1..], b, tag);
    } else {
      assert a + b == b;
    }
  }

  /** A child with another tag is skipped wherever it stands. */
  lemma MatchingSkips(a: seq<Element>, c: Element, b: seq<Element>, tag: string)
    requires c.tag != tag
    ensures Matching(a + [c] + b, tag) == Matching(a + b, tag)
  {
    MatchingAppend(a + [c], b, tag);
    MatchingAppend(a, [c], tag);
    MatchingAppend(a, b, tag);
  }

  /** When every child has the tag, all of them are found, in order. */
  lemma {:induction false} MatchingKeepsAll(cs: seq<Element>, tag: string)
    requires forall i :: 0 <= i < |cs| ==> cs[i].tag == tag
    ensures Matching(cs, tag) == cs
    decreases |cs|
  {
    if cs != [] {
      MatchingKeepsAll(cs[1..], tag);
    }
  }
}
