/** The part of Python's `xml.etree.ElementTree` that the parser uses: an
    element with a tag, attributes and children, `e.get(key)`, and the two
    `findall` path forms `.//tag` (every descendant with that tag, in
    document order, the element itself excluded) and `tag` or `./tag` (the
    direct children with that tag). */
module XmlTree {
  import opened Outcomes
  import Seqs

  /** An element of a parsed document. */
  datatype Element = Element(tag: string, attrib: map<string, string>, children: seq<Element>)

  /** `e.get(key)`: the attribute's value, or `None` when it is absent. */
  function Get(e: Element, key: string): (r: Option<string>)
    ensures r.None? <==> key !in e.attrib
    ensures r.Some? ==> r.value == e.attrib[key]
  {
    if key in e.attrib then Some(e.attrib[key]) else None
  }

  /** Every element below `e`, in document (pre-)order. */
  function Descendants(e: Element): seq<Element>
    decreases e, 1
  {
    Forest(e.children)
  }

  /** Every element of the trees `es`, each followed by its descendants. */
  function Forest(es: seq<Element>): seq<Element>
    decreases es, 0
  {
    if es == [] then [] else [es[0]] + Descendants(es[0]) + Forest(es[1..])
  }

  /** The predicate "has tag `tag`". */
  function HasTag(tag: string): Element -> bool
  {
    (e: Element) => e.tag == tag
  }

  /** `e.findall('.//' + tag)`. */
  function FindAll(e: Element, tag: string): (r: seq<Element>)
    ensures |r| <= |Descendants(e)|
  {
    Seqs.Filter(Descendants(e), HasTag(tag))
  }

  /** `e.findall(tag)` and `e.findall('./' + tag)`. */
  function FindChildren(e: Element, tag: string): (r: seq<Element>)
    ensures |r| <= |e.children|
  {
    Seqs.Filter(e.children, HasTag(tag))
  }

  /** `.//tag` finds descendants with that tag, and every one of them. */
  lemma FindAllSpec(e: Element, tag: string)
    ensures forall i :: 0 <= i < |FindAll(e, tag)| ==>
      FindAll(e, tag)[i] in Descendants(e) && FindAll(e, tag)[i].tag == tag
    ensures forall d :: d in Descendants(e) && d.tag == tag ==> d in FindAll(e, tag)
  {
    var ds := Descendants(e);
    Seqs.FilterMembers(ds, HasTag(tag));
    forall d | d in ds && d.tag == tag
      ensures d in FindAll(e, tag)
    {
      var i :| 0 <= i < |ds| && ds[i] == d;
      assert HasTag(tag)(ds[i]);
    }
  }

  /** `tag` finds the children with that tag, and every one of them. */
  lemma FindChildrenSpec(e: Element, tag: string)
    ensures forall i :: 0 <= i < |FindChildren(e, tag)| ==>
      FindChildren(e, tag)[i] in e.children && FindChildren(e, tag)[i].tag == tag
    ensures forall d :: d in e.children && d.tag == tag ==> d in FindChildren(e, tag)
  {
    var cs := e.children;
    Seqs.FilterMembers(cs, HasTag(tag));
    forall d | d in cs && d.tag == tag
      ensures d in FindChildren(e, tag)
    {
      var i :| 0 <= i < |cs| && cs[i] == d;
      assert HasTag(tag)(cs[i]);
    }
  }
}
