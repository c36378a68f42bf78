/** The parsed XML tree as ElementTree presents it: an element has a tag in
    Clark notation (`{namespace-uri}local`), attributes, an optional text and
    its children in document order. The parser never changes a tree, so an
    element is a value; where the parser relies on the IDENTITY of an element
    (a set of element objects), the model names the element by its path of
    child indices from the element the search started at. */
module Xml {
  import opened Wrappers

  const ParagraphNs: string := "http://www.hancom.co.kr/hwpml/2011/paragraph"
  const HeadNs: string := "http://www.hancom.co.kr/hwpml/2011/head"

  /** The tag the prefix `hp:` stands for. */
  function Hp(local: string): string {
    "{" + ParagraphNs + "}" + local
  }

  /** The tag the prefix `hh:` stands for. */
  function Hh(local: string): string {
    "{" + HeadNs + "}" + local
  }

  datatype Element = Element(tag: string, attrs: map<string, string>, text: Option<string>, children: seq<Element>)

  /** `el.get(name)`. */
  function Get(e: Element, name: string): (r: Option<string>)
    ensures r.Some? <==> name in e.attrs
    ensures r.Some? ==> r.value == e.attrs[name]
  {
    if name in e.attrs then Some(e.attrs[name]) else None
  }

  function WithTag(cs: seq<Element>, tag: string): (r: seq<Element>)
    ensures forall x | x in r :: x.tag == tag && x in cs
    ensures forall c | c in cs && c.tag == tag :: c in r
    ensures cs != [] && cs[0].tag == tag ==> r != [] && r[0] == cs[0]
  {
    if cs == [] then []
    else (if cs[0].tag == tag then [cs[0]] else []) + WithTag(cs[1..], tag)
  }

  /** The first element `WithTag` keeps is the first one with the tag. */
  lemma {:induction false} WithTagFirst(cs: seq<Element>, tag: string) returns (i: nat)
    requires WithTag(cs, tag) != []
    ensures i < |cs| && cs[i] == WithTag(cs, tag)[0]
    ensures forall j | 0 <= j < i :: cs[j].tag != tag
  {
    if cs[0].tag == tag {
      i := 0;
    } else {
      var rest := cs[1..];
      assert WithTag(cs, tag) == WithTag(rest, tag);
      var k := WithTagFirst(rest, tag);
      i := k + 1;
      forall j | 0 <= j < i ensures cs[j].tag != tag {
        if j > 0 { assert cs[j] == rest[j - 1]; }
      }
    }
  }

  /** `el.findall(tag)`: the children with that tag, in document order. */
  function FindAll(e: Element, tag: string): seq<Element> {
    WithTag(e.children, tag)
  }

  /** `findall` keeps exactly the children with the tag. */
  lemma FindAllChildren(e: Element, tag: string)
    ensures forall x | x in FindAll(e, tag) :: x.tag == tag && x in e.children
    ensures forall c | c in e.children && c.tag == tag :: c in FindAll(e, tag)
  {
  }

  /** `el.find(tag)`: the first child with that tag, if any. */
  function Find(e: Element, tag: string): (r: Option<Element>)
    ensures r.None? <==> forall c | c in e.children :: c.tag != tag
    ensures r.Some? ==> r.value in e.children && r.value.tag == tag
    ensures r.Some? ==> exists i | 0 <= i < |e.children| ::
      e.children[i] == r.value && forall j | 0 <= j < i :: e.children[j].tag != tag
  {
    var all := FindAll(e, tag);
    FindAllChildren(e, tag);
    if all == [] then None
    else
      assert all[0] in all;
      assert exists i | 0 <= i < |e.children| ::
        e.children[i] == all[0] && forall j | 0 <= j < i :: e.children[j].tag != tag by {
        var i := WithTagFirst(e.children, tag);
      }
      Some(all[0])
  }

  /** Some child carries the tag (`for child in el: if child.tag == tag`). */
  predicate HasChild(e: Element, tag: string) {
    exists c | c in e.children :: c.tag == tag
  }

  /** `tag.split('}')[-1]`: the part of a tag after its last `}`. */
  function LocalName(tag: string): (r: string)
    ensures '}' !in r
    ensures '}' !in tag ==> r == tag
  {
    if tag == [] then []
    else if tag[|tag| - 1] == '}' then []
    else LocalName(tag[..|tag| - 1]) + [tag[|tag| - 1]]
  }

  type Path = seq<nat>

  /** An element met during a traversal, with its path from the start. */
  datatype Node = Node(path: Path, elem: Element)

  /** The element a path leads to, if the path exists. */
  function At(e: Element, path: Path): Option<Element>
    decreases |path|
  {
    if path == [] then Some(e)
    else if path[0] < |e.children| then At(e.children[path[0]], path[1..])
    else None
  }

  function Under(i: nat, ns: seq<Node>): (r: seq<Node>)
    ensures |r| == |ns|
    ensures forall k | 0 <= k < |ns| :: r[k] == Node([i] + ns[k].path, ns[k].elem)
  {
    seq(|ns|, k requires 0 <= k < |ns| => Node([i] + ns[k].path, ns[k].elem))
  }

  /** `el.iter()`: the element and all its descendants in document order
      (pre-order), each with its path. */
  function Iter(e: Element): seq<Node>
    decreases e, 1, 0
  {
    [Node([], e)] + IterFrom(e, 0)
  }

  function IterFrom(e: Element, i: nat): seq<Node>
    decreases e, 0, |e.children| - i
  {
    if i >= |e.children| then []
    else Under(i, Iter(e.children[i])) + IterFrom(e, i + 1)
  }

  /** The descendants of an element in pre-order, without the element. */
  function Descendants(e: Element): seq<Node> {
    IterFrom(e, 0)
  }

  function Elems(ns: seq<Node>): (r: seq<Element>)
    ensures |r| == |ns| && forall k | 0 <= k < |ns| :: r[k] == ns[k].elem
  {
    seq(|ns|, k requires 0 <= k < |ns| => ns[k].elem)
  }

  function NodesWithTag(ns: seq<Node>, tag: string): seq<Node> {
    if ns == [] then []
    else (if ns[0].elem.tag == tag then [ns[0]] else []) + NodesWithTag(ns[1..], tag)
  }

  /** `NodesWithTag` keeps exactly the nodes with the tag. */
  lemma {:induction false} NodesWithTagMember(ns: seq<Node>, tag: string, n: Node)
    ensures n in NodesWithTag(ns, tag) <==> n in ns && n.elem.tag == tag
  {
    if ns != [] {
      NodesWithTagMember(ns[1..], tag, n);
      assert ns == [ns[0]] + ns[1..];
    }
  }

  /** `el.findall(".//" + tag)`: all descendants with that tag, in document order. */
  function FindAllDeep(e: Element, tag: string): seq<Node> {
    NodesWithTag(Descendants(e), tag)
  }

  /** Some element strictly between the start and the end of the path carries
      the tag. */
  predicate TaggedBetween(e: Element, path: Path, tag: string)
    decreases |path|
  {
    |path| > 0 && path[0] < |e.children| &&
    var c := e.children[path[0]];
    (|path| > 1 && c.tag == tag) || TaggedBetween(c, path[1..], tag)
  }

  lemma {:induction false} AtAppend(e: Element, p: Path, q: Path)
    requires At(e, p).Some?
    ensures At(e, p + q) == At(At(e, p).value, q)
    decreases |p|
  {
    if p != [] {
      assert (p + q)[0] == p[0] && (p + q)[1..] == p[1..] + q;
      AtAppend(e.children[p[0]], p[1..], q);
    } else {
      assert p + q == q;
    }
  }

  lemma {:induction false} IterSound(e: Element, n: Node)
    requires n in Iter(e)
    ensures At(e, n.path) == Some(n.elem)
    decreases e, 1, 0
  {
    if n != Node([], e) {
      IterFromSound(e, 0, n);
    }
  }

  lemma {:induction false} IterFromSound(e: Element, i: nat, n: Node)
    requires n in IterFrom(e, i)
    ensures n.path != [] && At(e, n.path) == Some(n.elem)
    decreases e, 0, |e.children| - i
  {
    var u := Under(i, Iter(e.children[i]));
    if n in u {
      var k :| 0 <= k < |u| && u[k] == n;
      var m := Iter(e.children[i])[k];
      assert n.path == [i] + m.path;
      assert n.path[1..] == m.path;
      IterSound(e.children[i], m);
    } else {
      IterFromSound(e, i + 1, n);
    }
  }

  lemma {:induction false} IterComplete(e: Element, path: Path, x: Element)
    requires At(e, path) == Some(x)
    ensures Node(path, x) in Iter(e)
    ensures path != [] ==> Node(path, x) in Descendants(e)
    decreases |path|
  {
    if path != [] {
      var j := path[0];
      IterComplete(e.children[j], path[1..], x);
      var ns := Iter(e.children[j]);
      var k :| 0 <= k < |ns| && ns[k] == Node(path[1..], x);
      assert Under(j, ns)[k] == Node(path, x);
      IterFromContains(e, 0, j, Node(path, x));
    }
  }

  lemma {:induction false} IterFromContains(e: Element, i: nat, j: nat, n: Node)
    requires i <= j < |e.children| && n in Under(j, Iter(e.children[j]))
    ensures n in IterFrom(e, i)
    decreases j - i
  {
    if i < j {
      IterFromContains(e, i + 1, j, n);
    }
  }

  /** A node found by `FindAllDeep` is a proper descendant at its path. */
  lemma FindAllDeepSound(e: Element, tag: string, n: Node)
    requires n in FindAllDeep(e, tag)
    ensures n.path != [] && n.elem.tag == tag && At(e, n.path) == Some(n.elem)
  {
    NodesWithTagMember(Descendants(e), tag, n);
    IterFromSound(e, 0, n);
  }

  /** Every proper descendant with the tag is found by `FindAllDeep`. */
  lemma FindAllDeepComplete(e: Element, tag: string, path: Path, x: Element)
    requires path != [] && At(e, path) == Some(x) && x.tag == tag
    ensures Node(path, x) in FindAllDeep(e, tag)
  {
    IterComplete(e, path, x);
    NodesWithTagMember(Descendants(e), tag, Node(path, x));
  }
}
