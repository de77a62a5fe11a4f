/**
 * The recursive node converter: one serialized node in, nothing, one element or a
 * one-element array out.  Block nodes convert their children slot by slot.
 */
module Converter {
  import opened Wrappers
  import opened Lexical
  import opened View
  import opened TextFormat

  predicate IsHeading(v: Variant)
  {
    v in {ProseH1, ProseH2, ProseH3, ProseH4, ProseH5, ProseH6}
  }

  /** The heading tag that selects heading variant `v`. */
  function HeadingTag(v: Variant): (tag: string)
    requires IsHeading(v)
    ensures HeadingVariant(tag) == v
  {
    match v
    case ProseH1 => "h1"
    case ProseH2 => "h2"
    case ProseH3 => "h3"
    case ProseH4 => "h4"
    case ProseH5 => "h5"
    case ProseH6 => "h6"
  }

  /** The heading component for a heading tag: `h2` to `h6` each select their own
      level; every other tag, `h1` included, falls back to the first level. */
  function HeadingVariant(tag: string): (r: Variant)
    ensures IsHeading(r)
    ensures r == ProseH1 <==> tag !in {"h2", "h3", "h4", "h5", "h6"}
  {
    if tag == "h2" then ProseH2
    else if tag == "h3" then ProseH3
    else if tag == "h4" then ProseH4
    else if tag == "h5" then ProseH5
    else if tag == "h6" then ProseH6
    else ProseH1
  }

  /** A heading tag from `h2` to `h6` is read back from the variant it selects. */
  lemma HeadingTagOfVariant(tag: string)
    requires HeadingVariant(tag) != ProseH1
    ensures HeadingTag(HeadingVariant(tag)) == tag
  {
  }

  /** The list component for a list tag; no component for any tag but `ol` and `ul`. */
  function ListVariant(tag: string): (r: Option<Variant>)
    ensures r.Some? <==> tag == "ol" || tag == "ul"
    ensures r.Some? ==> r.value == (if tag == "ol" then ProseOl else ProseUl)
  {
    if tag == "ol" then Some(ProseOl)
    else if tag == "ul" then Some(ProseUl)
    else None
  }

  /** The props of the anchor a link becomes, or none for an unknown link type.  Both
      known types carry the URL as `href`; only a custom link also sets `target`. */
  function LinkAttrs(linkType: string, url: Option<string>, newTab: bool): (r: Option<Attrs>)
    ensures r.Some? <==> linkType == "custom" || linkType == "internal"
    ensures r.Some? ==> "href" in r.value && r.value["href"] == url
    ensures r.Some? ==> ("target" in r.value <==> linkType == "custom")
    ensures r.Some? && "target" in r.value ==> r.value["target"] == Some(if newTab then "_blank" else "_self")
    ensures r.Some? ==> r.value.Keys <= {"href", "target"}
  {
    if linkType == "custom" then
      Some(map["href" := url, "target" := Some(if newTab then "_blank" else "_self")])
    else if linkType == "internal" then
      Some(map["href" := url])
    else None
  }

  /** The nodes that convert to nothing: unknown kinds, lists with an unknown tag and
      links with an unknown link type. */
  predicate Dropped(node: Node)
  {
    || node.Other?
    || (node.List? && node.tag != "ol" && node.tag != "ul")
    || (node.Link? && node.linkType != "custom" && node.linkType != "internal")
  }

  /** `out` holds the conversions of `nodes`, one per slot and in the same order. */
  predicate ConvertsEach(out: seq<Converted>, nodes: seq<Node>)
  {
    |out| == |nodes| && forall i :: 0 <= i < |nodes| ==> out[i] == Convert(nodes[i])
  }

  /** Converts one node. */
  function Convert(node: Node): (r: Converted)
    decreases node
    ensures r.Absent? <==> Dropped(node)
    ensures r.Many? <==> node.Link? && !Dropped(node)
    ensures r.Many? ==> |r.nodes| == 1 && r.nodes[0].Element? && r.nodes[0].variant == ProseA
  {
    match node
    case Text(text, format) => One(FormatText(text, format))
    case Heading(tag, children) => One(Element(HeadingVariant(tag), map[], ConvertAll(children)))
    case Paragraph(children) => One(Element(ProseP, map[], ConvertAll(children)))
    case Quote(children) => One(Element(ProseBlockquote, map[], ConvertAll(children)))
    case List(tag, children) =>
      (match ListVariant(tag)
       case Some(variant) => One(Element(variant, map[], ConvertAll(children)))
       case None => Absent)
    case HorizontalRule(_) => One(Element(ProseHr, map[], []))
    case ListItem(children) => One(Element(ProseLi, map[], ConvertAll(children)))
    case Link(linkType, url, newTab, children) =>
      (match LinkAttrs(linkType, url, newTab)
       case Some(attrs) => Many([Element(ProseA, attrs, ConvertAll(children))])
       case None => Absent)
    case Other(_) => Absent
  }

  /** `children.map(parseChildren)`: converts a sequence of nodes slot by slot. */
  function ConvertAll(nodes: seq<Node>): (r: seq<Converted>)
    decreases nodes
    ensures |r| == |nodes|
    ensures forall i :: 0 <= i < |nodes| ==> r[i] == Convert(nodes[i])
  {
    if nodes == [] then [] else [Convert(nodes[0])] + ConvertAll(nodes[1..])
  }

  /** A text node converts to a single element: the plain span with its string, inside
      one wrapper per set recognised flag, in wrapping order. */
  lemma ConvertText(text: string, format: nat)
    ensures Convert(Text(text, format)).One?
    ensures Core(Convert(Text(text, format)).node) == Plain(text)
    ensures Layers(Convert(Text(text, format)).node) == Selected(WrapOrder, format)
  {
    FormatTextShape(text, format);
  }

  /** A heading becomes one heading element of the level its tag selects, without
      props, holding its converted children. */
  lemma ConvertHeading(tag: string, children: seq<Node>)
    ensures Convert(Heading(tag, children)).One?
    ensures Convert(Heading(tag, children)).node.Element?
    ensures Convert(Heading(tag, children)).node.variant == HeadingVariant(tag)
    ensures Convert(Heading(tag, children)).node.attrs == map[]
    ensures ConvertsEach(Convert(Heading(tag, children)).node.children, children)
  {
  }

  /** Paragraphs, quotes and list items each become one element of their own variant,
      without props, holding their converted children. */
  lemma ConvertContainer(node: Node)
    requires node.Paragraph? || node.Quote? || node.ListItem?
    ensures Convert(node).One? && Convert(node).node.Element?
    ensures Convert(node).node.variant
         == if node.Paragraph? then ProseP else if node.Quote? then ProseBlockquote else ProseLi
    ensures Convert(node).node.attrs == map[]
    ensures ConvertsEach(Convert(node).node.children, node.children)
  {
  }

  /** A list with tag `ol` or `ul` becomes an ordered or unordered list element holding
      its converted children; a list with any other tag becomes nothing. */
  lemma ConvertList(tag: string, children: seq<Node>)
    ensures tag == "ol" ==> Convert(List(tag, children)) == One(Element(ProseOl, map[], ConvertAll(children)))
    ensures tag == "ul" ==> Convert(List(tag, children)) == One(Element(ProseUl, map[], ConvertAll(children)))
    ensures tag != "ol" && tag != "ul" ==> Convert(List(tag, children)) == Absent
  {
  }

  /** A horizontal rule becomes a bare rule element, whatever children it carries. */
  lemma ConvertHorizontalRule(children: seq<Node>)
    ensures Convert(HorizontalRule(children)) == One(Element(ProseHr, map[], []))
  {
  }

  /** A custom link becomes a one-element array holding an anchor with `href` and a
      `target` chosen by `newTab`; an internal link the same anchor with `href` alone;
      any other link type becomes nothing, its children included. */
  lemma ConvertLink(linkType: string, url: Option<string>, newTab: bool, children: seq<Node>)
    ensures linkType == "custom" ==>
      Convert(Link(linkType, url, newTab, children))
        == Many([Element(ProseA, map["href" := url, "target" := Some(if newTab then "_blank" else "_self")],
                         ConvertAll(children))])
    ensures linkType == "internal" ==>
      Convert(Link(linkType, url, newTab, children))
        == Many([Element(ProseA, map["href" := url], ConvertAll(children))])
    ensures linkType != "custom" && linkType != "internal" ==>
      Convert(Link(linkType, url, newTab, children)) == Absent
  {
  }

  /** Converting a sequence converts each part on its own: a slot's result does not
      depend on its siblings. */
  lemma ConvertAllAppend(a: seq<Node>, b: seq<Node>)
    ensures ConvertAll(a + b) == ConvertAll(a) + ConvertAll(b)
  {
  }

  /** A child of unknown kind leaves an absent entry in its own slot and changes
      nothing around it. */
  lemma UnknownChildKeepsSlot(before: seq<Node>, kind: string, after: seq<Node>)
    ensures ConvertAll(before + [Other(kind)] + after)
         == ConvertAll(before) + [Absent] + ConvertAll(after)
  {
  }

  /** An unordered list of two list items becomes an unordered list element with exactly
      two list-item children, in input order. */
  lemma TwoItemList(first: seq<Node>, second: seq<Node>)
    ensures Convert(List("ul", [ListItem(first), ListItem(second)]))
         == One(Element(ProseUl, map[], [One(Element(ProseLi, map[], ConvertAll(first))),
                                         One(Element(ProseLi, map[], ConvertAll(second)))]))
  {
    var items := ConvertAll([ListItem(first), ListItem(second)]);
    assert items[0] == Convert(ListItem(first)) && items[1] == Convert(ListItem(second));
    assert items == [One(Element(ProseLi, map[], ConvertAll(first))), One(Element(ProseLi, map[], ConvertAll(second)))];
    assert ListVariant("ul") == Some(ProseUl);
  }
}
