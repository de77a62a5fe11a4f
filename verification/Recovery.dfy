/**
 * What the converter keeps of its input.  For supported nodes (nodes in which nothing
 * converts to nothing), Normalize forgets exactly what conversion forgets
 * (unrecognised format bits, the spelling of a fallback heading tag, the children of
 * a horizontal rule, the new-tab flag of an internal link); Recover reads a node back
 * from its conversion.  Together they show that conversion loses nothing
 * else: two supported nodes convert alike exactly when their normal forms agree.
 */
module Recovery {
  import opened Wrappers
  import opened Lexical
  import opened View
  import opened TextFormat
  import opened Converter

  /** No node of the tree converts to nothing.  The children of a horizontal rule are
      never read, so they need not be supported. */
  predicate Supported(node: Node)
    decreases node
  {
    match node
    case Text(_, _) => true
    case HorizontalRule(_) => true
    case Other(_) => false
    case Heading(_, children) => AllSupported(children)
    case Paragraph(children) => AllSupported(children)
    case Quote(children) => AllSupported(children)
    case ListItem(children) => AllSupported(children)
    case List(tag, children) => (tag == "ol" || tag == "ul") && AllSupported(children)
    case Link(linkType, _, _, children) =>
      (linkType == "custom" || linkType == "internal") && AllSupported(children)
  }

  predicate AllSupported(nodes: seq<Node>)
    decreases nodes
  {
    forall i :: 0 <= i < |nodes| ==> Supported(nodes[i])
  }

  /** The flags of a format word that the converter reacts to. */
  function RecognisedFlags(format: nat): set<Flag>
  {
    set f | f in WrapOrder && HasFlag(format, f)
  }

  /** The canonical node with the same conversion as `node`. */
  function Normalize(node: Node): Node
    decreases node
  {
    match node
    case Text(text, format) => Text(text, FormatOf(RecognisedFlags(format)))
    case Heading(tag, children) => Heading(HeadingTag(HeadingVariant(tag)), NormalizeAll(children))
    case Paragraph(children) => Paragraph(NormalizeAll(children))
    case Quote(children) => Quote(NormalizeAll(children))
    case List(tag, children) => List(tag, NormalizeAll(children))
    case ListItem(children) => ListItem(NormalizeAll(children))
    case HorizontalRule(_) => HorizontalRule([])
    case Link(linkType, url, newTab, children) =>
      Link(linkType, url, linkType == "custom" && newTab, NormalizeAll(children))
    case Other(kind) => Other(kind)
  }

  function NormalizeAll(nodes: seq<Node>): (r: seq<Node>)
    decreases nodes
    ensures |r| == |nodes|
    ensures forall i :: 0 <= i < |nodes| ==> r[i] == Normalize(nodes[i])
  {
    if nodes == [] then [] else [Normalize(nodes[0])] + NormalizeAll(nodes[1..])
  }

  /** Reads back the node a conversion result came from, if it is one. */
  function Recover(r: Converted): Option<Node>
    decreases r
  {
    match r
    case One(v) => RecoverNode(v)
    case Many(vs) => if |vs| == 1 then RecoverLink(vs[0]) else None
    case Absent => None
  }

  /** Reads back a link from the anchor it became: a `target` marks a custom link. */
  function RecoverLink(v: VNode): Option<Node>
    decreases v
  {
    if v.Element? && v.variant == ProseA && "href" in v.attrs then
      match RecoverAll(v.children)
      case Some(children) =>
        var custom := "target" in v.attrs;
        Some(Link(if custom then "custom" else "internal", v.attrs["href"],
                  custom && v.attrs["target"] == Some("_blank"), children))
      case None => None
    else None
  }

  /** The element variants of block nodes that have children. */
  predicate IsBlockVariant(variant: Variant)
  {
    IsHeading(variant) || variant in {ProseP, ProseBlockquote, ProseOl, ProseUl, ProseLi}
  }

  /** The block node an element of this variant came from, given its children back. */
  function Block(variant: Variant, children: seq<Node>): Node
    requires IsBlockVariant(variant)
  {
    match variant
    case ProseP => Paragraph(children)
    case ProseBlockquote => Quote(children)
    case ProseOl => List("ol", children)
    case ProseUl => List("ul", children)
    case ProseLi => ListItem(children)
    case _ => Heading(HeadingTag(variant), children)
  }

  /** Reads back a block node from its element, or a text node from its wrapper chain. */
  function RecoverNode(v: VNode): Option<Node>
    decreases v
  {
    match v
    case TextLeaf(_) => None
    case Element(variant, _, children) =>
      if variant == ProseHr then Some(HorizontalRule([]))
      else if IsBlockVariant(variant) then
        match RecoverAll(children)
        case Some(nodes) => Some(Block(variant, nodes))
        case None => None
      else RecoverText(v)
  }

  /** Reads back a text node: the string from the innermost span, the flags from the
      wrappers around it. */
  function RecoverText(v: VNode): Option<Node>
  {
    var core := Core(v);
    if core.Element? && core.variant == Span && core.attrs == map[]
       && |core.children| == 1 && core.children[0].One? && core.children[0].node.TextLeaf?
    then Some(Text(core.children[0].node.text, FormatOf(set f | f in Layers(v))))
    else None
  }

  function RecoverAll(rs: seq<Converted>): Option<seq<Node>>
    decreases rs
  {
    if rs == [] then Some([])
    else
      match (Recover(rs[0]), RecoverAll(rs[1..]))
      case (Some(node), Some(nodes)) => Some([node] + nodes)
      case _ => None
  }

  lemma RecoverConvertText(text: string, format: nat)
    ensures RecoverNode(FormatText(text, format)) == Some(Normalize(Text(text, format)))
  {
    var v := FormatText(text, format);
    FormatTextVariant(text, format);
    FormatTextShape(text, format);
    assert !IsBlockVariant(v.variant) && v.variant != ProseHr;
    assert RecoverNode(v) == RecoverText(v);
    var flags := set f | f in Layers(v);
    assert flags == RecognisedFlags(format);
    assert RecoverText(v) == Some(Text(text, FormatOf(flags)));
  }

  lemma {:induction false} RecoverConvertLink(linkType: string, url: Option<string>, newTab: bool, children: seq<Node>)
    requires linkType == "custom" || linkType == "internal"
    requires AllSupported(children)
    ensures Recover(Convert(Link(linkType, url, newTab, children)))
         == Some(Normalize(Link(linkType, url, newTab, children)))
    decreases children, 1
  {
    RecoverConvertAll(children);
    var attrs := LinkAttrs(linkType, url, newTab).value;
    var anchor := Element(ProseA, attrs, ConvertAll(children));
    assert Convert(Link(linkType, url, newTab, children)) == Many([anchor]);
    assert "href" in attrs && attrs["href"] == url;
    var custom := "target" in attrs;
    assert custom == (linkType == "custom");
    assert (custom && attrs["target"] == Some("_blank")) == (linkType == "custom" && newTab);
    assert RecoverLink(anchor)
        == Some(Link(linkType, url, linkType == "custom" && newTab, NormalizeAll(children)));
  }

  lemma {:induction false} RecoverBlockElement(variant: Variant, attrs: Attrs, children: seq<Node>)
    requires IsBlockVariant(variant)
    requires AllSupported(children)
    ensures RecoverNode(Element(variant, attrs, ConvertAll(children))) == Some(Block(variant, NormalizeAll(children)))
    decreases children, 1
  {
    RecoverConvertAll(children);
  }

  lemma {:induction false} RecoverConvertHeading(tag: string, children: seq<Node>)
    requires AllSupported(children)
    ensures Recover(Convert(Heading(tag, children))) == Some(Normalize(Heading(tag, children)))
    decreases children, 2
  {
    RecoverBlockElement(HeadingVariant(tag), map[], children);
  }

  lemma {:induction false} RecoverConvertList(tag: string, children: seq<Node>)
    requires tag == "ol" || tag == "ul"
    requires AllSupported(children)
    ensures Recover(Convert(List(tag, children))) == Some(Normalize(List(tag, children)))
    decreases children, 2
  {
    RecoverBlockElement(ListVariant(tag).value, map[], children);
  }

  lemma {:induction false} RecoverConvertContainer(node: Node)
    requires node.Paragraph? || node.Quote? || node.ListItem?
    requires AllSupported(node.children)
    ensures Recover(Convert(node)) == Some(Normalize(node))
    decreases node.children, 2
  {
    var variant := if node.Paragraph? then ProseP else if node.Quote? then ProseBlockquote else ProseLi;
    assert Convert(node) == One(Element(variant, map[], ConvertAll(node.children)));
    RecoverBlockElement(variant, map[], node.children);
  }

  /** Conversion can be undone up to normalisation: a supported node is read back from
      what it converts to. */
  lemma {:induction false} RecoverConvert(node: Node)
    requires Supported(node)
    ensures Recover(Convert(node)) == Some(Normalize(node))
    decreases node, 3
  {
    match node
    case Text(text, format) =>
      RecoverConvertText(text, format);
    case HorizontalRule(_) =>
    case Link(linkType, url, newTab, children) =>
      RecoverConvertLink(linkType, url, newTab, children);
    case Heading(tag, children) =>
      RecoverConvertHeading(tag, children);
    case List(tag, children) =>
      RecoverConvertList(tag, children);
    case _ =>
      RecoverConvertContainer(node);
  }

  lemma {:induction false} RecoverConvertAll(nodes: seq<Node>)
    requires AllSupported(nodes)
    ensures RecoverAll(ConvertAll(nodes)) == Some(NormalizeAll(nodes))
    decreases nodes, 0
  {
    if nodes != [] {
      RecoverConvert(nodes[0]);
      RecoverConvertAll(nodes[1..]);
      assert ConvertAll(nodes)[1..] == ConvertAll(nodes[1..]);
    }
  }

  /** Normalising never changes what a node converts to. */
  lemma {:induction false} ConvertNormalize(node: Node)
    ensures Convert(Normalize(node)) == Convert(node)
    decreases node
  {
    match node
    case Text(text, format) =>
      FormatOfRoundTrip(RecognisedFlags(format));
      forall f ensures f in WrapOrder {
        InWrapOrder(f);
      }
      IgnoresOtherBits(text, FormatOf(RecognisedFlags(format)), format);
    case HorizontalRule(_) =>
    case Other(_) =>
    case Heading(tag, children) =>
      ConvertAllNormalize(children);
    case Paragraph(children) =>
      ConvertAllNormalize(children);
    case Quote(children) =>
      ConvertAllNormalize(children);
    case ListItem(children) =>
      ConvertAllNormalize(children);
    case List(tag, children) =>
      ConvertAllNormalize(children);
    case Link(linkType, url, newTab, children) =>
      ConvertAllNormalize(children);
  }

  lemma {:induction false} ConvertAllNormalize(nodes: seq<Node>)
    ensures ConvertAll(NormalizeAll(nodes)) == ConvertAll(nodes)
    decreases nodes
  {
    forall i | 0 <= i < |nodes|
      ensures ConvertAll(NormalizeAll(nodes))[i] == ConvertAll(nodes)[i]
    {
      ConvertNormalize(nodes[i]);
    }
  }

  /** Two supported nodes convert to the same result exactly when they have the same
      normal form: conversion forgets what Normalize forgets and nothing more. */
  lemma ConvertSeparates(a: Node, b: Node)
    requires Supported(a) && Supported(b)
    ensures Convert(a) == Convert(b) <==> Normalize(a) == Normalize(b)
  {
    RecoverConvert(a);
    RecoverConvert(b);
    ConvertNormalize(a);
    ConvertNormalize(b);
  }
}
