/**
 * The view-element descriptors the converter builds: what Vue's `h()` returns, seen
 * as a value.  An element names the component or HTML tag it renders, carries its
 * props and holds its child slots; a text leaf is a raw string child.
 */
module View {
  import opened Wrappers

  /** The element variants the converter selects: plain HTML tags and the `Prose*`
      components (the lazily loaded sixth-level heading is `ProseH6`). */
  datatype Variant =
    | Span | Sub | Sup | Div
    | ProseStrong | ProseEm | ProseCode
    | ProseH1 | ProseH2 | ProseH3 | ProseH4 | ProseH5 | ProseH6
    | ProseP | ProseBlockquote | ProseOl | ProseUl | ProseLi | ProseHr | ProseA

  /** Props of an element.  A key whose value is `None` is present but `undefined`
      (an `href` taken from a link without a URL). */
  type Attrs = map<string, Option<string>>

  datatype VNode =
    | Element(variant: Variant, attrs: Attrs, children: seq<Converted>)
    | TextLeaf(text: string)

  /** What converting one node yields: nothing, one element, or an array of elements.
      Child slots hold these as they come, so an absent result stays in its slot. */
  datatype Converted = Absent | One(node: VNode) | Many(nodes: seq<VNode>)
}
