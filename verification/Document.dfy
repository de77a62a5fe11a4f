/**
 * The document entry point: the component's render function checks that its
 * `content` prop is an object, converts `root.children` and wraps the result in a
 * `div`.
 */
module Document {
  import opened Lexical
  import opened View
  import opened Converter

  /** What the `root` property of the content object holds.  A root object always
      carries a `children` array: a root object without one makes the component throw,
      and that input is outside this model. */
  datatype RootField =
    | NoRoot                          // the object has no `root` key
    | RootNotObject                   // `root` is a string, number, boolean or undefined
    | RootNull                        // `root: null`
    | Root(children: seq<Node>)       // `root` is an object with its `children`

  /** The `content` prop.  A `null` prop passes the component's `typeof` check and then
      throws, so it is outside this model too. */
  datatype Content = NotObject | Object(root: RootField)

  /** What the render function returns: the empty string or one element tree. */
  datatype Rendered = EmptyString | Tree(tree: VNode)

  /** The converted top-level nodes: one slot per child of an object root, nothing
      when the root is missing, not an object, or null. */
  function ParseRoot(content: Content): (r: seq<Converted>)
    requires content.Object?
    ensures content.root.Root? ==> ConvertsEach(r, content.root.children)
    ensures !content.root.Root? ==> r == []
  {
    match content.root
    case Root(children) => ConvertAll(children)
    case _ => []
  }

  /** The component's render function for a given `content` prop. */
  function Render(content: Content): (r: Rendered)
    ensures r == EmptyString <==> content.NotObject?
    ensures r.Tree? ==> r.tree.Element? && r.tree.variant == Div && r.tree.attrs == map[]
    ensures r.Tree? && content.root.Root? ==> ConvertsEach(r.tree.children, content.root.children)
    ensures r.Tree? && !content.root.Root? ==> r.tree.children == []
  {
    if content.NotObject? then EmptyString
    else Tree(Element(Div, map[], ParseRoot(content)))
  }

  /** Content without a usable root renders an empty `div`; a root with no children
      does too. */
  lemma RenderWithoutContent(content: Content)
    requires content.Object?
    requires content.root.Root? ==> content.root.children == []
    ensures Render(content) == Tree(Element(Div, map[], []))
  {
  }
}
