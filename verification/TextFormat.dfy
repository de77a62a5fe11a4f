/**
 * The text branch of the converter: a text node becomes a `span` holding its string,
 * wrapped once per recognised format flag, in a fixed nesting order.
 */
module TextFormat {
  import opened Wrappers
  import opened Lexical
  import opened View

  /** The order in which wrappers are applied, innermost first. */
  const WrapOrder: seq<Flag> := [Bold, Italic, Underline, Subscript, Superscript, Strikethrough, Code]

  /** Nesting rank of each flag's wrapper: a lower rank always sits inside a higher one. */
  function Rank(f: Flag): nat
  {
    match f
    case Bold => 0
    case Italic => 1
    case Underline => 2
    case Subscript => 3
    case Superscript => 4
    case Strikethrough => 5
    case Code => 6
  }

  /** Ranks strictly increase along `fs`, so no flag occurs twice. */
  predicate Increasing(fs: seq<Flag>)
  {
    forall i, j :: 0 <= i < j < |fs| ==> Rank(fs[i]) < Rank(fs[j])
  }

  /** The unwrapped text element, `h('span', text)`. */
  function Plain(text: string): (r: VNode)
    ensures Unwrap(r) == None
  {
    Element(Span, map[], [One(TextLeaf(text))])
  }

  /** The wrapper flag `f` puts around `inner`. */
  function Wrap(f: Flag, inner: VNode): (r: VNode)
    ensures Unwrap(r) == Some((f, inner))
  {
    match f
    case Bold => Element(ProseStrong, map[], [One(inner)])
    case Italic => Element(ProseEm, map[], [One(inner)])
    case Underline => Element(Span, map["class" := Some("underline")], [One(inner)])
    case Subscript => Element(Sub, map[], [One(inner)])
    case Superscript => Element(Sup, map[], [One(inner)])
    case Strikethrough => Element(Span, map["class" := Some("line-through")], [One(inner)])
    case Code => Element(ProseCode, map[], [One(inner)])
  }

  /** The flag whose wrapper has this variant and these props, if any. */
  function WrapperFlag(variant: Variant, attrs: Attrs): Option<Flag>
  {
    match variant
    case ProseStrong => if attrs == map[] then Some(Bold) else None
    case ProseEm => if attrs == map[] then Some(Italic) else None
    case Sub => if attrs == map[] then Some(Subscript) else None
    case Sup => if attrs == map[] then Some(Superscript) else None
    case ProseCode => if attrs == map[] then Some(Code) else None
    case Span =>
      if attrs.Keys != {"class"} then None
      else if attrs["class"] == Some("underline") then Some(Underline)
      else if attrs["class"] == Some("line-through") then Some(Strikethrough)
      else None
    case _ => None
  }

  /** Reads back the outermost wrapper of `v`: its flag and the element inside it. */
  function Unwrap(v: VNode): (r: Option<(Flag, VNode)>)
    ensures r.Some? ==> r.value.1 < v
  {
    match v
    case Element(variant, attrs, children) =>
      if |children| == 1 && children[0].One? && WrapperFlag(variant, attrs).Some?
      then Some((WrapperFlag(variant, attrs).value, children[0].node))
      else None
    case TextLeaf(_) => None
  }

  /** The wrappers around `v`, innermost first. */
  function Layers(v: VNode): seq<Flag>
  {
    match Unwrap(v)
    case Some((f, inner)) => Layers(inner) + [f]
    case None => []
  }

  /** What is left of `v` once every wrapper is taken off. */
  function Core(v: VNode): VNode
  {
    match Unwrap(v)
    case Some((_, inner)) => Core(inner)
    case None => v
  }

  /** The flags of `order` that are set in `format`, kept in the order of `order`. */
  function Selected(order: seq<Flag>, format: nat): (r: seq<Flag>)
    ensures forall f :: f in r <==> f in order && HasFlag(format, f)
  {
    if order == [] then []
    else (if HasFlag(format, order[0]) then [order[0]] else []) + Selected(order[1..], format)
  }

  /** Selecting keeps the relative order of the flags it keeps. */
  lemma {:induction false} SelectedIncreasing(order: seq<Flag>, format: nat)
    requires Increasing(order)
    ensures Increasing(Selected(order, format))
  {
    if order != [] {
      SelectedIncreasing(order[1..], format);
      var rest := Selected(order[1..], format);
      forall g | g in rest ensures Rank(order[0]) < Rank(g) {
        var j :| 0 <= j < |order[1..]| && order[1..][j] == g;
        assert order[j + 1] == g;
      }
    }
  }

  /** Every recognised flag has its place in the wrapping order. */
  lemma InWrapOrder(f: Flag)
    ensures f in WrapOrder
  {
  }

  lemma WrapOrderIncreasing()
    ensures Increasing(WrapOrder)
  {
  }

  /** The chain of conditional re-wraps: each flag of `order` that `format` sets wraps
      the element built so far. */
  function ApplyWrappers(order: seq<Flag>, format: nat, v: VNode): VNode
  {
    if order == [] then v
    else ApplyWrappers(order[1..], format, if HasFlag(format, order[0]) then Wrap(order[0], v) else v)
  }

  /** The element a text node with this string and format word converts to. */
  function FormatText(text: string, format: nat): VNode
  {
    ApplyWrappers(WrapOrder, format, Plain(text))
  }

  lemma {:induction false} ApplyWrappersShape(order: seq<Flag>, format: nat, v: VNode)
    ensures Layers(ApplyWrappers(order, format, v)) == Layers(v) + Selected(order, format)
    ensures Core(ApplyWrappers(order, format, v)) == Core(v)
  {
    if order != [] {
      var w := if HasFlag(format, order[0]) then Wrap(order[0], v) else v;
      ApplyWrappersShape(order[1..], format, w);
    }
  }

  /** The variants a formatted text element can have at its outside. */
  predicate IsTextVariant(variant: Variant)
  {
    variant in {Span, Sub, Sup, ProseStrong, ProseEm, ProseCode}
  }

  lemma {:induction false} ApplyWrappersVariant(order: seq<Flag>, format: nat, v: VNode)
    requires v.Element? && IsTextVariant(v.variant)
    ensures ApplyWrappers(order, format, v).Element?
    ensures IsTextVariant(ApplyWrappers(order, format, v).variant)
  {
    if order != [] {
      var w := if HasFlag(format, order[0]) then Wrap(order[0], v) else v;
      ApplyWrappersVariant(order[1..], format, w);
    }
  }

  /** A converted text node is an inline element: never a block variant. */
  lemma FormatTextVariant(text: string, format: nat)
    ensures FormatText(text, format).Element?
    ensures IsTextVariant(FormatText(text, format).variant)
  {
    ApplyWrappersVariant(WrapOrder, format, Plain(text));
  }

  /** A converted text node is the plain span inside exactly the wrappers of the set
      recognised flags, innermost first in wrapping order. */
  lemma FormatTextShape(text: string, format: nat)
    ensures Layers(FormatText(text, format)) == Selected(WrapOrder, format)
    ensures Core(FormatText(text, format)) == Plain(text)
  {
    ApplyWrappersShape(WrapOrder, format, Plain(text));
  }

  lemma {:induction false} ApplyWrappersNoFlags(order: seq<Flag>, format: nat, v: VNode)
    requires forall f :: !HasFlag(format, f)
    ensures ApplyWrappers(order, format, v) == v
  {
    if order != [] {
      ApplyWrappersNoFlags(order[1..], format, v);
    }
  }

  /** With no recognised flag set, a text node converts to the bare span and nothing else. */
  lemma PlainWhenNoFlags(text: string, format: nat)
    requires forall f :: !HasFlag(format, f)
    ensures FormatText(text, format) == Plain(text)
  {
    ApplyWrappersNoFlags(WrapOrder, format, Plain(text));
  }

  /** A wrapper is present exactly when its flag is set. */
  lemma WrappedIffSet(text: string, format: nat, f: Flag)
    ensures f in Layers(FormatText(text, format)) <==> HasFlag(format, f)
  {
    FormatTextShape(text, format);
    assert f in WrapOrder;
  }

  /** Wrappers nest in the fixed order bold, italic, underline, sub, sup,
      strikethrough, code, from the inside out, whichever flags are set. */
  lemma WrapperOrder(text: string, format: nat)
    ensures Increasing(Layers(FormatText(text, format)))
  {
    FormatTextShape(text, format);
    WrapOrderIncreasing();
    SelectedIncreasing(WrapOrder, format);
  }

  lemma {:induction false} IncreasingCard(fs: seq<Flag>)
    requires Increasing(fs)
    ensures |set f | f in fs| == |fs|
  {
    if fs != [] {
      IncreasingCard(fs[1..]);
      assert (set f | f in fs) == {fs[0]} + set f | f in fs[1..];
    }
  }

  /** Each set recognised flag adds exactly one wrapper: the nesting depth is the
      number of recognised flags set. */
  lemma WrapperDepth(text: string, format: nat)
    ensures |Layers(FormatText(text, format))| == |set f | f in WrapOrder && HasFlag(format, f)|
  {
    var layers := Layers(FormatText(text, format));
    WrapperOrder(text, format);
    FormatTextShape(text, format);
    IncreasingCard(layers);
    assert (set f | f in layers) == set f | f in WrapOrder && HasFlag(format, f);
  }

  lemma {:induction false} ApplyWrappersAgree(order: seq<Flag>, a: nat, b: nat, v: VNode)
    requires forall f :: HasFlag(a, f) == HasFlag(b, f)
    ensures ApplyWrappers(order, a, v) == ApplyWrappers(order, b, v)
  {
    if order != [] {
      var w := if HasFlag(a, order[0]) then Wrap(order[0], v) else v;
      ApplyWrappersAgree(order[1..], a, b, w);
    }
  }

  /** Bits of the format word other than the seven recognised flags never change the
      result. */
  lemma IgnoresOtherBits(text: string, a: nat, b: nat)
    requires forall f :: HasFlag(a, f) == HasFlag(b, f)
    ensures FormatText(text, a) == FormatText(text, b)
  {
    ApplyWrappersAgree(WrapOrder, a, b, Plain(text));
  }

  /** Bold, italic and code together nest as code > italic > bold > span. */
  lemma BoldItalicCode(text: string)
    ensures FormatText(text, FormatOf({Bold, Italic, Code}))
         == Wrap(Code, Wrap(Italic, Wrap(Bold, Plain(text))))
  {
    var format := FormatOf({Bold, Italic, Code});
    FormatOfRoundTrip({Bold, Italic, Code});
    var w1 := Wrap(Bold, Plain(text));
    var w2 := Wrap(Italic, w1);
    var o := WrapOrder;
    assert ApplyWrappers(o, format, Plain(text)) == ApplyWrappers(o[1..], format, w1);
    assert ApplyWrappers(o[1..], format, w1) == ApplyWrappers(o[2..], format, w2);
    assert ApplyWrappers(o[2..], format, w2) == ApplyWrappers(o[3..], format, w2);
    assert ApplyWrappers(o[3..], format, w2) == ApplyWrappers(o[4..], format, w2);
    assert ApplyWrappers(o[4..], format, w2) == ApplyWrappers(o[5..], format, w2);
    assert ApplyWrappers(o[5..], format, w2) == ApplyWrappers(o[6..], format, w2);
    assert ApplyWrappers(o[6..], format, w2) == ApplyWrappers(o[7..], format, Wrap(Code, w2));
  }
}
