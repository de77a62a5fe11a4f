# Payload rich text to view tree, in Dafny

This project models the rich-text renderer of a Nuxt UI front end for Payload CMS.
The component `app/components/PayloadRichText.ts` takes a document that the Lexical
editor serialized as JSON. It walks the node tree and builds Vue view nodes:
`Prose*` components and plain HTML tags.

The converter (`parseChildren`) dispatches on the node's `type`:

- A text node becomes a `span` holding its string. Each recognised format flag
  wraps it once, in a fixed order from the inside out: bold, italic, underline,
  subscript, superscript, strikethrough, code.
- Headings, paragraphs, quotes, lists and list items become one element of their
  own variant. Its child slots hold the node's children, converted one by one.
- A horizontal rule becomes a bare rule element.
- A link becomes a one-element array holding an anchor.
- Unknown node kinds, lists with an unknown tag and links with an unknown link
  type become nothing.

`setup` checks once that the `content` prop is an object. If it is not, the render
function it returns gives `''`. Otherwise the render function converts
`root.children` (through `parseRoot`) and wraps the result in a `div`.

Modules:

- `Wrappers` (Wrappers.dfy): `Option`.
- `Lexical` (Lexical.dfy): the input node tree, the seven format flags and the bit test on the format word.
- `View` (View.dfy): view nodes (`Element` with variant, props and child slots; `TextLeaf`) and the three kinds of conversion result (`Absent`, `One`, `Many`).
- `TextFormat` (TextFormat.dfy): the text branch, written as a fold over the ordered flag list. It also holds the decoder (`Unwrap`, `Layers`, `Core`) used to state the shape of the result.
- `Converter` (Converter.dfy): `Convert` (`parseChildren`) and `ConvertAll` (`children.map(parseChildren)`), the tag and link-type dispatch, and one lemma per node kind.
- `Document` (Document.dfy): `ParseRoot` and `Render`, the entry point.
- `Recovery` (Recovery.dfy): for supported nodes (no node in the tree converts to nothing), `Normalize` forgets exactly what conversion forgets. `Recover` reads a node back from its conversion. Together they prove that two supported nodes convert alike exactly when their normal forms agree.

Behaviour of the component worth knowing:

- A child of unknown kind is not removed from its parent's children. It leaves an
  absent entry (`undefined`) in its own slot.
- Content without a usable `root` does not render as nothing. It renders as an empty `div`.
- A `null` content prop does not render as empty output. It passes `typeof === 'object'` and then makes `"root" in null` throw. That input is outside the model.

## Model

| member | source | states |
|---|---|---|
| `Lexical.BitOf` | app/components/PayloadRichText.ts:2-8 | each imported flag constant is one bit, at a position below the seven low bits; `FlagAt` states that no two flags share a position |
| `Lexical.TestBit` | app/components/PayloadRichText.ts:48-75 | bit k of the format word, i.e. `format & (1 << k)` is non-zero; specified by `TestBitFromBits`, which reads back every bit of a word built from a bit list |
| `Lexical.TestBitFromBits` | app/components/PayloadRichText.ts:48-75 | the bit test returns exactly the k-th digit of a number built from binary digits, and false past the last digit |
| `Lexical.HasFlag` | app/components/PayloadRichText.ts:48-75 | the tests `format & IS_BOLD`, `format & IS_ITALIC`, … at lines 48, 53, 59, 63, 67, 71 and 75; specified by `FormatOfRoundTrip` |
| `TextFormat.Plain` | app/components/PayloadRichText.ts:46 | `h('span', text)`: a span with no props holding the string, and not itself a wrapper (its contract says `Unwrap` finds no flag on it) |
| `TextFormat.ApplyWrappers` | app/components/PayloadRichText.ts:48-79 | the chain of seven conditional re-wraps as a fold over the flag order; specified by `ApplyWrappersShape` and `ApplyWrappersNoFlags` |
| `TextFormat.ApplyWrappersShape` | app/components/PayloadRichText.ts:48-79 | the fold adds exactly the set flags of the order as wrappers, in order, around an unchanged core |
| `TextFormat.ApplyWrappersNoFlags` | app/components/PayloadRichText.ts:48-79 | when no recognised flag is set, the fold leaves the element unchanged |
| `TextFormat.FormatText` | app/components/PayloadRichText.ts:43-81 | the whole text branch; specified by `FormatTextShape`, `PlainWhenNoFlags`, `WrappedIffSet`, `WrapperOrder` and `WrapperDepth` |
| `Lexical.FlagAt` | app/components/PayloadRichText.ts:1-8 | each of the seven imported format flags occupies its own bit position, and no two share one |
| `Lexical.FormatOfRoundTrip` | app/components/PayloadRichText.ts:48-79 | the bit test `format & IS_<flag>` reports a flag set exactly when the format word was built from a set containing it |
| `TextFormat.Wrap` | app/components/PayloadRichText.ts:48-79 | every wrapper (Strong, Em, span.underline, sub, sup, span.line-through, Code) is read back as its own flag around exactly the element it wrapped |
| `TextFormat.Selected` | app/components/PayloadRichText.ts:48-79 | the flags picked from the wrapping order are exactly those of the order that the format word sets |
| `TextFormat.FormatTextShape` | app/components/PayloadRichText.ts:43-81 | a converted text node is `span(text)` inside exactly the wrappers of the set recognised flags, innermost first in wrapping order |
| `TextFormat.PlainWhenNoFlags` | app/components/PayloadRichText.ts:46-81 | with none of the seven flags set, the result is exactly `span(text)` with no wrapper |
| `TextFormat.WrappedIffSet` | app/components/PayloadRichText.ts:48-79 | a flag's wrapper is present if and only if the flag is set |
| `TextFormat.WrapperOrder` | app/components/PayloadRichText.ts:48-79 | wrappers always nest bold inside italic inside underline inside sub inside sup inside strikethrough inside code, whatever subset is set |
| `TextFormat.WrapperDepth` | app/components/PayloadRichText.ts:48-79 | the wrapper depth equals the number of recognised flags set: each adds exactly one wrapper |
| `TextFormat.IgnoresOtherBits` | app/components/PayloadRichText.ts:48-79 | two format words that agree on the seven flags give the same element, so any other bit (highlight, …) is ignored |
| `TextFormat.BoldItalicCode` | app/components/PayloadRichText.ts:48-79 | bold, italic and code together nest as Code > Em > Strong > span |
| `TextFormat.FormatTextVariant` | app/components/PayloadRichText.ts:46-79 | a converted text node is an inline element (span, sub, sup, Strong, Em or Code), never a block |
| `Converter.HeadingVariant` | app/components/PayloadRichText.ts:87-100 | a heading tag selects a heading variant; it is H1 exactly when the tag is none of `h2`…`h6` |
| `Converter.HeadingTag` | app/components/PayloadRichText.ts:87-100 | each heading variant is selected by its own tag (`h1` falls to the default H1) |
| `Converter.HeadingTagOfVariant` | app/components/PayloadRichText.ts:87-97 | a tag `h2`…`h6` is read back from the variant it selects |
| `Converter.ListVariant` | app/components/PayloadRichText.ts:118-123 | `ol` selects Ol, `ul` selects Ul, and any other tag selects nothing |
| `Converter.LinkAttrs` | app/components/PayloadRichText.ts:156-166 | custom and internal links, and only they, get props; `href` is the URL; `target` is present only on a custom link and is `_blank` when `newTab` holds, `_self` otherwise; no other prop is set |
| `Converter.Convert` | app/components/PayloadRichText.ts:39-168 | a node converts to nothing exactly when it is of unknown kind, a list with an unknown tag or a link with an unknown type; to an array exactly when it is a link of a known type, and that array holds one anchor |
| `Converter.ConvertAll` | app/components/PayloadRichText.ts:103-107 | the children are converted slot by slot: same length, and slot i holds the conversion of child i |
| `Converter.ConvertText` | app/components/PayloadRichText.ts:43-82 | a text node converts to one element whose core is `span(text)` and whose wrappers are the set recognised flags in wrapping order |
| `Converter.ConvertHeading` | app/components/PayloadRichText.ts:84-101 | a heading converts to one element of the variant its tag selects, with no props, holding its converted children in order |
| `Converter.ConvertContainer` | app/components/PayloadRichText.ts:103-133 | paragraph, quote and list item convert to one P, Blockquote or Li element with no props, holding their converted children in order |
| `Converter.ConvertList` | app/components/PayloadRichText.ts:115-124 | an `ol` list gives an Ol element, a `ul` list a Ul element, each holding the converted children; any other tag gives nothing |
| `Converter.ConvertHorizontalRule` | app/components/PayloadRichText.ts:126-128 | a horizontal rule gives a bare Hr element with no props and no children, even when the node carries children |
| `Converter.ConvertLink` | app/components/PayloadRichText.ts:135-167 | a custom link gives `[A{href, target}]`, an internal link `[A{href}]`, both holding the converted children; any other link type gives nothing and drops the children |
| `Converter.ConvertAllAppend` | app/components/PayloadRichText.ts:103-107 | converting a concatenation is concatenating the conversions: no slot depends on its siblings |
| `Converter.UnknownChildKeepsSlot` | app/components/PayloadRichText.ts:130-168 | a child of unknown kind leaves an absent entry in its own slot; the slots before and after it are unchanged |
| `Converter.TwoItemList` | app/components/PayloadRichText.ts:115-133 | a `ul` list of two list items gives a Ul element with exactly two Li children, in input order |
| `Document.ParseRoot` | app/components/PayloadRichText.ts:170-176 | with an object root, one slot per root child, each the conversion of that child; with a missing, non-object or null root, no slots |
| `Document.Render` | app/components/PayloadRichText.ts:193-199 | non-object content renders the empty string; object content renders a `div` without props whose children are the converted root children (none without a usable root) |
| `Document.RenderWithoutContent` | app/components/PayloadRichText.ts:170-198 | content with no root, a non-object or null root, or an empty root renders an empty `div` |
| `Recovery.RecoverConvert` | app/components/PayloadRichText.ts:39-168 | a node in which nothing is dropped is read back from its conversion, up to normalisation |
| `Recovery.ConvertNormalize` | app/components/PayloadRichText.ts:39-168 | normalising a node (recognised flags only, canonical heading tag, no children on a rule, no new-tab flag on an internal link) never changes its conversion |
| `Recovery.ConvertSeparates` | app/components/PayloadRichText.ts:39-168 | two nodes in which nothing is dropped convert alike if and only if their normal forms are equal |

## Left out

- Vue's `h()` and the `Prose*` components are not modelled as code. They become the `View.Element` constructor and the `View.Variant` enumeration. Slot closures such as `() => _scopedVNode` are the element's child slots. How Vue normalises, mounts or renders these values is not part of this model.
- The lazy loading of the sixth-level heading component is not modelled. It is a bundling concern, so `LazyProseH6` is the ordinary variant `ProseH6`.
- The `props` declaration and the component object are Vue glue and are not modelled.
- Document.Render: applies the `typeof` test of `setup` (line 194) and the render closure (line 198) to one and the same `content` value. In the component the test runs once, in `setup`, while the closure reads `props.content` again on every render. The model assumes `content` keeps its type between setup and every render. It does not capture content that turns from an object into a non-object after setup, which then throws at `"root" in node` (line 171). Nor does it capture content that starts as a non-object and later becomes an object, which keeps rendering `''`.
- The numeric values of the format flags come from the `lexical` package, which is not part of this model. The bit positions in `Lexical.BitOf` are Lexical's. The proofs use only that they are distinct and below seven (`Lexical.FlagBits`), as the contracts of `FlagAt` and `BitOf` state.
- Lexical flags beyond the seven (highlight, for one) have no constructor. The converter never tests them; `TextFormat.IgnoresOtherBits` covers them.
- The format word is a non-negative integer. JavaScript's `&` truncates to 32 bits, and that truncation keeps all seven flag bits, so it is not modelled further.
- The link fields `doc` and `relationTo` are declared but never read, so they are left out.
- Inputs on which the component throws are excluded by the input types, not modelled as empty output. They are:
  - a `null` content prop, which passes the `typeof` test and then makes `"root" in null` throw (lines 171, 194);
  - a `root` object without a `children` array, on which `.map` throws (line 172);
  - a `link` node without `fields`, on which `_n.fields.linkType` throws (line 156);
  - a heading, paragraph, quote, list, list item or link node without `children`, on which `.map` throws when the slot runs (lines 89-99, 106, 112, 120-122, 132, 161, 165);
  - a `null` entry in a `children` array, on which `node.type` throws (line 43).
- Determinism needs no lemma: every member is a function, so equal inputs give equal outputs.
