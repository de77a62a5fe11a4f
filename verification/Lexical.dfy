/**
 * The serialized document tree that the Lexical editor (as configured by Payload CMS)
 * produces, restricted to what the rich-text converter reads: the node kinds it
 * recognises, their tags and link fields, and the format word of text nodes.
 */
module Lexical {
  import opened Wrappers

  /** One serialized node, discriminated by its `type`.  `Other` stands for every node
      whose `type` is none of the eight recognised ones; its contents are never read.
      A horizontal rule may carry children, which the converter ignores. */
  datatype Node =
    | Text(text: string, format: nat)
    | Heading(tag: string, children: seq<Node>)
    | Paragraph(children: seq<Node>)
    | Quote(children: seq<Node>)
    | List(tag: string, children: seq<Node>)
    | ListItem(children: seq<Node>)
    | HorizontalRule(children: seq<Node>)
    | Link(linkType: string, url: Option<string>, newTab: bool, children: seq<Node>)
    | Other(kind: string)

  /** The seven text-format flags the converter reacts to.  Lexical defines more
      (highlight, for one); the converter never tests them, so they have no
      constructor here and the bits that carry them are simply ignored. */
  datatype Flag = Bold | Italic | Strikethrough | Underline | Code | Subscript | Superscript

  /** Number of low bits of the format word that hold the recognised flags. */
  const FlagBits: nat := 7

  /** Bit position of each flag in a text node's format word (Lexical's IS_BOLD is
      1 << 0, IS_ITALIC 1 << 1, and so on).  No property below depends on these
      numbers beyond their being distinct, which FlagAt states, and below FlagBits,
      which this contract states. */
  function BitOf(f: Flag): (r: nat)
    ensures r < FlagBits
  {
    match f
    case Bold => 0
    case Italic => 1
    case Strikethrough => 2
    case Underline => 3
    case Code => 4
    case Subscript => 5
    case Superscript => 6
  }

  /** The flag stored at bit position `k`, if any: the inverse of BitOf. */
  function FlagAt(k: nat): (r: Option<Flag>)
    ensures r.Some? ==> BitOf(r.value) == k
    ensures forall f :: BitOf(f) == k ==> r == Some(f)
  {
    match k
    case 0 => Some(Bold)
    case 1 => Some(Italic)
    case 2 => Some(Strikethrough)
    case 3 => Some(Underline)
    case 4 => Some(Code)
    case 5 => Some(Subscript)
    case 6 => Some(Superscript)
    case _ => None
  }

  /** Bit `k` of `n`, that is, whether `n & (1 << k)` is non-zero.  For a non-negative
      format word, JavaScript's 32-bit `&` keeps the low 32 bits, so this is exact for
      every flag position used here. */
  function TestBit(n: nat, k: nat): bool
    decreases k
  {
    if k == 0 then n % 2 == 1 else TestBit(n / 2, k - 1)
  }

  /** `format & IS_<flag>` is truthy. */
  predicate HasFlag(format: nat, f: Flag)
  {
    TestBit(format, BitOf(f))
  }

  /** The number whose binary digits, least significant first, are `bits`. */
  function FromBits(bits: seq<bool>): nat
  {
    if bits == [] then 0 else (if bits[0] then 1 else 0) + 2 * FromBits(bits[1..])
  }

  lemma LowBit(b: nat, m: nat)
    requires b < 2
    ensures (b + 2 * m) % 2 == b && (b + 2 * m) / 2 == m
  {
  }

  lemma {:induction false} TestBitFromBits(bits: seq<bool>, k: nat)
    ensures TestBit(FromBits(bits), k) == (k < |bits| && bits[k])
    decreases k
  {
    if bits == [] {
      if k > 0 {
        TestBitFromBits(bits, k - 1);
      }
    } else {
      var b, m := if bits[0] then 1 else 0, FromBits(bits[1..]);
      assert FromBits(bits) == b + 2 * m;
      LowBit(b, m);
      if k > 0 {
        TestBitFromBits(bits[1..], k - 1);
      }
    }
  }

  /** A format word that sets exactly the given flags and no other bit. */
  function FormatOf(flags: set<Flag>): nat
  {
    FromBits(seq(FlagBits, k requires 0 <= k < FlagBits => FlagAt(k).Some? && FlagAt(k).value in flags))
  }

  /** FormatOf is the encoder HasFlag decodes: a flag tests set exactly when it was given. */
  lemma FormatOfRoundTrip(flags: set<Flag>)
    ensures forall f :: HasFlag(FormatOf(flags), f) <==> f in flags
  {
    var bits := seq(FlagBits, k requires 0 <= k < FlagBits => FlagAt(k).Some? && FlagAt(k).value in flags);
    forall f ensures HasFlag(FormatOf(flags), f) <==> f in flags {
      TestBitFromBits(bits, BitOf(f));
    }
  }
}
