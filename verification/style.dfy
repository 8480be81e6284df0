/**
 * `addFormat`: the style codes written before literal text in legacy mode. The effective
 * attributes (inherited from parents) and the text of each `ChatColor` are inputs here.
 */
module Style {

  /** The node's effective style as `getColor()`, `isBold()`, ... report it: the colour's
      printed form and the five decoration flags. */
  datatype Format = Format(color: string, bold: bool, italic: bool, underlined: bool, strikethrough: bool, obfuscated: bool)

  /** What `ChatColor.BOLD`, `ITALIC`, `UNDERLINE`, `STRIKETHROUGH` and `MAGIC` print as. */
  datatype Markers = Markers(bold: string, italic: string, underline: string, strikethrough: string, magic: string)

  /** The text `addFormat` appends: the colour, then each set decoration's marker in the
      fixed order bold, italic, underline, strikethrough, magic. */
  function AddFormat(f: Format, mk: Markers): (r: string)
    ensures |r| >= |f.color| && r[..|f.color|] == f.color
    ensures !f.bold && !f.italic && !f.underlined && !f.strikethrough && !f.obfuscated ==> r == f.color
  {
    f.color
      + (if f.bold then mk.bold else [])
      + (if f.italic then mk.italic else [])
      + (if f.underlined then mk.underline else [])
      + (if f.strikethrough then mk.strikethrough else [])
      + (if f.obfuscated then mk.magic else [])
  }

  datatype Decoration = Bold | Italic | Underline | Strikethrough | Magic

  /** The order in which `addFormat` considers the decorations. */
  const Order: seq<Decoration> := [Bold, Italic, Underline, Strikethrough, Magic]

  predicate IsOn(f: Format, d: Decoration) {
    match d
    case Bold => f.bold
    case Italic => f.italic
    case Underline => f.underlined
    case Strikethrough => f.strikethrough
    case Magic => f.obfuscated
  }

  function MarkerOf(mk: Markers, d: Decoration): string {
    match d
    case Bold => mk.bold
    case Italic => mk.italic
    case Underline => mk.underline
    case Strikethrough => mk.strikethrough
    case Magic => mk.magic
  }

  /** The decorations of `ds` that are set in `f`, in their order in `ds`. */
  function Emitted(f: Format, ds: seq<Decoration>): seq<Decoration> {
    if ds == [] then [] else (if IsOn(f, ds[0]) then [ds[0]] else []) + Emitted(f, ds[1..])
  }

  /** The markers of `ds`, concatenated in order. */
  function Join(mk: Markers, ds: seq<Decoration>): string {
    if ds == [] then [] else MarkerOf(mk, ds[0]) + Join(mk, ds[1..])
  }

  /** The markers of the set decorations of `ds`: the first one's, if set, then the rest's. */
  lemma JoinEmittedCons(f: Format, mk: Markers, ds: seq<Decoration>)
    requires ds != []
    ensures Join(mk, Emitted(f, ds))
         == (if IsOn(f, ds[0]) then MarkerOf(mk, ds[0]) else []) + Join(mk, Emitted(f, ds[1..]))
  {
    var a := if IsOn(f, ds[0]) then [ds[0]] else [];
    var b := Emitted(f, ds[1..]);
    if a == [] {
      assert a + b == b;
    } else {
      assert (a + b)[0] == ds[0];
      assert (a + b)[1..] == b;
    }
  }

  lemma EveryDecorationIsOrdered(d: Decoration)
    ensures d in Order
  {
    match d
    case Bold => assert Order[0] == d;
    case Italic => assert Order[1] == d;
    case Underline => assert Order[2] == d;
    case Strikethrough => assert Order[3] == d;
    case Magic => assert Order[4] == d;
  }

  /** `addFormat` is the colour followed by the markers of exactly the set decorations,
      taken in the fixed order. */
  lemma AddFormatIsOrderedMarkers(f: Format, mk: Markers)
    ensures AddFormat(f, mk) == f.color + Join(mk, Emitted(f, Order))
  {
    var b := if f.bold then mk.bold else [];
    var i := if f.italic then mk.italic else [];
    var u := if f.underlined then mk.underline else [];
    var s := if f.strikethrough then mk.strikethrough else [];
    var m := if f.obfuscated then mk.magic else [];
    assert Order[1..] == [Italic, Underline, Strikethrough, Magic];
    assert Order[2..] == [Underline, Strikethrough, Magic];
    assert Order[3..] == [Strikethrough, Magic];
    assert Order[4..] == [Magic];
    assert Order[5..] == [];
    JoinEmittedCons(f, mk, Order[4..]);
    assert Order[4..][1..] == Order[5..];
    JoinEmittedCons(f, mk, Order[3..]);
    assert Order[3..][1..] == Order[4..];
    JoinEmittedCons(f, mk, Order[2..]);
    assert Order[2..][1..] == Order[3..];
    JoinEmittedCons(f, mk, Order[1..]);
    assert Order[1..][1..] == Order[2..];
    JoinEmittedCons(f, mk, Order);
    assert m + [] == m;
    var tail := b + (i + (u + (s + m)));
    assert Join(mk, Emitted(f, Order)) == tail;
    Assoc(f.color, b, i + (u + (s + m)));
    Assoc(f.color + b, i, u + (s + m));
    Assoc(f.color + b + i, u, s + m);
    Assoc(f.color + b + i + u, s, m);
  }

  lemma Assoc(x: string, y: string, z: string)
    ensures x + (y + z) == x + y + z
  {
  }

  /** Filtering keeps exactly the members that are set. */
  lemma {:induction false} EmittedMembers(f: Format, ds: seq<Decoration>, d: Decoration)
    ensures d in Emitted(f, ds) <==> d in ds && IsOn(f, d)
    decreases |ds|
  {
    if ds != [] {
      EmittedMembers(f, ds[1..], d);
      assert d in ds <==> d == ds[0] || d in ds[1..];
    }
  }

  /** The decorations `addFormat` emits are exactly the ones that are set. */
  lemma EmittedAreTheSetOnes(f: Format)
    ensures forall d :: d in Emitted(f, Order) <==> IsOn(f, d)
  {
    forall d
      ensures d in Emitted(f, Order) <==> IsOn(f, d)
    {
      EveryDecorationIsOrdered(d);
      EmittedMembers(f, Order, d);
    }
  }
}
