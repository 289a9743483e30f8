/**
  The drawing tool selection of the toolbar: the `DrawingTool` enum, its
  display name and icon, the colour-change rule, and the `COLORS` palette
  table of the colour picker.

  The pixel colour type is not defined in this model; the tool is generic
  over it, and the palette table uses the eight named palette constants.
*/
module Toolbar {

  /** The eight palette constants the toolbar offers. */
  datatype PaletteColor = Black | Red | Green | Blue | Yellow | Magenta | Cyan | White

  const AllPaletteColors: set<PaletteColor> := {Black, Red, Green, Blue, Yellow, Magenta, Cyan, White}

  datatype DrawingTool<C> = Pen(color: C) | Eraser | BucketFill(color: C)

  /** `Default for DrawingTool`: a black pen. */
  function DefaultTool(): (t: DrawingTool<PaletteColor>)
    ensures t.Pen? && t.color == Black
    ensures Name(t) == "Pen"
  {
    Pen(Black)
  }

  /**
    `DrawingTool::icon`: one emoji per kind (the pen's carries a variation
    selector); its first code point tells the kinds apart.
  */
  function Icon<C>(t: DrawingTool<C>): (r: string)
    ensures 1 <= |r| <= 2
    ensures r[0] == (if t.Pen? then '\U{270F}' else if t.Eraser? then '\U{1F9FD}' else '\U{1FAA3}')
  {
    match t
    case Pen(_) => "\U{270F}\U{FE0F}"
    case Eraser => "\U{1F9FD}"
    case BucketFill(_) => "\U{1FAA3}"
  }

  /** `DrawingTool::name`: a non-empty label whose first letter tells the kinds apart. */
  function Name<C>(t: DrawingTool<C>): (r: string)
    ensures |r| > 0
    ensures r[0] == (if t.Pen? then 'P' else if t.Eraser? then 'E' else 'B')
  {
    match t
    case Pen(_) => "Pen"
    case Eraser => "Eraser"
    case BucketFill(_) => "Bucket Fill"
  }

  predicate SameKind<C>(a: DrawingTool<C>, b: DrawingTool<C>) {
    (a.Pen? && b.Pen?) || (a.Eraser? && b.Eraser?) || (a.BucketFill? && b.BucketFill?)
  }

  /** The name, and equally the icon, tells the three kinds of tool apart. */
  lemma NameAndIconIdentifyKind<C>(a: DrawingTool<C>, b: DrawingTool<C>)
    ensures Name(a) == Name(b) <==> SameKind(a, b)
    ensures Icon(a) == Icon(b) <==> SameKind(a, b)
  {
    assert Name(a)[0] == Name(b)[0] ==> SameKind(a, b);
    assert Icon(a)[0] == Icon(b)[0] ==> SameKind(a, b);
  }

  /**
    `DrawingTool::change_color`: the eraser stays an eraser; a pen or a
    bucket keeps its kind and takes the new colour.
  */
  function ChangeColor<C>(t: DrawingTool<C>, color: C): (r: DrawingTool<C>)
    ensures SameKind(r, t)
    ensures t.Eraser? ==> r.Eraser?
    ensures !t.Eraser? ==> r.color == color
    ensures Name(r) == Name(t) && Icon(r) == Icon(t)
  {
    match t
    case Eraser => Eraser
    case Pen(_) => Pen(color)
    case BucketFill(_) => BucketFill(color)
  }

  /** Changing to the same colour twice is the same as once. */
  lemma ChangeColorIdempotent<C>(t: DrawingTool<C>, color: C)
    ensures ChangeColor(ChangeColor(t, color), color) == ChangeColor(t, color)
  {
  }

  /** Of two colour changes, only the last one shows. */
  lemma ChangeColorLastWins<C>(t: DrawingTool<C>, first: C, second: C)
    ensures ChangeColor(ChangeColor(t, first), second) == ChangeColor(t, second)
  {
  }

  /** `COLORS`: the colour picker's hex codes paired with the palette constants. */
  const Colors: seq<(string, PaletteColor)> := [
    ("#000000", Black),
    ("#ff0000", Red),
    ("#00ff00", Green),
    ("#0000ff", Blue),
    ("#ffff00", Yellow),
    ("#ff00ff", Magenta),
    ("#00ffff", Cyan),
    ("#ffffff", White)
  ]

  /** Which of the red, green and blue fields of a `#rrggbb` code are `ff`. */
  function Channels(hex: string): (bool, bool, bool)
    requires |hex| == 7
  {
    (hex[1] == 'f', hex[3] == 'f', hex[5] == 'f')
  }

  /** No two rows of the table share a hex code. */
  lemma ColorsHexDistinct()
    ensures forall i, j :: 0 <= i < j < |Colors| ==> Colors[i].0 != Colors[j].0
  {
    forall i, j | 0 <= i < j < |Colors|
      ensures Colors[i].0 != Colors[j].0
    {
      assert Channels(Colors[i].0) != Channels(Colors[j].0);
    }
  }

  /** No two rows of the table share a colour. */
  lemma ColorsPaletteDistinct()
    ensures forall i, j :: 0 <= i < j < |Colors| ==> Colors[i].1 != Colors[j].1
  {
    forall i, j | 0 <= i < j < |Colors|
      ensures Colors[i].1 != Colors[j].1
    {
    }
  }

  /** Every palette colour has a row. */
  lemma ColorsCoverPalette()
    ensures (set i | 0 <= i < |Colors| :: Colors[i].1) == AllPaletteColors
  {
    var listed := set i | 0 <= i < |Colors| :: Colors[i].1;
    assert Colors[0].1 in listed && Colors[1].1 in listed && Colors[2].1 in listed && Colors[3].1 in listed;
    assert Colors[4].1 in listed && Colors[5].1 in listed && Colors[6].1 in listed && Colors[7].1 in listed;
  }

  /**
    The table has eight rows, no two with the same hex code or the same
    colour, and every palette colour has a row.
  */
  lemma ColorsTable()
    ensures |Colors| == 8
    ensures forall i, j :: 0 <= i < j < |Colors| ==> Colors[i].0 != Colors[j].0 && Colors[i].1 != Colors[j].1
    ensures (set i | 0 <= i < |Colors| :: Colors[i].1) == AllPaletteColors
  {
    ColorsHexDistinct();
    ColorsPaletteDistinct();
    ColorsCoverPalette();
  }
}
