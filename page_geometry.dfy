/**
  The page abstraction the format checker works on, and the pure geometry of
  the margin check: which margin a glyph box falls into, the part of it that
  is visible inside that margin, and what one sampled box contributes.
  Coordinates are PDF points at 72 per inch, with `top`/`bottom` measured
  from the top edge of the page.
 */
module PageGeometry {
  import opened Optional

  /** A4 at 72 points per inch: 595 x 842 (21 cm x 29.7 cm). */
  const PageWidth: int := 595
  const PageHeight: int := 842
  /** 57 points = 2 cm (top margin); 71 points = 2.5 cm (left and right margins). */
  const TopMargin: int := 57
  const SideMargin: int := 71

  /** A glyph box as the PDF extraction reports it. */
  datatype Box = Box(x0: real, top: real, x1: real, bottom: real)

  /** A colour as the extraction reports it: a number, a tuple or a list of components. */
  datatype Colour = Scalar(v: real) | Tuple(components: seq<real>) | List(components: seq<real>)

  /** One extracted word: its box, its fill (non-stroking) and stroke colours. */
  datatype Word = Word(box: Box, fill: Option<Colour>, stroke: Option<Colour>)

  /**
    One page of the document, as given by the PDF extraction. A `None` field
    stands for an extraction call that raises on this page.
   */
  datatype Page = Page(
    width: real,
    height: real,
    images: Option<seq<Box>>,     // `p.images`
    words: Option<seq<Word>>,     // `p.extract_words(...)`
    chars: Option<seq<string>>,   // the font name of every character of `p.chars`
    text: Option<string>,         // `p.extract_text()`
    hyperlinks: seq<string>)      // the `uri` of every entry of `p.hyperlinks`

  datatype Side = Top | Left | Right

  /** How far each margin band is moved inwards; the session's default is (1, 2, 4.5). */
  datatype Offsets = Offsets(top: real, left: real, right: real)

  /** A crop rectangle (x0, y0, x1, y1). */
  datatype Rect = Rect(x0: real, y0: real, x1: real, y1: real)

  /**
    What rasterising a crop of the page gives: the mean pixel value, or an
    exception raised by the crop itself or by the rendering.
   */
  datatype Sample = Mean(value: real) | CropRaised | RenderRaised

  /** A recorded margin violation: the box and the margin it was classified into. */
  datatype Hit = Hit(box: Box, side: Side)

  /** Python's `int(x)`: truncation toward zero. */
  function Trunc(x: real): (n: int)
    ensures 0.0 <= x ==> n as real <= x < n as real + 1.0
    ensures x < 0.0 ==> n as real - 1.0 < x <= n as real
  {
    if x >= 0.0 then x.Floor else -((-x).Floor)
  }

  /** Python's `round(x)`: to the nearest integer, halves to the even neighbour. */
  function RoundHalfEven(x: real): (n: int)
    ensures n as real - 0.5 <= x <= n as real + 0.5
    ensures x == n as real - 0.5 || x == n as real + 0.5 ==> n % 2 == 0
  {
    var f := x.Floor;
    var frac := x - f as real;
    if frac < 0.5 then f
    else if frac > 0.5 then f + 1
    else if f % 2 == 0 then f
    else f + 1
  }

  /** The page-size test: the rounded size is 595 x 842. */
  predicate IsA4(p: Page) {
    (RoundHalfEven(p.width), RoundHalfEven(p.height)) == (PageWidth, PageHeight)
  }

  /**
    Because rounding goes to the even neighbour, the accepted widths form an
    OPEN interval around the odd 595 and the accepted heights a CLOSED one
    around the even 842.
   */
  lemma A4Range(p: Page)
    ensures IsA4(p) <==> 594.5 < p.width < 595.5 && 841.5 <= p.height <= 842.5
  {
    var w, h := RoundHalfEven(p.width), RoundHalfEven(p.height);
    if 594.5 < p.width < 595.5 {
      assert w == 595;
    }
    if 841.5 <= p.height <= 842.5 {
      assert h == 842;
    }
  }

  /**
    Which margin a box falls into, tested TOP, then LEFT, then RIGHT; the
    first test that holds decides, so a box gets at most one side. There is
    no BOTTOM test.
   */
  function Classify(b: Box, o: Offsets): (side: Option<Side>)
    ensures side == Some(Top) <==> Trunc(b.bottom) > 0 && b.top < (TopMargin as real - o.top)
    ensures side == Some(Left) <==>
      && !(Trunc(b.bottom) > 0 && b.top < TopMargin as real - o.top)
      && b.x0 < SideMargin as real - o.left && Trunc(b.x1) > 0
    ensures side == Some(Right) <==>
      && !(Trunc(b.bottom) > 0 && b.top < TopMargin as real - o.top)
      && !(b.x0 < SideMargin as real - o.left && Trunc(b.x1) > 0)
      && b.x1 > (PageWidth - SideMargin) as real + o.right && Trunc(b.x0) < PageWidth
    ensures side.None? <==>
      && !(Trunc(b.bottom) > 0 && b.top < TopMargin as real - o.top)
      && !(b.x0 < SideMargin as real - o.left && Trunc(b.x1) > 0)
      && !(b.x1 > (PageWidth - SideMargin) as real + o.right && Trunc(b.x0) < PageWidth)
  {
    if Trunc(b.bottom) > 0 && b.top < TopMargin as real - o.top then Some(Top)
    else if Trunc(b.x1) > 0 && b.x0 < SideMargin as real - o.left then Some(Left)
    else if Trunc(b.x0) < PageWidth && PageWidth as real - b.x1 < SideMargin as real - o.right then Some(Right)
    else None
  }

  /** The box keeps clear of all three margin bands. */
  predicate InsideMargins(b: Box, o: Offsets) {
    && b.top >= TopMargin as real - o.top
    && b.x0 >= SideMargin as real - o.left
    && PageWidth as real - b.x1 >= SideMargin as real - o.right
  }

  lemma InsideMarginsNeverClassified(b: Box, o: Offsets)
    requires InsideMargins(b, o)
    ensures Classify(b, o) == None
  {
  }

  function MaxReal(a: real, b: real): real { if a >= b then a else b }
  function MinReal(a: real, b: real): real { if a <= b then a else b }

  /**
    The visible overflow rectangle of a box classified into `side`: the box
    (with truncated coordinates) clipped to the page, and for RIGHT, LEFT
    and TOP also to the margin band. The LEFT clip uses the RIGHT offset.
   */
  function VisibleOverflow(b: Box, side: Side, o: Offsets): (r: Rect)
    ensures 0.0 <= r.x0 && r.x1 <= PageWidth as real && 0.0 <= r.y0 && r.y1 <= PageHeight as real
    ensures side == Right ==> r.x0 >= (PageWidth - SideMargin) as real + o.right
    ensures side == Left ==> r.x1 <= SideMargin as real - o.right
    ensures side == Top ==> r.y1 <= TopMargin as real - o.top
    ensures r.x1 <= Trunc(b.x1) as real && r.y1 <= Trunc(b.bottom) as real
    ensures r.x0 >= Trunc(b.x0) as real && r.y0 >= Trunc(b.top) as real
  {
    var x0 := MaxReal(0.0, Trunc(b.x0) as real);
    var x0 := if side == Right then MaxReal(x0, (PageWidth - SideMargin) as real + o.right) else x0;
    var x1 := MinReal(Trunc(b.x1) as real, PageWidth as real);
    var x1 := if side == Left then MinReal(x1, SideMargin as real - o.right) else x1;
    var y0 := MaxReal(0.0, Trunc(b.top) as real);
    var y1 := MinReal(Trunc(b.bottom) as real, PageHeight as real);
    var y1 := if side == Top then MinReal(y1, TopMargin as real - o.top) else y1;
    Rect(x0, y0, x1, y1)
  }

  /** Rectangles at most one point wide or high are too small to crop and are dropped. */
  predicate IsSliver(r: Rect) {
    r.x1 - r.x0 <= 1.0 || r.y1 - r.y0 <= 1.0
  }

  /** The rectangle that gets sampled for a box, if the box is classified and not a sliver. */
  function Candidate(b: Box, o: Offsets): (c: Option<(Side, Rect)>)
    ensures c.Some? <==> Classify(b, o).Some? && !IsSliver(VisibleOverflow(b, Classify(b, o).value, o))
    ensures c.Some? ==> c.value.0 == Classify(b, o).value
    ensures c.Some? ==> c.value.1.x1 - c.value.1.x0 > 1.0 && c.value.1.y1 - c.value.1.y0 > 1.0
  {
    match Classify(b, o)
    case None => None
    case Some(side) =>
      var r := VisibleOverflow(b, side, o);
      if IsSliver(r) then None else Some((side, r))
  }

  /** A sample shows a violation unless its mean equals the background exactly. */
  predicate ShowsInk(s: Sample, background: real) {
    s != Mean(background)
  }

  /**
    Words filled with black (the tuple (0, 0, 0) or the list [0]) or with no
    colour at all are ordinary body text and are not examined.
   */
  predicate IsPlainText(w: Word) {
    || w.fill == Some(Tuple([0.0, 0.0, 0.0]))
    || w.fill == Some(List([0.0]))
    || (w.fill == None && w.stroke == None)
  }

  /** The extra position test on words: starts left of the page edge, ends and bottoms at or after 0. */
  predicate OnPage(b: Box) {
    Trunc(b.x0) < PageWidth && Trunc(b.x1) >= 0 && Trunc(b.bottom) >= 0
  }

  /** What one image contributes: nothing, a recorded hit, or an exception that ends the page. */
  datatype ImageVerdict = ImageSkip | ImageRecord(hit: Hit) | ImageAbort

  /**
    One image of page `i`. Its crop is taken OUTSIDE the guarded rendering,
    so a crop that raises aborts the page; a rendering that raises records
    the image.
   */
  function ExamineImage(i: nat, b: Box, o: Offsets, background: real, raster: (nat, Rect) -> Sample): (v: ImageVerdict)
    ensures v.ImageRecord? <==>
      (Candidate(b, o).Some? && raster(i, Candidate(b, o).value.1) != CropRaised
       && ShowsInk(raster(i, Candidate(b, o).value.1), background))
    ensures v.ImageAbort? <==> Candidate(b, o).Some? && raster(i, Candidate(b, o).value.1) == CropRaised
    ensures v.ImageRecord? ==> v.hit == Hit(b, Classify(b, o).value)
  {
    match Candidate(b, o)
    case None => ImageSkip
    case Some((side, r)) =>
      match raster(i, r)
      case CropRaised => ImageAbort
      case RenderRaised => ImageRecord(Hit(b, side))
      case Mean(m) => if m != background then ImageRecord(Hit(b, side)) else ImageSkip
  }

  /** What one word contributes: nothing, a text hit, or (when sampling raises) an entry of the image list. */
  datatype WordVerdict = WordSkip | TextHit(hit: Hit) | ImageListHit(hit: Hit)

  function ExamineWord(i: nat, w: Word, o: Offsets, background: real, raster: (nat, Rect) -> Sample): (v: WordVerdict)
    ensures IsPlainText(w) ==> v == WordSkip
    ensures v.TextHit? <==>
      (!IsPlainText(w) && OnPage(w.box) && Candidate(w.box, o).Some?
       && raster(i, Candidate(w.box, o).value.1).Mean?
       && ShowsInk(raster(i, Candidate(w.box, o).value.1), background))
    ensures v.ImageListHit? <==>
      (!IsPlainText(w) && OnPage(w.box) && Candidate(w.box, o).Some?
       && !raster(i, Candidate(w.box, o).value.1).Mean?)
    ensures !v.WordSkip? ==> v.hit == Hit(w.box, Classify(w.box, o).value)
  {
    if IsPlainText(w) || Classify(w.box, o).None? || !OnPage(w.box) then WordSkip
    else
      match Candidate(w.box, o)
      case None => WordSkip
      case Some((side, r)) =>
        match raster(i, r)
        case Mean(m) => if m != background then TextHit(Hit(w.box, side)) else WordSkip
        case _ => ImageListHit(Hit(w.box, side))
  }
}
