/**
 The square of a profile photo: what the browser draws and sends, and what the server cuts. Floating
 point numbers are modelled as reals; the rounding to whole pixels and to four decimals is exact.
 */
module PhotoCrop {
  import opened Wrappers

  const MIN_SIDE := 64
  const MAX_SOURCE_PIXELS := 25_000_000

  function Min(a: int, b: int): int {
    if a < b then a else b
  }

  function Max(a: int, b: int): int {
    if a < b then b else a
  }

  /** Python's `round(x)`: to the nearest integer, halves to the even one. */
  function Round(x: real): (r: int)
    ensures x - 0.5 <= r as real <= x + 0.5
  {
    var f := x.Floor;
    assert f as real <= x < f as real + 1.0;
    var d := x - f as real;
    if d < 0.5 || (d == 0.5 && f % 2 == 0) then f else f + 1
  }

  /** JavaScript's `x.toFixed(4)`, read back as a number. */
  function Fixed4(x: real): (r: real)
    requires x >= 0.0
    ensures x - 0.00005 <= r <= x + 0.00005 && r >= 0.0
    ensures x <= 1.0 ==> r <= 1.0
  {
    var n := (x * 10000.0 + 0.5).Floor;
    assert n as real <= x * 10000.0 + 0.5 < n as real + 1.0;
    assert n >= 0;
    assert x <= 1.0 ==> n <= 10000;
    n as real / 10000.0
  }

  // ---------------------------------------------------------------- the server

  /** The square a person chose: left and top as a share of width and height, the side as a share of the
      shorter edge. */
  datatype Crop = Crop(x: real, y: real, size: real)

  /** `Crop.parse`, for texts that are numbers. */
  function Parse(x: real, y: real, size: real): Option<Crop> {
    if 0.0 <= x <= 1.0 && 0.0 <= y <= 1.0 && 0.05 <= size <= 1.0 then Some(Crop(x, y, size)) else None
  }

  /** Anything outside the picture, and a square of less than a twentieth of the shorter edge, is no crop. */
  lemma ParseRefuses(x: real, y: real, size: real)
    ensures Parse(x, y, size) == None <==> x < 0.0 || x > 1.0 || y < 0.0 || y > 1.0 || size < 0.05 || size > 1.0
    ensures Parse(x, y, size).Some? ==> Parse(x, y, size).value == Crop(x, y, size)
  {
  }

  datatype Square = Square(left: int, top: int, side: int)

  function Scaled(share: real, length: int): real {
    share * length as real
  }

  function Side(short: int, scaled: real): int {
    Max(MIN_SIDE / 2, Min(short, Round(scaled)))
  }

  function Edge(scaled: real, length: int, side: int): int {
    Min(Max(0, Round(scaled)), length - side)
  }

  /** The square for a side and a left and top edge given in (fractions of) pixels. */
  function CutAt(width: nat, height: nat, size: real, x: real, y: real): Square {
    var side := Side(Min(width, height), size);
    Square(Edge(x, width, side), Edge(y, height, side), side)
  }

  function Centred(width: nat, height: nat): Square {
    var short := Min(width, height);
    Square((width - short) / 2, (height - short) / 2, short)
  }

  /** The centred square is as large as it can be, and its margins on both sides are the same to a pixel. */
  lemma CentredIsCentred(width: nat, height: nat)
    ensures var s := Cut(width, height, None);
            && Inside(s, width, height) && (s.side == width || s.side == height)
            && 0 <= width - s.left - s.side - s.left <= 1 && 0 <= height - s.top - s.side - s.top <= 1
  {
  }

  /** `_square` */
  function Cut(width: nat, height: nat, crop: Option<Crop>): Square {
    match crop
    case None => Centred(width, height)
    case Some(c) =>
      CutAt(width, height, Scaled(c.size, Min(width, height)), Scaled(c.x, width), Scaled(c.y, height))
  }

  predicate Inside(s: Square, width: nat, height: nat) {
    0 <= s.left && s.left + s.side <= width && 0 <= s.top && s.top + s.side <= height
  }

  /** The square lies inside the picture, whatever crop was sent, exactly when the picture is at least 32
      pixels on each side (and always for the centred square). Smaller pictures are refused before. */
  lemma CutIsInside(width: nat, height: nat, crop: Option<Crop>)
    ensures Inside(Cut(width, height, crop), width, height) <==> crop == None || (width >= 32 && height >= 32)
  {
    match crop {
      case None =>
      case Some(c) =>
        CutAtIsInside(width, height, Scaled(c.size, Min(width, height)), Scaled(c.x, width), Scaled(c.y, height));
    }
  }

  lemma CutAtIsInside(width: nat, height: nat, size: real, x: real, y: real)
    ensures Inside(CutAt(width, height, size, x, y), width, height) <==> Min(width, height) >= MIN_SIDE / 2
  {
  }

  // ---------------------------------------------------------------- the browser

  /** `sideFraction()` at a zoom of 100 to 300 percent */
  function SideFraction(zoom: int): (f: real)
    requires 100 <= zoom <= 300
    ensures 1.0 / 3.0 <= f <= 1.0
  {
    FractionBounds(zoom as real);
    100.0 / zoom as real
  }

  /** At a zoom of z percent the side is the z-th part of the shorter edge. */
  lemma ZoomIs(zoom: int)
    requires 100 <= zoom <= 300
    ensures SideFraction(zoom) * zoom as real == 100.0
  {
  }

  lemma FractionBounds(z: real)
    requires 100.0 <= z <= 300.0
    ensures 1.0 / 3.0 <= 100.0 / z <= 1.0
  {
    DivideBounds(100.0, z, 1.0 / 3.0, 1.0);
  }

  lemma MulMonotone(a: real, b: real, c: real)
    requires a <= b && c >= 0.0
    ensures a * c <= b * c
  {
  }

  lemma MulCancels(a: real, b: real, c: real)
    requires a * c <= b * c && c > 0.0
    ensures a <= b
  {
    assert (b - a) * c >= 0.0;
  }

  /** A quotient lies between two bounds when its dividend lies between their multiples. */
  lemma DivideBounds(a: real, c: real, low: real, high: real)
    requires c > 0.0 && low * c <= a <= high * c
    ensures low <= a / c <= high && a / c * c == a
  {
    var q := a / c;
    assert q * c == a;
    MulCancels(low, q, c);
    MulCancels(q, high, c);
  }

  /** One axis of `clamp`: the centre stays half a side away from the edges. */
  function Clamped(centre: real, share: real): real {
    var low := if centre < share / 2.0 then share / 2.0 else centre;
    if low < 1.0 - share / 2.0 then low else 1.0 - share / 2.0
  }

  /** The centre stays where it is when it can, and else as near as it can. */
  lemma ClampedIs(centre: real, share: real)
    requires 0.0 <= share <= 1.0
    ensures share / 2.0 <= centre <= 1.0 - share / 2.0 ==> Clamped(centre, share) == centre
    ensures centre < share / 2.0 ==> Clamped(centre, share) == share / 2.0
    ensures centre > 1.0 - share / 2.0 ==> Clamped(centre, share) == 1.0 - share / 2.0
  {
  }

  function EdgeAt(centre: real, side: real, length: real): real {
    centre * length - side / 2.0
  }

  function Share(part: real, whole: real): real
    requires whole > 0.0
  {
    part / whole
  }

  /** Where the drawn square begins on an axis of `length` pixels. */
  function DrawnEdge(centre: real, side: real, length: real): real
    requires length > 0.0
  {
    EdgeAt(Clamped(centre, Share(side, length)), side, length)
  }

  datatype Fields = Fields(x: real, y: real, size: real)

  /** The closure's variables: the picture's size, the zoom, and the centre of the square. */
  class CropTool {
    const width: int
    const height: int
    var zoom: int
    var cx: real
    var cy: real

    constructor (width: int, height: int)
      requires width > 0 && height > 0
      ensures Ready() && this.width == width && this.height == height
    {
      this.width, this.height, zoom, cx, cy := width, height, 100, 0.5, 0.5;
    }

    predicate Ready()
      reads this
    {
      width > 0 && height > 0 && 100 <= zoom <= 300
    }

    function DrawnSide(): (side: real)
      requires Ready()
      reads this
      ensures 0.0 <= side <= width as real && side <= height as real
    {
      SideFits(SideFraction(zoom), Min(width, height) as real, SideFraction(zoom) * Min(width, height) as real);
      SideFraction(zoom) * Min(width, height) as real
    }

    /** `clamp()` */
    method Clamp()
      requires Ready()
      modifies this`cx, this`cy
      ensures cx == Clamped(old(cx), Share(DrawnSide(), width as real))
      ensures cy == Clamped(old(cy), Share(DrawnSide(), height as real))
    {
      var side := DrawnSide();
      cx := Clamped(cx, Share(side, width as real));
      cy := Clamped(cy, Share(side, height as real));
    }

    /** `draw()`: the square that is drawn, and the fields that are sent. */
    method Draw() returns (left: real, top: real, side: real, sent: Fields)
      requires Ready()
      modifies this`cx, this`cy
      ensures side == DrawnSide()
      ensures left == DrawnEdge(old(cx), side, width as real) && Drawn(left, side, width, Share(left, width as real))
      ensures top == DrawnEdge(old(cy), side, height as real) && Drawn(top, side, height, Share(top, height as real))
      ensures sent == Fields(Fixed4(Share(left, width as real)), Fixed4(Share(top, height as real)),
                             Fixed4(SideFraction(zoom)))
    {
      side := DrawnSide();
      ghost var x, y := cx, cy;
      Clamp();
      var fx, fy;
      left, fx := Field(cx, x, side, width);
      top, fy := Field(cy, y, side, height);
      sent := Fields(fx, fy, Fixed4(SideFraction(zoom)));
    }
  }

  /** One axis of `draw()`: where the square begins, and the number that is sent. */
  method Field(centre: real, ghost wanted: real, side: real, length: int) returns (edge: real, sent: real)
    requires 0.0 <= side <= length as real && length > 0
    requires centre == Clamped(wanted, Share(side, length as real))
    ensures edge == DrawnEdge(wanted, side, length as real)
    ensures Drawn(edge, side, length, Share(edge, length as real))
    ensures sent == Fixed4(Share(edge, length as real))
  {
    DrawnInside(wanted, side, length);
    edge := EdgeAt(centre, side, length as real);
    sent := Fixed4(Share(edge, length as real));
  }

  lemma ClampedBounds(centre: real, share: real)
    requires share <= 1.0
    ensures share / 2.0 <= Clamped(centre, share) <= 1.0 - share / 2.0
  {
  }

  /** The drawn square lies inside the picture. */
  lemma EdgeInside(centre: real, side: real, length: real)
    requires 0.0 <= side <= length && length > 0.0
    ensures 0.0 <= DrawnEdge(centre, side, length) <= length - side
  {
    var share := side / length;
    DivideBounds(side, length, 0.0, 1.0);
    var c := Clamped(centre, share);
    ClampedBounds(centre, share);
    CentreBounds(c, share, length, c * length, share * length);
  }

  lemma CentreBounds(c: real, share: real, length: real, scaled: real, side: real)
    requires share / 2.0 <= c <= 1.0 - share / 2.0 && length > 0.0
    requires scaled == c * length && side == share * length
    ensures side / 2.0 <= scaled <= length - side / 2.0
  {
    MulMonotone(share / 2.0, c, length);
    MulMonotone(c, 1.0 - share / 2.0, length);
  }

  lemma DrawnInside(centre: real, side: real, length: int)
    requires 0.0 <= side <= length as real && length > 0
    ensures var edge := DrawnEdge(centre, side, length as real);
            Drawn(edge, side, length, Share(edge, length as real))
  {
    EdgeInside(centre, side, length as real);
    DivideBounds(DrawnEdge(centre, side, length as real), length as real, 0.0, 1.0);
  }

  lemma PartOf(fraction: real, short: real)
    requires 0.0 <= fraction <= 1.0 && short >= 0.0
    ensures 0.0 <= fraction * short <= short
  {
    MulMonotone(fraction, 1.0, short);
    MulMonotone(0.0, fraction, short);
  }

  lemma SideFits(fraction: real, short: real, side: real)
    requires 0.0 <= fraction <= 1.0 && short >= 0.0 && side == fraction * short
    ensures 0.0 <= side <= short
  {
    PartOf(fraction, short);
  }

  // ---------------------------------------------------------------- agreement

  predicate Near(a: real, b: real, distance: real) {
    a - distance <= b <= a + distance
  }

  /** Four decimals are exact to a 20000th of the length they are multiplied with. */
  lemma ScaledNear(a: real, b: real, length: real, scaledA: real, scaledB: real)
    requires Near(a, b, 0.00005) && length >= 0.0 && scaledA == a * length && scaledB == b * length
    ensures Near(scaledA, scaledB, length / 20000.0)
  {
    MulMonotone(a - 0.00005, b, length);
    MulMonotone(b, a + 0.00005, length);
  }

  lemma ShortIsAtMost5000(width: int, height: int)
    requires 0 < width && 0 < height && width * height <= MAX_SOURCE_PIXELS
    ensures Min(width, height) <= 5000
  {
    var short := Min(width, height);
    assert short * short <= width * height by {
      assert (width - short) * height >= 0 && short * (height - short) >= 0;
    }
    SquareBound(short);
  }

  lemma SquareBound(n: int)
    requires n * n <= 25_000_000 && n >= 0
    ensures n <= 5000
  {
    assert (n - 5000) * (n + 5000) <= 0;
  }

  /** Rounding and clamping to whole pixels: `exact` is what is meant, `sent` what arrives. */
  lemma SideRounds(exact: real, sent: real, short: int)
    requires 32.0 <= exact <= short as real && Near(exact, sent, 0.25)
    ensures Near(exact, Side(short, sent) as real, 0.75) && Side(short, sent) <= short
  {
  }

  lemma EdgeRounds(edge: real, sent: real, side: real, length: int, cut: int, slack: real)
    requires 0.0 <= edge <= length as real - side && Near(side, cut as real, 0.75) && cut <= length
    requires Near(edge, sent, slack) && slack >= 0.0
    ensures Near(edge, Edge(sent, length, cut) as real, slack + 0.75)
  {
  }

  lemma NearWider(a: real, b: real, distance: real, wider: real)
    requires Near(a, b, distance) && distance <= wider
    ensures Near(a, b, wider)
  {
  }

  /** A square drawn at `edge` on an axis of `length` pixels, and the share of the length that is. */
  predicate Drawn(edge: real, side: real, length: int, share: real) {
    0.0 <= edge <= length as real - side && 0.0 <= share <= 1.0 && share * length as real == edge
  }

  /** The cut square is the drawn one, to 3/4 pixel and a 20000th of the axis. */
  predicate Agrees(cut: Square, width: nat, height: nat, side: real, left: real, top: real) {
    && Near(side, cut.side as real, 0.75)
    && Near(left, cut.left as real, width as real / 20000.0 + 0.75)
    && Near(top, cut.top as real, height as real / 20000.0 + 0.75)
  }

  /** Browser and server agree: for every square that can be drawn in a picture of at most 25 megapixels,
      the server accepts the crop the browser sends and cuts a square inside the picture; and if the drawn
      side is not below the 32 pixels the server cuts at least, the side is at most 3/4 pixel off, and the left
      and top edge are off by at most that and a 20000th of the width and height. */
  lemma ServerCutsWhatWasDrawn(width: nat, height: nat, fraction: real, side: real,
                               left: real, top: real, x: real, y: real)
    requires 64 <= width && 64 <= height && width * height <= 25_000_000
    requires 1.0 / 3.0 <= fraction <= 1.0 && side == fraction * Min(width, height) as real
    requires Drawn(left, side, width, x) && Drawn(top, side, height, y)
    ensures Parse(Fixed4(x), Fixed4(y), Fixed4(fraction)) == Some(Crop(Fixed4(x), Fixed4(y), Fixed4(fraction)))
    ensures Inside(Cut(width, height, Some(Crop(Fixed4(x), Fixed4(y), Fixed4(fraction)))), width, height)
    ensures side >= 32.0 ==>
              Agrees(Cut(width, height, Some(Crop(Fixed4(x), Fixed4(y), Fixed4(fraction)))), width, height,
                     side, left, top)
  {
    var crop := Crop(Fixed4(x), Fixed4(y), Fixed4(fraction));
    CutIsInside(width, height, Some(crop));
    if side >= 32.0 {
      SentAgrees(width, height, fraction, side, left, top, x, y, crop);
    }
  }

  lemma SentAgrees(width: nat, height: nat, fraction: real, side: real, left: real, top: real, x: real, y: real,
                   crop: Crop)
    requires MIN_SIDE <= Min(width, height) && width * height <= MAX_SOURCE_PIXELS
    requires 1.0 / 3.0 <= fraction <= 1.0 && side == fraction * Min(width, height) as real >= 32.0
    requires Drawn(left, side, width, x) && Drawn(top, side, height, y)
    requires Near(fraction, crop.size, 0.00005) && Near(x, crop.x, 0.00005) && Near(y, crop.y, 0.00005)
    ensures Agrees(Cut(width, height, Some(crop)), width, height, side, left, top)
  {
    ShortIsAtMost5000(width, height);
    SideScaled(Min(width, height), fraction, side, crop.size);
    EdgeScaled(left, side, width, x, crop.x);
    EdgeScaled(top, side, height, y, crop.y);
    CutAgrees(width, height, side, left, top, crop);
  }

  lemma CutAgrees(width: nat, height: nat, side: real, left: real, top: real, crop: Crop)
    requires 0 < Min(width, height) && 32.0 <= side <= Min(width, height) as real
    requires 0.0 <= left <= width as real - side && 0.0 <= top <= height as real - side
    requires Near(side, Scaled(crop.size, Min(width, height)), 0.25)
    requires Near(left, Scaled(crop.x, width), width as real / 20000.0)
    requires Near(top, Scaled(crop.y, height), height as real / 20000.0)
    ensures Agrees(Cut(width, height, Some(crop)), width, height, side, left, top)
  {
    SquareAgrees(width, height, side, left, top,
                 Scaled(crop.size, Min(width, height)), Scaled(crop.x, width), Scaled(crop.y, height));
  }

  /** Without products: `size`, `x` and `y` are in pixels already, as they arrive. */
  lemma SquareAgrees(width: nat, height: nat, side: real, left: real, top: real, size: real, x: real, y: real)
    requires 0 < Min(width, height) && 32.0 <= side <= Min(width, height) as real
    requires 0.0 <= left <= width as real - side && 0.0 <= top <= height as real - side
    requires Near(side, size, 0.25) && Near(left, x, width as real / 20000.0) && Near(top, y, height as real / 20000.0)
    ensures Agrees(CutAt(width, height, size, x, y), width, height, side, left, top)
  {
    var short := Min(width, height);
    SideRounds(side, size, short);
    EdgeRounds(left, x, side, width, Side(short, size), width as real / 20000.0);
    EdgeRounds(top, y, side, height, Side(short, size), height as real / 20000.0);
  }

  lemma SideScaled(short: int, fraction: real, side: real, sent: real)
    requires 0 < short <= 5000 && 0.0 <= fraction <= 1.0
    requires side == fraction * short as real && Near(fraction, sent, 0.00005)
    ensures side <= short as real && Near(side, Scaled(sent, short), 0.25)
  {
    SideFits(fraction, short as real, side);
    ScaledNear(fraction, sent, short as real, side, Scaled(sent, short));
    NearWider(side, Scaled(sent, short), short as real / 20000.0, 0.25);
  }

  lemma EdgeScaled(edge: real, side: real, length: int, share: real, sent: real)
    requires length > 0 && Drawn(edge, side, length, share) && Near(share, sent, 0.00005)
    ensures Near(edge, Scaled(sent, length), length as real / 20000.0)
  {
    ScaledNear(share, sent, length as real, edge, Scaled(sent, length));
  }
}
