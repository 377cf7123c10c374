/** Pixel geometry: rotations, flips and crops of images whose bounds start at
    the origin.  A pixel is one RGBA value, copied as it is; 0 is the zero colour. */
module Image {
  import opened Common

  type Pixel = int

  /** rows[y][x] */
  datatype Raster = Raster(w: nat, h: nat, rows: seq<seq<Pixel>>)

  predicate WellFormed(img: Raster) {
    |img.rows| == img.h && forall y :: 0 <= y < img.h ==> |img.rows[y]| == img.w
  }

  /** Reading outside the bounds gives the zero colour. */
  function At(img: Raster, x: int, y: int): Pixel
    requires WellFormed(img)
  {
    if 0 <= x < img.w && 0 <= y < img.h then img.rows[y][x] else 0
  }

  function Make(w: nat, h: nat, f: (int, int) -> Pixel): (r: Raster)
    ensures WellFormed(r) && r.w == w && r.h == h
    ensures forall x, y :: 0 <= x < w && 0 <= y < h ==> At(r, x, y) == f(x, y)
  {
    Raster(w, h, seq(h, y => seq(w, x => f(x, y))))
  }

  lemma SameRaster(a: Raster, b: Raster)
    requires WellFormed(a) && WellFormed(b) && a.w == b.w && a.h == b.h
    requires forall x, y :: 0 <= x < a.w && 0 <= y < a.h ==> At(a, x, y) == At(b, x, y)
    ensures a == b
  {
    forall y | 0 <= y < a.h ensures a.rows[y] == b.rows[y] {
      assert forall x :: 0 <= x < a.w ==> a.rows[y][x] == At(a, x, y) && b.rows[y][x] == At(b, x, y);
    }
  }

  // Rotations, as what each target pixel shows

  /** `q` quarter turns clockwise. */
  function Turn(img: Raster, q: nat): (r: Raster)
    requires WellFormed(img) && q < 4
    ensures WellFormed(r)
    ensures q % 2 == 0 ==> r.w == img.w && r.h == img.h
    ensures q % 2 == 1 ==> r.w == img.h && r.h == img.w
  {
    if q == 0 then img
    else if q == 1 then Make(img.h, img.w, (x, y) => At(img, y, img.h - 1 - x))
    else if q == 2 then Make(img.w, img.h, (x, y) => At(img, img.w - 1 - x, img.h - 1 - y))
    else Make(img.h, img.w, (x, y) => At(img, img.w - 1 - y, x))
  }

  function FlipH(img: Raster): (r: Raster)
    requires WellFormed(img)
    ensures WellFormed(r) && r.w == img.w && r.h == img.h
  {
    Make(img.w, img.h, (x, y) => At(img, img.w - 1 - x, y))
  }

  function FlipV(img: Raster): (r: Raster)
    requires WellFormed(img)
    ensures WellFormed(r) && r.w == img.w && r.h == img.h
  {
    Make(img.w, img.h, (x, y) => At(img, x, img.h - 1 - y))
  }

  /** Go's remainder takes the sign of the dividend. */
  function GoRem(a: int, b: int): int
    requires b > 0
  {
    if a >= 0 then a % b else -((-a) % b)
  }

  function Normalize(degrees: int): int {
    GoRem(GoRem(degrees, 360) + 360, 360)
  }

  /** The quarter turns Rotate makes; it ignores angles off the right-angle grid. */
  function Quarters(degrees: int): nat {
    match Normalize(degrees)
    case 90 => 1
    case 180 => 2
    case 270 => 3
    case _ => 0
  }

  lemma NormalizeIsEuclidean(degrees: int)
    ensures Normalize(degrees) == degrees % 360
    ensures Quarters(degrees) == if degrees % 90 == 0 then (degrees / 90) % 4 else 0
  {
    if degrees < 0 {
      NegativeRemainder(-degrees);
    }
    QuarterOf(degrees);
  }

  lemma RemainderIs(n: int, q: int, r: int)
    requires 0 <= r < 360 && n == 360 * q + r
    ensures n % 360 == r
  {
  }

  lemma NegativeRemainder(n: int)
    requires n >= 0
    ensures (-n) % 360 == if n % 360 == 0 then 0 else 360 - n % 360
  {
    var k, r := n / 360, n % 360;
    if r == 0 {
      RemainderIs(-n, -k, 0);
    } else {
      RemainderIs(-n, -k - 1, 360 - r);
    }
  }

  lemma QuarterOf(degrees: int)
    ensures degrees % 360 == 90 <==> degrees % 90 == 0 && (degrees / 90) % 4 == 1
    ensures degrees % 360 == 180 <==> degrees % 90 == 0 && (degrees / 90) % 4 == 2
    ensures degrees % 360 == 270 <==> degrees % 90 == 0 && (degrees / 90) % 4 == 3
  {
  }

  function Rotated(img: Raster, degrees: int): (r: Raster)
    requires WellFormed(img)
    ensures WellFormed(r)
  {
    Turn(img, Quarters(degrees))
  }

  lemma TurnAfter1(img: Raster)
    requires WellFormed(img)
    ensures Turn(Turn(img, 1), 1) == Turn(img, 2)
  {
    var t, a, b := Turn(img, 1), Turn(Turn(img, 1), 1), Turn(img, 2);
    forall x, y | 0 <= x < a.w && 0 <= y < a.h ensures At(a, x, y) == At(b, x, y) {
      assert At(a, x, y) == At(t, y, t.h - 1 - x);
    }
    SameRaster(a, b);
  }

  lemma TurnAfter2(img: Raster)
    requires WellFormed(img)
    ensures Turn(Turn(img, 2), 1) == Turn(img, 3)
  {
    var t, a, b := Turn(img, 2), Turn(Turn(img, 2), 1), Turn(img, 3);
    forall x, y | 0 <= x < a.w && 0 <= y < a.h ensures At(a, x, y) == At(b, x, y) {
      assert At(a, x, y) == At(t, y, t.h - 1 - x);
    }
    SameRaster(a, b);
  }

  lemma TurnAfter3(img: Raster)
    requires WellFormed(img)
    ensures Turn(Turn(img, 3), 1) == Turn(img, 0)
  {
    var t, a, b := Turn(img, 3), Turn(Turn(img, 3), 1), Turn(img, 0);
    forall x, y | 0 <= x < a.w && 0 <= y < a.h ensures At(a, x, y) == At(b, x, y) {
      assert At(a, x, y) == At(t, y, t.h - 1 - x);
    }
    SameRaster(a, b);
  }

  function Next(p: nat): nat {
    if p >= 3 then 0 else p + 1
  }

  lemma OneMoreTurn(img: Raster, p: nat)
    requires WellFormed(img) && p < 4
    ensures Turn(Turn(img, p), 1) == Turn(img, Next(p))
  {
    match p
    case 0 => TurnZero(img);
    case 1 => TurnAfter1(img);
    case 2 => TurnAfter2(img);
    case 3 => TurnAfter3(img);
  }

  /** `b` is `a` after `q` quarter turns. */
  ghost predicate Turned(a: Raster, q: nat, b: Raster) {
    WellFormed(a) && q < 4 && b == Turn(a, q)
  }

  lemma TurnedOnceMore(a: Raster, q: nat, b: Raster)
    requires Turned(a, q, b)
    ensures Turned(a, Next(q), Turn(b, 1))
  {
    OneMoreTurn(a, q);
  }

  function Plus(p: nat, q: nat): nat {
    if q == 0 then p else Next(Plus(p, q - 1))
  }

  lemma {:induction false} PlusIsMod(p: nat, q: nat)
    requires p < 4
    ensures Plus(p, q) == (p + q) % 4
  {
    if q > 0 {
      PlusIsMod(p, q - 1);
    }
  }

  /** `q` turns of `b`, which is `a` after `p` turns. */
  lemma {:induction false} TurnedTwice(a: Raster, p: nat, b: Raster, q: nat) returns (c: Raster)
    requires Turned(a, p, b) && WellFormed(b) && q < 4
    ensures Turned(b, q, c) && Turned(a, Plus(p, q), c)
  {
    if q == 0 {
      c := b;
      TurnZero(b);
    } else {
      var before := TurnedTwice(a, p, b, q - 1);
      c := Turn(before, 1);
      TurnedOnceMore(b, q - 1, before);
      TurnedOnceMore(a, Plus(p, q - 1), before);
    }
  }

  /** Turns add up. */
  lemma TurnsAdd(img: Raster, p: nat, q: nat)
    requires WellFormed(img) && p < 4 && q < 4
    ensures Turn(Turn(img, p), q) == Turn(img, (p + q) % 4)
  {
    var c := TurnedTwice(img, p, Turn(img, p), q);
    PlusIsMod(p, q);
  }

  lemma TurnZero(img: Raster)
    requires WellFormed(img)
    ensures Turn(img, 0) == img
  {
  }

  const FOUR: Raster := Raster(2, 2, [[1, 2], [3, 4]])

  lemma CornerOfFour(q: nat)
    requires q < 4
    ensures WellFormed(FOUR) && At(Turn(FOUR, q), 0, 0) == [1, 3, 4, 2][q]
  {
    assert FOUR.rows[0] == [1, 2] && FOUR.rows[1] == [3, 4];
    match q
    case 0 => assert At(FOUR, 0, 0) == 1;
    case 1 => assert At(FOUR, 0, 1) == 3;
    case 2 => assert At(FOUR, 1, 1) == 4;
    case 3 => assert At(FOUR, 1, 0) == 2;
  }

  lemma TurnsOfFourDiffer(p: nat, q: nat)
    requires p < 4 && q < 4 && p != q
    ensures WellFormed(FOUR) && Turn(FOUR, p) != Turn(FOUR, q)
  {
    CornerOfFour(p);
    CornerOfFour(q);
  }

  /** Rotating by a then b is rotating by a + b on every image if and only if the
      quarter turns agree; in particular for all multiples of 90. */
  lemma RotationsAddIff(a: int, b: int)
    ensures (forall img: Raster :: WellFormed(img) ==> Rotated(Rotated(img, a), b) == Rotated(img, a + b))
            <==> (Quarters(a) + Quarters(b)) % 4 == Quarters(a + b)
  {
    var sum := (Quarters(a) + Quarters(b)) % 4;
    forall img: Raster | WellFormed(img) ensures Rotated(Rotated(img, a), b) == Turn(img, sum) {
      RotatedTwice(img, a, b);
    }
    if sum != Quarters(a + b) {
      TurnsOfFourDiffer(sum, Quarters(a + b));
      RotatedTwice(FOUR, a, b);
    }
  }

  lemma RotatedTwice(img: Raster, a: int, b: int)
    requires WellFormed(img)
    ensures Rotated(Rotated(img, a), b) == Turn(img, (Quarters(a) + Quarters(b)) % 4)
  {
    TurnsAdd(img, Quarters(a), Quarters(b));
  }

  lemma QuartersOfRightAngle(i: int)
    ensures Quarters(90 * i) == i % 4
  {
    NormalizeIsEuclidean(90 * i);
    assert 90 * i % 90 == 0 && 90 * i / 90 == i;
  }

  lemma ModAdd(i: int, j: int)
    ensures (i % 4 + j % 4) % 4 == (i + j) % 4
  {
  }

  /** For multiples of 90 of any sign and size the quarter turns add up. */
  lemma RightAngleQuarters(i: int, j: int)
    ensures (Quarters(90 * i) + Quarters(90 * j)) % 4 == Quarters(90 * (i + j)) == (i + j) % 4
  {
    QuartersOfRightAngle(i);
    QuartersOfRightAngle(j);
    QuartersOfRightAngle(i + j);
    ModAdd(i, j);
  }

  lemma RightAnglesAdd(img: Raster, i: int, j: int)
    requires WellFormed(img)
    ensures Rotated(Rotated(img, 90 * i), 90 * j) == Rotated(img, 90 * i + 90 * j)
    ensures (i + j) % 4 == 0 ==> Rotated(Rotated(img, 90 * i), 90 * j) == img
  {
    RightAngleQuarters(i, j);
    RotatedTwice(img, 90 * i, 90 * j);
    assert 90 * i + 90 * j == 90 * (i + j);
  }

  /** Four quarter turns are the identity. */
  lemma FourQuarterTurns(img: Raster)
    requires WellFormed(img)
    ensures Turn(Turn(Turn(Turn(img, 1), 1), 1), 1) == img
  {
    TurnsAdd(img, 1, 1);
    TurnsAdd(img, 2, 1);
    TurnsAdd(img, 3, 1);
  }

  lemma FlipHTwice(img: Raster)
    requires WellFormed(img)
    ensures FlipH(FlipH(img)) == img
  {
    SameRaster(FlipH(FlipH(img)), img);
  }

  lemma FlipVTwice(img: Raster)
    requires WellFormed(img)
    ensures FlipV(FlipV(img)) == img
  {
    SameRaster(FlipV(FlipV(img)), img);
  }

  lemma BothFlips(img: Raster)
    requires WellFormed(img)
    ensures FlipH(FlipV(img)) == Turn(img, 2) == FlipV(FlipH(img))
  {
    SameRaster(FlipH(FlipV(img)), Turn(img, 2));
    SameRaster(FlipV(FlipH(img)), Turn(img, 2));
  }

  /** Flips undo themselves, and a half turn is both flips in either order. */
  lemma FlipLaws(img: Raster)
    requires WellFormed(img)
    ensures FlipH(FlipH(img)) == img && FlipV(FlipV(img)) == img
    ensures FlipH(FlipV(img)) == Turn(img, 2) == FlipV(FlipH(img))
  {
    FlipHTwice(img);
    FlipVTwice(img);
    BothFlips(img);
  }

  lemma FlipTurn1(img: Raster)
    requires WellFormed(img)
    ensures FlipH(Turn(img, 1)) == Turn(FlipH(img), 3)
  {
    SameRaster(FlipH(Turn(img, 1)), Turn(FlipH(img), 3));
  }

  lemma FlipTurn2(img: Raster)
    requires WellFormed(img)
    ensures FlipH(Turn(img, 2)) == Turn(FlipH(img), 2)
  {
    SameRaster(FlipH(Turn(img, 2)), Turn(FlipH(img), 2));
  }

  lemma FlipTurn3(img: Raster)
    requires WellFormed(img)
    ensures FlipH(Turn(img, 3)) == Turn(FlipH(img), 1)
  {
    SameRaster(FlipH(Turn(img, 3)), Turn(FlipH(img), 1));
  }

  /** A flip reverses the sense of a rotation. */
  lemma FlipReversesTurn(img: Raster, q: nat)
    requires WellFormed(img) && q < 4
    ensures FlipH(Turn(img, q)) == Turn(FlipH(img), (4 - q) % 4)
  {
    match q
    case 0 =>
    case 1 => FlipTurn1(img);
    case 2 => FlipTurn2(img);
    case 3 => FlipTurn3(img);
  }

  /** Where each pixel of an image comes from in its mirror images and turns. */
  lemma PixelsMove(img: Raster, x: nat, y: nat)
    requires WellFormed(img) && x < img.w && y < img.h
    ensures At(FlipH(img), img.w - 1 - x, y) == At(img, x, y) == At(FlipV(img), x, img.h - 1 - y)
    ensures At(Turn(img, 1), img.h - 1 - y, x) == At(img, x, y)
    ensures At(Turn(img, 2), img.w - 1 - x, img.h - 1 - y) == At(img, x, y)
    ensures At(Turn(img, 3), y, img.w - 1 - x) == At(img, x, y)
  {
  }

  /** Where the loops of Rotate write source pixel (x, y). */
  function Scatter(w: nat, h: nat, q: nat, x: int, y: int): (int, int) {
    match q
    case 1 => (h - 1 - y, x)
    case 2 => (w - 1 - x, h - 1 - y)
    case 3 => (y, w - 1 - x)
    case _ => (x, y)
  }

  predicate Inside(w: nat, h: nat, p: (int, int)) {
    0 <= p.0 < w && 0 <= p.1 < h
  }

  /** Every target pixel is written exactly once. */
  lemma ScatterWritesOnce(w: nat, h: nat, q: nat, t: (int, int))
    requires q < 4 && (if q % 2 == 0 then Inside(w, h, t) else Inside(h, w, t))
    ensures exists x, y :: Inside(w, h, (x, y)) && Scatter(w, h, q, x, y) == t
    ensures forall x, y, x', y' :: Scatter(w, h, q, x, y) == t == Scatter(w, h, q, x', y') ==> x == x' && y == y'
  {
    // the source is where the opposite rotation takes the target
    var s := if q % 2 == 0 then Scatter(w, h, q, t.0, t.1) else Scatter(h, w, 4 - q, t.0, t.1);
    assert Inside(w, h, s) && Scatter(w, h, q, s.0, s.1) == t;
  }

  // The loops over pixel buffers; a[y, x]

  ghost function View(a: array2<Pixel>): (r: Raster)
    reads a
    ensures WellFormed(r) && r.w == a.Length1 && r.h == a.Length0
    ensures forall x, y :: 0 <= x < r.w && 0 <= y < r.h ==> At(r, x, y) == a[y, x]
  {
    Raster(a.Length1, a.Length0,
           seq(a.Length0, y requires 0 <= y < a.Length0 reads a =>
             seq(a.Length1, x requires 0 <= x < a.Length1 reads a => a[y, x])))
  }

  /** `b` shows `a` a quarter turn clockwise: the top row becomes the right column. */
  ghost predicate IsQuarterTurn(a: array2<Pixel>, b: array2<Pixel>)
    reads a, b
  {
    && b.Length1 == a.Length0 && b.Length0 == a.Length1
    && forall x, y :: 0 <= x < a.Length1 && 0 <= y < a.Length0 ==> b[x, a.Length0 - 1 - y] == a[y, x]
  }

  ghost predicate IsHalfTurn(a: array2<Pixel>, b: array2<Pixel>)
    reads a, b
  {
    && b.Length1 == a.Length1 && b.Length0 == a.Length0
    && forall x, y :: 0 <= x < a.Length1 && 0 <= y < a.Length0 ==>
                        b[a.Length0 - 1 - y, a.Length1 - 1 - x] == a[y, x]
  }

  lemma QuarterTurnView(a: array2<Pixel>, b: array2<Pixel>)
    requires IsQuarterTurn(a, b)
    ensures View(b) == Turn(View(a), 1) && View(a) == Turn(View(b), 3)
  {
    forall x, y | 0 <= x < b.Length1 && 0 <= y < b.Length0 ensures b[y, x] == a[a.Length0 - 1 - x, y] {
      assert b[y, a.Length0 - 1 - (a.Length0 - 1 - x)] == a[a.Length0 - 1 - x, y];
    }
    SameRaster(View(b), Turn(View(a), 1));
    SameRaster(View(a), Turn(View(b), 3));
  }

  lemma HalfTurnView(a: array2<Pixel>, b: array2<Pixel>)
    requires IsHalfTurn(b, a)
    ensures View(b) == Turn(View(a), 2)
  {
    SameRaster(View(b), Turn(View(a), 2));
  }

  method Rotate(img: array2<Pixel>, degrees: int) returns (rotated: array2<Pixel>)
    ensures View(rotated) == Rotated(View(img), degrees)
    ensures rotated == img || fresh(rotated)
    ensures rotated == img <==> degrees % 360 !in {90, 180, 270}
    ensures degrees % 360 == 90 ==> IsQuarterTurn(img, rotated)
    ensures degrees % 360 == 180 ==> IsHalfTurn(img, rotated)
    ensures degrees % 360 == 270 ==> IsQuarterTurn(rotated, img)
  {
    NormalizeIsEuclidean(degrees);
    var d := GoRem(GoRem(degrees, 360) + 360, 360);
    if d == 90 {
      rotated := Rotate90(img);
    } else if d == 180 {
      rotated := Rotate180(img);
    } else if d == 270 {
      rotated := Rotate270(img);
    } else {
      rotated := img;
    }
  }

  method Rotate90(img: array2<Pixel>) returns (rotated: array2<Pixel>)
    ensures fresh(rotated) && View(rotated) == Turn(View(img), 1)
    ensures IsQuarterTurn(img, rotated)
  {
    var w, h := img.Length1, img.Length0;
    rotated := new Pixel[w, h];
    for y := 0 to h
      invariant forall i, j :: 0 <= i < w && 0 <= j < y ==> rotated[i, h - 1 - j] == img[j, i]
    {
      for x := 0 to w
        invariant forall i, j :: 0 <= i < w && 0 <= j < y ==> rotated[i, h - 1 - j] == img[j, i]
        invariant forall i :: 0 <= i < x ==> rotated[i, h - 1 - y] == img[y, i]
      {
        rotated[x, h - 1 - y] := img[y, x];
      }
    }
    QuarterTurnView(img, rotated);
  }

  method Rotate180(img: array2<Pixel>) returns (rotated: array2<Pixel>)
    ensures fresh(rotated) && View(rotated) == Turn(View(img), 2)
    ensures IsHalfTurn(img, rotated)
  {
    var w, h := img.Length1, img.Length0;
    rotated := new Pixel[h, w];
    for y := 0 to h
      invariant forall i, j :: 0 <= i < w && h - y <= j < h ==> rotated[j, i] == img[h - 1 - j, w - 1 - i]
    {
      var row := h - 1 - y;
      for x := 0 to w
        invariant forall i, j :: 0 <= i < w && h - y <= j < h ==> rotated[j, i] == img[h - 1 - j, w - 1 - i]
        invariant forall i :: w - x <= i < w ==> rotated[row, i] == img[y, w - 1 - i]
      {
        rotated[row, w - 1 - x] := img[y, x];
      }
    }
    HalfTurnView(img, rotated);
  }

  method Rotate270(img: array2<Pixel>) returns (rotated: array2<Pixel>)
    ensures fresh(rotated) && View(rotated) == Turn(View(img), 3)
    ensures IsQuarterTurn(rotated, img)
  {
    var w, h := img.Length1, img.Length0;
    rotated := new Pixel[w, h];
    for y := 0 to h
      invariant forall i, j :: 0 <= i < w && 0 <= j < y ==> rotated[w - 1 - i, j] == img[j, i]
    {
      for x := 0 to w
        invariant forall i, j :: 0 <= i < w && 0 <= j < y ==> rotated[w - 1 - i, j] == img[j, i]
        invariant forall i :: 0 <= i < x ==> rotated[w - 1 - i, y] == img[y, i]
      {
        rotated[w - 1 - x, y] := img[y, x];
      }
    }
    forall x, y | 0 <= x < h && 0 <= y < w ensures img[x, w - 1 - y] == rotated[y, x] {
      assert rotated[w - 1 - (w - 1 - y), x] == img[x, w - 1 - y];
    }
    QuarterTurnView(rotated, img);
  }

  method FlipHorizontally(img: array2<Pixel>) returns (flipped: array2<Pixel>)
    ensures fresh(flipped) && View(flipped) == FlipH(View(img))
    ensures flipped.Length1 == img.Length1 && flipped.Length0 == img.Length0
    ensures forall x, y :: 0 <= x < img.Length1 && 0 <= y < img.Length0 ==>
                             flipped[y, img.Length1 - 1 - x] == img[y, x]
  {
    var w, h := img.Length1, img.Length0;
    flipped := new Pixel[h, w];
    for y := 0 to h
      invariant forall i, j :: 0 <= i < w && 0 <= j < y ==> flipped[j, w - 1 - i] == img[j, i]
    {
      for x := 0 to w
        invariant forall i, j :: 0 <= i < w && 0 <= j < y ==> flipped[j, w - 1 - i] == img[j, i]
        invariant forall i :: 0 <= i < x ==> flipped[y, w - 1 - i] == img[y, i]
      {
        flipped[y, w - 1 - x] := img[y, x];
      }
    }
    forall x, y | 0 <= x < w && 0 <= y < h ensures flipped[y, x] == img[y, w - 1 - x] {
      assert flipped[y, w - 1 - (w - 1 - x)] == img[y, w - 1 - x];
    }
    SameRaster(View(flipped), FlipH(View(img)));
  }

  method FlipVertically(img: array2<Pixel>) returns (flipped: array2<Pixel>)
    ensures fresh(flipped) && View(flipped) == FlipV(View(img))
    ensures flipped.Length1 == img.Length1 && flipped.Length0 == img.Length0
    ensures forall x, y :: 0 <= x < img.Length1 && 0 <= y < img.Length0 ==>
                             flipped[img.Length0 - 1 - y, x] == img[y, x]
  {
    var w, h := img.Length1, img.Length0;
    flipped := new Pixel[h, w];
    for y := 0 to h
      invariant forall i, j :: 0 <= i < w && 0 <= j < y ==> flipped[h - 1 - j, i] == img[j, i]
    {
      for x := 0 to w
        invariant forall i, j :: 0 <= i < w && 0 <= j < y ==> flipped[h - 1 - j, i] == img[j, i]
        invariant forall i :: 0 <= i < x ==> flipped[h - 1 - y, i] == img[y, i]
      {
        flipped[h - 1 - y, x] := img[y, x];
      }
    }
    forall x, y | 0 <= x < w && 0 <= y < h ensures flipped[y, x] == img[h - 1 - y, x] {
      assert flipped[h - 1 - (h - 1 - y), x] == img[h - 1 - y, x];
    }
    SameRaster(View(flipped), FlipV(View(img)));
  }

  // Crops

  datatype Rect = Rect(x: int, y: int, w: int, h: int)

  function Clamp(val: int, minVal: int, maxVal: int): int {
    var m := if val < maxVal then val else maxVal;
    if minVal > m then minVal else m
  }

  /** The rectangle Crop cuts out; non-positive sizes mean "to the edge". */
  function CropRect(srcW: nat, srcH: nat, spec: Rect): Rect {
    var x, y := Clamp(spec.x, 0, srcW - 1), Clamp(spec.y, 0, srcH - 1);
    Rect(x, y,
         if spec.w <= 0 || spec.w > srcW - x then srcW - x else spec.w,
         if spec.h <= 0 || spec.h > srcH - y then srcH - y else spec.h)
  }

  predicate Within(r: Rect, srcW: nat, srcH: nat) {
    0 <= r.x && 0 <= r.y && 0 <= r.w && 0 <= r.h && r.x + r.w <= srcW && r.y + r.h <= srcH
  }

  /** The rectangle lies inside the image, has at least one pixel when the image
      has, and is the requested one whenever that one fits. */
  lemma CropRectInside(srcW: nat, srcH: nat, spec: Rect)
    ensures Within(CropRect(srcW, srcH, spec), srcW, srcH)
    ensures srcW > 0 && srcH > 0 ==> CropRect(srcW, srcH, spec).w > 0 && CropRect(srcW, srcH, spec).h > 0
    ensures spec.w > 0 && spec.h > 0 && Within(spec, srcW, srcH) ==> CropRect(srcW, srcH, spec) == spec
  {
  }

  /** It starts at the requested corner, or the nearest pixel, and has the requested
      size, or else reaches the edge. */
  lemma CropRectSides(srcW: nat, srcH: nat, spec: Rect)
    ensures var r := CropRect(srcW, srcH, spec);
            && (spec.x < 0 ==> r.x == 0) && (spec.y < 0 ==> r.y == 0)
            && (0 <= spec.x < srcW ==> r.x == spec.x) && (0 <= spec.y < srcH ==> r.y == spec.y)
            && (spec.x >= srcW > 0 ==> r.x == srcW - 1) && (spec.y >= srcH > 0 ==> r.y == srcH - 1)
            && (if 0 < spec.w <= srcW - r.x then r.w == spec.w else r.x + r.w == srcW)
            && (if 0 < spec.h <= srcH - r.y then r.h == spec.h else r.y + r.h == srcH)
  {
  }

  function CenterRect(w: nat, h: nat): Rect {
    var size := if w < h then w else h;
    Rect(if w < h then 0 else (w - size) / 2, if w < h then (h - size) / 2 else 0, size, size)
  }

  /** CenterCrop's rectangle is a square, no square inside the image is larger,
      and its opposite margins differ by at most one pixel. */
  lemma CenterRectIsLargestCentred(w: nat, h: nat, other: Rect)
    requires w > 0 && h > 0
    requires Within(other, w, h) && other.w == other.h
    ensures var r := CropRect(w, h, CenterRect(w, h));
            && r == CenterRect(w, h) && Within(r, w, h) && r.w == r.h >= other.w
            && 0 <= (w - r.x - r.w) - r.x <= 1
            && 0 <= (h - r.y - r.h) - r.y <= 1
  {
  }

  function Cropped(img: Raster, r: Rect): (c: Raster)
    requires WellFormed(img) && r.w >= 0 && r.h >= 0
    ensures WellFormed(c)
  {
    Make(r.w, r.h, (x, y) => At(img, r.x + x, r.y + y))
  }

  /** A crop shows the pixels from its corner on. */
  lemma CropShows(img: Raster, r: Rect, i: nat, j: nat)
    requires WellFormed(img) && Within(r, img.w, img.h) && i < r.w && j < r.h
    ensures Cropped(img, r).w == r.w && Cropped(img, r).h == r.h
    ensures At(Cropped(img, r), i, j) == img.rows[r.y + j][r.x + i]
  {
  }

  /** Cropping a crop is one crop of the shifted rectangle. */
  lemma CropOfCrop(img: Raster, outer: Rect, inner: Rect)
    requires WellFormed(img) && Within(outer, img.w, img.h) && Within(inner, outer.w, outer.h)
    ensures Cropped(Cropped(img, outer), inner)
            == Cropped(img, Rect(outer.x + inner.x, outer.y + inner.y, inner.w, inner.h))
  {
    SameRaster(Cropped(Cropped(img, outer), inner),
               Cropped(img, Rect(outer.x + inner.x, outer.y + inner.y, inner.w, inner.h)));
  }

  /** `cropped` shows exactly the pixels of `img` in the rectangle. */
  ghost predicate Shows(cropped: array2<Pixel>, img: array2<Pixel>, r: Rect)
    requires Within(r, img.Length1, img.Length0)
    reads cropped, img
  {
    && cropped.Length1 == r.w && cropped.Length0 == r.h
    && forall i, j :: 0 <= i < r.w && 0 <= j < r.h ==> cropped[j, i] == img[r.y + j, r.x + i]
  }

  lemma ShowsCropped(cropped: array2<Pixel>, img: array2<Pixel>, r: Rect)
    requires Within(r, img.Length1, img.Length0) && Shows(cropped, img, r)
    ensures View(cropped) == Cropped(View(img), r)
  {
    SameRaster(View(cropped), Cropped(View(img), r));
  }

  /** The copying loops of Crop for a rectangle inside the image. */
  method CopyRect(img: array2<Pixel>, r: Rect) returns (cropped: array2<Pixel>)
    requires Within(r, img.Length1, img.Length0)
    ensures fresh(cropped) && View(cropped) == Cropped(View(img), r)
    ensures Shows(cropped, img, r)
  {
    var x, y, w, h := r.x, r.y, r.w, r.h;
    cropped := new Pixel[h, w];
    for dy := 0 to h
      invariant forall i, j :: 0 <= i < w && 0 <= j < dy ==> cropped[j, i] == img[y + j, x + i]
    {
      for dx := 0 to w
        invariant forall i, j :: 0 <= i < w && 0 <= j < dy ==> cropped[j, i] == img[y + j, x + i]
        invariant forall i :: 0 <= i < dx ==> cropped[dy, i] == img[y + dy, x + i]
      {
        cropped[dy, dx] := img[y + dy, x + dx];
      }
    }
    ShowsCropped(cropped, img, r);
  }

  method Crop(img: array2<Pixel>, spec: Rect) returns (cropped: array2<Pixel>)
    ensures fresh(cropped)
    ensures var r := CropRect(img.Length1, img.Length0, spec);
            && Within(r, img.Length1, img.Length0) && Shows(cropped, img, r)
            && View(cropped) == Cropped(View(img), r)
  {
    var srcW, srcH := img.Length1, img.Length0;
    var x := Clamp(spec.x, 0, srcW - 1);
    var y := Clamp(spec.y, 0, srcH - 1);
    var w := spec.w;
    if w <= 0 || w > srcW - x {
      w := srcW - x;
    }
    var h := spec.h;
    if h <= 0 || h > srcH - y {
      h := srcH - y;
    }
    var r := Rect(x, y, w, h);
    assert r == CropRect(srcW, srcH, spec);
    assert Within(r, srcW, srcH) by {
      CropRectInside(srcW, srcH, spec);
    }
    cropped := CopyRect(img, r);
  }

  /** `scaleTo` is the size (width, height) the square is then scaled to, if any:
      a missing side is taken from the other one. */
  method CenterCrop(img: array2<Pixel>, targetWidth: nat, targetHeight: nat)
      returns (cropped: array2<Pixel>, scaleTo: Option<(nat, nat)>)
    ensures fresh(cropped)
    ensures scaleTo.None? <==> targetWidth == 0 && targetHeight == 0
    ensures scaleTo.Some? ==>
              && (scaleTo.value.0 == targetWidth || (targetWidth == 0 && scaleTo.value.0 == scaleTo.value.1))
              && (scaleTo.value.1 == targetHeight || (targetHeight == 0 && scaleTo.value.0 == scaleTo.value.1))
              && scaleTo.value.0 > 0 && scaleTo.value.1 > 0
    ensures var r := CropRect(img.Length1, img.Length0, CenterRect(img.Length1, img.Length0));
            && Within(r, img.Length1, img.Length0) && Shows(cropped, img, r)
            && View(cropped) == Cropped(View(img), r)
  {
    var w, h := img.Length1, img.Length0;
    var size, x, y;
    if w < h {
      size := w;
      x := 0;
      y := (h - size) / 2;
    } else {
      size := h;
      x := (w - size) / 2;
      y := 0;
    }
    cropped := Crop(img, Rect(x, y, size, size));
    scaleTo := None;
    if targetWidth > 0 || targetHeight > 0 {
      var tw, th := targetWidth, targetHeight;
      if tw == 0 {
        tw := th;
      }
      if th == 0 {
        th := tw;
      }
      scaleTo := Some((tw, th));
    }
  }
}
