/** The target size ResizeImage computes, over ideal reals: float rounding is not
    modelled, the truncation of a non-negative value to an integer is. */
module Resize {
  import opened Common

  datatype Size = Size(w: nat, h: nat)

  function Floor(x: real): (n: nat)
    requires x >= 0.0
    ensures n as real <= x < n as real + 1.0
  {
    x.Floor
  }

  function Min(a: nat, b: nat): nat {
    if a < b then a else b
  }

  /** The size before the clamps when the aspect ratio is preserved; 0 in a limit
      means "not limited".  An image without width makes the code divide by zero:
      an infinite ratio is not less than a finite one, and `inf` is what the
      platform makes of an infinite number as an unsigned integer. */
  function Scaled(orig: Size, max: Size, inf: nat): Size
    requires orig.h > 0
  {
    var aspect := orig.w as real / orig.h as real;
    if max.w == 0 then Size(Floor(max.h as real * aspect), max.h)
    else if max.h == 0 then Size(max.w, if orig.w == 0 then inf else Floor(max.w as real / aspect))
    else if orig.w > 0 && max.w as real / orig.w as real < max.h as real / orig.h as real then
      Size(max.w, Floor(max.w as real / aspect))
    else Size(Floor(max.h as real * aspect), max.h)
  }

  /** The branches for a preserved aspect ratio. */
  method ScaleToLimits(orig: Size, max: Size, inf: nat) returns (targetWidth: nat, targetHeight: nat)
    requires orig.h > 0
    ensures Size(targetWidth, targetHeight) == Scaled(orig, max, inf)
  {
    targetWidth, targetHeight := max.w, max.h;
    var aspect := orig.w as real / orig.h as real;
    if targetWidth == 0 {
      targetWidth := Floor(targetHeight as real * aspect);
    } else if targetHeight == 0 {
      targetHeight := if orig.w == 0 then inf else Floor(targetWidth as real / aspect);
    } else {
      var heightRatio := targetHeight as real / orig.h as real;
      if orig.w > 0 && targetWidth as real / orig.w as real < heightRatio {
        targetHeight := Floor(targetWidth as real / aspect);
      } else {
        targetWidth := Floor(targetHeight as real * aspect);
      }
    }
  }

  /** The size of the image ResizeImage returns. */
  method ResizeTarget(orig: Size, max: Size, preserveAspect: bool, inf: nat) returns (target: Size)
    ensures target == Target(orig, max, preserveAspect, inf)
    ensures target.w <= orig.w && target.h <= orig.h
    ensures preserveAspect && orig.w > 0 && orig.h > 0 ==> FitsHeight(orig, target) || FitsWidth(orig, target)
  {
    if preserveAspect && orig.w > 0 && orig.h > 0 {
      TargetKeepsShape(orig, max, inf);
    }
    if max.w == 0 && max.h == 0 {
      return orig;
    }
    var targetWidth, targetHeight := max.w, max.h;
    if preserveAspect {
      if orig.h == 0 {
        return orig;
      }
      targetWidth, targetHeight := ScaleToLimits(orig, max, inf);
    }
    if targetWidth > orig.w {
      targetWidth := orig.w;
    }
    if targetHeight > orig.h {
      targetHeight := orig.h;
    }
    target := Size(targetWidth, targetHeight);
  }

  function Target(orig: Size, max: Size, preserveAspect: bool, inf: nat): Size {
    if (max.w == 0 && max.h == 0) || (preserveAspect && orig.h == 0) then orig
    else
      var s := if preserveAspect then Scaled(orig, max, inf) else max;
      Size(Min(s.w, orig.w), Min(s.h, orig.h))
  }

  // The same sizes in integers

  lemma MulLt(a: int, b: int, k: int)
    requires a < b && k > 0
    ensures a * k < b * k
  {
  }

  lemma MulLtReal(a: real, b: real, k: real)
    requires k > 0.0
    ensures a < b <==> a * k < b * k
  {
    if a < b {
      assert (b - a) * k > 0.0;
    } else {
      assert (a - b) * k >= 0.0;
    }
  }

  lemma Product(n: nat, k: nat)
    ensures (n * k) as real == n as real * k as real
  {
  }

  lemma LessTimes(x: real, n: nat, k: nat, m: nat)
    requires k > 0 && x * k as real == m as real
    ensures x < n as real <==> m < n * k
  {
    MulLtReal(x, n as real, k as real);
    Product(n, k);
    assert x < n as real <==> m as real < (n * k) as real;
  }

  lemma FloorTimes(n: nat, x: real, k: nat, m: nat)
    requires k > 0 && n as real <= x < n as real + 1.0 && x * k as real == m as real
    ensures n * k <= m < (n + 1) * k
  {
    LessTimes(x, n, k, m);
    LessTimes(x, n + 1, k, m);
    assert (n + 1) as real == n as real + 1.0;
  }

  lemma ScaleDown(a: nat, p: nat, q: nat, n: nat)
    requires p > 0 && q > 0
    requires n == Floor(a as real * (p as real / q as real))
    ensures n * q <= a * p < (n + 1) * q
  {
    var x := a as real * (p as real / q as real);
    assert (a * p) as real == a as real * p as real;
    assert x * q as real == a as real * p as real;
    FloorTimes(n, x, q, a * p);
  }

  lemma QuotientOfQuotient(a: real, p: real, q: real)
    requires p > 0.0 && q > 0.0
    ensures p / q > 0.0 && a / (p / q) * p == a * q
  {
    var aspect := p / q;
    assert aspect * q == p;
    assert aspect > 0.0;
    var x := a / aspect;
    assert x * aspect == a;
    assert x * (aspect * q) == (x * aspect) * q;
  }

  lemma ScaleByQuotient(a: nat, p: nat, q: nat, n: nat)
    requires p > 0 && q > 0
    requires n == Floor(a as real / (p as real / q as real))
    ensures n * p <= a * q < (n + 1) * p
  {
    QuotientOfQuotient(a as real, p as real, q as real);
    assert (a * q) as real == a as real * q as real;
    FloorTimes(n, a as real / (p as real / q as real), p, a * q);
  }

  lemma CompareRatios(a: nat, p: nat, b: nat, q: nat)
    requires p > 0 && q > 0
    ensures a as real / p as real < b as real / q as real <==> a * q < b * p
  {
    var x, y := a as real / p as real, b as real / q as real;
    var pq := p as real * q as real;
    assert x * p as real == a as real && y * q as real == b as real;
    assert (a * q) as real == (x * p as real) * q as real == x * pq;
    assert (b * p) as real == (y * q as real) * p as real == y * pq;
    MulLtReal(x, y, pq);
  }

  /** The height goes with the width: it is the largest one that does not make
      the image taller than the original's shape. */
  predicate FitsHeight(orig: Size, s: Size) {
    s.h * orig.w <= s.w * orig.h < (s.h + 1) * orig.w
  }

  predicate FitsWidth(orig: Size, s: Size) {
    s.w * orig.h <= s.h * orig.w < (s.w + 1) * orig.h
  }

  /** The width limit is the tighter one, and the height follows from the width. */
  predicate WidthBinds(orig: Size, max: Size, s: Size) {
    && max.w > 0 && FitsHeight(orig, s)
    && (max.h > 0 ==> max.w * orig.h <= max.h * orig.w)
  }

  predicate HeightBinds(orig: Size, max: Size, s: Size) {
    && max.h > 0 && FitsWidth(orig, s)
    && (max.w > 0 ==> max.h * orig.w <= max.w * orig.h)
  }

  /** The width as the exact share of a height limit. */
  lemma WidthFollows(orig: Size, max: Size, w: nat)
    requires orig.w > 0 && orig.h > 0 && max.h > 0
    requires w == Floor(max.h as real * (orig.w as real / orig.h as real))
    requires max.w > 0 ==> !(max.w as real / orig.w as real < max.h as real / orig.h as real)
    ensures HeightBinds(orig, max, Size(w, max.h)) && (max.w > 0 ==> w <= max.w)
  {
    ScaleDown(max.h, orig.w, orig.h, w);
    if max.w > 0 {
      CompareRatios(max.w, orig.w, max.h, orig.h);
      NoMore(w, max.w, orig.h);
    }
  }

  lemma HeightFollows(orig: Size, max: Size, h: nat)
    requires orig.w > 0 && orig.h > 0 && max.w > 0
    requires h == Floor(max.w as real / (orig.w as real / orig.h as real))
    requires max.h > 0 ==> max.w as real / orig.w as real < max.h as real / orig.h as real
    ensures WidthBinds(orig, max, Size(max.w, h)) && (max.h > 0 ==> h <= max.h)
  {
    ScaleByQuotient(max.w, orig.w, orig.h, h);
    if max.h > 0 {
      CompareRatios(max.w, orig.w, max.h, orig.h);
      NoMore(h, max.h, orig.w);
    }
  }

  /** Before the clamps one side is a limit and the other follows from it. */
  lemma ScaledShape(orig: Size, max: Size, inf: nat)
    requires orig.w > 0 && orig.h > 0 && (max.w > 0 || max.h > 0)
    ensures var s := Scaled(orig, max, inf);
            && (max.w > 0 ==> s.w <= max.w) && (max.h > 0 ==> s.h <= max.h)
            && ((s.w == max.w && WidthBinds(orig, max, s)) || (s.h == max.h && HeightBinds(orig, max, s)))
  {
    if max.w == 0 || (max.h > 0 && !(max.w as real / orig.w as real < max.h as real / orig.h as real)) {
      WidthFollows(orig, max, Scaled(orig, max, inf).w);
    } else {
      HeightFollows(orig, max, Scaled(orig, max, inf).h);
    }
  }

  lemma NoMore(a: nat, b: nat, k: nat)
    requires k > 0 && a * k <= b * k
    ensures a <= b
  {
    if a > b {
      MulLt(b, a, k);
    }
  }

  /** Clamping keeps the shape: the width is cut only together with the height,
      and then the original size comes out. */
  lemma ClampKeepsShape(orig: Size, s: Size)
    requires orig.w > 0 && orig.h > 0 && FitsHeight(orig, s)
    ensures var t := Size(Min(s.w, orig.w), Min(s.h, orig.h));
            FitsHeight(orig, t) && t == if s.w >= orig.w then orig else s
  {
    if s.w >= orig.w {
      MulLe(orig.w, s.w, orig.h);
      LessThanOneMore(orig.h, s.h, orig.w);
      assert FitsHeight(orig, orig);
    } else {
      MulLt(s.w, orig.w, orig.h);
      NoMore(s.h, orig.h, orig.w);
    }
  }

  lemma LessThanOneMore(a: nat, b: nat, k: nat)
    requires a * k < (b + 1) * k
    ensures a <= b
  {
    if a > b {
      MulLe(b + 1, a, k);
    }
  }

  function Flip(s: Size): Size {
    Size(s.h, s.w)
  }

  /** Main result, for every positive size and every pair of limits with the
      aspect ratio preserved: the target exceeds neither the original nor a
      limit, and one side is the other's exact share rounded down, so the shape
      is kept to within one pixel through all branches and both clamps. */
  lemma TargetKeepsShape(orig: Size, max: Size, inf: nat)
    requires orig.w > 0 && orig.h > 0
    ensures var t := Target(orig, max, true, inf);
            && t.w <= orig.w && t.h <= orig.h
            && (max.w > 0 ==> t.w <= max.w) && (max.h > 0 ==> t.h <= max.h)
            && (FitsHeight(orig, t) || FitsWidth(orig, t))
  {
    if max.w == 0 && max.h == 0 {
      assert FitsHeight(orig, orig);
    } else {
      BindingSide(orig, max, inf);
    }
  }

  lemma BindingSide(orig: Size, max: Size, inf: nat)
    requires orig.w > 0 && orig.h > 0 && (max.w > 0 || max.h > 0)
    ensures var s, t := Scaled(orig, max, inf), Target(orig, max, true, inf);
            && t.w <= s.w && t.h <= s.h && (max.w > 0 ==> s.w <= max.w) && (max.h > 0 ==> s.h <= max.h)
            && ((t.w == Min(max.w, orig.w) && WidthBinds(orig, max, t))
                || (t.h == Min(max.h, orig.h) && HeightBinds(orig, max, t)))
  {
    var s := Scaled(orig, max, inf);
    ScaledShape(orig, max, inf);
    if s.w == max.w && WidthBinds(orig, max, s) {
      ClampKeepsShape(orig, s);
    } else {
      ClampKeepsShape(Flip(orig), Flip(s));
    }
  }

  /** Nothing larger fits: the target touches a limit or is the original. */
  lemma TargetIsLargest(orig: Size, max: Size, inf: nat)
    requires orig.w > 0 && orig.h > 0 && (max.w > 0 || max.h > 0)
    ensures var t := Target(orig, max, true, inf);
            t == orig || (max.w > 0 && t.w == max.w) || (max.h > 0 && t.h == max.h)
  {
    var t := Target(orig, max, true, inf);
    BindingSide(orig, max, inf);
    if t.w == orig.w && FitsHeight(orig, t) {
      LessThanOneMore(orig.h, t.h, orig.w);
    } else if t.h == orig.h && FitsWidth(orig, t) {
      LessThanOneMore(orig.w, t.w, orig.h);
    }
  }

  /** A thin image can lose a side entirely: the target has no pixels if and only
      if the share of one side under a limit on the other is less than one pixel. */
  lemma TargetEmptyIff(orig: Size, max: Size, inf: nat)
    requires orig.w > 0 && orig.h > 0 && (max.w > 0 || max.h > 0)
    ensures var t := Target(orig, max, true, inf);
            (t.w == 0 || t.h == 0) <==>
            (max.w > 0 && max.w * orig.h < orig.w) || (max.h > 0 && max.h * orig.w < orig.h)
  {
    var t := Target(orig, max, true, inf);
    BindingSide(orig, max, inf);
    if t.w == Min(max.w, orig.w) && WidthBinds(orig, max, t) {
      EmptyWhenWidthBinds(orig, max, t);
    } else {
      EmptyWhenWidthBinds(Flip(orig), Flip(max), Flip(t));
    }
  }

  lemma EmptyWhenWidthBinds(orig: Size, max: Size, t: Size)
    requires orig.w > 0 && orig.h > 0 && t.w == Min(max.w, orig.w) && WidthBinds(orig, max, t)
    ensures t.w > 0
    ensures t.h == 0 <==> max.w * orig.h < orig.w
    ensures max.h > 0 && max.h * orig.w < orig.h ==> max.w * orig.h < orig.w
  {
    MulLe(t.w, max.w, orig.h);
    MulLe(1, max.w, orig.h);
    if t.h == 0 && t.w == orig.w {
      MulLe(1, orig.h, orig.w);
    }
    if t.h > 0 {
      MulLe(1, t.h, orig.w);
    }
  }

  /** Without the aspect ratio each side is the smaller of its own limit and the
      original, a missing limit counting as 0 unless both are missing. */
  lemma SidesWithoutAspect(orig: Size, max: Size, inf: nat)
    ensures var t := Target(orig, max, false, inf);
            if max.w == 0 && max.h == 0 then t == orig
            else
              && t.w <= max.w && t.w <= orig.w && (t.w == max.w || t.w == orig.w)
              && t.h <= max.h && t.h <= orig.h && (t.h == max.h || t.h == orig.h)
  {
  }

  /** Without the aspect ratio a missing limit is taken as the size 0. */
  lemma UnsetLimitWithoutAspect(orig: Size, max: Size, inf: nat)
    requires orig.w > 0 && orig.h > 0
    ensures var t := Target(orig, max, false, inf);
            (t.w == 0 || t.h == 0) <==> (max.w == 0) != (max.h == 0)
  {
  }
}
