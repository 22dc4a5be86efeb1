/**
 * The geometry helper of a display: `getScaledRect(ratio, rect)` fits a
 * rectangle of aspect ratio `ratio` (width / height) inside the bounding
 * rectangle `rect` and centres it (letterbox or pillarbox).
 *
 * Numbers are exact reals; `Math.floor` is `.Floor`. A JavaScript argument or
 * property that may be missing is an `Option<real>`; it is "truthy" when it is
 * present and not zero.
 */
module Geometry {
  import opened Wrappers

  /** A numeric property or argument that may be `undefined`. */
  type Field = Option<real>

  /** JavaScript truthiness of a number: present and not 0. */
  predicate Truthy(f: Field) {
    f.Some? && f.value != 0.0
  }

  /** `f ? f : 0`: the value when it is truthy, 0 otherwise. */
  function OrZero(f: Field): (r: real)
    ensures Truthy(f) ==> r == f.value
    ensures !Truthy(f) ==> r == 0.0
    ensures r == f.GetOr(0.0)
  {
    if Truthy(f) then f.value else 0.0
  }

  /** The bounding rectangle argument; every property may be missing. */
  datatype Bounds = Bounds(x: Field, y: Field, width: Field, height: Field)

  /** The plain rectangle that `getScaledRect` returns. */
  datatype Rect = Rect(x: real, y: real, width: real, height: real)

  /** `v` is a whole number, as every result of `Math.floor` is. */
  predicate IsWhole(v: real) {
    v == v.Floor as real
  }

  /** `v` is `Math.floor(a)`: the whole number with `v <= a < v + 1`. */
  predicate IsFloorOf(v: real, a: real) {
    IsWhole(v) && v <= a < v + 1.0
  }

  /**
   * The inputs on which the scaling branch computes numbers: when `ratio` is
   * truthy the code does arithmetic on `rect.width` and `rect.height`, so
   * both must be present: a missing one makes some result fields NaN (only `y`
   * when just the height is missing; `x`, `y` and `height` when the width is).
   */
  predicate ScalingDefined(ratio: Field, rect: Bounds) {
    Truthy(ratio) ==> rect.width.Some? && rect.height.Some?
  }

  /**
   * `(w / h) > k`, the comparison at the head of the scaling branch. For a
   * zero height the quotient is `Infinity` when `w > 0`, which exceeds every
   * finite ratio, and `-Infinity` or `NaN` otherwise, which exceeds none.
   */
  predicate ExceedsRatio(w: real, h: real, k: real) {
    if h == 0.0 then w > 0.0 else w / h > k
  }

  /** The rect's own aspect ratio is wider than the target: the scaled rect keeps the full height. */
  predicate Wider(ratio: Field, rect: Bounds)
    requires ScalingDefined(ratio, rect)
    requires Truthy(ratio)
  {
    ExceedsRatio(rect.width.value, rect.height.value, ratio.value)
  }

  function GetScaledRect(ratio: Field, rect: Bounds): (r: Rect)
    requires ScalingDefined(ratio, rect)
    // falsy ratio: the input fields, 0 where falsy or missing, not floored
    ensures !Truthy(ratio) ==>
      r == Rect(OrZero(rect.x), OrZero(rect.y), OrZero(rect.width), OrZero(rect.height))
    // wider bounds: full height, width the floor of height * ratio
    ensures Truthy(ratio) && Wider(ratio, rect) ==>
      r.height == rect.height.value && IsFloorOf(r.width, rect.height.value * ratio.value)
    // narrower or equal bounds: full width, height the floor of width / ratio
    ensures Truthy(ratio) && !Wider(ratio, rect) ==>
      r.width == rect.width.value && IsFloorOf(r.height, rect.width.value / ratio.value)
    // truthy ratio: the input offsets are discarded and the rect is centred
    ensures Truthy(ratio) ==>
      IsFloorOf(r.x, (rect.width.value - r.width) / 2.0) &&
      IsFloorOf(r.y, (rect.height.value - r.height) / 2.0)
  {
    if !Truthy(ratio) then
      Rect(OrZero(rect.x), OrZero(rect.y), OrZero(rect.width), OrZero(rect.height))
    else
      Fit(ratio.value, rect.width.value, rect.height.value)
  }

  /** The scaling branch: a `k`-shaped rect fitted into `w` by `h` and centred. */
  function Fit(k: real, w: real, h: real): Rect
    requires k != 0.0
  {
    var width := if ExceedsRatio(w, h, k) then (h * k).Floor as real else w;
    var height := if ExceedsRatio(w, h, k) then h else (w / k).Floor as real;
    Rect(((w - width) / 2.0).Floor as real, ((h - height) / 2.0).Floor as real, width, height)
  }

  /**
   * With a positive ratio and a positive bounding size the scaled rect lies
   * inside the bounds, has a non-negative size, and fills the bounds in at
   * least one dimension.
   */
  lemma ScaledRectContained(ratio: Field, rect: Bounds)
    requires Truthy(ratio) && ratio.value > 0.0
    requires rect.width.Some? && rect.width.value > 0.0
    requires rect.height.Some? && rect.height.value > 0.0
    ensures ScalingDefined(ratio, rect)
    ensures var r := GetScaledRect(ratio, rect);
      && 0.0 <= r.width && 0.0 <= r.height
      && 0.0 <= r.x && 0.0 <= r.y
      && r.x + r.width <= rect.width.value
      && r.y + r.height <= rect.height.value
      && (r.width == rect.width.value || r.height == rect.height.value)
  {
    var r := GetScaledRect(ratio, rect);
    var w, h, k := rect.width.value, rect.height.value, ratio.value;
    if w / h > k {
      assert w > h * k by { DivGreater(w, h, k); }
      assert 0.0 < h * k;
      assert 0.0 <= r.width <= h * k < w;
      assert r.height == h;
    } else {
      assert w / k <= h by { DivAtMost(w, h, k); }
      assert 0.0 < w / k;
      assert 0.0 <= r.height <= h;
      assert r.width == w;
    }
    CentredFits(w, r.width, r.x);
    CentredFits(h, r.height, r.y);
  }

  /** `w / h > k` means `w > h * k` for a positive `h`. */
  lemma DivGreater(w: real, h: real, k: real)
    requires h > 0.0 && w / h > k
    ensures w > h * k
  {
    assert w == (w / h) * h;
  }

  /** `w / h <= k` means `w / k <= h` for positive `h` and `k`. */
  lemma DivAtMost(w: real, h: real, k: real)
    requires h > 0.0 && k > 0.0 && w / h <= k
    ensures w / k <= h
  {
    assert w == (w / h) * h;
    assert w <= k * h;
  }

  /** An offset that is the floor of half the slack keeps an inner length inside the outer one. */
  lemma CentredFits(outer: real, inner: real, offset: real)
    requires inner <= outer
    requires IsFloorOf(offset, (outer - inner) / 2.0)
    ensures 0.0 <= offset && offset + inner <= outer
  {
  }

  /**
   * Centring: with a truthy ratio the margin right of the scaled rect is at
   * least the margin left of it and exceeds it by less than 2 (the floor of
   * half the slack), and the same for bottom and top.
   */
  lemma ScaledRectCentred(ratio: Field, rect: Bounds)
    requires ScalingDefined(ratio, rect) && Truthy(ratio)
    ensures var r := GetScaledRect(ratio, rect);
      var left, right := r.x, rect.width.value - r.width - r.x;
      var top, bottom := r.y, rect.height.value - r.height - r.y;
      && IsWhole(r.x) && left <= right < left + 2.0
      && IsWhole(r.y) && top <= bottom < top + 2.0
  {
  }

  /** The centred offsets do not depend on the input's own `x` and `y`. */
  lemma ScaledRectIgnoresOffsets(ratio: Field, rect: Bounds, x: Field, y: Field)
    requires ScalingDefined(ratio, rect) && Truthy(ratio)
    ensures GetScaledRect(ratio, rect.(x := x, y := y)) == GetScaledRect(ratio, rect)
  {
  }

  /**
   * A zero-height box of positive width takes the wider branch: the scaled
   * rect is empty and sits at the middle of the width.
   */
  lemma ZeroHeightDegenerate(ratio: Field, rect: Bounds)
    requires Truthy(ratio)
    requires rect.width.Some? && rect.width.value > 0.0 && rect.height == Some(0.0)
    ensures ScalingDefined(ratio, rect)
    ensures var r := GetScaledRect(ratio, rect);
      r.width == 0.0 && r.height == 0.0 && r.y == 0.0 && IsFloorOf(r.x, rect.width.value / 2.0)
  {
  }

  /** getScaledRect(16/9, {width: 1000, height: 1000}) is {x: 0, y: 219, width: 1000, height: 562}. */
  lemma SixteenByNineInSquare()
    ensures GetScaledRect(Some(16.0 / 9.0), Bounds(None, None, Some(1000.0), Some(1000.0)))
         == Rect(0.0, 219.0, 1000.0, 562.0)
  {
  }

  /** getScaledRect(4/3, {width: 640, height: 200}) is {x: 187, y: 0, width: 266, height: 200}. */
  lemma FourByThreeInWide()
    ensures GetScaledRect(Some(4.0 / 3.0), Bounds(None, None, Some(640.0), Some(200.0)))
         == Rect(187.0, 0.0, 266.0, 200.0)
  {
  }
}
