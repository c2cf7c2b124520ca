/** Bilinear resizing over the reals, and the size it is asked for. */
module Resize {
  import opened Bytes
  import opened Pixels
  import opened Orientation

  // ---------------------------------------------------------------- the target size

  /** The length the shorter side would have if the longer one became exactly m. */
  function Exact(short: nat, long: nat, m: nat): real
    requires long > 0
  {
    short as real * m as real / long as real
  }

  lemma ExactBounds(short: nat, long: nat, m: nat)
    requires 0 < m < long && short <= long
    ensures 0.0 <= Exact(short, long, m) <= m as real && Exact(short, long, m) <= short as real
  {
    var s, l, n := short as real, long as real, m as real;
    ProductSign(s, n);
    ProductSign(l - s, n);
    ProductSign(s, l - n);
    assert (l - s) * n == l * n - s * n;
    assert s * (l - n) == l * s - s * n;
    QuotientAtMost(s * n, l, n);
    QuotientAtMost(s * n, l, s);
  }

  lemma ProductSign(a: real, b: real)
    requires 0.0 <= a && 0.0 <= b
    ensures 0.0 <= a * b
  {
  }

  lemma QuotientAtMost(a: real, l: real, b: real)
    requires 0.0 < l && 0.0 <= a <= l * b
    ensures 0.0 <= a / l <= b
  {
    var q := a / l;
    assert q * l == a;
    if q > b { assert (q - b) * l > 0.0; }
  }

  /**
   * The size a w x h picture is brought to: unchanged if it fits, else the longer side becomes the limit
   * and the other is the exact proportion rounded down, but at least one.
   */
  method TargetSize(w: nat, h: nat, maxDim: int) returns (needed: bool, newW: int, newH: int)
    ensures needed <==> w > Limit(maxDim) || h > Limit(maxDim)
    ensures maxDim <= 0 ==> (needed <==> w > 512 || h > 512)
    ensures maxDim > 0 ==> (needed <==> w > maxDim || h > maxDim)
    ensures newW <= Limit(maxDim) && newH <= Limit(maxDim)
    ensures !needed ==> newW == w && newH == h
    ensures needed ==> 1 <= newW && 1 <= newH && (1 <= w && 1 <= h ==> newW <= w && newH <= h)
    ensures needed && w >= h ==> newW == Limit(maxDim) && InProportion(newH, Exact(h, w, Limit(maxDim)))
    ensures needed && w < h ==> newH == Limit(maxDim) && InProportion(newW, Exact(w, h, Limit(maxDim)))
    ensures needed && w >= h ==> KeepsShape(newH, newW, h, w)
    ensures needed && w < h ==> KeepsShape(newW, newH, w, h)
  {
    var m: nat := if maxDim <= 0 then 512 else maxDim;
    needed := w > m || h > m;
    newW, newH := w, h;
    if needed {
      if w >= h {
        ExactBounds(h, w, m);
        newW := m;
        newH := Exact(h, w, m).Floor;
        FloorKeepsShape(h, w, m);
      } else {
        ExactBounds(w, h, m);
        newH := m;
        newW := Exact(w, h, m).Floor;
        FloorKeepsShape(w, h, m);
      }
      if newW < 1 { newW := 1; }
      if newH < 1 { newH := 1; }
    }
  }

  /** The new sides are in the old proportion: the shorter one is the largest length that does not exceed it, or one. */
  predicate KeepsShape(newShort: int, newLong: int, short: nat, long: nat) {
    && (newShort * long <= newLong * short < (newShort + 1) * long || (newShort == 1 && newLong * short < long))
  }

  lemma FloorKeepsShape(short: nat, long: nat, m: nat)
    requires 0 < m < long && short <= long
    ensures var side := Exact(short, long, m).Floor; KeepsShape(if side < 1 then 1 else side, m, short, long)
  {
    ExactBounds(short, long, m);
    FloorBounds(Exact(short, long, m), Exact(short, long, m).Floor, long, m * short);
  }

  /** If x times long is this product, so is its whole part up to less than long. */
  lemma FloorBounds(x: real, side: int, long: nat, product: int)
    requires 0 < long && 0.0 <= x && side == x.Floor && x * long as real == product as real
    ensures side * long <= product < (side + 1) * long && side >= 0 && (side == 0 ==> product < long)
  {
    ScaledLow(x, side as real, long as real, product, side * long);
    ScaledHigh(x, (side + 1) as real, long as real, product, (side + 1) * long);
  }

  lemma ScaledLow(x: real, k: real, l: real, product: int, low: int)
    requires 0.0 < l && k <= x && x * l == product as real && low as real == k * l
    ensures low <= product
  {
    ProductSign(x - k, l);
    assert (x - k) * l == x * l - k * l;
  }

  lemma ScaledHigh(x: real, k: real, l: real, product: int, high: int)
    requires 0.0 < l && x < k && x * l == product as real && high as real == k * l
    ensures product < high
  {
    ProductPositive(k - x, l);
    assert (k - x) * l == k * l - x * l;
  }

  /** 512 stands in for a limit that is not positive. */
  function Limit(maxDim: int): nat { if maxDim <= 0 then 512 else maxDim }

  /** `side` is within one pixel below the exact length, or is one because the exact length is under one. */
  predicate InProportion(side: int, exact: real) {
    if exact < 1.0 then side == 1 else side as real <= exact < side as real + 1.0
  }

  // ---------------------------------------------------------------- one axis

  /** The two source positions blended for one destination position, and the weight of the second. */
  datatype Tap = Tap(lo: int, hi: int, weight: real)

  /** Where the centre of destination pixel i of n falls among `size` source pixels. */
  function Position(i: int, size: nat, n: nat): real
    requires n > 0
  {
    (i as real + 0.5) * (size as real / n as real) - 0.5
  }

  lemma ProductPositive(a: real, b: real)
    requires 0.0 < a && 0.0 < b
    ensures 0.0 < a * b
  {
  }

  /** Scaling d down to s takes what lies below d to what lies below s. */
  lemma ScaledBelow(x: real, s: real, d: real)
    requires 0.0 < x < d && 0.0 < s
    ensures 0.0 < x * (s / d) < s
  {
    var q := s / d;
    assert q * d == s;
    if q <= 0.0 { ProductSign(-q, d); }
    ProductPositive(x, q);
    ProductPositive(d - x, q);
    assert (d - x) * q == q * d - x * q;
  }

  lemma PositionBounds(i: int, size: nat, n: nat)
    requires 0 <= i < n && 0 < size
    ensures -0.5 < Position(i, size, n) < size as real - 0.5
  {
    ScaledBelow(i as real + 0.5, size as real, n as real);
  }

  function TapAt(i: int, size: nat, n: nat): (t: Tap)
    requires 0 <= i < n && 0 < size
    ensures 0 <= t.lo <= t.hi < size && t.hi <= t.lo + 1 && 0.0 <= t.weight < 1.0
  {
    PositionBounds(i, size, n);
    var p := Position(i, size, n);
    var k := p.Floor;
    Tap(if k < 0 then 0 else k, if k + 1 >= size then size - 1 else k + 1, p - k as real)
  }

  lemma PositionMirrored(i: int, size: nat, n: nat)
    requires 0 <= i < n && 0 < size
    ensures Position(n - 1 - i, size, n) == (size - 1) as real - Position(i, size, n)
  {
    var x, s, d := i as real + 0.5, size as real, n as real;
    assert (d - x) * (s / d) == d * (s / d) - x * (s / d);
    assert d * (s / d) == s;
  }

  /** Seen from the other end, an axis blends the same positions with the weights exchanged. */
  lemma TapMirrored(i: int, size: nat, n: nat)
    requires 0 <= i < n && 0 < size
    ensures var t, u := TapAt(i, size, n), TapAt(n - 1 - i, size, n);
            || (u.lo == size - 1 - t.hi && u.hi == size - 1 - t.lo && (u.weight == 1.0 - t.weight || t.lo == t.hi))
            || (u.lo == size - 1 - t.lo && u.weight == 0.0 == t.weight)
  {
    PositionMirrored(i, size, n);
    PositionBounds(i, size, n);
    var p := Position(i, size, n);
    var k := p.Floor;
    var q := (size - 1) as real - p;
    if p == k as real {
      assert q == (size - 1 - k) as real;
    } else {
      assert q.Floor == size - 2 - k;
    }
  }

  lemma PositionIdentity(i: int, n: nat)
    requires 0 <= i < n
    ensures Position(i, n, n) == i as real
  {
    assert n as real / n as real == 1.0;
  }

  // ---------------------------------------------------------------- one pixel

  function Lerp(weight: real, a: real, b: real): real { (1.0 - weight) * a + weight * b }

  function Round(x: real): int { (x + 0.5).Floor }

  lemma LerpBetween(weight: real, a: real, b: real, low: real, high: real)
    requires 0.0 <= weight <= 1.0 && low <= a <= high && low <= b <= high
    ensures low <= Lerp(weight, a, b) <= high
  {
    ProductSign(1.0 - weight, a - low);
    ProductSign(weight, b - low);
    ProductSign(1.0 - weight, high - a);
    ProductSign(weight, high - b);
  }

  function Min(a: int, b: int): int { if a < b then a else b }

  function Max(a: int, b: int): int { if a < b then b else a }

  function Mix(wx: real, wy: real, c00: Byte, c10: Byte, c01: Byte, c11: Byte): real {
    Lerp(wy, Lerp(wx, c00 as real, c10 as real), Lerp(wx, c01 as real, c11 as real))
  }

  lemma MixBetween(wx: real, wy: real, c00: Byte, c10: Byte, c01: Byte, c11: Byte)
    requires 0.0 <= wx <= 1.0 && 0.0 <= wy <= 1.0
    ensures var low, high := Min(Min(c00, c10), Min(c01, c11)), Max(Max(c00, c10), Max(c01, c11));
            low as real <= Mix(wx, wy, c00, c10, c01, c11) <= high as real
  {
    var low, high := Min(Min(c00, c10), Min(c01, c11)) as real, Max(Max(c00, c10), Max(c01, c11)) as real;
    LerpBetween(wx, c00 as real, c10 as real, low, high);
    LerpBetween(wx, c01 as real, c11 as real, low, high);
    LerpBetween(wy, Lerp(wx, c00 as real, c10 as real), Lerp(wx, c01 as real, c11 as real), low, high);
  }

  /** One channel: never darker than the darkest nor brighter than the brightest of its four samples. */
  function Channel(wx: real, wy: real, c00: Byte, c10: Byte, c01: Byte, c11: Byte): (c: Byte)
    requires 0.0 <= wx <= 1.0 && 0.0 <= wy <= 1.0
    ensures Min(Min(c00, c10), Min(c01, c11)) <= c <= Max(Max(c00, c10), Max(c01, c11))
  {
    MixBetween(wx, wy, c00, c10, c01, c11);
    Round(Mix(wx, wy, c00, c10, c01, c11))
  }

  function Blend(wx: real, wy: real, p00: Rgba, p10: Rgba, p01: Rgba, p11: Rgba): Rgba
    requires 0.0 <= wx <= 1.0 && 0.0 <= wy <= 1.0
  {
    Rgba(Channel(wx, wy, p00.r, p10.r, p01.r, p11.r), Channel(wx, wy, p00.g, p10.g, p01.g, p11.g),
         Channel(wx, wy, p00.b, p10.b, p01.b, p11.b), Channel(wx, wy, p00.a, p10.a, p01.a, p11.a))
  }

  // ---------------------------------------------------------------- the whole picture

  ghost predicate Samplable(p: Raster, w: nat, h: nat) { p.w > 0 && p.h > 0 && w > 0 && h > 0 }

  ghost function Sample(p: Raster, s: Tap, t: Tap): Rgba
    requires p.WellFormed() && 0 <= s.lo <= s.hi < p.w && 0 <= t.lo <= t.hi < p.h
    requires 0.0 <= s.weight < 1.0 && 0.0 <= t.weight < 1.0
  {
    Blend(s.weight, t.weight, p.At(s.lo, t.lo), p.At(s.hi, t.lo), p.At(s.lo, t.hi), p.At(s.hi, t.hi))
  }

  ghost function PixelOf(p: Raster, w: nat, h: nat, x: int, y: int): Rgba
    requires p.WellFormed() && 0 <= x < w && 0 <= y < h
  {
    if !Samplable(p, w, h) then CLEAR else
      var s, t := TapAt(x, p.w, w), TapAt(y, p.h, h);
      Sample(p, s, t)
  }

  ghost function ResizedRow(p: Raster, w: nat, h: nat, y: nat): (r: seq<Rgba>)
    requires p.WellFormed() && y < h
    ensures |r| == w && forall x | 0 <= x < w :: r[x] == PixelOf(p, w, h, x, y)
  {
    seq(w, x requires 0 <= x < w => PixelOf(p, w, h, x, y))
  }

  /** The picture p resized to w x h; blank when either size has a zero side. */
  ghost function Resized(p: Raster, w: nat, h: nat): (q: Raster)
    requires p.WellFormed()
    ensures q.WellFormed() && q.w == w && q.h == h
    ensures forall x, y | q.Inside(x, y) :: q.At(x, y) == PixelOf(p, w, h, x, y)
  {
    Raster(w, h, seq(h, y requires 0 <= y < h => ResizedRow(p, w, h, y)))
  }

  ghost predicate Constant(p: Raster, c: Rgba)
    requires p.WellFormed()
  {
    forall x, y | p.Inside(x, y) :: p.At(x, y) == c
  }

  lemma RoundedLerpOfEqual(wx: real, wy: real, c: Byte)
    ensures Round(Mix(wx, wy, c, c, c, c)) == c
  {
    var v := c as real;
    assert Lerp(wx, v, v) == v by { assert (1.0 - wx) * v == v - wx * v; }
    assert Lerp(wy, v, v) == v by { assert (1.0 - wy) * v == v - wy * v; }
  }

  /** A picture of one colour stays that colour at every size. */
  lemma ResizeKeepsConstant(p: Raster, c: Rgba, w: nat, h: nat)
    requires p.WellFormed() && Samplable(p, w, h) && Constant(p, c)
    ensures Constant(Resized(p, w, h), c)
  {
    var q := Resized(p, w, h);
    forall x, y | q.Inside(x, y) ensures q.At(x, y) == c {
      var s, t := TapAt(x, p.w, w), TapAt(y, p.h, h);
      assert p.At(s.lo, t.lo) == p.At(s.hi, t.lo) == p.At(s.lo, t.hi) == p.At(s.hi, t.hi) == c;
      RoundedLerpOfEqual(s.weight, t.weight, c.r);
      RoundedLerpOfEqual(s.weight, t.weight, c.g);
      RoundedLerpOfEqual(s.weight, t.weight, c.b);
      RoundedLerpOfEqual(s.weight, t.weight, c.a);
    }
  }

  /** Resizing a picture to the size it already has changes nothing. */
  lemma ResizeToSameSize(p: Raster)
    requires p.WellFormed()
    ensures Resized(p, p.w, p.h) == p
  {
    var q := Resized(p, p.w, p.h);
    forall x, y | q.Inside(x, y) ensures q.At(x, y) == p.At(x, y) {
      PositionIdentity(x, p.w);
      PositionIdentity(y, p.h);
    }
    SameRaster(q, p);
  }

  // ---------------------------------------------------------------- what is interpolated

  datatype Component = Red | Green | Blue | Alpha

  function Of(c: Rgba, k: Component): int {
    match k case Red => c.r case Green => c.g case Blue => c.b case Alpha => c.a
  }

  function Clamp(x: real, low: real, high: real): real { if x < low then low else if x > high then high else x }

  /** Where pixel i of n is centred on an axis of `size` pixels, moved to the first or last pixel if it lies beyond. */
  function Centre(i: int, size: nat, n: nat): real
    requires size > 0 && n > 0
  {
    Clamp((2 * i + 1) as real * size as real / (2 * n) as real - 0.5, 0.0, (size - 1) as real)
  }

  /** Between two points one apart, on either axis, the function blends its values linearly. */
  ghost predicate BlendsAt(f: (real, real) -> real, x: real, y: real, w: real) {
    && f(x + w, y) == (1.0 - w) * f(x, y) + w * f(x + 1.0, y)
    && f(x, y + w) == (1.0 - w) * f(x, y) + w * f(x, y + 1.0)
  }

  ghost predicate Bilinear(f: (real, real) -> real) { forall x, y, w :: BlendsAt(f, x, y, w) }

  /** On the pixels less than one pixel away from (cx, cy) the component is the value of f. */
  ghost predicate Fits(p: Raster, k: Component, f: (real, real) -> real, cx: real, cy: real)
    requires p.WellFormed()
  {
    forall i, j | p.Inside(i, j) && -1.0 < i as real - cx < 1.0 && -1.0 < j as real - cy < 1.0 ::
      Of(p.At(i, j), k) as real == f(i as real, j as real)
  }

  predicate IsRounded(v: int, z: real) { v as real <= z + 0.5 < v as real + 1.0 }

  /** If the pixels of p around (cx, cy) lie on this bilinear function, the colour is its value there, rounded. */
  ghost predicate Follows(p: Raster, colour: Rgba, k: Component, f: (real, real) -> real, cx: real, cy: real)
    requires p.WellFormed()
  {
    Bilinear(f) && Fits(p, k, f, cx, cy) ==> IsRounded(Of(colour, k), f(cx, cy))
  }

  ghost predicate PixelFollows(p: Raster, q: Raster, x: int, y: int, k: Component, f: (real, real) -> real)
    requires p.WellFormed() && q.WellFormed() && p.w > 0 && p.h > 0 && q.Inside(x, y)
  {
    Follows(p, q.At(x, y), k, f, Centre(x, p.w, q.w), Centre(y, p.h, q.h))
  }

  /** Every pixel of q is the rounded value, at its centre, of every bilinear function its neighbours in p lie on. */
  ghost predicate Interpolates(p: Raster, q: Raster)
    requires p.WellFormed() && q.WellFormed() && p.w > 0 && p.h > 0
  {
    forall x, y, k, f: (real, real) -> real | q.Inside(x, y) :: PixelFollows(p, q, x, y, k, f)
  }

  lemma DoubledQuotient(u: real, v: real, x: real, s: real, d: real)
    requires d > 0.0 && u == 2.0 * x && v == 2.0 * d
    ensures u * s / v == x * (s / d)
  {
    var q, r := s / d, u * s / v;
    assert q * d == s;
    assert r * v == u * s == (x * q) * v;
    assert (r - x * q) * v == 0.0;
  }

  lemma PositionDoubled(i: int, size: nat, n: nat)
    requires n > 0
    ensures (2 * i + 1) as real * size as real / (2 * n) as real - 0.5 == Position(i, size, n)
  {
    DoubledQuotient((2 * i + 1) as real, (2 * n) as real, i as real + 0.5, size as real, n as real);
  }

  /** The centre lies on the lower neighbour, moved on by the weight unless both neighbours are one. */
  lemma TapCentre(i: int, size: nat, n: nat)
    requires 0 <= i < n && 0 < size
    ensures var t := TapAt(i, size, n);
            Centre(i, size, n) == if t.lo == t.hi then t.lo as real else t.lo as real + t.weight
  {
    PositionDoubled(i, size, n);
    PositionBounds(i, size, n);
    TapOfPosition(Position(i, size, n), size, TapAt(i, size, n));
  }

  lemma TapOfPosition(p: real, size: nat, t: Tap)
    requires 0 < size && -0.5 < p < size as real - 0.5
    requires t.lo == (if p.Floor < 0 then 0 else p.Floor) && t.hi == (if p.Floor + 1 >= size then size - 1 else p.Floor + 1)
    requires t.weight == p - p.Floor as real
    ensures Clamp(p, 0.0, (size - 1) as real) == if t.lo == t.hi then t.lo as real else t.lo as real + t.weight
  {
  }

  lemma LerpOfEqual(w: real, u: real)
    ensures Lerp(w, u, u) == u && Lerp(0.0, u, w) == u
  {
    assert (1.0 - w) * u == u - w * u;
  }

  /** Both neighbours, or the lower one if the other has no weight, lie less than one pixel from the centre. */
  lemma NearTaps(i: int, size: nat, n: nat)
    requires 0 <= i < n && 0 < size
    ensures var t, x := TapAt(i, size, n), Centre(i, size, n);
            -1.0 < t.lo as real - x < 1.0 && (t.lo == t.hi || t.weight != 0.0 ==> -1.0 < t.hi as real - x < 1.0)
  {
    TapCentre(i, size, n);
  }

  lemma EdgeFits(f: (real, real) -> real, x: real, y: real, w: real, u: real, v: real)
    requires Bilinear(f) && u == f(x, y) && v == f(x + 1.0, y)
    ensures Lerp(w, u, v) == f(x + w, y)
  {
    assert BlendsAt(f, x, y, w);
  }

  lemma RowFits(p: Raster, k: Component, s: Tap, j: int, cx: real, cy: real, f: (real, real) -> real)
    requires p.WellFormed() && Fits(p, k, f, cx, cy) && Bilinear(f)
    requires 0 <= s.lo <= s.hi < p.w && s.hi <= s.lo + 1 && 0 <= j < p.h && -1.0 < j as real - cy < 1.0
    requires cx == (if s.lo == s.hi then s.lo as real else s.lo as real + s.weight) && 0.0 <= s.weight < 1.0
    ensures Lerp(s.weight, Of(p.At(s.lo, j), k) as real, Of(p.At(s.hi, j), k) as real) == f(cx, j as real)
  {
    var u, v, y := Of(p.At(s.lo, j), k) as real, Of(p.At(s.hi, j), k) as real, j as real;
    assert p.Inside(s.lo, j) && u == f(s.lo as real, y);
    if s.lo == s.hi {
      LerpOfEqual(s.weight, u);
    } else if s.weight == 0.0 {
      LerpOfEqual(v, u);
    } else {
      assert p.Inside(s.hi, j) && v == f(s.hi as real, y);
      EdgeFits(f, s.lo as real, y, s.weight, u, v);
    }
  }

  lemma MixFits(wx: real, t: Tap, c00: Byte, c10: Byte, c01: Byte, c11: Byte, cx: real, cy: real, f: (real, real) -> real)
    requires Bilinear(f) && t.lo <= t.hi <= t.lo + 1 && cy == if t.lo == t.hi then t.lo as real else t.lo as real + t.weight
    requires Lerp(wx, c00 as real, c10 as real) == f(cx, t.lo as real) && (t.lo == t.hi ==> c01 == c00 && c11 == c10)
    requires t.lo != t.hi && t.weight != 0.0 ==> Lerp(wx, c01 as real, c11 as real) == f(cx, t.hi as real)
    ensures Mix(wx, t.weight, c00, c10, c01, c11) == f(cx, cy)
  {
    var r0, r1 := Lerp(wx, c00 as real, c10 as real), Lerp(wx, c01 as real, c11 as real);
    if t.lo == t.hi {
      LerpOfEqual(t.weight, r0);
    } else if t.weight == 0.0 {
      LerpOfEqual(r1, r0);
    } else {
      assert BlendsAt(f, cx, t.lo as real, t.weight);
    }
  }

  lemma SampleFollows(p: Raster, k: Component, s: Tap, t: Tap, cx: real, cy: real, f: (real, real) -> real)
    requires p.WellFormed() && Fits(p, k, f, cx, cy) && Bilinear(f)
    requires 0 <= s.lo <= s.hi < p.w && s.hi <= s.lo + 1 && 0 <= t.lo <= t.hi < p.h && t.hi <= t.lo + 1
    requires cx == (if s.lo == s.hi then s.lo as real else s.lo as real + s.weight) && 0.0 <= s.weight < 1.0
    requires cy == (if t.lo == t.hi then t.lo as real else t.lo as real + t.weight) && 0.0 <= t.weight < 1.0
    ensures IsRounded(Of(Sample(p, s, t), k), f(cx, cy))
  {
    RowFits(p, k, s, t.lo, cx, cy, f);
    if t.lo != t.hi && t.weight != 0.0 { RowFits(p, k, s, t.hi, cx, cy, f); }
    var p00, p10, p01, p11 := p.At(s.lo, t.lo), p.At(s.hi, t.lo), p.At(s.lo, t.hi), p.At(s.hi, t.hi);
    MixFits(s.weight, t, Of(p00, k), Of(p10, k), Of(p01, k), Of(p11, k), cx, cy, f);
    ComponentOfBlend(s.weight, t.weight, p00, p10, p01, p11, k);
  }

  lemma ComponentOfBlend(wx: real, wy: real, p00: Rgba, p10: Rgba, p01: Rgba, p11: Rgba, k: Component)
    requires 0.0 <= wx <= 1.0 && 0.0 <= wy <= 1.0
    ensures IsRounded(Of(Blend(wx, wy, p00, p10, p01, p11), k), Mix(wx, wy, Of(p00, k), Of(p10, k), Of(p01, k), Of(p11, k)))
  {
  }

  lemma ColourFollows(p: Raster, colour: Rgba, k: Component, s: Tap, t: Tap, cx: real, cy: real, f: (real, real) -> real)
    requires p.WellFormed() && 0 <= s.lo <= s.hi < p.w && s.hi <= s.lo + 1 && 0 <= t.lo <= t.hi < p.h && t.hi <= t.lo + 1
    requires cx == (if s.lo == s.hi then s.lo as real else s.lo as real + s.weight) && 0.0 <= s.weight < 1.0
    requires cy == (if t.lo == t.hi then t.lo as real else t.lo as real + t.weight) && 0.0 <= t.weight < 1.0
    requires colour == Sample(p, s, t)
    ensures Follows(p, colour, k, f, cx, cy)
  {
    if Bilinear(f) && Fits(p, k, f, cx, cy) { SampleFollows(p, k, s, t, cx, cy, f); }
  }

  lemma ResizedPixelFollows(p: Raster, w: nat, h: nat, x: int, y: int, k: Component, f: (real, real) -> real)
    requires p.WellFormed() && p.w > 0 && p.h > 0 && 0 <= x < w && 0 <= y < h
    ensures PixelFollows(p, Resized(p, w, h), x, y, k, f)
  {
    TapCentre(x, p.w, w);
    TapCentre(y, p.h, h);
    var colour := Resized(p, w, h).At(x, y);
    ColourFollows(p, colour, k, TapAt(x, p.w, w), TapAt(y, p.h, h), Centre(x, p.w, w), Centre(y, p.h, h), f);
  }

  /** The resized picture interpolates the given one bilinearly, on both axes and up to its border. */
  lemma ResizeInterpolates(p: Raster, w: nat, h: nat)
    requires p.WellFormed() && p.w > 0 && p.h > 0
    ensures Interpolates(p, Resized(p, w, h))
  {
    forall x, y, k, f: (real, real) -> real | Resized(p, w, h).Inside(x, y) ensures PixelFollows(p, Resized(p, w, h), x, y, k, f) {
      ResizedPixelFollows(p, w, h, x, y, k, f);
    }
  }

  /** The even slope a + b*x + c*y. */
  ghost function Slope(a: real, b: real, c: real): (real, real) -> real { (x, y) => a + b * x + c * y }

  lemma SlopeIsBilinear(a: real, b: real, c: real)
    ensures Bilinear(Slope(a, b, c))
  {
    forall x, y, w ensures BlendsAt(Slope(a, b, c), x, y, w) {
      PlaneBlends(a + c * y, b, x, w);
      PlaneBlends(a + b * x, c, y, w);
    }
  }

  lemma PlaneBlends(m: real, e: real, x: real, w: real)
    ensures m + e * (x + w) == (1.0 - w) * (m + e * x) + w * (m + e * (x + 1.0))
  {
    assert e * (x + w) == e * x + e * w && e * (x + 1.0) == e * x + e;
    assert (1.0 - w) * (m + e * x) == m + e * x - w * (m + e * x);
    assert w * (m + e * x + e) == w * (m + e * x) + w * e;
  }

  /** On a picture whose component is a bilinear function, every pixel of the result is its rounded value at the centre. */
  lemma BilinearStaysBilinear(p: Raster, w: nat, h: nat, k: Component, f: (real, real) -> real, x: int, y: int)
    requires p.WellFormed() && p.w > 0 && p.h > 0 && 0 <= x < w && 0 <= y < h && Bilinear(f)
    requires forall i, j | p.Inside(i, j) :: Of(p.At(i, j), k) as real == f(i as real, j as real)
    ensures IsRounded(Of(Resized(p, w, h).At(x, y), k), f(Centre(x, p.w, w), Centre(y, p.h, h)))
  {
    ResizedPixelFollows(p, w, h, x, y, k, f);
    assert PixelFollows(p, Resized(p, w, h), x, y, k, f);
    assert Fits(p, k, f, Centre(x, p.w, w), Centre(y, p.h, h));
  }

  /** On a picture with an even slope every pixel of the result is the rounded slope at its centre. */
  lemma SlopeStaysASlope(p: Raster, w: nat, h: nat, k: Component, a: real, b: real, c: real, x: int, y: int)
    requires p.WellFormed() && p.w > 0 && p.h > 0 && 0 <= x < w && 0 <= y < h
    requires forall i, j | p.Inside(i, j) :: Of(p.At(i, j), k) as real == Slope(a, b, c)(i as real, j as real)
    ensures IsRounded(Of(Resized(p, w, h).At(x, y), k), Slope(a, b, c)(Centre(x, p.w, w), Centre(y, p.h, h)))
  {
    SlopeIsBilinear(a, b, c);
    BilinearStaysBilinear(p, w, h, k, Slope(a, b, c), x, y);
  }

  /** A 2 x 1 picture with 0 and 100 stretched to four pixels: its border pixels, and a quarter and three quarters. */
  lemma FourFromTwo(p: Raster)
    requires p.WellFormed() && p.w == 2 && p.h == 1 && p.At(0, 0).r == 0 && p.At(1, 0).r == 100
    ensures var q := Resized(p, 4, 1);
            q.At(0, 0).r == 0 && q.At(1, 0).r == 25 && q.At(2, 0).r == 75 && q.At(3, 0).r == 100
  {
    CentresOfFour();
    RedOfFour(p, 0, 0.0);
    RedOfFour(p, 1, 0.25);
    RedOfFour(p, 2, 0.75);
    RedOfFour(p, 3, 1.0);
  }

  lemma RedOfFour(p: Raster, x: int, at: real)
    requires p.WellFormed() && p.w == 2 && p.h == 1 && 0 <= x < 4 && Centre(x, 2, 4) == at
    requires p.At(0, 0).r == 0 && p.At(1, 0).r == 100
    ensures IsRounded(Resized(p, 4, 1).At(x, 0).r, 100.0 * at)
  {
    SlopeStaysASlope(p, 4, 1, Red, 0.0, 100.0, 0.0, x, 0);
  }

  lemma CentresOfFour()
    ensures Centre(0, 2, 4) == 0.0 && Centre(1, 2, 4) == 0.25 && Centre(2, 2, 4) == 0.75 && Centre(3, 2, 4) == 1.0
  {
  }

  // ---------------------------------------------------------------- resizing and orienting commute

  lemma MixMirrored(wx: real, wy: real, c00: Byte, c10: Byte, c01: Byte, c11: Byte)
    ensures Mix(1.0 - wx, wy, c10, c00, c11, c01) == Mix(wx, wy, c00, c10, c01, c11)
  {
  }

  lemma MixSameColumns(wx: real, vx: real, wy: real, c0: Byte, c1: Byte)
    ensures Mix(wx, wy, c0, c0, c1, c1) == Mix(vx, wy, c0, c0, c1, c1)
  {
    var a, b := c0 as real, c1 as real;
    assert Lerp(wx, a, a) == a == Lerp(vx, a, a) by { assert (1.0 - wx) * a == a - wx * a && (1.0 - vx) * a == a - vx * a; }
    assert Lerp(wx, b, b) == b == Lerp(vx, b, b) by { assert (1.0 - wx) * b == b - wx * b && (1.0 - vx) * b == b - vx * b; }
  }

  lemma MixTransposed(wx: real, wy: real, c00: Byte, c10: Byte, c01: Byte, c11: Byte)
    ensures Mix(wy, wx, c00, c01, c10, c11) == Mix(wx, wy, c00, c10, c01, c11)
  {
    var a, b, c, d := c00 as real, c10 as real, c01 as real, c11 as real;
    var u, v := 1.0 - wx, 1.0 - wy;
    assert Mix(wx, wy, c00, c10, c01, c11) == v * (u * a) + v * (wx * b) + (wy * (u * c) + wy * (wx * d));
    assert Mix(wy, wx, c00, c01, c10, c11) == u * (v * a) + u * (wy * c) + (wx * (v * b) + wx * (wy * d));
  }

  lemma BlendMirrored(s: Tap, u: Tap, wy: real, p00: Rgba, p10: Rgba, p01: Rgba, p11: Rgba)
    requires 0.0 <= s.weight < 1.0 && 0.0 <= u.weight < 1.0 && 0.0 <= wy < 1.0
    requires u.weight == 1.0 - s.weight || (p00 == p10 && p01 == p11)
    ensures Blend(u.weight, wy, p10, p00, p11, p01) == Blend(s.weight, wy, p00, p10, p01, p11)
  {
    if u.weight == 1.0 - s.weight {
      MixMirrored(s.weight, wy, p00.r, p10.r, p01.r, p11.r);
      MixMirrored(s.weight, wy, p00.g, p10.g, p01.g, p11.g);
      MixMirrored(s.weight, wy, p00.b, p10.b, p01.b, p11.b);
      MixMirrored(s.weight, wy, p00.a, p10.a, p01.a, p11.a);
    } else {
      MixSameColumns(s.weight, u.weight, wy, p00.r, p01.r);
      MixSameColumns(s.weight, u.weight, wy, p00.g, p01.g);
      MixSameColumns(s.weight, u.weight, wy, p00.b, p01.b);
      MixSameColumns(s.weight, u.weight, wy, p00.a, p01.a);
    }
  }

  lemma BlendTransposed(wx: real, wy: real, p00: Rgba, p10: Rgba, p01: Rgba, p11: Rgba)
    requires 0.0 <= wx < 1.0 && 0.0 <= wy < 1.0
    ensures Blend(wy, wx, p00, p01, p10, p11) == Blend(wx, wy, p00, p10, p01, p11)
  {
    MixTransposed(wx, wy, p00.r, p10.r, p01.r, p11.r);
    MixTransposed(wx, wy, p00.g, p10.g, p01.g, p11.g);
    MixTransposed(wx, wy, p00.b, p10.b, p01.b, p11.b);
    MixTransposed(wx, wy, p00.a, p10.a, p01.a, p11.a);
  }

  lemma BlendFirstColumn(wy: real, p00: Rgba, p10: Rgba, q10: Rgba, p01: Rgba, p11: Rgba, q11: Rgba)
    requires 0.0 <= wy < 1.0
    ensures Blend(0.0, wy, p00, p10, p01, p11) == Blend(0.0, wy, p00, q10, p01, q11)
  {
  }

  lemma SampleOf(q: Raster, u: Tap, t: Tap, c00: Rgba, c10: Rgba, c01: Rgba, c11: Rgba)
    requires q.WellFormed() && 0 <= u.lo <= u.hi < q.w && 0 <= t.lo <= t.hi < q.h
    requires 0.0 <= u.weight < 1.0 && 0.0 <= t.weight < 1.0
    requires q.At(u.lo, t.lo) == c00 && q.At(u.hi, t.lo) == c10 && q.At(u.lo, t.hi) == c01 && q.At(u.hi, t.hi) == c11
    ensures Sample(q, u, t) == Blend(u.weight, t.weight, c00, c10, c01, c11)
  {
  }

  lemma FlippedAt(p: Raster, x: int, y: int)
    requires p.WellFormed() && 0 <= x < p.w && 0 <= y < p.h
    ensures Orient(p, 2).Inside(x, y) && Orient(p, 2).At(x, y) == p.At(p.w - 1 - x, y)
  {
    OrientAt(p, 2, x, y);
  }

  lemma SampleOfFlipped(p: Raster, u: Tap, t: Tap, c00: Rgba, c10: Rgba, c01: Rgba, c11: Rgba)
    requires p.WellFormed() && 0 <= u.lo <= u.hi < p.w && 0 <= t.lo <= t.hi < p.h
    requires 0.0 <= u.weight < 1.0 && 0.0 <= t.weight < 1.0
    requires var m := p.w - 1;
             && c00 == p.At(m - u.lo, t.lo) && c10 == p.At(m - u.hi, t.lo) && c01 == p.At(m - u.lo, t.hi) && c11 == p.At(m - u.hi, t.hi)
    ensures Sample(Orient(p, 2), u, t) == Blend(u.weight, t.weight, c00, c10, c01, c11)
  {
    FlippedAt(p, u.lo, t.lo);
    FlippedAt(p, u.hi, t.lo);
    FlippedAt(p, u.lo, t.hi);
    FlippedAt(p, u.hi, t.hi);
    SampleOf(Orient(p, 2), u, t, c00, c10, c01, c11);
  }

  /** The two taps blend the same two columns, with exchanged weights or with equal columns. */
  lemma ExchangedTaps(p: Raster, s: Tap, u: Tap, t: Tap)
    requires p.WellFormed() && 0 <= s.lo <= s.hi < p.w && 0 <= u.lo <= u.hi < p.w && 0 <= t.lo <= t.hi < p.h
    requires 0.0 <= s.weight < 1.0 && 0.0 <= u.weight < 1.0 && 0.0 <= t.weight < 1.0
    requires s.lo == p.w - 1 - u.hi && s.hi == p.w - 1 - u.lo && (s.weight == 1.0 - u.weight || u.lo == u.hi)
    ensures Sample(Orient(p, 2), u, t) == Sample(p, s, t)
  {
    var p00, p10, p01, p11 := p.At(s.lo, t.lo), p.At(s.hi, t.lo), p.At(s.lo, t.hi), p.At(s.hi, t.hi);
    SampleOfFlipped(p, u, t, p10, p00, p11, p01);
    BlendMirrored(s, u, t.weight, p00, p10, p01, p11);
    SampleOf(p, s, t, p00, p10, p01, p11);
  }

  /** The two taps fall exactly on one column. */
  lemma SingleTaps(p: Raster, s: Tap, u: Tap, t: Tap)
    requires p.WellFormed() && 0 <= s.lo <= s.hi < p.w && 0 <= u.lo <= u.hi < p.w && 0 <= t.lo <= t.hi < p.h
    requires 0.0 <= t.weight < 1.0
    requires s.lo == p.w - 1 - u.lo && s.weight == 0.0 == u.weight
    ensures Sample(Orient(p, 2), u, t) == Sample(p, s, t)
  {
    var p00, p10, p01, p11 := p.At(s.lo, t.lo), p.At(s.hi, t.lo), p.At(s.lo, t.hi), p.At(s.hi, t.hi);
    var q10, q11 := p.At(p.w - 1 - u.hi, t.lo), p.At(p.w - 1 - u.hi, t.hi);
    SampleOfFlipped(p, u, t, p00, q10, p01, q11);
    BlendFirstColumn(t.weight, p00, p10, q10, p01, p11, q11);
    SampleOf(p, s, t, p00, p10, p01, p11);
  }

  lemma PixelMirrored(p: Raster, w: nat, h: nat, x: int, y: int)
    requires p.WellFormed() && 0 <= x < w && 0 <= y < h
    ensures PixelOf(Orient(p, 2), w, h, x, y) == PixelOf(p, w, h, w - 1 - x, y)
  {
    if Samplable(p, w, h) {
      TapMirrored(x, p.w, w);
      var s, u, t := TapAt(w - 1 - x, p.w, w), TapAt(x, p.w, w), TapAt(y, p.h, h);
      if s.lo == p.w - 1 - u.lo && s.weight == 0.0 == u.weight {
        SingleTaps(p, s, u, t);
      } else {
        ExchangedTaps(p, s, u, t);
      }
    }
  }

  lemma PixelTransposed(p: Raster, w: nat, h: nat, x: int, y: int)
    requires p.WellFormed() && 0 <= x < h && 0 <= y < w
    ensures PixelOf(Orient(p, 5), h, w, x, y) == PixelOf(p, w, h, y, x)
  {
    if Samplable(p, w, h) {
      var s, t := TapAt(y, p.w, w), TapAt(x, p.h, h);
      OrientAt(p, 5, t.lo, s.lo); OrientAt(p, 5, t.hi, s.lo); OrientAt(p, 5, t.lo, s.hi); OrientAt(p, 5, t.hi, s.hi);
      BlendTransposed(s.weight, t.weight, p.At(s.lo, t.lo), p.At(s.hi, t.lo), p.At(s.lo, t.hi), p.At(s.hi, t.hi));
    }
  }

  ghost predicate Commutes(p: Raster, o: int, w: nat, h: nat)
    requires p.WellFormed()
  {
    Resized(Orient(p, o), OutW(o, w, h), OutH(o, w, h)) == Orient(Resized(p, w, h), o)
  }

  lemma FlipCommutes(p: Raster, w: nat, h: nat)
    requires p.WellFormed()
    ensures Commutes(p, 2, w, h)
  {
    var a, b := Resized(Orient(p, 2), w, h), Orient(Resized(p, w, h), 2);
    forall x, y | a.Inside(x, y) ensures a.At(x, y) == b.At(x, y) {
      OrientAt(Resized(p, w, h), 2, x, y);
      PixelMirrored(p, w, h, x, y);
    }
    SameRaster(a, b);
  }

  lemma TransposedAt(p: Raster, w: nat, h: nat, x: int, y: int)
    requires p.WellFormed() && 0 <= x < h && 0 <= y < w
    ensures Orient(Resized(p, w, h), 5).Inside(x, y) && Orient(Resized(p, w, h), 5).At(x, y) == PixelOf(p, w, h, y, x)
  {
    OrientAt(Resized(p, w, h), 5, x, y);
  }

  lemma TransposeCommutes(p: Raster, w: nat, h: nat)
    requires p.WellFormed()
    ensures Commutes(p, 5, w, h)
  {
    var a, b := Resized(Orient(p, 5), h, w), Orient(Resized(p, w, h), 5);
    forall x, y | a.Inside(x, y) ensures a.At(x, y) == b.At(x, y) {
      TransposedAt(p, w, h, x, y);
      PixelTransposed(p, w, h, x, y);
    }
    SameRaster(a, b);
  }

  lemma ComposedCommutes(p: Raster, a: int, b: int, w: nat, h: nat)
    requires p.WellFormed() && IsOrientation(a) && IsOrientation(b)
    requires Commutes(p, a, w, h)
    requires Commutes(Orient(p, a), b, OutW(a, w, h), OutH(a, w, h))
    ensures Commutes(p, Compose(a, b), w, h)
  {
    ComposeIsComposition(p, a, b);
    ComposeIsComposition(Resized(p, w, h), a, b);
  }

  /** Turning then resizing gives the very picture that resizing then turning gives, for all eight orientations. */
  lemma ResizeCommutesWithOrientation(p: Raster, o: int, w: nat, h: nat)
    requires p.WellFormed()
    ensures Resized(Orient(p, o), OutW(o, w, h), OutH(o, w, h)) == Orient(Resized(p, w, h), o)
    decreases if o in {1, 2, 5} || !IsOrientation(o) then 0 else if o in {6, 8} then 1 else if o in {4, 7} then 2 else 3
  {
    match o
    case 2 => FlipCommutes(p, w, h);
    case 5 => TransposeCommutes(p, w, h);
    case 6 => TransposeCommutes(p, w, h); FlipCommutes(Orient(p, 5), h, w); ComposedCommutes(p, 5, 2, w, h);
    case 8 => FlipCommutes(p, w, h); TransposeCommutes(Orient(p, 2), w, h); ComposedCommutes(p, 2, 5, w, h);
    case 4 => ResizeCommutesWithOrientation(p, 6, w, h); TransposeCommutes(Orient(p, 6), h, w); ComposedCommutes(p, 6, 5, w, h);
    case 7 => ResizeCommutesWithOrientation(p, 8, w, h); FlipCommutes(Orient(p, 8), h, w); ComposedCommutes(p, 8, 2, w, h);
    case 3 => ResizeCommutesWithOrientation(p, 7, w, h); TransposeCommutes(Orient(p, 7), h, w); ComposedCommutes(p, 7, 5, w, h);
    case _ => IdentityOrientation(p, o); IdentityOrientation(Resized(p, w, h), o);
  }

  // ---------------------------------------------------------------- the loops

  /** dst already agrees with the picture q on every pixel before (x, y), row by row. */
  ghost predicate Sampled(q: Raster, dst: Image, x: int, y: int)
    requires q.WellFormed()
    reads dst.pix
  {
    && dst.minX == 0 && dst.minY == 0 && dst.Dx() == q.w && dst.Dy() == q.h
    && forall i, j | 0 <= i < q.w && 0 <= j < q.h :: j < y || (j == y && i < x) ==> dst.pix[i, j] == q.At(i, j)
  }

  lemma ViewAt(src: Image, x: int, y: int)
    requires 0 <= x < src.Dx() && 0 <= y < src.Dy()
    ensures src.At(src.minX + x, src.minY + y) == src.View().At(x, y)
  {
    assert src.View().rows[y] == src.Row(y);
  }

  lemma AllSampled(q: Raster, dst: Image)
    requires q.WellFormed() && Sampled(q, dst, 0, q.h)
    ensures dst.View() == q
  {
    forall x, y | q.Inside(x, y) ensures dst.View().At(x, y) == q.At(x, y) {
      assert dst.View().rows[y] == dst.Row(y);
    }
    SameRaster(dst.View(), q);
  }

  /** The neighbours and the weight of one axis; the source writes this out once for x and once for y. */
  method Neighbours(i: nat, size: nat, n: nat, scale: real) returns (lo: int, hi: int, weight: real)
    requires i < n && 0 < size && scale == size as real / n as real
    ensures Tap(lo, hi, weight) == TapAt(i, size, n)
    ensures 0 <= lo <= hi < size && Centre(i, size, n) == if lo == hi then lo as real else lo as real + weight
  {
    TapCentre(i, size, n);
    var pos := (i as real + 0.5) * scale - 0.5;
    lo := pos.Floor;
    hi := lo + 1;
    weight := pos - lo as real;
    if lo < 0 { lo := 0; }
    if hi >= size { hi := size - 1; }
  }

  method PixelAt(src: Image, s: Tap, t: Tap, ghost w: nat, ghost h: nat, ghost x: nat, ghost y: nat) returns (c: Rgba)
    requires Samplable(src.View(), w, h) && x < w && y < h
    requires s == TapAt(x, src.Dx(), w) && t == TapAt(y, src.Dy(), h)
    ensures c == Resized(src.View(), w, h).At(x, y)
  {
    ViewAt(src, s.lo, t.lo); ViewAt(src, s.hi, t.lo); ViewAt(src, s.lo, t.hi); ViewAt(src, s.hi, t.hi);
    var c00 := src.At(src.minX + s.lo, src.minY + t.lo);
    var c10 := src.At(src.minX + s.hi, src.minY + t.lo);
    var c01 := src.At(src.minX + s.lo, src.minY + t.hi);
    var c11 := src.At(src.minX + s.hi, src.minY + t.hi);
    c := Blend(s.weight, t.weight, c00, c10, c01, c11);
  }

  /** The inner loop of the source: one row of the result. */
  method ResizeRow(src: Image, dst: Image, ghost p: Raster, y: nat, t: Tap, scaleX: real)
    requires src.pix != dst.pix && p == src.View() && Samplable(p, dst.Dx(), dst.Dy()) && y < dst.Dy()
    requires scaleX == src.Dx() as real / dst.Dx() as real && t == TapAt(y, src.Dy(), dst.Dy())
    requires Sampled(Resized(p, dst.Dx(), dst.Dy()), dst, 0, y)
    modifies dst.pix
    ensures Sampled(Resized(p, dst.Dx(), dst.Dy()), dst, 0, y + 1)
  {
    ghost var q := Resized(p, dst.Dx(), dst.Dy());
    for x := 0 to dst.Dx()
      invariant Sampled(q, dst, x, y)
    {
      var x0, x1, xWeight := Neighbours(x, src.Dx(), dst.Dx(), scaleX);
      var c := PixelAt(src, Tap(x0, x1, xWeight), t, dst.Dx(), dst.Dy(), x, y);
      dst.pix[x, y] := c;
    }
  }

  method ResizeBilinear(src: Image, dstW: nat, dstH: nat) returns (dst: Image)
    ensures fresh(dst) && fresh(dst.pix) && dst.minX == 0 && dst.minY == 0
    ensures dst.View() == Resized(src.View(), dstW, dstH) && dst.Dx() == dstW && dst.Dy() == dstH
    ensures src.Dx() > 0 && src.Dy() > 0 ==> Interpolates(src.View(), dst.View())
    ensures src.Dx() == 0 || src.Dy() == 0 ==> forall x, y | dst.View().Inside(x, y) :: dst.View().At(x, y) == Rgba(0, 0, 0, 0)
  {
    dst := new Image(dstW, dstH);
    ghost var p := src.View();
    if src.Dx() > 0 && src.Dy() > 0 { ResizeInterpolates(p, dstW, dstH); }
    ghost var q := Resized(p, dstW, dstH);
    if src.Dx() == 0 || src.Dy() == 0 || dstW == 0 || dstH == 0 {
      AllSampled(q, dst);
      return;
    }
    var scaleX := src.Dx() as real / dstW as real;
    var scaleY := src.Dy() as real / dstH as real;
    for y := 0 to dstH
      invariant fresh(dst.pix) && src.View() == p && Sampled(q, dst, 0, y)
    {
      var y0, y1, yWeight := Neighbours(y, src.Dy(), dstH, scaleY);
      ResizeRow(src, dst, p, y, Tap(y0, y1, yWeight), scaleX);
    }
    AllSampled(q, dst);
  }
}
