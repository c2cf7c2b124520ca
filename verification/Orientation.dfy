/** The eight EXIF orientations: the loops that apply them, and the dihedral group they form. */
module Orientation {
  import opened Pixels

  predicate IsOrientation(o: int) { 1 <= o <= 8 }

  predicate SwapsAxes(o: int) { 5 <= o <= 8 }

  function OutW(o: int, w: nat, h: nat): nat { if SwapsAxes(o) then h else w }

  function OutH(o: int, w: nat, h: nat): nat { if SwapsAxes(o) then w else h }

  /** Where a turned w x h picture takes its pixel (x, y) from. */
  function SourceOf(o: int, w: nat, h: nat, x: int, y: int): (int, int) {
    match o
    case 2 => (w - 1 - x, y)
    case 3 => (w - 1 - x, h - 1 - y)
    case 4 => (x, h - 1 - y)
    case 5 => (y, x)
    case 6 => (y, h - 1 - x)
    case 7 => (w - 1 - y, h - 1 - x)
    case 8 => (w - 1 - y, x)
    case _ => (x, y)
  }

  /** Where the loops of the source write pixel (x, y) of a w x h picture. */
  function TargetOf(o: int, w: nat, h: nat, x: int, y: int): (int, int) {
    match o
    case 2 => (w - 1 - x, y)
    case 3 => (w - 1 - x, h - 1 - y)
    case 4 => (x, h - 1 - y)
    case 5 => (y, x)
    case 6 => (h - 1 - y, x)
    case 7 => (h - 1 - y, w - 1 - x)
    case 8 => (y, w - 1 - x)
    case _ => (x, y)
  }

  predicate InRect(w: nat, h: nat, p: (int, int)) { 0 <= p.0 < w && 0 <= p.1 < h }

  lemma WriteThenRead(o: int, w: nat, h: nat, x: int, y: int)
    ensures var t := TargetOf(o, w, h, x, y);
            SourceOf(o, w, h, t.0, t.1) == (x, y) && (InRect(w, h, (x, y)) ==> InRect(OutW(o, w, h), OutH(o, w, h), t))
  {
  }

  lemma ReadThenWrite(o: int, w: nat, h: nat, x: int, y: int)
    ensures var s := SourceOf(o, w, h, x, y);
            TargetOf(o, w, h, s.0, s.1) == (x, y) && (InRect(OutW(o, w, h), OutH(o, w, h), (x, y)) ==> InRect(w, h, s))
  {
  }

  /** Every destination pixel t is written exactly once, by the one pixel the turned picture takes it from. */
  lemma EachPixelWrittenOnce(o: int, w: nat, h: nat, t: (int, int))
    requires InRect(OutW(o, w, h), OutH(o, w, h), t)
    ensures var s := SourceOf(o, w, h, t.0, t.1);
            InRect(w, h, s) && TargetOf(o, w, h, s.0, s.1) == t
    ensures forall x, y | TargetOf(o, w, h, x, y) == t :: (x, y) == SourceOf(o, w, h, t.0, t.1)
  {
    ReadThenWrite(o, w, h, t.0, t.1);
    forall x, y | TargetOf(o, w, h, x, y) == t ensures (x, y) == SourceOf(o, w, h, t.0, t.1) {
      WriteThenRead(o, w, h, x, y);
    }
  }

  /** The picture p turned by orientation o; every value outside 2..8 leaves it as it is. */
  ghost function Orient(p: Raster, o: int): (q: Raster)
    requires p.WellFormed()
    ensures q.WellFormed() && q.w == OutW(o, p.w, p.h) && q.h == OutH(o, p.w, p.h)
  {
    var w, h := OutW(o, p.w, p.h), OutH(o, p.w, p.h);
    Raster(w, h, seq(h, y requires 0 <= y < h => OrientRow(p, o, y)))
  }

  ghost function OrientRow(p: Raster, o: int, y: nat): (r: seq<Rgba>)
    requires p.WellFormed() && y < OutH(o, p.w, p.h)
    ensures |r| == OutW(o, p.w, p.h)
  {
    seq(OutW(o, p.w, p.h), x requires 0 <= x < OutW(o, p.w, p.h) =>
      var s := SourceOf(o, p.w, p.h, x, y); p.At(s.0, s.1))
  }

  lemma OrientAt(p: Raster, o: int, x: int, y: int)
    requires p.WellFormed() && InRect(OutW(o, p.w, p.h), OutH(o, p.w, p.h), (x, y))
    ensures var s := SourceOf(o, p.w, p.h, x, y);
            InRect(p.w, p.h, s) && Orient(p, o).At(x, y) == p.At(s.0, s.1)
  {
    assert Orient(p, o).rows[y] == OrientRow(p, o, y);
  }

  /** The pixel of a picture at (x, y) is found there when the picture is turned. */
  ghost predicate GoesTo(p: Raster, o: int, x: int, y: int, toX: int, toY: int)
    requires p.WellFormed() && p.Inside(x, y)
  {
    Orient(p, o).Inside(toX, toY) && Orient(p, o).At(toX, toY) == p.At(x, y)
  }

  lemma GoesToTarget(p: Raster, o: int, x: int, y: int)
    requires p.WellFormed() && p.Inside(x, y)
    ensures var t := TargetOf(o, p.w, p.h, x, y); GoesTo(p, o, x, y, t.0, t.1)
  {
    WriteThenRead(o, p.w, p.h, x, y);
    var t := TargetOf(o, p.w, p.h, x, y);
    OrientAt(p, o, t.0, t.1);
  }

  /** Where each of the seven turns takes a pixel: mirrored, half turned, upside down, transposed, a quarter turn
      clockwise, transversed, and a quarter turn anticlockwise. */
  lemma WherePixelsGo(p: Raster, x: int, y: int)
    requires p.WellFormed() && p.Inside(x, y)
    ensures GoesTo(p, 2, x, y, p.w - 1 - x, y)
    ensures GoesTo(p, 3, x, y, p.w - 1 - x, p.h - 1 - y)
    ensures GoesTo(p, 4, x, y, x, p.h - 1 - y)
    ensures GoesTo(p, 5, x, y, y, x)
    ensures GoesTo(p, 6, x, y, p.h - 1 - y, x)
    ensures GoesTo(p, 7, x, y, p.h - 1 - y, p.w - 1 - x)
    ensures GoesTo(p, 8, x, y, y, p.w - 1 - x)
  {
    GoesToTarget(p, 2, x, y);
    GoesToTarget(p, 3, x, y);
    GoesToTarget(p, 4, x, y);
    GoesToTarget(p, 5, x, y);
    GoesToTarget(p, 6, x, y);
    GoesToTarget(p, 7, x, y);
    GoesToTarget(p, 8, x, y);
  }

  // ---------------------------------------------------------------- the group

  /** Row i, column j: the orientation that does what i + 1 followed by j + 1 does. */
  const TABLE: seq<seq<int>> := [
    [1, 2, 3, 4, 5, 6, 7, 8],
    [2, 1, 4, 3, 8, 7, 6, 5],
    [3, 4, 1, 2, 7, 8, 5, 6],
    [4, 3, 2, 1, 6, 5, 8, 7],
    [5, 6, 7, 8, 1, 2, 3, 4],
    [6, 5, 8, 7, 4, 3, 2, 1],
    [7, 8, 5, 6, 3, 4, 1, 2],
    [8, 7, 6, 5, 2, 1, 4, 3]]

  function Compose(a: int, b: int): (c: int)
    requires IsOrientation(a) && IsOrientation(b)
    ensures IsOrientation(c)
  {
    TABLE[a - 1][b - 1]
  }

  function Inverse(o: int): int {
    if o == 6 then 8 else if o == 8 then 6 else o
  }

  lemma SourceOfCompose(a: int, b: int, w: nat, h: nat, x: int, y: int)
    requires IsOrientation(a) && IsOrientation(b)
    ensures OutW(Compose(a, b), w, h) == OutW(b, OutW(a, w, h), OutH(a, w, h))
    ensures OutH(Compose(a, b), w, h) == OutH(b, OutW(a, w, h), OutH(a, w, h))
    ensures var s := SourceOf(b, OutW(a, w, h), OutH(a, w, h), x, y);
            SourceOf(Compose(a, b), w, h, x, y) == SourceOf(a, w, h, s.0, s.1)
  {
    match a
    case 1 => case 2 => case 3 => case 4 => case 5 => case 6 => case 7 => case 8 =>
  }

  /** Turning by a and then by b is turning once by the table's entry, for every size and every picture. */
  lemma ComposeIsComposition(p: Raster, a: int, b: int)
    requires p.WellFormed() && IsOrientation(a) && IsOrientation(b)
    ensures Orient(Orient(p, a), b) == Orient(p, Compose(a, b))
  {
    var q, r, c := Orient(p, a), Orient(Orient(p, a), b), Compose(a, b);
    SourceOfCompose(a, b, p.w, p.h, 0, 0);
    forall x, y | r.Inside(x, y) ensures r.At(x, y) == Orient(p, c).At(x, y) {
      OrientAt(q, b, x, y);
      var s := SourceOf(b, q.w, q.h, x, y);
      OrientAt(p, a, s.0, s.1);
      OrientAt(p, c, x, y);
      SourceOfCompose(a, b, p.w, p.h, x, y);
    }
    SameRaster(r, Orient(p, c));
  }

  lemma IdentityOrientation(p: Raster, o: int)
    requires p.WellFormed() && !(2 <= o <= 8)
    ensures Orient(p, o) == p
  {
    forall x, y | p.Inside(x, y) ensures Orient(p, o).At(x, y) == p.At(x, y) { OrientAt(p, o, x, y); }
    SameRaster(Orient(p, o), p);
  }

  /** 2, 3, 4, 5 and 7 undo themselves; 6 and 8 undo each other. */
  lemma InverseUndoes(p: Raster, o: int)
    requires p.WellFormed()
    ensures Orient(Orient(p, o), Inverse(o)) == p
  {
    if IsOrientation(o) {
      ComposeIsComposition(p, o, Inverse(o));
      IdentityOrientation(p, 1);
    } else {
      IdentityOrientation(p, o);
    }
  }

  /** A 2 x 2 picture with four different pixels. */
  ghost function Corners(): (p: Raster)
    ensures p.WellFormed()
  {
    Raster(2, 2, [[Rgba(0, 0, 0, 0), Rgba(1, 0, 0, 0)], [Rgba(2, 0, 0, 0), Rgba(3, 0, 0, 0)]])
  }

  /** No two orientations do the same to every picture: the group has eight elements, not fewer. */
  lemma OrientationsDiffer(a: int, b: int)
    requires IsOrientation(a) && IsOrientation(b)
    requires Orient(Corners(), a) == Orient(Corners(), b)
    ensures a == b
  {
    OrientAt(Corners(), a, 0, 0);
    OrientAt(Corners(), b, 0, 0);
    OrientAt(Corners(), a, 1, 0);
    OrientAt(Corners(), b, 1, 0);
  }

  /** The table is associative because it describes composition and the orientations all differ. */
  lemma ComposeAssociative(a: int, b: int, c: int)
    requires IsOrientation(a) && IsOrientation(b) && IsOrientation(c)
    ensures Compose(Compose(a, b), c) == Compose(a, Compose(b, c))
  {
    var p := Corners();
    ComposeIsComposition(p, Compose(a, b), c);
    ComposeIsComposition(p, a, b);
    ComposeIsComposition(Orient(p, a), b, c);
    ComposeIsComposition(p, a, Compose(b, c));
    OrientationsDiffer(Compose(Compose(a, b), c), Compose(a, Compose(b, c)));
  }

  /** k quarter turns clockwise. */
  ghost function Turns(p: Raster, k: nat): (q: Raster)
    requires p.WellFormed()
    ensures q.WellFormed()
  {
    if k == 0 then p else Orient(Turns(p, k - 1), 6)
  }

  /**
   * The presentation of the symmetry group of the square, on pictures: a quarter turn (6) has order
   * four, a flip (2) has order two, a flip turns a quarter turn into its inverse, and every orientation
   * is up to three quarter turns, possibly after a flip.
   */
  lemma DihedralPresentation(p: Raster, o: int) returns (flip: bool, k: nat)
    requires p.WellFormed() && IsOrientation(o)
    ensures Turns(p, 4) == p && Orient(Orient(p, 2), 2) == p
    ensures Orient(Orient(Orient(p, 2), 6), 2) == Orient(p, 8)
    ensures k < 4 && Orient(p, o) == Turns(if flip then Orient(p, 2) else p, k)
  {
    TurnsAreOrientations(p);
    TurnsAreOrientations(Orient(p, 2));
    InverseUndoes(p, 2);
    ComposeIsComposition(p, 2, 6);
    ComposeIsComposition(p, 7, 2);
    ComposeIsComposition(p, 2, 3);
    ComposeIsComposition(p, 2, 8);
    IdentityOrientation(p, 1);
    flip := o in {2, 4, 5, 7};
    k := match o case 1 => 0 case 2 => 0 case 3 => 2 case 4 => 2 case 5 => 3 case 6 => 1 case 7 => 1 case 8 => 3;
  }

  lemma TurnsAreOrientations(p: Raster)
    requires p.WellFormed()
    ensures Turns(p, 0) == p && Turns(p, 1) == Orient(p, 6) && Turns(p, 2) == Orient(p, 3)
    ensures Turns(p, 3) == Orient(p, 8) && Turns(p, 4) == p
  {
    assert Turns(p, 1) == Orient(Turns(p, 0), 6);
    ComposeIsComposition(p, 6, 6);
    assert Turns(p, 2) == Orient(Turns(p, 1), 6);
    ComposeIsComposition(p, 3, 6);
    assert Turns(p, 3) == Orient(Turns(p, 2), 6);
    InverseUndoes(p, 8);
    assert Turns(p, 4) == Orient(Turns(p, 3), 6);
  }

  // ---------------------------------------------------------------- the loops

  /** The loops have copied every pixel before (x, y), row by row. */
  ghost predicate Copied(src: Image, dst: Image, o: int, x: int, y: int)
    reads src.pix, dst.pix
  {
    && dst.minX == 0 && dst.minY == 0
    && dst.pix.Length0 == OutW(o, src.Dx(), src.Dy()) && dst.pix.Length1 == OutH(o, src.Dx(), src.Dy())
    && forall i, j | 0 <= i < dst.pix.Length0 && 0 <= j < dst.pix.Length1 ::
         var s := SourceOf(o, src.Dx(), src.Dy(), i, j);
         InRect(src.Dx(), src.Dy(), s) && (s.1 < y || (s.1 == y && s.0 < x) ==> dst.pix[i, j] == src.pix[s.0, s.1])
  }

  lemma AllCopied(src: Image, dst: Image, o: int)
    requires Copied(src, dst, o, 0, src.Dy())
    ensures dst.View() == Orient(src.View(), o)
  {
    var p, q := dst.View(), Orient(src.View(), o);
    forall x, y | p.Inside(x, y) ensures p.At(x, y) == q.At(x, y) {
      OrientAt(src.View(), o, x, y);
      var s := SourceOf(o, src.Dx(), src.Dy(), x, y);
      assert dst.pix[x, y] == src.pix[s.0, s.1];
      assert p.At(x, y) == dst.Row(y)[x] && src.View().At(s.0, s.1) == src.Row(s.1)[s.0];
    }
    SameRaster(p, q);
  }

  method FlipHorizontal(src: Image) returns (dst: Image)
    ensures fresh(dst) && fresh(dst.pix) && dst.minX == 0 && dst.minY == 0 && dst.View() == Orient(src.View(), 2)
  {
    var w, h := src.Dx(), src.Dy();
    dst := new Image(w, h);
    for y := 0 to h
      invariant fresh(dst.pix) && Copied(src, dst, 2, 0, y)
    {
      for x := 0 to w
        invariant fresh(dst.pix) && Copied(src, dst, 2, x, y)
      {
        dst.pix[w - 1 - x, y] := src.At(src.minX + x, src.minY + y);
      }
    }
    AllCopied(src, dst, 2);
  }

  method Rotate180(src: Image) returns (dst: Image)
    ensures fresh(dst) && fresh(dst.pix) && dst.minX == 0 && dst.minY == 0 && dst.View() == Orient(src.View(), 3)
  {
    var w, h := src.Dx(), src.Dy();
    dst := new Image(w, h);
    for y := 0 to h
      invariant fresh(dst.pix) && Copied(src, dst, 3, 0, y)
    {
      for x := 0 to w
        invariant fresh(dst.pix) && Copied(src, dst, 3, x, y)
      {
        dst.pix[w - 1 - x, h - 1 - y] := src.At(src.minX + x, src.minY + y);
      }
    }
    AllCopied(src, dst, 3);
  }

  method FlipVertical(src: Image) returns (dst: Image)
    ensures fresh(dst) && fresh(dst.pix) && dst.minX == 0 && dst.minY == 0 && dst.View() == Orient(src.View(), 4)
  {
    var w, h := src.Dx(), src.Dy();
    dst := new Image(w, h);
    for y := 0 to h
      invariant fresh(dst.pix) && Copied(src, dst, 4, 0, y)
    {
      for x := 0 to w
        invariant fresh(dst.pix) && Copied(src, dst, 4, x, y)
      {
        dst.pix[x, h - 1 - y] := src.At(src.minX + x, src.minY + y);
      }
    }
    AllCopied(src, dst, 4);
  }

  method Transpose(src: Image) returns (dst: Image)
    ensures fresh(dst) && fresh(dst.pix) && dst.minX == 0 && dst.minY == 0 && dst.View() == Orient(src.View(), 5)
  {
    var w, h := src.Dx(), src.Dy();
    dst := new Image(h, w);
    for y := 0 to h
      invariant fresh(dst.pix) && Copied(src, dst, 5, 0, y)
    {
      for x := 0 to w
        invariant fresh(dst.pix) && Copied(src, dst, 5, x, y)
      {
        dst.pix[y, x] := src.At(src.minX + x, src.minY + y);
      }
    }
    AllCopied(src, dst, 5);
  }

  method Rotate90(src: Image) returns (dst: Image)
    ensures fresh(dst) && fresh(dst.pix) && dst.minX == 0 && dst.minY == 0 && dst.View() == Orient(src.View(), 6)
  {
    var w, h := src.Dx(), src.Dy();
    dst := new Image(h, w);
    for y := 0 to h
      invariant fresh(dst.pix) && Copied(src, dst, 6, 0, y)
    {
      for x := 0 to w
        invariant fresh(dst.pix) && Copied(src, dst, 6, x, y)
      {
        dst.pix[h - 1 - y, x] := src.At(src.minX + x, src.minY + y);
      }
    }
    AllCopied(src, dst, 6);
  }

  method Transverse(src: Image) returns (dst: Image)
    ensures fresh(dst) && fresh(dst.pix) && dst.minX == 0 && dst.minY == 0 && dst.View() == Orient(src.View(), 7)
  {
    var w, h := src.Dx(), src.Dy();
    dst := new Image(h, w);
    for y := 0 to h
      invariant fresh(dst.pix) && Copied(src, dst, 7, 0, y)
    {
      for x := 0 to w
        invariant fresh(dst.pix) && Copied(src, dst, 7, x, y)
      {
        dst.pix[h - 1 - y, w - 1 - x] := src.At(src.minX + x, src.minY + y);
      }
    }
    AllCopied(src, dst, 7);
  }

  method Rotate270(src: Image) returns (dst: Image)
    ensures fresh(dst) && fresh(dst.pix) && dst.minX == 0 && dst.minY == 0 && dst.View() == Orient(src.View(), 8)
  {
    var w, h := src.Dx(), src.Dy();
    dst := new Image(h, w);
    for y := 0 to h
      invariant fresh(dst.pix) && Copied(src, dst, 8, 0, y)
    {
      for x := 0 to w
        invariant fresh(dst.pix) && Copied(src, dst, 8, x, y)
      {
        dst.pix[y, w - 1 - x] := src.At(src.minX + x, src.minY + y);
      }
    }
    AllCopied(src, dst, 8);
  }

  /** The source picture itself for every value outside 2..8, and a new one with bounds at the origin otherwise. */
  method ApplyOrientation(src: Image, orientation: int) returns (dst: Image)
    ensures dst.View() == Orient(src.View(), orientation)
    ensures if 2 <= orientation <= 8 then fresh(dst) && fresh(dst.pix) && dst.minX == 0 && dst.minY == 0 else dst == src
  {
    match orientation
    case 2 => dst := FlipHorizontal(src);
    case 3 => dst := Rotate180(src);
    case 4 => dst := FlipVertical(src);
    case 5 => dst := Transpose(src);
    case 6 => dst := Rotate90(src);
    case 7 => dst := Transverse(src);
    case 8 => dst := Rotate270(src);
    case _ =>
      dst := src;
      IdentityOrientation(src.View(), orientation);
  }
}
