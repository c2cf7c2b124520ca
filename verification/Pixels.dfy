module Bytes {
  type Byte = b: int | 0 <= b < 256
}

/** Raster images: the value a picture denotes, and the object that holds its pixels. */
module Pixels {
  import opened Bytes

  datatype Rgba = Rgba(r: Byte, g: Byte, b: Byte, a: Byte)

  const CLEAR := Rgba(0, 0, 0, 0)

  /** A picture as a value: `rows[y][x]` is the pixel in column x of row y. */
  datatype Raster = Raster(w: nat, h: nat, rows: seq<seq<Rgba>>) {

    ghost predicate WellFormed() {
      |rows| == h && forall y | 0 <= y < h :: |rows[y]| == w
    }

    predicate Inside(x: int, y: int) {
      0 <= x < w && 0 <= y < h
    }

    function At(x: int, y: int): Rgba
      requires WellFormed() && Inside(x, y)
    {
      rows[y][x]
    }
  }

  /** Two well-formed pictures are equal as soon as they have one size and agree on every pixel. */
  lemma SameRaster(p: Raster, q: Raster)
    requires p.WellFormed() && q.WellFormed()
    requires p.w == q.w && p.h == q.h
    requires forall x, y | p.Inside(x, y) :: p.At(x, y) == q.At(x, y)
    ensures p == q
  {
    forall y | 0 <= y < p.h ensures p.rows[y] == q.rows[y] {
      forall x | 0 <= x < p.w ensures p.rows[y][x] == q.rows[y][x] {
        assert p.At(x, y) == q.At(x, y);
      }
    }
  }

  /**
   * An image object. `minX` and `minY` are the corner of its bounds, which need not be the origin;
   * column minX + i of row minY + j is kept in pix[i, j].
   */
  class Image {
    const minX: int
    const minY: int
    const pix: array2<Rgba>

    /** A blank image whose bounds start at the origin. */
    constructor (w: nat, h: nat)
      ensures minX == 0 && minY == 0
      ensures pix.Length0 == w && pix.Length1 == h && fresh(pix)
      ensures forall i, j | 0 <= i < w && 0 <= j < h :: pix[i, j] == CLEAR
    {
      minX, minY := 0, 0;
      pix := new Rgba[w, h]((i, j) => CLEAR);
    }

    function Dx(): nat { pix.Length0 }

    function Dy(): nat { pix.Length1 }

    function At(x: int, y: int): Rgba
      requires minX <= x < minX + Dx() && minY <= y < minY + Dy()
      reads pix
    {
      pix[x - minX, y - minY]
    }

    ghost function View(): (r: Raster)
      reads pix
      ensures r.WellFormed()
    {
      Raster(Dx(), Dy(), seq(Dy(), y requires 0 <= y < Dy() reads pix => Row(y)))
    }

    ghost function Row(y: nat): (r: seq<Rgba>)
      requires y < Dy()
      reads pix
      ensures |r| == Dx() && forall x | 0 <= x < Dx() :: r[x] == pix[x, y]
    {
      seq(Dx(), x requires 0 <= x < Dx() reads pix => pix[x, y])
    }
  }
}
