/** The crop of `Image.image` (glue/core.py): the bounding box of the pixels
    that are not fully transparent, found by scanning the image column by
    column. Pixels are RGBA tuples; `img[x, y]` is the pixel at column `x`,
    row `y`. */
module Crop {
  import opened Options

  type Pixel = (int, int, int, int)

  /** `TRANSPARENT`. */
  const Transparent: Pixel := (255, 255, 255, 0)

  /** `sys.maxint` of Python 2 on a 64-bit build, the scan's starting minimum. */
  const MaxInt: int := 9223372036854775807

  /** The box `img.crop` is given: left, upper, right, lower, the last two
      exclusive. */
  type CropBox = (int, int, int, int)

  /** Some pixel of the image is not transparent. */
  predicate HasOpaque(img: array2<Pixel>)
    reads img
  {
    exists x, y :: 0 <= x < img.Length0 && 0 <= y < img.Length1 && img[x, y] != Transparent
  }

  /** `box` is the smallest box holding every non-transparent pixel: each of
      them lies inside it, and each of its four sides touches one of them. */
  predicate Tight(img: array2<Pixel>, box: CropBox)
    reads img
  {
    var (left, upper, right, lower) := box;
    && (forall x, y :: 0 <= x < img.Length0 && 0 <= y < img.Length1 && img[x, y] != Transparent ==>
          left <= x < right && upper <= y < lower)
    && (exists x, y :: 0 <= x < img.Length0 && 0 <= y < img.Length1 && img[x, y] != Transparent && x == left)
    && (exists x, y :: 0 <= x < img.Length0 && 0 <= y < img.Length1 && img[x, y] != Transparent && x == right - 1)
    && (exists x, y :: 0 <= x < img.Length0 && 0 <= y < img.Length1 && img[x, y] != Transparent && y == upper)
    && (exists x, y :: 0 <= x < img.Length0 && 0 <= y < img.Length1 && img[x, y] != Transparent && y == lower - 1)
  }

  /** No smaller box holds the non-transparent pixels: a tight box lies inside
      every box that holds them all. */
  lemma TightIsLeast(img: array2<Pixel>, box: CropBox, other: CropBox)
    requires Tight(img, box)
    requires forall x, y :: 0 <= x < img.Length0 && 0 <= y < img.Length1 && img[x, y] != Transparent ==>
      other.0 <= x < other.2 && other.1 <= y < other.3
    ensures other.0 <= box.0 && box.2 <= other.2 && other.1 <= box.1 && box.3 <= other.3
  {
    var (left, upper, right, lower) := box;
    var x0, y0 :| 0 <= x0 < img.Length0 && 0 <= y0 < img.Length1 && img[x0, y0] != Transparent && x0 == left;
    var x1, y1 :| 0 <= x1 < img.Length0 && 0 <= y1 < img.Length1 && img[x1, y1] != Transparent && x1 == right - 1;
    var x2, y2 :| 0 <= x2 < img.Length0 && 0 <= y2 < img.Length1 && img[x2, y2] != Transparent && y2 == upper;
    var x3, y3 :| 0 <= x3 < img.Length0 && 0 <= y3 < img.Length1 && img[x3, y3] != Transparent && y3 == lower - 1;
  }

  /** The pixels that attain the four bounds found so far (ghost bookkeeping). */
  datatype Corners = Corners(left: (int, int), right: (int, int), upper: (int, int), lower: (int, int))

  /** `(i, j)` is a non-transparent pixel scanned before `(x, y)`. */
  ghost predicate Scanned(img: array2<Pixel>, x: int, y: int, i: int, j: int)
    reads img
  {
    && 0 <= i < img.Length0 && 0 <= j < img.Length1
    && (i < x || (i == x && j < y))
    && img[i, j] != Transparent
  }

  /** The scan's variables before pixel `(x, y)`: the starting values while
      nothing was `found`; bounds holding every non-transparent pixel scanned;
      and, once something was found, scanned pixels `c` on each bound. */
  ghost predicate ScanState(img: array2<Pixel>, x: int, y: int, minx: int, miny: int, maxx: int, maxy: int,
                            found: bool, c: Corners)
    reads img
  {
    && (!found ==> minx == MaxInt && miny == MaxInt && maxx == 0 && maxy == 0)
    && (forall i, j :: 0 <= i < img.Length0 && 0 <= j < img.Length1 && (i < x || (i == x && j < y)) && img[i, j] != Transparent ==>
          found && minx <= i <= maxx && miny <= j <= maxy)
    && (found ==>
          && Scanned(img, x, y, c.left.0, c.left.1) && c.left.0 == minx
          && Scanned(img, x, y, c.right.0, c.right.1) && c.right.0 == maxx
          && Scanned(img, x, y, c.upper.0, c.upper.1) && c.upper.1 == miny
          && Scanned(img, x, y, c.lower.0, c.lower.1) && c.lower.1 == maxy)
  }

  /** The end of one column is the start of the next. */
  lemma NextColumn(img: array2<Pixel>, x: int, minx: int, miny: int, maxx: int, maxy: int, found: bool, c: Corners)
    requires ScanState(img, x, img.Length1, minx, miny, maxx, maxy, found, c)
    ensures ScanState(img, x + 1, 0, minx, miny, maxx, maxy, found, c)
  {
  }

  /** The inner loop of the scan, over the rows of column `x`: the bounds
      only widen. A pixel strictly between the rows found so far, in a column
      that already holds the rightmost pixel found, is skipped: it cannot
      move any bound. */
  method ScanColumn(img: array2<Pixel>, x: int, minx0: int, miny0: int, maxx0: int, maxy0: int,
                    ghost found0: bool, ghost c0: Corners)
    returns (minx: int, miny: int, maxx: int, maxy: int, ghost found: bool, ghost c: Corners)
    requires 0 <= x < img.Length0 <= MaxInt && img.Length1 <= MaxInt
    requires ScanState(img, x, 0, minx0, miny0, maxx0, maxy0, found0, c0) && (found0 ==> maxx0 < x)
    ensures ScanState(img, x, img.Length1, minx, miny, maxx, maxy, found, c) && (found ==> maxx <= x)
    ensures minx <= minx0 && miny <= miny0 && maxx0 <= maxx && maxy0 <= maxy
  {
    minx, miny, maxx, maxy, found, c := minx0, miny0, maxx0, maxy0, found0, c0;
    var y := 0;
    while y < img.Length1
      invariant 0 <= y <= img.Length1
      invariant ScanState(img, x, y, minx, miny, maxx, maxy, found, c) && (found ==> maxx <= x)
      invariant minx <= minx0 && miny <= miny0 && maxx0 <= maxx && maxy0 <= maxy
    {
      if y > miny && y < maxy && maxx == x {
        y := y + 1;
        continue;
      }
      if img[x, y] != Transparent {
        if x < minx {
          minx := x;
          c := c.(left := (x, y));
        }
        if x > maxx {
          maxx := x;
          c := c.(right := (x, y));
        }
        if y < miny {
          miny := y;
          c := c.(upper := (x, y));
        }
        if y > maxy {
          maxy := y;
          c := c.(lower := (x, y));
        }
        if !found {
          found := true;
          c := Corners((x, y), (x, y), (x, y), (x, y));
        }
      }
      y := y + 1;
    }
  }

  /** The scan as written: every column from the left, every row from the
      top, then `(minx, miny, maxx + 1, maxy + 1)`. When some pixel is not
      transparent this is the tight box; when none is, the scan's starting
      values are left, and the box is inverted. `xrange` takes no bound
      beyond `sys.maxint`. */
  method ScanBox(img: array2<Pixel>) returns (box: CropBox)
    requires img.Length0 <= MaxInt && img.Length1 <= MaxInt
    ensures HasOpaque(img) ==> Tight(img, box)
    ensures !HasOpaque(img) ==> box == (MaxInt, MaxInt, 1, 1)
  {
    var maxx, maxy := 0, 0;
    var minx, miny := MaxInt, MaxInt;
    ghost var found := false;
    ghost var c := Corners((0, 0), (0, 0), (0, 0), (0, 0));
    var x := 0;
    while x < img.Length0
      invariant 0 <= x <= img.Length0
      invariant ScanState(img, x, 0, minx, miny, maxx, maxy, found, c) && (found ==> maxx < x)
    {
      minx, miny, maxx, maxy, found, c := ScanColumn(img, x, minx, miny, maxx, maxy, found, c);
      NextColumn(img, x, minx, miny, maxx, maxy, found, c);
      x := x + 1;
    }
    box := (minx, miny, maxx + 1, maxy + 1);
    if found {
      assert img[c.left.0, c.left.1] != Transparent && img[c.right.0, c.right.1] != Transparent;
      assert img[c.upper.0, c.upper.1] != Transparent && img[c.lower.0, c.lower.1] != Transparent;
    } else {
      assert forall i, j :: 0 <= i < img.Length0 && 0 <= j < img.Length1 ==> img[i, j] == Transparent;
    }
  }

  /** The crop a fully transparent image should get: none. Otherwise the
      scan's tight box, which is never empty. */
  method CropBoxOf(img: array2<Pixel>) returns (r: Option<CropBox>)
    requires img.Length0 <= MaxInt && img.Length1 <= MaxInt
    ensures r.None? <==> !HasOpaque(img)
    ensures r.Some? ==> Tight(img, r.value) && r.value.0 < r.value.2 && r.value.1 < r.value.3
  {
    var box := ScanBox(img);
    if box.0 == MaxInt {
      return None;
    }
    r := Some(box);
  }
}
