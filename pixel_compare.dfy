/** The pixel-by-pixel comparison of two decoded pictures: the mismatch
    count, the white/red difference mask, and the verdict. */
module PixelCompare {
  import opened Images

  newtype byte = x: int | 0 <= x < 256

  /** One cell of the difference mask, an RGBA value. */
  datatype Rgba = Rgba(r: byte, g: byte, b: byte, a: byte)

  const White: Rgba := Rgba(255, 255, 255, 255)
  const Red: Rgba := Rgba(255, 0, 0, 255)
  /** The value a freshly zeroed mask holds. */
  const Zero: Rgba := Rgba(0, 0, 0, 0)

  /** Both grids have at least `i` rows, each at least `w` wide. */
  predicate Covers<P>(g1: seq<seq<P>>, g2: seq<seq<P>>, i: nat, w: nat)
  {
    i <= |g1| && i <= |g2| && forall r :: 0 <= r < i ==> w <= |g1[r]| && w <= |g2[r]|
  }

  /** The number of columns before `j` where the two rows differ. */
  function RowMismatches<P(==)>(r1: seq<P>, r2: seq<P>, j: nat): nat
    requires j <= |r1| && j <= |r2|
    decreases j
  {
    if j == 0 then 0
    else RowMismatches(r1, r2, j - 1) + (if r1[j - 1] != r2[j - 1] then 1 else 0)
  }

  /** The number of positions in the first `i` rows and first `w` columns
      where the two grids differ. */
  function Mismatches<P(==)>(g1: seq<seq<P>>, g2: seq<seq<P>>, i: nat, w: nat): nat
    requires Covers(g1, g2, i, w)
    decreases i
  {
    if i == 0 then 0
    else Mismatches(g1, g2, i - 1, w) + RowMismatches(g1[i - 1], g2[i - 1], w)
  }

  /** The mask colour at row `i`, column `j`: white where the pixels agree,
      red where they differ. */
  function MaskAt<P(==)>(g1: seq<seq<P>>, g2: seq<seq<P>>, i: nat, j: nat): Rgba
    requires i < |g1| && i < |g2| && j < |g1[i]| && j < |g2[i]|
  {
    if g1[i][j] == g2[i][j] then White else Red
  }

  /** What comparing `pic1` with `pic2` returns: the row count is read
      first, then the width of row 0 (an index error on a picture without
      rows); different sizes stop the comparison; a zero-width picture
      divides by zero when the error ratio is formed. Otherwise the
      pictures are the same exactly when no pixel differs. */
  function Verdict<P(==)>(pic1: Picture<P>, pic2: Picture<P>): Result<bool>
    requires Valid(pic1) && Valid(pic2)
  {
    if pic1.height == 0 || pic2.height == 0 then Err(IndexError)
    else if pic1.height != pic2.height || pic1.width != pic2.width then Err(Exit(DifferentImagesSize))
    else if pic1.width == 0 then Err(ZeroDivisionError)
    else Ok(Mismatches(pic1.pixels, pic2.pixels, pic1.height, pic1.width) == 0)
  }

  /** The share of differing pixels, `count / (width * height)`. */
  function DifferenceRatio<P(==)>(pic1: Picture<P>, pic2: Picture<P>): real
    requires Valid(pic1) && Valid(pic2) && pic1.height == pic2.height && pic1.width == pic2.width
    requires pic1.width * pic1.height != 0
  {
    Mismatches(pic1.pixels, pic2.pixels, pic1.height, pic1.width) as real / (pic1.width * pic1.height) as real
  }

  /** Compares two decoded pictures cell by cell, filling the difference mask
      and counting the differing cells; returns the verdict with the mask and
      the count. */
  method ComparePillowImages<P(==)>(pic1: Picture<P>, pic2: Picture<P>)
    returns (r: Result<bool>, bitMap: array2<Rgba>, count: nat)
    requires Valid(pic1) && Valid(pic2)
    ensures r == Verdict(pic1, pic2)
    ensures fresh(bitMap)
    ensures r.Ok? || r == Err(ZeroDivisionError) ==>
              && bitMap.Length0 == pic1.height && bitMap.Length1 == pic1.width
              && count == Mismatches(pic1.pixels, pic2.pixels, pic1.height, pic1.width)
              && forall i, j :: 0 <= i < bitMap.Length0 && 0 <= j < bitMap.Length1 ==>
                   bitMap[i, j] == MaskAt(pic1.pixels, pic2.pixels, i, j)
  {
    var arr1, arr2 := pic1.pixels, pic2.pixels;
    count := 0;
    bitMap := new Rgba[0, 0];
    var height1 := |arr1|;
    if height1 == 0 {
      return Err(IndexError), bitMap, count;
    }
    var width1 := |arr1[0]|;
    var height2 := |arr2|;
    if height2 == 0 {
      return Err(IndexError), bitMap, count;
    }
    var width2 := |arr2[0]|;
    if height1 != height2 || width1 != width2 {
      return Err(Exit(DifferentImagesSize)), bitMap, count;
    }
    bitMap := new Rgba[height1, width1]((_, _) => Zero);
    for i := 0 to height1
      invariant count == Mismatches(arr1, arr2, i, width1)
      invariant forall a, b :: 0 <= a < i && 0 <= b < width1 ==> bitMap[a, b] == MaskAt(arr1, arr2, a, b)
    {
      for j := 0 to width1
        invariant count == Mismatches(arr1, arr2, i, width1) + RowMismatches(arr1[i], arr2[i], j)
        invariant forall a, b :: 0 <= a < i && 0 <= b < width1 ==> bitMap[a, b] == MaskAt(arr1, arr2, a, b)
        invariant forall b :: 0 <= b < j ==> bitMap[i, b] == MaskAt(arr1, arr2, i, b)
      {
        if arr1[i][j] == arr2[i][j] {
          bitMap[i, j] := White;
        } else {
          bitMap[i, j] := Red;
          count := count + 1;
        }
      }
    }
    if width1 * height1 == 0 {
      return Err(ZeroDivisionError), bitMap, count;
    }
    var error := count as real / (width1 * height1) as real;
    if error != 0.0 {
      r := Ok(false);
    } else {
      r := Ok(true);
    }
  }

  // ---------------------------------------------------------------------------
  // What the count and the verdict mean.

  /** No column of the first `j` differs exactly when the count is zero. */
  lemma {:induction false} RowMismatchesZero<P>(r1: seq<P>, r2: seq<P>, j: nat)
    requires j <= |r1| && j <= |r2|
    ensures RowMismatches(r1, r2, j) == 0 <==> forall k :: 0 <= k < j ==> r1[k] == r2[k]
    decreases j
  {
    if j > 0 {
      RowMismatchesZero(r1, r2, j - 1);
    }
  }

  /** The count is zero exactly when the grids agree on every covered position. */
  lemma {:induction false} MismatchesZero<P>(g1: seq<seq<P>>, g2: seq<seq<P>>, i: nat, w: nat)
    requires Covers(g1, g2, i, w)
    ensures Mismatches(g1, g2, i, w) == 0 <==>
              forall a, b :: 0 <= a < i && 0 <= b < w ==> g1[a][b] == g2[a][b]
    decreases i
  {
    if i > 0 {
      MismatchesZero(g1, g2, i - 1, w);
      RowMismatchesZero(g1[i - 1], g2[i - 1], w);
      if Mismatches(g1, g2, i, w) == 0 {
        forall a, b | 0 <= a < i && 0 <= b < w
          ensures g1[a][b] == g2[a][b]
        {
          if a == i - 1 {
            assert g1[i - 1][b] == g2[i - 1][b];
          }
        }
      }
    }
  }

  /** At most one mismatch per column of a row. */
  lemma {:induction false} RowMismatchesBound<P>(r1: seq<P>, r2: seq<P>, j: nat)
    requires j <= |r1| && j <= |r2|
    ensures RowMismatches(r1, r2, j) <= j
    decreases j
  {
    if j > 0 {
      RowMismatchesBound(r1, r2, j - 1);
    }
  }

  /** At most one mismatch per position: 0 <= count <= width * height. */
  lemma {:induction false} MismatchesBound<P>(g1: seq<seq<P>>, g2: seq<seq<P>>, i: nat, w: nat)
    requires Covers(g1, g2, i, w)
    ensures Mismatches(g1, g2, i, w) <= w * i
    decreases i
  {
    if i > 0 {
      MismatchesBound(g1, g2, i - 1, w);
      RowMismatchesBound(g1[i - 1], g2[i - 1], w);
      assert w * i == w * (i - 1) + w;
    }
  }

  /** Comparing in the other order counts the same positions. */
  lemma {:induction false} MismatchesSymmetric<P>(g1: seq<seq<P>>, g2: seq<seq<P>>, i: nat, w: nat)
    requires Covers(g1, g2, i, w)
    ensures Mismatches(g1, g2, i, w) == Mismatches(g2, g1, i, w)
    decreases i
  {
    if i > 0 {
      MismatchesSymmetric(g1, g2, i - 1, w);
      RowMismatchesSymmetric(g1[i - 1], g2[i - 1], w);
    }
  }

  lemma {:induction false} RowMismatchesSymmetric<P>(r1: seq<P>, r2: seq<P>, j: nat)
    requires j <= |r1| && j <= |r2|
    ensures RowMismatches(r1, r2, j) == RowMismatches(r2, r1, j)
    decreases j
  {
    if j > 0 {
      RowMismatchesSymmetric(r1, r2, j - 1);
    }
  }

  /** Two pictures are reported the same exactly when both have rows, both
      have the same non-zero size, and every pixel agrees. */
  lemma VerdictSame<P>(pic1: Picture<P>, pic2: Picture<P>)
    requires Valid(pic1) && Valid(pic2)
    ensures Verdict(pic1, pic2) == Ok(true) <==>
              && pic1.height == pic2.height > 0 && pic1.width == pic2.width > 0
              && forall i, j :: 0 <= i < pic1.height && 0 <= j < pic1.width ==>
                   pic1.pixels[i][j] == pic2.pixels[i][j]
  {
    if pic1.height == pic2.height > 0 && pic1.width == pic2.width > 0 {
      MismatchesZero(pic1.pixels, pic2.pixels, pic1.height, pic1.width);
    }
  }

  /** A picture with rows and columns compared with itself is the same. */
  lemma VerdictReflexive<P>(pic: Picture<P>)
    requires Valid(pic) && pic.height > 0 && pic.width > 0
    ensures Verdict(pic, pic) == Ok(true)
  {
    VerdictSame(pic, pic);
  }

  /** The verdict does not depend on which picture is the reference. */
  lemma VerdictSymmetric<P>(pic1: Picture<P>, pic2: Picture<P>)
    requires Valid(pic1) && Valid(pic2)
    ensures Verdict(pic1, pic2) == Verdict(pic2, pic1)
  {
    if pic1.height == pic2.height > 0 && pic1.width == pic2.width > 0 {
      MismatchesSymmetric(pic1.pixels, pic2.pixels, pic1.height, pic1.width);
    }
  }

  /** A size difference stops the comparison whatever the pixels are. */
  lemma SizeDecidesFirst<P>(pic1: Picture<P>, pic2: Picture<P>, q1: Picture<P>, q2: Picture<P>)
    requires Valid(pic1) && Valid(pic2) && Valid(q1) && Valid(q2)
    requires pic1.height == q1.height && pic1.width == q1.width
    requires pic2.height == q2.height && pic2.width == q2.width
    requires pic1.height != pic2.height || pic1.width != pic2.width
    ensures Verdict(pic1, pic2) == Verdict(q1, q2)
    ensures pic1.height > 0 && pic2.height > 0 ==> Verdict(pic1, pic2) == Err(Exit(DifferentImagesSize))
  {
  }

  /** The error ratio lies between 0 and 1 and is zero exactly when the
      pictures agree everywhere. */
  lemma DifferenceRatioBounds<P>(pic1: Picture<P>, pic2: Picture<P>)
    requires Valid(pic1) && Valid(pic2) && pic1.height == pic2.height && pic1.width == pic2.width
    requires pic1.width * pic1.height != 0
    ensures 0.0 <= DifferenceRatio(pic1, pic2) <= 1.0
    ensures DifferenceRatio(pic1, pic2) == 0.0 <==>
              forall i, j :: 0 <= i < pic1.height && 0 <= j < pic1.width ==> pic1.pixels[i][j] == pic2.pixels[i][j]
  {
    var count := Mismatches(pic1.pixels, pic2.pixels, pic1.height, pic1.width);
    var cells := pic1.width * pic1.height;
    MismatchesBound(pic1.pixels, pic2.pixels, pic1.height, pic1.width);
    MismatchesZero(pic1.pixels, pic2.pixels, pic1.height, pic1.width);
    RatioAtMostOne(count as real, cells as real);
  }

  lemma RatioAtMostOne(a: real, b: real)
    requires 0.0 <= a <= b && b > 0.0
    ensures 0.0 <= a / b <= 1.0
    ensures a / b == 0.0 <==> a == 0.0
  {
    var q := a / b;
    assert q * b == a;
  }
}
