/**
 * The hexagonal region both board constructors enumerate: for x from -R to R,
 * for y from -R to R, keep (x, y) when |x + y| <= R. The sequence below is
 * that enumeration, loop by loop; the lemmas say which cells it holds, in
 * which order, and how many.
 */
module HexRegion {
  import opened Geometry
  import Hex
  import Seqs

  /** The cell lies in the hexagon of radius R around the origin. */
  predicate InHex(R: int, v: Vec2)
  {
    -R <= v.x <= R && -R <= v.y <= R && -R <= v.x + v.y <= R
  }

  /** The cells the inner loop has appended for column x once y reaches yEnd. */
  function Column(R: int, x: int, yEnd: int): seq<Vec2>
    decreases yEnd + R
  {
    if yEnd <= -R then []
    else Column(R, x, yEnd - 1) + (if Hex.Abs(x + (yEnd - 1)) <= R then [Vec2(x, yEnd - 1)] else [])
  }

  /** The cells the outer loop has appended once x reaches xEnd. */
  function Columns(R: int, xEnd: int): seq<Vec2>
    decreases xEnd + R
  {
    if xEnd <= -R then [] else Columns(R, xEnd - 1) + Column(R, xEnd - 1, R + 1)
  }

  /** Every cell of the board of radius R, in the order the constructors create them. */
  function Region(R: int): seq<Vec2>
  {
    Columns(R, R + 1)
  }

  /** (x, y) comes before (x', y') when x < x', or x = x' and y < y'. */
  predicate LexLess(a: Vec2, b: Vec2)
  {
    a.x < b.x || (a.x == b.x && a.y < b.y)
  }

  predicate StrictlyIncreasing(s: seq<Vec2>)
  {
    forall i, j :: 0 <= i < j < |s| ==> LexLess(s[i], s[j])
  }

  lemma {:induction false} ColumnMembers(R: int, x: int, yEnd: int)
    ensures forall v :: v in Column(R, x, yEnd) <==> v.x == x && -R <= v.y < yEnd && -R <= x + v.y <= R
    decreases yEnd + R
  {
    if yEnd > -R {
      ColumnMembers(R, x, yEnd - 1);
    }
  }

  lemma {:induction false} ColumnsMembers(R: int, xEnd: int)
    ensures forall v :: v in Columns(R, xEnd) <==> -R <= v.x < xEnd && -R <= v.y <= R && -R <= v.x + v.y <= R
    decreases xEnd + R
  {
    if xEnd > -R {
      ColumnsMembers(R, xEnd - 1);
      ColumnMembers(R, xEnd - 1, R + 1);
    }
  }

  /**
   * One step of the inner loop: the cell (x, y) is not yet enumerated, and it
   * is appended exactly when it lies in the hexagon.
   */
  lemma NextCell(R: int, x: int, y: int)
    requires -R <= y
    ensures Vec2(x, y) !in Columns(R, x) + Column(R, x, y)
    ensures Columns(R, x) + Column(R, x, y + 1)
         == Columns(R, x) + Column(R, x, y) + (if Hex.Abs(x + y) <= R then [Vec2(x, y)] else [])
  {
    ColumnsMembers(R, x);
    ColumnMembers(R, x, y);
  }

  /** The enumeration holds exactly the cells of the hexagon. */
  lemma RegionMembers(R: int)
    ensures forall v :: v in Region(R) <==> InHex(R, v)
  {
    ColumnsMembers(R, R + 1);
  }

  /** Gluing two increasing runs, every element of the first before every element of the second. */
  lemma IncreasingAppend(a: seq<Vec2>, b: seq<Vec2>)
    requires StrictlyIncreasing(a) && StrictlyIncreasing(b)
    requires forall u, v :: u in a && v in b ==> LexLess(u, v)
    ensures StrictlyIncreasing(a + b)
  {
    forall i, j | 0 <= i < j < |a + b|
      ensures LexLess((a + b)[i], (a + b)[j])
    {
      if j < |a| {
      } else if i >= |a| {
        assert (a + b)[i] == b[i - |a|] && (a + b)[j] == b[j - |a|];
      } else {
        assert (a + b)[i] in a && (a + b)[j] in b;
      }
    }
  }

  lemma {:induction false} ColumnIncreasing(R: int, x: int, yEnd: int)
    ensures StrictlyIncreasing(Column(R, x, yEnd))
    decreases yEnd + R
  {
    if yEnd > -R {
      ColumnIncreasing(R, x, yEnd - 1);
      ColumnMembers(R, x, yEnd - 1);
      IncreasingAppend(Column(R, x, yEnd - 1), if Hex.Abs(x + (yEnd - 1)) <= R then [Vec2(x, yEnd - 1)] else []);
    }
  }

  lemma {:induction false} ColumnsIncreasing(R: int, xEnd: int)
    ensures StrictlyIncreasing(Columns(R, xEnd))
    decreases xEnd + R
  {
    if xEnd > -R {
      ColumnsIncreasing(R, xEnd - 1);
      ColumnIncreasing(R, xEnd - 1, R + 1);
      ColumnsMembers(R, xEnd - 1);
      ColumnMembers(R, xEnd - 1, R + 1);
      IncreasingAppend(Columns(R, xEnd - 1), Column(R, xEnd - 1, R + 1));
    }
  }

  /**
   * The cells come out x-major with y ascending, so none is created twice.
   */
  lemma RegionIncreasing(R: int)
    ensures StrictlyIncreasing(Region(R))
    ensures Seqs.Distinct(Region(R))
  {
    ColumnsIncreasing(R, R + 1);
  }

  /** The cells of column x with y below yEnd: max(0, min(yEnd - 1, R - x) - max(-R, -R - x) + 1). */
  lemma {:induction false} ColumnSize(R: int, x: int, yEnd: int)
    requires yEnd <= R + 1
    ensures var lo := if -R >= -R - x then -R else -R - x;
            var hi := if yEnd - 1 <= R - x then yEnd - 1 else R - x;
            |Column(R, x, yEnd)| == if hi < lo then 0 else hi - lo + 1
    decreases yEnd + R
  {
    if yEnd > -R {
      ColumnSize(R, x, yEnd - 1);
    }
  }

  /** A full column x of the hexagon, |x| <= R, holds 2R + 1 - |x| cells. */
  lemma FullColumnSize(R: int, x: int)
    requires -R <= x <= R
    ensures |Column(R, x, R + 1)| == 2 * R + 1 - Hex.Abs(x)
  {
    ColumnSize(R, x, R + 1);
  }

  /** Twice the number of cells in the n = xEnd + R columns left of xEnd <= 0. */
  lemma {:induction false} LeftColumnsSize(R: int, xEnd: int)
    requires -R <= xEnd <= 0
    ensures 2 * |Columns(R, xEnd)| == (xEnd + R) * (2 * R + 1 + xEnd + R)
    decreases xEnd + R
  {
    if xEnd > -R {
      LeftColumnsSize(R, xEnd - 1);
      FullColumnSize(R, xEnd - 1);
      LeftStep(R, xEnd + R);
    }
  }

  /** Adding the column of R + n cells to the n - 1 columns before it. */
  lemma LeftStep(R: int, n: int)
    ensures (n - 1) * (2 * R + n) + 2 * (R + n) == n * (2 * R + 1 + n)
  {
  }

  /** Twice the number of cells in the columns left of xEnd, for 0 <= xEnd <= R + 1. */
  lemma {:induction false} RightColumnsSize(R: int, xEnd: int)
    requires 0 <= R && 0 <= xEnd <= R + 1
    ensures 2 * |Columns(R, xEnd)| == 3 * R * R + R + 2 * xEnd * (2 * R + 1) - xEnd * (xEnd - 1)
    decreases xEnd
  {
    if xEnd == 0 {
      LeftColumnsSize(R, 0);
      RightStep(R, 0);
    } else {
      RightColumnsSize(R, xEnd - 1);
      FullColumnSize(R, xEnd - 1);
      RightStep(R, xEnd - 1);
    }
  }

  /** Adding the column of 2R + 1 - k cells, and the start of the right half. */
  lemma RightStep(R: int, k: int)
    ensures 3 * R * R + R + 2 * (k + 1) * (2 * R + 1) - (k + 1) * k
         == 3 * R * R + R + 2 * k * (2 * R + 1) - k * (k - 1) + 2 * (2 * R + 1 - k)
    ensures R * (2 * R + 1 + R) == 3 * R * R + R + 2 * 0 * (2 * R + 1) - 0 * (0 - 1)
    ensures 3 * R * R + R + 2 * (R + 1) * (2 * R + 1) - (R + 1) * R == 2 * (3 * R * R + 3 * R + 1)
  {
  }

  /** A board of radius R >= 0 has 3R^2 + 3R + 1 tiles. */
  lemma RegionSize(R: int)
    requires R >= 0
    ensures |Region(R)| == 3 * R * R + 3 * R + 1
  {
    RightColumnsSize(R, R + 1);
    RightStep(R, 0);
  }

  /** A negative radius gives an empty board. */
  lemma NegativeRadiusEmpty(R: int)
    requires R < 0
    ensures Region(R) == []
  {
  }

  /** The hexagon of radius R is the set of cells at most R steps from the origin. */
  lemma InHexIsDistance(R: int, v: Vec2)
    ensures InHex(R, v) <==> Hex.HexNorm(v) <= R
  {
  }
}
