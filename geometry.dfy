/**
 * src/Geometry.ts: integer vectors (`Vec2`), clamping (`Math2.clamp`) and the
 * random-selection helpers (`Math2.selectRandom`, `Math2.selectRandomBucket`).
 *
 * `Math2.randomInt(min, max)` is `floor(random() * (max - min) + min)`; the
 * random number is not modelled, the integer it yields is a parameter (`ran`)
 * that satisfies `IsDraw`.
 */
module Geometry {
  import opened Optional

  /** An (x, y) pair; the model gives tiles integer coordinates (an integer board radius). */
  datatype Vec2 = Vec2(x: int, y: int)

  /** `Vec2.add`: the componentwise sum `a + b`. */
  function Add(a: Vec2, b: Vec2): Vec2
  {
    Vec2(a.x + b.x, a.y + b.y)
  }

  /** The vector pointing the other way. */
  function Neg(a: Vec2): Vec2
  {
    Vec2(-a.x, -a.y)
  }

  lemma AddCommutative(a: Vec2, b: Vec2)
    ensures Add(a, b) == Add(b, a)
  {
  }

  lemma AddAssociative(a: Vec2, b: Vec2, c: Vec2)
    ensures Add(Add(a, b), c) == Add(a, Add(b, c))
  {
  }

  /** Adding `b` is undone by adding `-b`, so shifting by a fixed vector is injective. */
  lemma AddNegCancels(a: Vec2, b: Vec2)
    ensures Add(Add(a, b), Neg(b)) == a
    ensures forall c :: Add(c, b) == Add(a, b) ==> c == a
  {
  }

  /** `Math2.clamp(x, min, max)`: `x` pushed into `[min, max]`. */
  function Clamp(x: real, min: real, max: real): (r: real)
    ensures min <= max ==> min <= r <= max
    ensures min <= x <= max ==> r == x
    ensures r == x || r == min || r == max
    ensures min <= max && x < min ==> r == min
    ensures min <= max && x > max ==> r == max
  {
    if x < min then min else if x > max then max else x
  }

  function RealAbs(a: real): real
  {
    if a < 0.0 then -a else a
  }

  /** For min <= max, the clamped value is the point of `[min, max]` nearest to `x`. */
  lemma ClampNearest(x: real, min: real, max: real, z: real)
    requires min <= max && min <= z <= max
    ensures RealAbs(Clamp(x, min, max) - x) <= RealAbs(z - x)
  {
  }

  /** Clamping a clamped value changes nothing. */
  lemma ClampIdempotent(x: real, min: real, max: real)
    requires min <= max
    ensures Clamp(Clamp(x, min, max), min, max) == Clamp(x, min, max)
  {
  }

  /**
   * The integers `randomInt(lo, hi)` can return: `floor(r * (hi - lo) + lo)`
   * for some `0 <= r < 1`.
   */
  predicate IsDraw(ran: int, lo: int, hi: int)
  {
    if lo < hi then lo <= ran < hi
    else if lo == hi then ran == lo
    else hi <= ran <= lo
  }

  /**
   * `Math2.selectRandom(arr)`: `arr[randomInt(0, arr.length)]`, where `ran` is
   * the draw. On an empty array the draw is 0 and the lookup is `undefined`.
   */
  function SelectRandom<T>(arr: seq<T>, ran: int): (r: Option<T>)
    requires IsDraw(ran, 0, |arr|)
    ensures r.Some? <==> |arr| > 0
    ensures r.Some? ==> 0 <= ran < |arr| && r.value == arr[ran] && r.value in arr
  {
    if ran < |arr| then Some(arr[ran]) else None
  }

  /** The sum of a sequence of bucket sizes. */
  function Sum(s: seq<int>): int
  {
    if s == [] then 0 else Sum(s[..|s| - 1]) + s[|s| - 1]
  }

  /** The sum of a prefix grows by the next element. */
  lemma SumStep(s: seq<int>, i: nat)
    requires i < |s|
    ensures Sum(s[..i + 1]) == Sum(s[..i]) + s[i]
  {
    assert s[..i + 1][..i] == s[..i];
  }

  /**
   * The `startVal` array of `selectRandomBucket`: entry `i` is the running
   * total of the sizes up to and including bucket `i`.
   */
  function StartVal(sizes: seq<int>): (sv: seq<int>)
    ensures |sv| == |sizes|
    ensures forall i :: 0 <= i < |sizes| ==> sv[i] == Sum(sizes[..i + 1])
  {
    if sizes == [] then []
    else
      var init := sizes[..|sizes| - 1];
      assert sizes[..|sizes|] == sizes;
      assert forall i :: 0 <= i < |init| ==> StartVal(init)[i] == Sum(sizes[..i + 1]) by {
        forall i | 0 <= i < |init|
          ensures StartVal(init)[i] == Sum(sizes[..i + 1])
        {
          assert init[..i + 1] == sizes[..i + 1];
        }
      }
      StartVal(init) + [Sum(sizes)]
  }

  /**
   * `startVal.findIndex(s => ran < s)`: the first index whose entry exceeds
   * `ran`, or -1 when there is none.
   */
  function FindIndexAbove(sv: seq<int>, ran: int): (i: int)
    ensures -1 <= i < |sv|
    ensures 0 <= i ==> ran < sv[i]
    ensures forall j :: 0 <= j < |sv| && (i < 0 || j < i) ==> sv[j] <= ran
  {
    if sv == [] then -1
    else if ran < sv[0] then 0
    else
      var i := FindIndexAbove(sv[1..], ran);
      if i < 0 then -1 else i + 1
  }

  /** The bucket `selectRandomBucket` picks for the draw `ran`. */
  function Bucket(sizes: seq<int>, ran: int): int
  {
    FindIndexAbove(StartVal(sizes), ran)
  }

  /**
   * `Math2.selectRandomBucket(bucketSizes)`: builds the running totals, then
   * returns the first bucket whose running total exceeds the draw `ran`, a
   * draw of `randomInt(0, total)`.
   */
  method SelectRandomBucket(bucketSizes: seq<int>, ran: int) returns (i: int)
    requires IsDraw(ran, 0, Sum(bucketSizes))
    ensures i == Bucket(bucketSizes, ran)
    ensures -1 <= i < |bucketSizes|
  {
    var startVal: seq<int> := [];
    var accumulation := 0;
    for k := 0 to |bucketSizes|
      invariant accumulation == Sum(bucketSizes[..k])
      invariant startVal == StartVal(bucketSizes[..k])
    {
      SumStep(bucketSizes, k);
      assert bucketSizes[..k + 1][..k] == bucketSizes[..k];
      accumulation := accumulation + bucketSizes[k];
      startVal := startVal + [accumulation];
    }
    assert bucketSizes[..|bucketSizes|] == bucketSizes;
    i := FindIndexAbove(startVal, ran);
  }

  predicate NonNegative(sizes: seq<int>)
  {
    forall i :: 0 <= i < |sizes| ==> sizes[i] >= 0
  }

  /** With non-negative sizes, a longer prefix never sums to less. */
  lemma {:induction false} SumPrefixMonotone(sizes: seq<int>, a: nat, b: nat)
    requires NonNegative(sizes)
    requires a <= b <= |sizes|
    ensures Sum(sizes[..a]) <= Sum(sizes[..b])
    decreases b - a
  {
    if a < b {
      SumStep(sizes, b - 1);
      SumPrefixMonotone(sizes, a, b - 1);
    }
  }

  /** With non-negative sizes the running totals never decrease and end at the total. */
  lemma StartValNondecreasing(sizes: seq<int>)
    requires NonNegative(sizes)
    ensures forall i, j :: 0 <= i <= j < |sizes| ==> StartVal(sizes)[i] <= StartVal(sizes)[j]
    ensures |sizes| > 0 ==> StartVal(sizes)[|sizes| - 1] == Sum(sizes)
  {
    forall i, j | 0 <= i <= j < |sizes|
      ensures StartVal(sizes)[i] <= StartVal(sizes)[j]
    {
      StartValPair(sizes, i, j);
    }
    if |sizes| > 0 {
      assert sizes[..|sizes| - 1 + 1] == sizes;
    }
  }

  lemma StartValPair(sizes: seq<int>, i: nat, j: nat)
    requires NonNegative(sizes)
    requires i <= j < |sizes|
    ensures StartVal(sizes)[i] <= StartVal(sizes)[j]
  {
    SumPrefixMonotone(sizes, i + 1, j + 1);
  }

  /**
   * A draw in `[0, total)` lands in the bucket whose interval
   * `[startVal[i-1], startVal[i])` holds it, so the chosen bucket has a
   * positive size: a zero-size bucket is never chosen.
   */
  lemma BucketInterval(sizes: seq<int>, ran: int)
    requires NonNegative(sizes)
    requires 0 <= ran < Sum(sizes)
    ensures 0 <= Bucket(sizes, ran) < |sizes|
    ensures Sum(sizes[..Bucket(sizes, ran)]) <= ran < Sum(sizes[..Bucket(sizes, ran) + 1])
    ensures sizes[Bucket(sizes, ran)] > 0
  {
    var sv := StartVal(sizes);
    var i := Bucket(sizes, ran);
    assert sizes[..|sizes|] == sizes;
    assert sv[|sizes| - 1] == Sum(sizes);
    if i > 0 {
      assert sv[i - 1] <= ran;
    }
    SumStep(sizes, i);
  }

  /** Conversely, every draw in bucket `i`'s interval selects bucket `i`. */
  lemma BucketFromInterval(sizes: seq<int>, ran: int, i: nat)
    requires NonNegative(sizes)
    requires i < |sizes|
    requires Sum(sizes[..i]) <= ran < Sum(sizes[..i + 1])
    ensures Bucket(sizes, ran) == i
  {
    var sv := StartVal(sizes);
    var b := Bucket(sizes, ran);
    assert ran < sv[i];
    if 0 <= b < i {
      SumPrefixMonotone(sizes, b + 1, i);
    }
  }

  /**
   * The draws `lo, lo + 1, ..., hi - 1` as a set: for lo < hi, exactly the
   * integers `randomInt(lo, hi)` can return. (For lo >= hi the set is empty,
   * while `randomInt` still returns a value; see `IsDraw`.)
   */
  function Draws(lo: int, hi: int): (s: set<int>)
    ensures forall r :: r in s <==> lo <= r < hi
    ensures lo < hi ==> forall r :: r in s <==> IsDraw(r, lo, hi)
    ensures lo <= hi ==> |s| == hi - lo
    decreases hi - lo
  {
    if hi <= lo then {} else Draws(lo, hi - 1) + {hi - 1}
  }

  /** The draws in `[0, total)` that select bucket `i`. */
  function DrawsSelecting(sizes: seq<int>, i: int): set<int>
  {
    set r | r in Draws(0, Sum(sizes)) && Bucket(sizes, r) == i
  }

  /** Bucket `i` is selected by exactly the draws in its interval. */
  lemma DrawsSelectingInterval(sizes: seq<int>, i: nat)
    requires NonNegative(sizes)
    requires i < |sizes|
    ensures DrawsSelecting(sizes, i) == Draws(Sum(sizes[..i]), Sum(sizes[..i + 1]))
  {
    var lo, hi := Sum(sizes[..i]), Sum(sizes[..i + 1]);
    SumStep(sizes, i);
    SumPrefixMonotone(sizes, 0, i);
    SumPrefixMonotone(sizes, i + 1, |sizes|);
    assert sizes[..0] == [] && sizes[..|sizes|] == sizes;
    forall r | r in Draws(0, Sum(sizes))
      ensures Bucket(sizes, r) == i <==> lo <= r < hi
    {
      if lo <= r < hi {
        BucketFromInterval(sizes, r, i);
      } else {
        BucketInterval(sizes, r);
        var b := Bucket(sizes, r);
        if b < i {
          SumPrefixMonotone(sizes, b + 1, i);
        } else if b > i {
          SumPrefixMonotone(sizes, i + 1, b);
        }
      }
    }
  }

  /**
   * Proportional weighting: of the `total` possible draws, exactly
   * `sizes[i]` select bucket `i`.
   */
  lemma BucketProportional(sizes: seq<int>, i: nat)
    requires NonNegative(sizes)
    requires i < |sizes|
    ensures |DrawsSelecting(sizes, i)| == sizes[i]
  {
    DrawsSelectingInterval(sizes, i);
    SumStep(sizes, i);
  }

  /** All-zero sizes sum to zero. */
  lemma {:induction false} SumOfZeros(sizes: seq<int>)
    requires forall i :: 0 <= i < |sizes| ==> sizes[i] == 0
    ensures Sum(sizes) == 0
  {
    if sizes != [] {
      SumOfZeros(sizes[..|sizes| - 1]);
    }
  }

  /** When every bucket is empty the draw is 0 and no bucket is chosen (-1). */
  lemma EmptyBucketsSelectNone(sizes: seq<int>, ran: int)
    requires forall i :: 0 <= i < |sizes| ==> sizes[i] == 0
    requires IsDraw(ran, 0, Sum(sizes))
    ensures ran == 0 && Bucket(sizes, ran) == -1
  {
    SumOfZeros(sizes);
    var sv := StartVal(sizes);
    forall j | 0 <= j < |sizes|
      ensures sv[j] == 0
    {
      SumOfZeros(sizes[..j + 1]);
    }
  }
}
