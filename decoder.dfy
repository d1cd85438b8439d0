/**
 * The brute-force decoder (`decodeStereogram`). For every candidate disparity
 * `d` in `minSearch .. maxSearch`, with `minSearch = max(1, eyeSep - maxDepth)`
 * and `maxSearch = eyeSep`, the blurred absolute difference between the
 * image and itself shifted `d` columns is compared with a running per-pixel
 * minimum over the columns `x < width - d`; where it is strictly smaller, the
 * minimum and the best disparity of that pixel are replaced. The best
 * disparities are then mapped to depth bytes, far = 0 and near = 255.
 *
 * The grey conversion, difference and box blur are image-processing
 * primitives; their result enters the model as `cost[k]`, the blurred
 * difference for `d = minSearch + k`, of `height` rows and `width - d`
 * columns (the region of interest the source compares).
 */
module Decoder {
  import opened Images

  /** `Float.MAX_VALUE`, the initial running minimum, as an exact integer. */
  const FloatMax: int := 340282346638528859811704183484516925440

  function MinSearch(eyeSep: int, maxDepth: int): (m: int)
    ensures m >= 1
  {
    if eyeSep - maxDepth > 1 then eyeSep - maxDepth else 1
  }

  /** The divisor of the depth mapping, `max(1, maxSearch - minSearch)`. */
  function Range(minSearch: int, maxSearch: int): (r: int)
    ensures r >= 1
  {
    if maxSearch - minSearch > 1 then maxSearch - minSearch else 1
  }

  /**
   * A disparity stored into the 8-bit `bestMatchMat` saturates: values of
   * `0 .. 255` are kept, others clamp to the nearest end.
   */
  function Saturate(d: int): (b: Byte)
    ensures 0 <= d <= 255 ==> b == d
    ensures d < 0 ==> b == 0
    ensures d > 255 ==> b == 255
  {
    if d < 0 then 0 else if d > 255 then 255 else d
  }

  /** The shape of the cost input: one grid per candidate, `width - d` columns wide. */
  predicate CostShape(cost: seq<seq<seq<int>>>, width: nat, height: nat, minSearch: int, maxSearch: int) {
    && |cost| == (if minSearch <= maxSearch then maxSearch - minSearch + 1 else 0)
    && forall k :: 0 <= k < |cost| ==>
         |cost[k]| == height && forall y :: 0 <= y < height ==> |cost[k][y]| == width - (minSearch + k)
  }

  predicate HasRow(cost: seq<seq<seq<int>>>, y: int) {
    forall k :: 0 <= k < |cost| ==> 0 <= y < |cost[k]|
  }

  /** The running minimum of one pixel and the disparity that reached it. */
  datatype Match = Match(error: int, disparity: int)

  /** The running minimum of pixel `(x, y)` after the candidates `minSearch .. minSearch + n - 1`. */
  function Scan(cost: seq<seq<seq<int>>>, minSearch: int, y: int, x: int, n: nat): (m: Match)
    requires n <= |cost| && HasRow(cost, y)
    ensures m.error <= FloatMax
    ensures m.disparity == 0 || minSearch <= m.disparity < minSearch + n
  {
    if n == 0 then Match(FloatMax, 0)
    else
      var m := Scan(cost, minSearch, y, x, n - 1);
      var k := n - 1;
      assert 0 <= y < |cost[k]|;
      if 0 <= x < |cost[k][y]| && cost[k][y][x] < m.error then Match(cost[k][y][x], minSearch + k) else m
  }

  /**
   * The running minimum is the first minimum: after `n` candidates the
   * disparity is `0` exactly when no cost went below `Float.MAX_VALUE`;
   * otherwise it is a candidate `d` whose cost is the minimum error, no
   * candidate has a smaller cost, and every earlier candidate a larger one
   * (ties keep the smaller `d`). Candidates whose region does not reach
   * column `x` are never considered.
   */
  lemma {:induction false} ScanIsFirstMinimum(cost: seq<seq<seq<int>>>, minSearch: int, y: int, x: int, n: nat)
    requires n <= |cost| && HasRow(cost, y) && minSearch >= 1
    ensures var m := Scan(cost, minSearch, y, x, n);
      && m.error <= FloatMax
      && (forall k :: 0 <= k < n && 0 <= x < |cost[k][y]| ==> m.error <= cost[k][y][x])
      && (m.disparity == 0 ==> m.error == FloatMax)
      && (m.disparity != 0 ==> m.error < FloatMax)
      && (m.disparity != 0 ==>
            && minSearch <= m.disparity < minSearch + n
            && 0 <= x < |cost[m.disparity - minSearch][y]|
            && m.error == cost[m.disparity - minSearch][y][x]
            && forall k :: 0 <= k < m.disparity - minSearch && 0 <= x < |cost[k][y]| ==> cost[k][y][x] > m.error)
  {
    if n > 0 {
      ScanIsFirstMinimum(cost, minSearch, y, x, n - 1);
    }
  }

  /** The running minimum never increases from one candidate to a later one. */
  lemma {:induction false} MinErrorNeverIncreases(cost: seq<seq<seq<int>>>, minSearch: int, y: int, x: int, n: nat, n': nat)
    requires n <= n' <= |cost| && HasRow(cost, y)
    ensures Scan(cost, minSearch, y, x, n').error <= Scan(cost, minSearch, y, x, n).error
    decreases n' - n
  {
    if n < n' {
      MinErrorNeverIncreases(cost, minSearch, y, x, n, n' - 1);
    }
  }

  /**
   * What `bestMatchMat` holds for a pixel is `0` or a saturated candidate: with
   * `maxSearch <= 255` this is `0` or a value of `minSearch .. maxSearch`.
   */
  lemma StoredDisparityInRange(cost: seq<seq<seq<int>>>, minSearch: int, maxSearch: int, y: int, x: int)
    requires HasRow(cost, y) && minSearch >= 1 && |cost| == maxSearch - minSearch + 1
    ensures var b := Saturate(Scan(cost, minSearch, y, x, |cost|).disparity);
      b == 0 || Saturate(minSearch) <= b <= Saturate(maxSearch)
  {
    ScanIsFirstMinimum(cost, minSearch, y, x, |cost|);
  }

  /**
   * The depth byte of a stored disparity `d`: `0` for `d == 0`, otherwise
   * `255 - (d - minSearch) * 255 / range` in Kotlin arithmetic, kept to its
   * low eight bits by `toByte()`.
   */
  function DepthOf(d: Byte, minSearch: int, maxSearch: int): (depth: Byte)
    ensures d == 0 ==> depth == 0
  {
    if d > 0 then ToByte(255 - Quot((d - minSearch) * 255, Range(minSearch, maxSearch))) else 0
  }

  /**
   * For a disparity of the search range the mapping needs no wrap-around: it
   * is `255 - (d - minSearch) * 255 / range` with floor division, and lies
   * in `0 .. 255`.
   */
  lemma DepthOfInRange(d: Byte, minSearch: int, maxSearch: int)
    requires 1 <= minSearch <= d <= maxSearch
    ensures DepthOf(d, minSearch, maxSearch) == 255 - (d - minSearch) * 255 / Range(minSearch, maxSearch)
  {
    var range := Range(minSearch, maxSearch);
    var a := (d - minSearch) * 255;
    ScaledOffsetBelow(d - minSearch, range);
    var q := a / range;
    assert Quot(a, range) == q;
    assert 0 <= q <= 255;
    assert 0 <= 255 - q < 256;
  }

  /** `0 <= off*255/range <= 255` for an offset `0 <= off <= range`. */
  lemma ScaledOffsetBelow(off: int, range: int)
    requires 0 <= off <= range && range >= 1
    ensures 0 <= off * 255 && 0 <= off * 255 / range <= 255
  {
    MulLeq(0, off, 255);
    MulLeq(off, range, 255);
    var a := off * 255;
    var q := a / range;
    assert q * range <= a;
    assert a < 256 * range;
    ProductBelow(q, 256, range);
  }

  /** Nearer (smaller disparity) never maps to a smaller depth byte. */
  lemma DepthOfMonotone(d1: Byte, d2: Byte, minSearch: int, maxSearch: int)
    requires 1 <= minSearch <= d1 <= d2 <= maxSearch
    ensures DepthOf(d2, minSearch, maxSearch) <= DepthOf(d1, minSearch, maxSearch)
  {
    DepthOfInRange(d1, minSearch, maxSearch);
    DepthOfInRange(d2, minSearch, maxSearch);
    var range := Range(minSearch, maxSearch);
    MulLeq(d1 - minSearch, d2 - minSearch, 255);
    DivLeq((d1 - minSearch) * 255, (d2 - minSearch) * 255, range);
  }

  /** The ends of the search range map to the ends of the depth scale. */
  lemma DepthOfEnds(minSearch: int, maxSearch: int)
    requires 1 <= minSearch <= maxSearch <= 255
    ensures DepthOf(minSearch, minSearch, maxSearch) == 255
    ensures maxSearch > minSearch ==> DepthOf(maxSearch, minSearch, maxSearch) == 0
  {
    DepthOfInRange(minSearch, minSearch, maxSearch);
    assert (minSearch - minSearch) * 255 == 0;
    if maxSearch > minSearch {
      var range := maxSearch - minSearch;
      assert Range(minSearch, maxSearch) == range;
      DepthOfInRange(maxSearch, minSearch, maxSearch);
      FullScale(range);
    }
  }

  /** `range * 255 / range == 255`. */
  lemma FullScale(range: int)
    requires range >= 1
    ensures range * 255 / range == 255
  {
    var q := range * 255 / range;
    assert q * range <= range * 255 < q * range + range;
    ProductBelow(q, 256, range);
    ProductBelow(255, q + 1, range);
  }

  lemma DivLeq(a: int, b: int, c: int)
    requires 0 <= a <= b && c > 0
    ensures a / c <= b / c
  {
    var qa, qb := a / c, b / c;
    assert qa * c <= a;
    assert b < qb * c + c;
    assert (qa - qb) * c < 1 * c by {
      assert (qa - qb) * c == qa * c - qb * c;
    }
    ProductBelow(qa - qb, 1, c);
  }

  lemma ProductBelow(x: int, y: int, c: int)
    requires c > 0 && x * c < y * c
    ensures x < y
  {
    assert (y - x) * c > 0 by {
      assert (y - x) * c == y * c - x * c;
    }
  }

  /**
   * The per-candidate update for disparity `d`: inside the region
   * `x < width - d`, a pixel whose cost is strictly below its running minimum
   * takes that cost and `d` (saturated); every other pixel is unchanged.
   */
  method UpdateRunningMinimum(minError: array2<int>, bestMatch: array2<Byte>, costD: seq<seq<int>>, d: int)
    requires minError.Length0 == bestMatch.Length0 == |costD|
    requires minError.Length1 == bestMatch.Length1
    requires forall y :: 0 <= y < |costD| ==> |costD[y]| <= minError.Length1
    modifies minError, bestMatch
    ensures forall y, x :: 0 <= y < minError.Length0 && 0 <= x < minError.Length1 ==>
      if x < |costD[y]| && costD[y][x] < old(minError[y, x])
      then minError[y, x] == costD[y][x] && bestMatch[y, x] == Saturate(d)
      else minError[y, x] == old(minError[y, x]) && bestMatch[y, x] == old(bestMatch[y, x])
  {
    for y := 0 to |costD|
      invariant forall y', x :: 0 <= y' < minError.Length0 && 0 <= x < minError.Length1 ==>
        if y' < y && x < |costD[y']| && costD[y'][x] < old(minError[y', x])
        then minError[y', x] == costD[y'][x] && bestMatch[y', x] == Saturate(d)
        else minError[y', x] == old(minError[y', x]) && bestMatch[y', x] == old(bestMatch[y', x])
    {
      for x := 0 to |costD[y]|
        invariant forall y', x' :: 0 <= y' < minError.Length0 && 0 <= x' < minError.Length1 ==>
          if (y' < y || (y' == y && x' < x)) && x' < |costD[y']| && costD[y'][x'] < old(minError[y', x'])
          then minError[y', x'] == costD[y'][x'] && bestMatch[y', x'] == Saturate(d)
          else minError[y', x'] == old(minError[y', x']) && bestMatch[y', x'] == old(bestMatch[y', x'])
      {
        if costD[y][x] < minError[y, x] {
          minError[y, x] := costD[y][x];
          bestMatch[y, x] := Saturate(d);
        }
      }
    }
  }

  /**
   * The search over all candidates: every pixel ends with the running minimum
   * of `Scan` over the whole range and its (saturated) best disparity.
   */
  method DisparitySearch(width: nat, height: nat, minSearch: int, maxSearch: int, cost: seq<seq<seq<int>>>)
    returns (minError: array2<int>, bestMatch: array2<Byte>)
    requires minSearch >= 1 && CostShape(cost, width, height, minSearch, maxSearch)
    requires minSearch <= maxSearch ==> maxSearch < width
    ensures minError.Length0 == bestMatch.Length0 == height
    ensures minError.Length1 == bestMatch.Length1 == width
    ensures forall y, x :: 0 <= y < height && 0 <= x < width ==>
      minError[y, x] == Scan(cost, minSearch, y, x, |cost|).error &&
      bestMatch[y, x] == Saturate(Scan(cost, minSearch, y, x, |cost|).disparity)
  {
    minError := new int[height, width]((y, x) => FloatMax);
    bestMatch := new Byte[height, width]((y, x) => 0);
    if minSearch > maxSearch {
      return;
    }
    for d := minSearch to maxSearch + 1
      invariant forall y, x :: 0 <= y < height && 0 <= x < width ==>
        minError[y, x] == Scan(cost, minSearch, y, x, d - minSearch).error &&
        bestMatch[y, x] == Saturate(Scan(cost, minSearch, y, x, d - minSearch).disparity)
    {
      UpdateRunningMinimum(minError, bestMatch, cost[d - minSearch], d);
    }
  }

  /**
   * `decodeStereogram`: an empty map for an empty stereogram; otherwise each
   * pixel holds the depth byte of the best disparity the search found for
   * it (before the median filter and histogram equalisation).
   */
  method DecodeStereogram(width: nat, height: nat, eyeSep: int, maxDepth: int, cost: seq<seq<seq<int>>>)
    returns (depth: array2<Byte>)
    requires width > 0 && height > 0 ==>
      CostShape(cost, width, height, MinSearch(eyeSep, maxDepth), eyeSep) &&
      (MinSearch(eyeSep, maxDepth) <= eyeSep ==> eyeSep < width)
    ensures width == 0 || height == 0 ==> depth.Length0 == 0 && depth.Length1 == 0
    ensures width > 0 && height > 0 ==>
      depth.Length0 == height && depth.Length1 == width &&
      forall y, x :: 0 <= y < height && 0 <= x < width ==>
        depth[y, x] == DepthOf(Saturate(Scan(cost, MinSearch(eyeSep, maxDepth), y, x, |cost|).disparity),
                               MinSearch(eyeSep, maxDepth), eyeSep)
  {
    if width == 0 || height == 0 {
      depth := new Byte[0, 0];
      return;
    }
    var minSearch := if 1 > eyeSep - maxDepth then 1 else eyeSep - maxDepth;
    var maxSearch := eyeSep;
    var minError, bestMatch := DisparitySearch(width, height, minSearch, maxSearch, cost);
    depth := MapToDepth(bestMatch, minSearch, maxSearch);
  }

  /** The mapping loop: every best disparity becomes its depth byte. */
  method MapToDepth(bestMatch: array2<Byte>, minSearch: int, maxSearch: int) returns (depth: array2<Byte>)
    ensures depth.Length0 == bestMatch.Length0 && depth.Length1 == bestMatch.Length1
    ensures forall y, x :: 0 <= y < depth.Length0 && 0 <= x < depth.Length1 ==>
      depth[y, x] == DepthOf(bestMatch[y, x], minSearch, maxSearch)
  {
    var height, width := bestMatch.Length0, bestMatch.Length1;
    var range := if 1 > maxSearch - minSearch then 1 else maxSearch - minSearch;
    depth := new Byte[height, width];
    for y := 0 to height
      modifies depth
      invariant forall y', x :: 0 <= y' < y && 0 <= x < width ==>
        depth[y', x] == DepthOf(bestMatch[y', x], minSearch, maxSearch)
    {
      for x := 0 to width
        modifies depth
        invariant forall y', x' :: 0 <= y' < y && 0 <= x' < width ==>
          depth[y', x'] == DepthOf(bestMatch[y', x'], minSearch, maxSearch)
        invariant forall x' :: 0 <= x' < x ==> depth[y, x'] == DepthOf(bestMatch[y, x'], minSearch, maxSearch)
      {
        var d := bestMatch[y, x];
        if d > 0 {
          var depthValue := 255 - Quot((d - minSearch) * 255, range);
          depth[y, x] := ToByte(depthValue);
        } else {
          depth[y, x] := 0;
        }
      }
    }
  }
}
