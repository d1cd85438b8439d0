/**
 * The random-dot encoder (`generateRandomDotStereogram`). Each scanline gets
 * a fresh link array; column `x` at depth `z` links `right = x + s/2` to
 * `left = x - s/2`, with the linear separation `s = eyeSep - z*focalLen/255`,
 * by overwriting one link (no union of roots). Each output pixel then copies
 * the noise pixel of the root its column reaches.
 */
module RandomDot {
  import opened Images
  import opened RowEquivalence

  /**
   * The linear separation for depth sample `z`, with Kotlin's truncating
   * division: `eyeSep` at the far plane (0), `eyeSep - focalLen` at the near
   * plane (255), and in between for a non-negative focal length.
   */
  function Separation(z: Byte, eyeSep: int, focalLen: int): (s: int)
    ensures z == 0 ==> s == eyeSep
    ensures z == 255 ==> s == eyeSep - focalLen
    ensures focalLen >= 0 ==> eyeSep - focalLen <= s <= eyeSep
  {
    if focalLen >= 0 then
      MulLeq(0, z, focalLen);
      MulLeq(z, 255, focalLen);
      eyeSep - Quot(z * focalLen, 255)
    else eyeSep - Quot(z * focalLen, 255)
  }

  /**
   * The half separation `separation / 2` that places `left` and `right` around
   * `x`: truncated toward zero, so twice it lies between zero and the separation.
   */
  function Half(z: Byte, eyeSep: int, focalLen: int): (h: int)
    ensures Separation(z, eyeSep, focalLen) >= 0 ==> 0 <= 2 * h <= Separation(z, eyeSep, focalLen)
    ensures Separation(z, eyeSep, focalLen) < 0 ==> Separation(z, eyeSep, focalLen) <= 2 * h <= 0
  {
    Quot(Separation(z, eyeSep, focalLen), 2)
  }

  /**
   * The linking step of column `x`: `same[right]` is overwritten with `left`
   * when both are inside the row and the link gets smaller. Nothing else
   * changes, links only decrease, and they keep pointing left.
   */
  function LinkStep(same: seq<int>, row: seq<Byte>, eyeSep: int, focalLen: int, x: nat): (s: seq<int>)
    requires |same| == |row| && x < |row| && StepInBounds(row, eyeSep, focalLen, x)
    ensures |s| == |same|
    ensures LinksLeft(same) ==> LinksLeft(s)
    ensures forall i :: 0 <= i < |s| && s[i] != same[i] ==>
              i == x + Half(row[x], eyeSep, focalLen) && s[i] == x - Half(row[x], eyeSep, focalLen) &&
              0 <= s[i] < same[i]
  {
    var left := x - Half(row[x], eyeSep, focalLen);
    var right := x + Half(row[x], eyeSep, focalLen);
    if left >= 0 && right < |same| && same[right] > left then same[right := left] else same
  }

  /**
   * The bounds test `left >= 0 && right < width` does not check `right >= 0`,
   * which fails only for a negative separation (`focalLen` large against
   * `eyeSep`); there `same[right]` would throw. Callers must avoid it.
   */
  predicate StepInBounds(row: seq<Byte>, eyeSep: int, focalLen: int, x: int)
    requires 0 <= x < |row|
  {
    var half := Half(row[x], eyeSep, focalLen);
    x - half >= 0 && x + half < |row| ==> x + half >= 0
  }

  predicate RowInBounds(row: seq<Byte>, eyeSep: int, focalLen: int) {
    forall x :: 0 <= x < |row| ==> StepInBounds(row, eyeSep, focalLen, x)
  }

  /** The link array after the linking steps of columns `0 .. n-1`. */
  function LinksUpTo(row: seq<Byte>, eyeSep: int, focalLen: int, n: nat): (s: seq<int>)
    requires n <= |row| && RowInBounds(row, eyeSep, focalLen)
    ensures |s| == |row| && LinksLeft(s)
  {
    if n == 0 then Identity(|row|)
    else LinkStep(LinksUpTo(row, eyeSep, focalLen, n - 1), row, eyeSep, focalLen, n - 1)
  }

  /** The link array of a whole scanline of depth samples. */
  function RowLinks(row: seq<Byte>, eyeSep: int, focalLen: int): (s: seq<int>)
    requires RowInBounds(row, eyeSep, focalLen)
    ensures |s| == |row| && LinksLeft(s)
  {
    LinksUpTo(row, eyeSep, focalLen, |row|)
  }

  /**
   * The output pixel at column `x` of a scanline: the noise pixel at the
   * column's root, which is a noise pixel of the same scanline at or left of `x`.
   */
  function RandomDotPixel(row: seq<Byte>, baseRow: seq<Pixel>, eyeSep: int, focalLen: int, x: int): (p: Pixel)
    requires |baseRow| == |row| && 0 <= x < |row| && RowInBounds(row, eyeSep, focalLen)
    ensures p in baseRow[..x + 1]
  {
    var root := Root(RowLinks(row, eyeSep, focalLen), x);
    assert baseRow[..x + 1][root] == baseRow[root];
    baseRow[root]
  }

  /** A column whose half separation is zero (`left == right == x`) changes no link. */
  lemma NoShiftNoLink(same: seq<int>, row: seq<Byte>, eyeSep: int, focalLen: int, x: nat)
    requires |same| == |row| && x < |row| && LinksLeft(same)
    requires Half(row[x], eyeSep, focalLen) == 0
    ensures LinkStep(same, row, eyeSep, focalLen, x) == same
  {
  }

  predicate Uniform(row: seq<Byte>, z: Byte) {
    forall x :: 0 <= x < |row| ==> row[x] == z
  }

  /**
   * On a scanline of constant depth with half separation `h > 0`, the first
   * `n` steps have linked exactly the columns `c` with `2h <= c` and
   * `c - h < n`, each to `c - 2h`.
   */
  lemma {:induction false} UniformLinksUpTo(row: seq<Byte>, eyeSep: int, focalLen: int, z: Byte, n: nat)
    requires Uniform(row, z) && n <= |row|
    requires Half(z, eyeSep, focalLen) > 0
    ensures RowInBounds(row, eyeSep, focalLen)
    ensures var h := Half(z, eyeSep, focalLen);
      forall c :: 0 <= c < |row| ==>
        LinksUpTo(row, eyeSep, focalLen, n)[c] == if 2 * h <= c && c - h < n then c - 2 * h else c
  {
    var h := Half(z, eyeSep, focalLen);
    if n > 0 {
      UniformLinksUpTo(row, eyeSep, focalLen, z, n - 1);
      var prev := LinksUpTo(row, eyeSep, focalLen, n - 1);
      var x := n - 1;
      assert row[x] == z;
      if x - h >= 0 && x + h < |row| {
        assert prev[x + h] == x + h;
        assert LinksUpTo(row, eyeSep, focalLen, n) == prev[x + h := x - h];
      } else {
        assert LinksUpTo(row, eyeSep, focalLen, n) == prev;
      }
    }
  }

  /**
   * A scanline of constant depth with half separation `h > 0` is periodic with
   * period `2h`: output pixel `x` equals output pixel `x - 2h`.
   */
  lemma UniformRowIsPeriodic(row: seq<Byte>, baseRow: seq<Pixel>, eyeSep: int, focalLen: int, z: Byte, x: int)
    requires |baseRow| == |row| && Uniform(row, z)
    requires Half(z, eyeSep, focalLen) > 0
    requires 2 * Half(z, eyeSep, focalLen) <= x < |row|
    ensures RandomDotPixel(row, baseRow, eyeSep, focalLen, x)
         == RandomDotPixel(row, baseRow, eyeSep, focalLen, x - 2 * Half(z, eyeSep, focalLen))
  {
    var h := Half(z, eyeSep, focalLen);
    UniformLinksUpTo(row, eyeSep, focalLen, z, |row|);
    var links := RowLinks(row, eyeSep, focalLen);
    assert links[x] == x - 2 * h;
  }

  /**
   * Eye separation 130, focal length 30, every sample 255 (nearest): the
   * separation is exactly 130 - 30 = 100 and each row repeats every 100 columns.
   */
  lemma NearPlaneRepeatsEvery100(row: seq<Byte>, baseRow: seq<Pixel>, x: int)
    requires |row| == 200 && |baseRow| == 200 && Uniform(row, 255)
    requires 100 <= x < 200
    ensures Separation(255, 130, 30) == 100
    ensures RandomDotPixel(row, baseRow, 130, 30, x) == RandomDotPixel(row, baseRow, 130, 30, x - 100)
  {
    assert Half(255, 130, 30) == 50;
    UniformRowIsPeriodic(row, baseRow, 130, 30, 255, x);
  }

  /** The two linking loops of one scanline: identity, then one step per column. */
  method LinkRow(row: seq<Byte>, eyeSep: int, focalLen: int) returns (same: array<int>)
    requires RowInBounds(row, eyeSep, focalLen)
    ensures same[..] == RowLinks(row, eyeSep, focalLen)
  {
    var width := |row|;
    same := NewLinks(width);
    for x := 0 to width
      invariant same[..] == LinksUpTo(row, eyeSep, focalLen, x)
    {
      LinkColumn(same, row, eyeSep, focalLen, x);
    }
  }

  /** The body of the linking loop for column `x`. */
  method LinkColumn(same: array<int>, row: seq<Byte>, eyeSep: int, focalLen: int, x: nat)
    requires same.Length == |row| && x < |row| && StepInBounds(row, eyeSep, focalLen, x)
    modifies same
    ensures same[..] == LinkStep(old(same[..]), row, eyeSep, focalLen, x)
  {
    var width := same.Length;
    var z := row[x];
    var separation := eyeSep - Quot(z * focalLen, 255);
    var left := x - Quot(separation, 2);
    var right := x + Quot(separation, 2);
    if left >= 0 && right < width {
      if same[right] > left {
        same[right] := left;
      }
    }
  }

  /** The noise image must have the depth map's size (it is generated from it). */
  predicate ValidBase(depth: Grid<Byte>, base: Grid<Pixel>) {
    depth.Valid() && base.Valid() && base.width == depth.width && base.height == depth.height
  }

  predicate ImageInBounds(depth: Grid<Byte>, eyeSep: int, focalLen: int)
    requires depth.Valid()
  {
    forall y :: 0 <= y < depth.height ==> RowInBounds(depth.rows[y], eyeSep, focalLen)
  }

  /**
   * `generateRandomDotStereogram`: an empty image when the depth map is
   * missing; otherwise an image of the depth map's size whose pixel `(x, y)`
   * is the noise pixel at `(root(x), y)` of scanline `y`'s links.
   */
  method GenerateRandomDotStereogram(st: Stereogram, base: Grid<Pixel>) returns (result: array2<Pixel>)
    requires st.depthMap.Some? ==> ValidBase(st.depthMap.value, base)
    requires st.depthMap.Some? ==> ImageInBounds(st.depthMap.value, st.eyeSep, st.focalLen)
    ensures st.depthMap.None? ==> result.Length0 == 0 && result.Length1 == 0
    ensures st.depthMap.Some? ==>
      result.Length0 == st.depthMap.value.height && result.Length1 == st.depthMap.value.width &&
      forall y, x :: 0 <= y < result.Length0 && 0 <= x < result.Length1 ==>
        result[y, x] == RandomDotPixel(st.depthMap.value.rows[y], base.rows[y], st.eyeSep, st.focalLen, x)
  {
    if st.depthMap.None? {
      result := new Pixel[0, 0];
      return;
    }
    var depth := st.depthMap.value;
    var width, height := depth.width, depth.height;
    result := new Pixel[height, width];
    for y := 0 to height
      invariant forall y', x :: 0 <= y' < y && 0 <= x < width ==>
        result[y', x] == RandomDotPixel(depth.rows[y'], base.rows[y'], st.eyeSep, st.focalLen, x)
    {
      var same := LinkRow(depth.rows[y], st.eyeSep, st.focalLen);
      WriteRow(result, y, same, depth.rows[y], base.rows[y], st.eyeSep, st.focalLen);
    }
  }

  /** The write loop of scanline `y`: each pixel copies the noise pixel of its root. */
  method WriteRow(result: array2<Pixel>, y: nat, same: array<int>,
                  row: seq<Byte>, baseRow: seq<Pixel>, eyeSep: int, focalLen: int)
    requires y < result.Length0 && result.Length1 == |row| == |baseRow|
    requires RowInBounds(row, eyeSep, focalLen) && same[..] == RowLinks(row, eyeSep, focalLen)
    modifies result
    ensures forall y', x :: 0 <= y' < result.Length0 && y' != y && 0 <= x < result.Length1 ==>
      result[y', x] == old(result[y', x])
    ensures forall x :: 0 <= x < result.Length1 ==>
      result[y, x] == RandomDotPixel(row, baseRow, eyeSep, focalLen, x)
  {
    for x := 0 to result.Length1
      invariant forall y', x' :: 0 <= y' < result.Length0 && y' != y && 0 <= x' < result.Length1 ==>
        result[y', x'] == old(result[y', x'])
      invariant forall x' :: 0 <= x' < x ==> result[y, x'] == RandomDotPixel(row, baseRow, eyeSep, focalLen, x')
    {
      var root := FindRoot(same, same[x]);
      result[y, x] := baseRow[root];
    }
  }
}
