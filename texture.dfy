/**
 * The texture encoder (`generateTextureStereogram`). Each scanline gets a
 * fresh link array; column `x` joins the classes of `left = x - s/2` and
 * `right = left + s` by linking the larger of their two roots under the
 * smaller, but only when both lie inside the row and the hidden-surface test
 * found column `x` visible. Output pixels tile the pattern image: pixel
 * `(x, y)` copies pattern pixel `(root(x) % texWidth, y % texHeight)`.
 *
 * The separation `round((1 - z/3) * eyeSep / (2 - z/3))` and the
 * hidden-surface walk are computed in floating point; they enter the model as
 * inputs: `separations[z]` is the separation for depth byte `z`, and
 * `visible` holds the outcome of the walk for each pixel.
 */
module Texture {
  import opened Images
  import opened RowEquivalence

  /** `left = x - separation/2`: for a non-negative separation, at most `separation` columns left of `x`. */
  function Left(separation: int, x: int): (l: int)
    ensures separation >= 0 ==> x - separation <= l <= x
  {
    x - Quot(separation, 2)
  }

  /**
   * `right = left + separation`: exactly `separation` columns right of `left`,
   * so for a non-negative separation `x` lies between the two.
   */
  function Right(separation: int, x: int): (r: int)
    ensures r - Left(separation, x) == separation
    ensures separation >= 0 ==> x <= r <= x + separation
  {
    Left(separation, x) + separation
  }

  /** The step of column `x` takes part in linking. */
  predicate Linked(separation: int, visible: bool, x: int, width: int) {
    Left(separation, x) >= 0 && Right(separation, x) < width && visible
  }

  /**
   * The bounds test checks neither `right >= 0` nor `left < width`; both hold
   * unless the separation is negative, where chasing the root of `right` or
   * `left` would throw.
   */
  predicate StepInBounds(separation: int, x: int, width: int) {
    Left(separation, x) >= 0 && Right(separation, x) < width ==>
      Right(separation, x) >= 0 && Left(separation, x) < width
  }

  /** Union of the classes of `left` and `right`, the larger root under the smaller. */
  function UnionStep(same: seq<int>, separation: int, visible: bool, x: int): (s: seq<int>)
    requires LinksLeft(same) && 0 <= x < |same| && StepInBounds(separation, x, |same|)
    ensures |s| == |same| && LinksLeft(s)
  {
    var left := Left(separation, x);
    var right := Right(separation, x);
    if left >= 0 && right < |same| && visible then
      var l := Root(same, left);
      var r := Root(same, right);
      if l != r then
        if l < r then same[r := l] else same[l := r]
      else same
    else same
  }

  /**
   * What a union step does to the classes: when it links, `left` and `right`
   * end in one class, the two old classes merge under the smaller of their
   * roots, and every other column keeps its root; otherwise (`left < 0`,
   * `right >= width`, or not visible) nothing changes.
   */
  lemma UnionStepMerges(same: seq<int>, separation: int, visible: bool, x: int, y: int)
    requires LinksLeft(same) && 0 <= x < |same| && StepInBounds(separation, x, |same|)
    requires 0 <= y < |same|
    ensures var s := UnionStep(same, separation, visible, x);
      if Linked(separation, visible, x, |same|) then
        var l := Root(same, Left(separation, x));
        var r := Root(same, Right(separation, x));
        Root(s, Left(separation, x)) == Root(s, Right(separation, x)) &&
        Root(s, y) == if Root(same, y) == l || Root(same, y) == r then Min(l, r) else Root(same, y)
      else s == same
  {
    if Linked(separation, visible, x, |same|) {
      var left, right := Left(separation, x), Right(separation, x);
      var l, r := Root(same, left), Root(same, right);
      if l < r {
        RootAfterLink(same, r, l, y);
        RootAfterLink(same, r, l, left);
        RootAfterLink(same, r, l, right);
      } else if r < l {
        RootAfterLink(same, l, r, y);
        RootAfterLink(same, l, r, left);
        RootAfterLink(same, l, r, right);
      }
    }
  }

  function Min(a: int, b: int): int {
    if a <= b then a else b
  }

  /** Every step of scanline `row` stays inside the link array. */
  predicate RowInBounds(row: seq<Byte>, separations: seq<int>)
    requires |separations| == 256
  {
    forall x :: 0 <= x < |row| ==> StepInBounds(separations[row[x]], x, |row|)
  }

  /** The link array after the union steps of columns `0 .. n-1`. */
  function LinksUpTo(row: seq<Byte>, separations: seq<int>, visibleRow: seq<bool>, n: nat): (s: seq<int>)
    requires |separations| == 256 && |visibleRow| == |row| && n <= |row|
    requires RowInBounds(row, separations)
    ensures |s| == |row| && LinksLeft(s)
  {
    if n == 0 then Identity(|row|)
    else
      var x := n - 1;
      UnionStep(LinksUpTo(row, separations, visibleRow, x), separations[row[x]], visibleRow[x], x)
  }

  function RowLinks(row: seq<Byte>, separations: seq<int>, visibleRow: seq<bool>): (s: seq<int>)
    requires |separations| == 256 && |visibleRow| == |row| && RowInBounds(row, separations)
    ensures |s| == |row| && LinksLeft(s)
  {
    LinksUpTo(row, separations, visibleRow, |row|)
  }

  /**
   * The two ends of every linking step share a root in the finished scanline:
   * later unions only merge classes, they never split one.
   */
  lemma {:induction false} LinkedEndsShareRoot(row: seq<Byte>, separations: seq<int>, visibleRow: seq<bool>, n: nat, x: nat)
    requires |separations| == 256 && |visibleRow| == |row| && n <= |row|
    requires RowInBounds(row, separations)
    requires x < n && Linked(separations[row[x]], visibleRow[x], x, |row|)
    ensures var links := LinksUpTo(row, separations, visibleRow, n);
      Root(links, Left(separations[row[x]], x)) == Root(links, Right(separations[row[x]], x))
  {
    var sep := separations[row[x]];
    assert StepInBounds(sep, x, |row|);
    if x < n - 1 {
      LinkedEndsShareRoot(row, separations, visibleRow, n - 1, x);
      LaterStepKeepsClass(row, separations, visibleRow, n, Left(sep, x), Right(sep, x));
    } else {
      StepJoinsEnds(row, separations, visibleRow, n);
    }
  }

  /** Step `n - 1` of the scanline keeps two columns that shared a root together. */
  lemma LaterStepKeepsClass(row: seq<Byte>, separations: seq<int>, visibleRow: seq<bool>, n: nat, a: int, b: int)
    requires |separations| == 256 && |visibleRow| == |row| && 0 < n <= |row|
    requires RowInBounds(row, separations)
    requires 0 <= a < |row| && 0 <= b < |row|
    requires Root(LinksUpTo(row, separations, visibleRow, n - 1), a) == Root(LinksUpTo(row, separations, visibleRow, n - 1), b)
    ensures Root(LinksUpTo(row, separations, visibleRow, n), a) == Root(LinksUpTo(row, separations, visibleRow, n), b)
  {
    var k := n - 1;
    assert StepInBounds(separations[row[k]], k, |row|);
    UnionStepKeepsClass(LinksUpTo(row, separations, visibleRow, k), separations[row[k]], visibleRow[k], k, a, b);
  }

  /** Step `n - 1` of the scanline, when it links, puts its `left` and `right` in one class. */
  lemma StepJoinsEnds(row: seq<Byte>, separations: seq<int>, visibleRow: seq<bool>, n: nat)
    requires |separations| == 256 && |visibleRow| == |row| && 0 < n <= |row|
    requires RowInBounds(row, separations)
    requires Linked(separations[row[n - 1]], visibleRow[n - 1], n - 1, |row|)
    ensures var links := LinksUpTo(row, separations, visibleRow, n);
      Root(links, Left(separations[row[n - 1]], n - 1)) == Root(links, Right(separations[row[n - 1]], n - 1))
  {
    var k := n - 1;
    assert StepInBounds(separations[row[k]], k, |row|);
    UnionStepJoins(LinksUpTo(row, separations, visibleRow, k), separations[row[k]], visibleRow[k], k);
  }

  /** A union step never separates two columns that share a root. */
  lemma UnionStepKeepsClass(same: seq<int>, separation: int, visible: bool, x: int, a: int, b: int)
    requires LinksLeft(same) && 0 <= x < |same| && StepInBounds(separation, x, |same|)
    requires 0 <= a < |same| && 0 <= b < |same| && Root(same, a) == Root(same, b)
    ensures var s := UnionStep(same, separation, visible, x); Root(s, a) == Root(s, b)
  {
    UnionStepMerges(same, separation, visible, x, a);
    UnionStepMerges(same, separation, visible, x, b);
  }

  /** A union step that links puts `left` and `right` in one class. */
  lemma UnionStepJoins(same: seq<int>, separation: int, visible: bool, x: int)
    requires LinksLeft(same) && 0 <= x < |same| && StepInBounds(separation, x, |same|)
    requires Linked(separation, visible, x, |same|)
    ensures var s := UnionStep(same, separation, visible, x);
      Root(s, Left(separation, x)) == Root(s, Right(separation, x))
  {
    UnionStepMerges(same, separation, visible, x, Left(separation, x));
  }

  /**
   * The output pixel at column `x` of scanline `y`: the pattern tiled by the
   * column's root, a pixel of pattern row `y % texHeight`; columns of one class
   * get the same pixel.
   */
  function TexturePixel(links: seq<int>, texture: Grid<Pixel>, y: nat, x: int): (p: Pixel)
    requires LinksLeft(links) && 0 <= x < |links|
    requires texture.Valid() && texture.width > 0 && texture.height > 0
    ensures p in texture.rows[y % texture.height]
    ensures forall x' :: 0 <= x' < |links| && Root(links, x') == Root(links, x) ==>
              p == texture.rows[y % texture.height][Root(links, x') % texture.width]
  {
    texture.rows[y % texture.height][Root(links, x) % texture.width]
  }

  /**
   * The byte offset `(patY * texWidth + patX) * 3` of the tiled pattern
   * pixel, and its two following channels, lie inside the pattern buffer of
   * `texWidth * texHeight * 3` bytes.
   */
  lemma PatternOffsetInBuffer(root: nat, y: nat, texWidth: nat, texHeight: nat)
    requires texWidth > 0 && texHeight > 0
    ensures 0 <= ((y % texHeight) * texWidth + root % texWidth) * 3
    ensures ((y % texHeight) * texWidth + root % texWidth) * 3 + 2 < texWidth * texHeight * 3
  {
    var patX, patY := root % texWidth, y % texHeight;
    assert patY <= texHeight - 1;
    assert patY * texWidth <= (texHeight - 1) * texWidth by {
      MulLeq(patY, texHeight - 1, texWidth);
    }
    assert (texHeight - 1) * texWidth + texWidth == texWidth * texHeight;
  }

  /** What the texture encoder demands of a present depth map and texture. */
  predicate TextureInputs(depth: Grid<Byte>, texture: Grid<Pixel>, separations: seq<int>, visible: Grid<bool>) {
    && depth.Valid() && texture.Valid() && visible.Valid()
    && visible.width == depth.width && visible.height == depth.height
    && |separations| == 256
    && (forall y :: 0 <= y < depth.height ==> RowInBounds(depth.rows[y], separations))
    // `match % texWidth` and `y % texHeight` run once there is a pixel to write
    && (!depth.IsEmpty() ==> texture.width > 0 && texture.height > 0)
  }

  /**
   * `generateTextureStereogram`: an empty image when the depth map or the
   * texture is missing; otherwise an image of the depth map's size whose pixel
   * `(x, y)` is pattern pixel `(root(x) % texWidth, y % texHeight)`.
   */
  method GenerateTextureStereogram(st: Stereogram, separations: seq<int>, visible: Grid<bool>)
    returns (result: array2<Pixel>)
    requires st.depthMap.Some? && st.texture.Some? ==>
      TextureInputs(st.depthMap.value, st.texture.value, separations, visible)
    ensures st.depthMap.None? || st.texture.None? ==> result.Length0 == 0 && result.Length1 == 0
    ensures st.depthMap.Some? && st.texture.Some? ==>
      result.Length0 == st.depthMap.value.height && result.Length1 == st.depthMap.value.width &&
      forall y, x :: 0 <= y < result.Length0 && 0 <= x < result.Length1 ==>
        result[y, x] == TexturePixel(RowLinks(st.depthMap.value.rows[y], separations, visible.rows[y]),
                                     st.texture.value, y, x)
  {
    if st.depthMap.None? || st.texture.None? {
      result := new Pixel[0, 0];
      return;
    }
    var depth, texture := st.depthMap.value, st.texture.value;
    var width, height := depth.width, depth.height;
    result := new Pixel[height, width];
    for y := 0 to height
      invariant forall y', x :: 0 <= y' < y && 0 <= x < width ==>
        result[y', x] == TexturePixel(RowLinks(depth.rows[y'], separations, visible.rows[y']), texture, y', x)
    {
      var same := LinkRow(depth.rows[y], separations, visible.rows[y]);
      WriteRow(result, y, same, texture);
    }
  }

  /** The linking loops of one scanline: a fresh link array, then one union step per column. */
  method LinkRow(row: seq<Byte>, separations: seq<int>, visibleRow: seq<bool>) returns (same: array<int>)
    requires |separations| == 256 && |visibleRow| == |row| && RowInBounds(row, separations)
    ensures same[..] == RowLinks(row, separations, visibleRow)
  {
    same := NewLinks(|row|);
    for x := 0 to |row|
      invariant same[..] == LinksUpTo(row, separations, visibleRow, x)
    {
      UnionColumn(same, row, separations, visibleRow, x);
    }
  }

  /** The write loop of scanline `y`: each pixel copies the tiled pattern pixel of its root. */
  method WriteRow(result: array2<Pixel>, y: nat, same: array<int>, texture: Grid<Pixel>)
    requires y < result.Length0 && same.Length == result.Length1 && LinksLeft(same[..])
    requires texture.Valid() && (result.Length1 > 0 ==> texture.width > 0 && texture.height > 0)
    modifies result
    ensures forall y', x :: 0 <= y' < result.Length0 && y' != y && 0 <= x < result.Length1 ==>
      result[y', x] == old(result[y', x])
    ensures forall x :: 0 <= x < result.Length1 ==> result[y, x] == TexturePixel(same[..], texture, y, x)
  {
    var texWidth, texHeight := texture.width, texture.height;
    for x := 0 to result.Length1
      invariant forall y', x' :: 0 <= y' < result.Length0 && y' != y && 0 <= x' < result.Length1 ==>
        result[y', x'] == old(result[y', x'])
      invariant forall x' :: 0 <= x' < x ==> result[y, x'] == TexturePixel(same[..], texture, y, x')
    {
      var root := FindRoot(same, same[x]);
      var patX := root % texWidth;
      var patY := y % texHeight;
      result[y, x] := texture.rows[patY][patX];
    }
  }

  /** The body of the linking loop for column `x`, after the hidden-surface test. */
  method UnionColumn(same: array<int>, row: seq<Byte>, separations: seq<int>, visibleRow: seq<bool>, x: nat)
    requires |separations| == 256 && |visibleRow| == |row| && same.Length == |row| && x < |row|
    requires RowInBounds(row, separations) && LinksLeft(same[..])
    modifies same
    ensures same[..] == UnionStep(old(same[..]), separations[row[x]], visibleRow[x], x)
  {
    var width := same.Length;
    var separation := separations[row[x]];
    var left := x - Quot(separation, 2);
    var right := left + separation;
    assert StepInBounds(separation, x, width);
    if left >= 0 && right < width {
      if visibleRow[x] {
        var l := FindRoot(same, left);
        var r := FindRoot(same, right);
        if l != r {
          if l < r { same[r] := l; } else { same[l] := r; }
        }
      }
    }
  }
}
