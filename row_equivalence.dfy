/**
 * The per-scanline link array `same` shared by both encoders: `same[x]` is the
 * column `x` is linked to, and a column with `same[x] == x` is a root. Both
 * encoders only ever link a column to a column on its left, so following the
 * links always ends, at the smallest column of the class.
 */
module RowEquivalence {

  /** Every link points at the column itself or at a column to its left. */
  predicate LinksLeft(same: seq<int>) {
    forall i :: 0 <= i < |same| ==> 0 <= same[i] <= i
  }

  /** The root reached from column `x` by following the links. */
  function Root(same: seq<int>, x: int): (r: int)
    requires LinksLeft(same) && 0 <= x < |same|
    ensures 0 <= r <= x && same[r] == r
    decreases x
  {
    if same[x] == x then x else Root(same, same[x])
  }

  /** The array every scanline starts from: each column its own root. */
  function Identity(n: nat): (s: seq<int>)
    ensures |s| == n && LinksLeft(s)
    ensures forall i :: 0 <= i < n ==> s[i] == i && Root(s, i) == i
  {
    seq(n, i => i)
  }

  /**
   * The class of a column is represented by its root, which is the smallest
   * column of that class: it belongs to the class, and every member of the
   * class lies at or to the right of it.
   */
  lemma RootIsClassMinimum(same: seq<int>, x: int, y: int)
    requires LinksLeft(same) && 0 <= x < |same| && 0 <= y < |same|
    ensures Root(same, Root(same, x)) == Root(same, x)
    ensures Root(same, y) == Root(same, x) ==> Root(same, x) <= y
  {
  }

  /**
   * Linking root `hi` under root `lo < hi` merges exactly those two classes:
   * the columns that reached `hi` now reach `lo`, every other column keeps its
   * root, and links still point left.
   */
  lemma {:induction false} RootAfterLink(same: seq<int>, hi: int, lo: int, y: int)
    requires LinksLeft(same) && 0 <= lo < hi < |same| && same[hi] == hi && same[lo] == lo
    requires 0 <= y < |same|
    ensures LinksLeft(same[hi := lo])
    ensures Root(same[hi := lo], y) == if Root(same, y) == hi then lo else Root(same, y)
    decreases y
  {
    var linked := same[hi := lo];
    if y == hi {
      assert linked[lo] == lo;
      assert Root(linked, hi) == Root(linked, lo) == lo;
    } else if same[y] != y {
      RootAfterLink(same, hi, lo, same[y]);
    }
  }

  /**
   * Root chasing as both encoders do it: follow the links from `start` until
   * a column links to itself. The write pass starts from `same[x]`, the union
   * step from the column itself; both end at the root.
   */
  method FindRoot(same: array<int>, start: int) returns (m: int)
    requires LinksLeft(same[..]) && 0 <= start < same.Length
    ensures m == Root(same[..], start)
  {
    m := start;
    while same[m] != m
      invariant 0 <= m < same.Length && Root(same[..], m) == Root(same[..], start)
      decreases m
    {
      m := same[m];
    }
  }

  /** A fresh link array for one scanline, filled column by column with each column's own index. */
  method NewLinks(width: nat) returns (same: array<int>)
    ensures fresh(same) && same[..] == Identity(width)
  {
    same := new int[width];
    for x := 0 to width
      invariant forall i :: 0 <= i < x ==> same[i] == i
    {
      same[x] := x;
    }
  }
}
