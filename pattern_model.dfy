/**
 * The pattern model: the assembled task value and its content signature
 * (src/generator.py, PatternSpec and PatternSpec.get_signature).
 *
 * The signature is kept as a structured value rather than the joined string:
 * only equality of signatures matters to its callers.
 */
module PatternModel {
  import opened PatternBuilder

  /** A cell coordinate (row, column). */
  type Position = (int, int)

  /**
   * One assembled task. The grids are snapshots: the record is never changed
   * after assembly.
   */
  datatype PatternSpec = PatternSpec(
    patternType: string,
    gridSize: int,
    full: seq<seq<int>>,
    incomplete: seq<seq<int>>,
    missing: seq<Position>,
    difficulty: string)

  /** A cell of the right half of a grid of side `size`. */
  predicate InRightHalf(pos: Position, size: int)
  {
    0 <= pos.0 < size && size / 2 <= pos.1 < size
  }

  /** No position is listed twice. */
  predicate Distinct(s: seq<Position>)
  {
    forall t, u :: 0 <= t < u < |s| ==> s[t] != s[u]
  }

  /**
   * The invariants of an assembled task: an even side, a square binary full
   * grid that is mirrored, distinct missing cells confined to the right half,
   * and an incomplete grid that is the full grid with -1 at exactly the
   * missing cells.
   */
  predicate WellFormed(p: PatternSpec): (ok: bool)
    ensures ok ==> forall t :: 0 <= t < |p.missing| ==>
      var pos := p.missing[t];
      0 <= pos.0 < |p.incomplete| && 0 <= pos.1 < |p.incomplete[pos.0]| && p.incomplete[pos.0][pos.1] == -1
  {
    && p.gridSize >= 0 && p.gridSize % 2 == 0
    && IsSquare(p.full, p.gridSize) && IsSquare(p.incomplete, p.gridSize)
    && Binary(p.full)
    && Mirrored(p.full, p.gridSize)
    && (forall t :: 0 <= t < |p.missing| ==> InRightHalf(p.missing[t], p.gridSize))
    && Distinct(p.missing)
    && (forall i, j :: 0 <= i < p.gridSize && 0 <= j < p.gridSize ==>
          p.incomplete[i][j] == if (i, j) in p.missing then -1 else p.full[i][j])
  }

  /** The fingerprint: family, side, sorted missing cells, full cells in row-major order. */
  datatype Signature = Signature(patternType: string, gridSize: int, missing: seq<Position>, cells: seq<int>)

  // ---------------------------------------------------------------------
  // Sorting positions the way tuples compare: by row, then by column
  // ---------------------------------------------------------------------

  predicate PositionLe(a: Position, b: Position)
  {
    a.0 < b.0 || (a.0 == b.0 && a.1 <= b.1)
  }

  predicate SortedPositions(s: seq<Position>)
  {
    forall i, j :: 0 <= i < j < |s| ==> PositionLe(s[i], s[j])
  }

  /** Inserts `x` into sorted `s`, before the first element not below it. */
  function Insert(x: Position, s: seq<Position>): (r: seq<Position>)
    requires SortedPositions(s)
    ensures multiset(r) == multiset(s) + multiset{x}
    ensures SortedPositions(r)
  {
    if s == [] then [x]
    else if PositionLe(x, s[0]) then [x] + s
    else
      var rest := Insert(x, s[1..]);
      assert s == [s[0]] + s[1..];
      assert forall k :: 0 <= k < |rest| ==> rest[k] in multiset(s[1..]) + multiset{x};
      assert forall k :: 0 <= k < |rest| ==> PositionLe(s[0], rest[k]);
      [s[0]] + rest
  }

  /** The sorted arrangement of a list of positions (Python's `sorted`). */
  function SortPositions(s: seq<Position>): (r: seq<Position>)
    ensures multiset(r) == multiset(s)
    ensures SortedPositions(r)
  {
    if s == [] then []
    else
      assert s == [s[0]] + s[1..];
      Insert(s[0], SortPositions(s[1..]))
  }

  /** The head of a sorted list is below every element of it. */
  lemma HeadIsLeast(s: seq<Position>, x: Position)
    requires SortedPositions(s)
    requires x in multiset(s)
    ensures PositionLe(s[0], x)
  {
    var i :| 0 <= i < |s| && s[i] == x;
    assert i == 0 || PositionLe(s[0], s[i]);
  }

  lemma MultisetTail(s: seq<Position>)
    requires s != []
    ensures multiset(s[1..]) == multiset(s) - multiset{s[0]}
  {
    assert s == [s[0]] + s[1..];
  }

  /** Two sorted lists holding the same positions are the same list. */
  lemma {:induction false} SortedUnique(a: seq<Position>, b: seq<Position>)
    requires SortedPositions(a) && SortedPositions(b)
    requires multiset(a) == multiset(b)
    ensures a == b
  {
    if a != [] {
      assert b != [] by { assert |multiset(b)| == |multiset(a)| == |a|; }
      HeadIsLeast(a, b[0]);
      HeadIsLeast(b, a[0]);
      MultisetTail(a);
      MultisetTail(b);
      SortedUnique(a[1..], b[1..]);
      assert a == [a[0]] + a[1..];
      assert b == [b[0]] + b[1..];
    }
  }

  /** Sorting forgets the order of its input and nothing else. */
  lemma SortIgnoresOrder(a: seq<Position>, b: seq<Position>)
    ensures SortPositions(a) == SortPositions(b) <==> multiset(a) == multiset(b)
  {
    if multiset(a) == multiset(b) {
      SortedUnique(SortPositions(a), SortPositions(b));
    }
  }

  // ---------------------------------------------------------------------
  // Flattening a grid in row-major order
  // ---------------------------------------------------------------------

  function Flatten(g: seq<seq<int>>): (r: seq<int>)
  {
    if g == [] then [] else g[0] + Flatten(g[1..])
  }

  /** Each row of the grid has `width` cells. */
  predicate RowsOfWidth(g: seq<seq<int>>, width: nat)
  {
    forall i :: 0 <= i < |g| ==> |g[i]| == width
  }

  /** Row-major cell k of a grid of uniform width. */
  lemma {:induction false} FlattenAt(g: seq<seq<int>>, width: nat, i: nat, j: nat)
    requires RowsOfWidth(g, width)
    requires i < |g| && j < width
    ensures |Flatten(g)| == |g| * width
    ensures i * width + j < |Flatten(g)|
    ensures Flatten(g)[i * width + j] == g[i][j]
  {
    FlattenLength(g, width);
    if i > 0 {
      FlattenAt(g[1..], width, i - 1, j);
      assert i * width + j == width + ((i - 1) * width + j);
    }
  }

  lemma {:induction false} FlattenLength(g: seq<seq<int>>, width: nat)
    requires RowsOfWidth(g, width)
    ensures |Flatten(g)| == |g| * width
  {
    if g != [] {
      FlattenLength(g[1..], width);
    }
  }

  /** Grids of the same uniform width and height flatten to the same cells only when equal. */
  lemma {:induction false} FlattenInjective(g: seq<seq<int>>, h: seq<seq<int>>, width: nat)
    requires RowsOfWidth(g, width) && RowsOfWidth(h, width)
    requires |g| == |h|
    ensures Flatten(g) == Flatten(h) <==> g == h
  {
    if g != [] && Flatten(g) == Flatten(h) {
      FlattenLength(g[1..], width);
      FlattenLength(h[1..], width);
      assert g[0] == Flatten(g)[..width];
      assert h[0] == Flatten(h)[..width];
      assert Flatten(g[1..]) == Flatten(g)[width..];
      assert Flatten(h[1..]) == Flatten(h)[width..];
      FlattenInjective(g[1..], h[1..], width);
      assert g == [g[0]] + g[1..];
      assert h == [h[0]] + h[1..];
    }
  }

  // ---------------------------------------------------------------------
  // The signature
  // ---------------------------------------------------------------------

  /** The content signature used for deduplication within one run. */
  function GetSignature(p: PatternSpec): (sig: Signature)
    ensures sig.patternType == p.patternType && sig.gridSize == p.gridSize
    ensures SortedPositions(sig.missing) && multiset(sig.missing) == multiset(p.missing)
  {
    Signature(p.patternType, p.gridSize, SortPositions(p.missing), Flatten(p.full))
  }

  /** Every row of the full grid has `gridSize` cells and there are `gridSize` rows. */
  predicate SquareFull(p: PatternSpec)
  {
    p.gridSize >= 0 && |p.full| == p.gridSize && RowsOfWidth(p.full, p.gridSize)
  }

  /** Reordering the missing positions does not change the signature. */
  lemma SignatureIgnoresMissingOrder(p: PatternSpec, reordered: seq<Position>)
    requires multiset(reordered) == multiset(p.missing)
    ensures GetSignature(p.(missing := reordered)) == GetSignature(p)
  {
    SortIgnoresOrder(reordered, p.missing);
  }

  /**
   * Two well-shaped specs have equal signatures exactly when they agree on the
   * family, the side, the set of missing positions and the full grid; the
   * incomplete grid and the difficulty play no part.
   */
  lemma SignatureEqualIff(p: PatternSpec, q: PatternSpec)
    requires SquareFull(p) && SquareFull(q)
    ensures GetSignature(p) == GetSignature(q) <==>
      p.patternType == q.patternType && p.gridSize == q.gridSize &&
      multiset(p.missing) == multiset(q.missing) && p.full == q.full
  {
    SortIgnoresOrder(p.missing, q.missing);
    if p.gridSize == q.gridSize {
      FlattenInjective(p.full, q.full, p.gridSize);
    }
  }
}
