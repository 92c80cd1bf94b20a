/**
 * The pattern builder: fills a zero-initialised square grid with the left half
 * of one of four pattern families, mirrors it onto the right half and re-checks
 * the mirror invariant (src/generator.py, TaskGenerator._generate_full_pattern).
 *
 * The random bit of the "vertical_symmetry" family is the input `coin`:
 * `coin(i, j)` is the draw made for left-half cell (i, j).
 */
module PatternBuilder {
  import opened Wrappers

  const VerticalSymmetry: string := "vertical_symmetry"
  const Checkerboard: string := "vertical_symmetry_checkerboard"
  const Stripes: string := "vertical_symmetry_stripes"
  const Increment: string := "vertical_symmetry_increment"

  /** The families the task assembler chooses from, in the source's order. */
  const PatternTypes: seq<string> := [VerticalSymmetry, Checkerboard, Stripes, Increment]

  /** The builder refuses a grid that has no exact left/right split. */
  datatype BuildError = OddGridSize(size: nat)

  /**
   * The value the family rule writes into left-half cell (i, j) of a grid of
   * side `size`; an unrecognised family writes nothing, leaving the zero.
   */
  function LeftCell(patternType: string, size: nat, coin: (nat, nat) -> bool, i: nat, j: nat): (v: int)
    ensures v == 0 || v == 1
    ensures patternType == Checkerboard ==> (v == 1 <==> (i + j) % 2 == 1)
    ensures patternType == Stripes ==> (v == 1 <==> i % 2 == 1)
    ensures patternType == Increment ==> (v == 1 <==> j < i + 1 && j < size / 2)
    ensures patternType == VerticalSymmetry ==> (v == 1 <==> coin(i, j))
    ensures patternType !in PatternTypes ==> v == 0
  {
    if patternType == VerticalSymmetry then (if coin(i, j) then 1 else 0)
    else if patternType == Checkerboard then (i + j) % 2
    else if patternType == Stripes then i % 2
    else if patternType == Increment then (if j < Min(i + 1, size / 2) then 1 else 0)
    else 0
  }

  /** Cell (i, j) of the finished pattern: a left-half cell, or the left-half cell it mirrors. */
  function FullCell(patternType: string, size: nat, coin: (nat, nat) -> bool, i: nat, j: nat): (v: int)
    requires j < size
    ensures v == 0 || v == 1
  {
    if j < size / 2 then LeftCell(patternType, size, coin, i, j)
    else LeftCell(patternType, size, coin, i, size - 1 - j)
  }

  /** The finished pattern as rows of cells. */
  function FullPattern(patternType: string, size: nat, coin: (nat, nat) -> bool): (g: seq<seq<int>>)
    ensures IsSquare(g, size)
    ensures Binary(g)
    ensures Mirrored(g, size)
  {
    seq(size, i requires 0 <= i < size => seq(size, j requires 0 <= j < size => FullCell(patternType, size, coin, i, j)))
  }

  /** Every row of `g` has `size` cells and there are `size` rows. */
  predicate IsSquare(g: seq<seq<int>>, size: int)
  {
    |g| == size && forall i :: 0 <= i < |g| ==> |g[i]| == size
  }

  /** The mirror invariant across the vertical centre line. */
  predicate Mirrored(g: seq<seq<int>>, size: int)
    requires IsSquare(g, size)
  {
    forall i, j :: 0 <= i < size && 0 <= j < size / 2 ==> g[i][j] == g[i][size - 1 - j]
  }

  /** Every cell is empty (0) or filled (1). */
  predicate Binary(g: seq<seq<int>>)
  {
    forall i, j :: 0 <= i < |g| && 0 <= j < |g[i]| ==> g[i][j] == 0 || g[i][j] == 1
  }

  /** The mirror invariant of a grid held in an array. */
  ghost predicate ArrayMirrored(a: array2<int>)
    reads a
  {
    forall i, j :: 0 <= i < a.Length0 && 0 <= j < a.Length1 / 2 ==> a[i, j] == a[i, a.Length1 - 1 - j]
  }

  /** A snapshot of an array grid as rows of cells. */
  function Cells(a: array2<int>): (g: seq<seq<int>>)
    reads a
    ensures |g| == a.Length0
    ensures forall i :: 0 <= i < a.Length0 ==> |g[i]| == a.Length1
    ensures forall i, j :: 0 <= i < a.Length0 && 0 <= j < a.Length1 ==> g[i][j] == a[i, j]
  {
    seq(a.Length0, i requires 0 <= i < a.Length0 reads a =>
      seq(a.Length1, j requires 0 <= j < a.Length1 reads a => a[i, j]))
  }

  /**
   * For every family and every even size, the finished pattern is square,
   * binary and mirrored, and its left half is exactly the family rule.
   */
  lemma FullPatternShape(patternType: string, size: nat, coin: (nat, nat) -> bool)
    requires size % 2 == 0
    ensures IsSquare(FullPattern(patternType, size, coin), size)
    ensures Binary(FullPattern(patternType, size, coin))
    ensures Mirrored(FullPattern(patternType, size, coin), size)
    ensures forall i, j :: 0 <= i < size && 0 <= j < size / 2 ==>
      FullPattern(patternType, size, coin)[i][j] == LeftCell(patternType, size, coin, i, j)
  {
    var g := FullPattern(patternType, size, coin);
    forall i, j | 0 <= i < size && 0 <= j < size / 2
      ensures g[i][j] == g[i][size - 1 - j]
    {
      assert size - 1 - (size - 1 - j) == j;
    }
  }

  /** An unrecognised family yields the all-zero grid. */
  lemma UnknownFamilyIsBlank(patternType: string, size: nat, coin: (nat, nat) -> bool)
    requires patternType !in PatternTypes
    ensures forall i, j :: 0 <= i < size && 0 <= j < size ==> FullPattern(patternType, size, coin)[i][j] == 0
  {
  }

  /** The checkerboard family on a 4 x 4 grid. */
  lemma CheckerboardFour(coin: (nat, nat) -> bool)
    ensures FullPattern(Checkerboard, 4, coin) == [[0, 1, 1, 0], [1, 0, 0, 1], [0, 1, 1, 0], [1, 0, 0, 1]]
  {
    var g := FullPattern(Checkerboard, 4, coin);
    assert g[0] == [0, 1, 1, 0];
    assert g[1] == [1, 0, 0, 1];
    assert g[2] == [0, 1, 1, 0];
    assert g[3] == [1, 0, 0, 1];
  }

  // ---------------------------------------------------------------------
  // The imperative builder
  // ---------------------------------------------------------------------

  /** The random family: each left-half cell gets its own coin. */
  method FillRandom(pattern: array2<int>, coin: (nat, nat) -> bool)
    modifies pattern
    ensures forall i, j :: 0 <= i < pattern.Length0 && 0 <= j < pattern.Length1 ==>
      pattern[i, j] == if j < pattern.Length1 / 2 then (if coin(i, j) then 1 else 0) else old(pattern[i, j])
  {
    var size, mid := pattern.Length0, pattern.Length1 / 2;
    for i := 0 to size
      invariant forall r, c :: 0 <= r < size && 0 <= c < pattern.Length1 ==>
        pattern[r, c] == if r < i && c < mid then (if coin(r, c) then 1 else 0) else old(pattern[r, c])
    {
      for j := 0 to mid
        invariant forall r, c :: 0 <= r < size && 0 <= c < pattern.Length1 ==>
          pattern[r, c] == if (r < i || (r == i && c < j)) && c < mid then (if coin(r, c) then 1 else 0) else old(pattern[r, c])
      {
        pattern[i, j] := if coin(i, j) then 1 else 0;
      }
    }
  }

  /** The checkerboard family: left-half cell (i, j) gets (i + j) % 2. */
  method FillCheckerboard(pattern: array2<int>)
    modifies pattern
    ensures forall i, j :: 0 <= i < pattern.Length0 && 0 <= j < pattern.Length1 ==>
      pattern[i, j] == if j < pattern.Length1 / 2 then (i + j) % 2 else old(pattern[i, j])
  {
    var size, mid := pattern.Length0, pattern.Length1 / 2;
    for i := 0 to size
      invariant forall r, c :: 0 <= r < size && 0 <= c < pattern.Length1 ==>
        pattern[r, c] == if r < i && c < mid then (r + c) % 2 else old(pattern[r, c])
    {
      for j := 0 to mid
        invariant forall r, c :: 0 <= r < size && 0 <= c < pattern.Length1 ==>
          pattern[r, c] == if (r < i || (r == i && c < j)) && c < mid then (r + c) % 2 else old(pattern[r, c])
      {
        pattern[i, j] := (i + j) % 2;
      }
    }
  }

  /** The stripes family: every left-half cell of row i gets i % 2. */
  method FillStripes(pattern: array2<int>)
    modifies pattern
    ensures forall i, j :: 0 <= i < pattern.Length0 && 0 <= j < pattern.Length1 ==>
      pattern[i, j] == if j < pattern.Length1 / 2 then i % 2 else old(pattern[i, j])
  {
    var size, mid := pattern.Length0, pattern.Length1 / 2;
    for i := 0 to size
      invariant forall r, c :: 0 <= r < size && 0 <= c < pattern.Length1 ==>
        pattern[r, c] == if r < i && c < mid then r % 2 else old(pattern[r, c])
    {
      var fill := i % 2;
      for j := 0 to mid
        invariant forall r, c :: 0 <= r < size && 0 <= c < pattern.Length1 ==>
          pattern[r, c] == if (r < i || (r == i && c < j)) && c < mid then r % 2 else old(pattern[r, c])
      {
        pattern[i, j] := fill;
      }
    }
  }

  /** The increment family: row i gets 1 in its first min(i + 1, mid) cells, the rest untouched. */
  method FillIncrement(pattern: array2<int>)
    modifies pattern
    ensures forall i, j :: 0 <= i < pattern.Length0 && 0 <= j < pattern.Length1 ==>
      pattern[i, j] == if j < Min(i + 1, pattern.Length1 / 2) then 1 else old(pattern[i, j])
  {
    var size, mid := pattern.Length0, pattern.Length1 / 2;
    for i := 0 to size
      invariant forall r, c :: 0 <= r < size && 0 <= c < pattern.Length1 ==>
        pattern[r, c] == if r < i && c < Min(r + 1, mid) then 1 else old(pattern[r, c])
    {
      var numFilled := Min(i + 1, mid);
      for j := 0 to numFilled
        invariant forall r, c :: 0 <= r < size && 0 <= c < pattern.Length1 ==>
          pattern[r, c] == if (r < i || (r == i && c < j)) && c < Min(r + 1, mid) then 1 else old(pattern[r, c])
      {
        pattern[i, j] := 1;
      }
    }
  }

  /** Copies each left-half column onto its mirror column; the left half is only read. */
  method MirrorRightHalf(pattern: array2<int>)
    modifies pattern
    ensures forall i, j :: 0 <= i < pattern.Length0 && 0 <= j < pattern.Length1 ==>
      pattern[i, j] == if j < pattern.Length1 / 2 then old(pattern[i, j]) else old(pattern[i, pattern.Length1 - 1 - j])
  {
    var size, width := pattern.Length0, pattern.Length1;
    var mid := width / 2;
    for i := 0 to size
      invariant forall r, c :: 0 <= r < size && 0 <= c < width ==>
        pattern[r, c] == if r < i && mid <= c then old(pattern[r, width - 1 - c]) else old(pattern[r, c])
    {
      for j := mid to width
        invariant forall r, c :: 0 <= r < size && 0 <= c < width ==>
          pattern[r, c] == if (r < i || (r == i && c < j)) && mid <= c then old(pattern[r, width - 1 - c]) else old(pattern[r, c])
      {
        pattern[i, j] := pattern[i, width - 1 - j];
      }
    }
  }

  /** The sanity check: reports whether every left-half cell equals its mirror cell. */
  method CheckSymmetry(pattern: array2<int>) returns (symmetric: bool)
    ensures symmetric <==> ArrayMirrored(pattern)
  {
    var size, width := pattern.Length0, pattern.Length1;
    var mid := width / 2;
    for i := 0 to size
      invariant forall r, c :: 0 <= r < i && 0 <= c < mid ==> pattern[r, c] == pattern[r, width - 1 - c]
    {
      for j := 0 to mid
        invariant forall r, c :: (0 <= r < i && 0 <= c < mid) || (r == i && 0 <= c < j) ==>
          pattern[r, c] == pattern[r, width - 1 - c]
      {
        if pattern[i, j] != pattern[i, width - 1 - j] {
          return false;
        }
      }
    }
    return true;
  }

  /**
   * Builds the full pattern of the given family and side. An odd side is
   * refused; otherwise the grid is the family's left half mirrored, and the
   * closing symmetry check always passes.
   */
  method GenerateFullPattern(patternType: string, size: nat, coin: (nat, nat) -> bool)
    returns (res: Result<array2<int>, BuildError>)
    ensures res.Failure? <==> size % 2 != 0
    ensures res.Failure? ==> res.error == OddGridSize(size)
    ensures res.Success? ==> fresh(res.value) && res.value.Length0 == size && res.value.Length1 == size
    ensures res.Success? ==> Cells(res.value) == FullPattern(patternType, size, coin)
    ensures res.Success? ==> ArrayMirrored(res.value)
  {
    if size % 2 != 0 {
      return Failure(OddGridSize(size));
    }
    var pattern := new int[size, size]((i, j) => 0);
    if patternType == VerticalSymmetry {
      FillRandom(pattern, coin);
      MirrorRightHalf(pattern);
    } else if patternType == Checkerboard {
      FillCheckerboard(pattern);
      MirrorRightHalf(pattern);
    } else if patternType == Stripes {
      FillStripes(pattern);
      MirrorRightHalf(pattern);
    } else if patternType == Increment {
      FillIncrement(pattern);
      MirrorRightHalf(pattern);
    }
    assert forall i, j :: 0 <= i < size && 0 <= j < size ==> pattern[i, j] == FullCell(patternType, size, coin, i, j);
    var symmetric := CheckSymmetry(pattern);
    FullPatternShape(patternType, size, coin);
    forall i | 0 <= i < size
      ensures Cells(pattern)[i] == FullPattern(patternType, size, coin)[i]
    {
    }
    assert symmetric;
    return Success(pattern);
  }
}
