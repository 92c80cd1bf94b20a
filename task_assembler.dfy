/**
 * The task assembler: picks a grid side and a family from the difficulty,
 * builds the full pattern, masks a drawn number of right-half cells, and
 * deduplicates against the signatures seen so far in the run
 * (src/generator.py, TaskGenerator._create_pattern and generate_task_pair).
 *
 * Every random draw is an input: `Draws` holds the draws of one attempt.
 */
module TaskAssembler {
  import opened Wrappers
  import opened PatternBuilder
  import opened PatternModel
  import opened Prompts

  // ---------------------------------------------------------------------
  // Parameters chosen from the difficulty
  // ---------------------------------------------------------------------

  /** The two candidate sides for a difficulty; anything but "easy" and "hard" is medium. */
  function GridSizeCandidates(difficulty: string): (sizes: seq<nat>)
    ensures |sizes| == 2
    ensures forall k :: 0 <= k < |sizes| ==> sizes[k] % 2 == 0 && 4 <= sizes[k] <= 10
    ensures difficulty == "easy" ==> sizes == [4, 6]
    ensures difficulty == "hard" ==> sizes == [8, 10]
    ensures difficulty != "easy" && difficulty != "hard" ==> sizes == [6, 8]
  {
    if difficulty == "easy" then [4, 6]
    else if difficulty == "hard" then [8, 10]
    else [6, 8]
  }

  /** The number of cells in the columns from size / 2 on. */
  function RightHalfCount(size: nat): (cells: nat)
    ensures cells <= size * size
    ensures size % 2 == 0 ==> 2 * cells == size * size
  {
    HalfSquare(size);
    size * (size - size / 2)
  }

  /** For an even side the right half holds exactly half of the cells. */
  lemma HalfSquare(size: nat)
    ensures size * (size - size / 2) <= size * size
    ensures size % 2 == 0 ==> 2 * (size * (size - size / 2)) == size * size
  {
    var half := size / 2;
    assert size * (size - half) <= size * size by {
      assert size - half <= size;
    }
    if size % 2 == 0 {
      assert size == 2 * half && size - half == half;
      calc {
        2 * (size * (size - half));
        == 2 * (size * half);
        == size * (2 * half);
        == size * size;
      }
    }
  }

  /**
   * The inclusive range of the number of cells to hide: 30-40% of the right
   * half for "easy", 70-80% for "hard", 50-60% otherwise, each end rounded down.
   */
  function MissingRange(difficulty: string, size: nat): (range: (nat, nat))
    ensures range.0 <= range.1 <= RightHalfCount(size)
  {
    var cells := RightHalfCount(size);
    if difficulty == "easy" then (cells * 3 / 10, cells * 4 / 10)
    else if difficulty == "hard" then (cells * 7 / 10, cells * 8 / 10)
    else (cells * 5 / 10, cells * 6 / 10)
  }

  /** The worked ranges: easy at side 6 hides 5 to 7 cells, hard at side 8 hides 22 to 25. */
  lemma MissingRangeExamples()
    ensures MissingRange("easy", 6) == (5, 7)
    ensures MissingRange("hard", 8) == (22, 25)
    ensures MissingRange("medium", 8) == (16, 19)
  {
  }

  // ---------------------------------------------------------------------
  // Right-half coordinates, row by row
  // ---------------------------------------------------------------------

  /** The right-half coordinates in row-major order: rows 0.., columns size / 2 .. size - 1. */
  function RightHalfPositions(size: nat): (positions: seq<Position>)
    ensures |positions| == RightHalfCount(size)
  {
    RowsFrom(size, 0)
  }

  /** The right-half coordinates of rows `row` .. size - 1, row by row. */
  function RowsFrom(size: nat, row: nat): (positions: seq<Position>)
    requires row <= size
    ensures |positions| == (size - row) * (size - size / 2)
    decreases size - row
  {
    if row == size then []
    else
      var width := size - size / 2;
      assert (size - row) * width == width + (size - (row + 1)) * width;
      seq(width, c requires 0 <= c < width => (row, size / 2 + c)) + RowsFrom(size, row + 1)
  }

  /**
   * Rows `row` .. of the list hold each right-half coordinate of those rows,
   * exactly once.
   */
  lemma {:induction false} RowsFromExact(size: nat, row: nat)
    requires row <= size
    ensures forall pos :: pos in RowsFrom(size, row) <==> InRightHalf(pos, size) && row <= pos.0
    ensures Distinct(RowsFrom(size, row))
    decreases size - row
  {
    if row < size {
      RowsFromExact(size, row + 1);
      var width := size - size / 2;
      var first := seq(width, c requires 0 <= c < width => (row, size / 2 + c));
      var rest := RowsFrom(size, row + 1);
      assert RowsFrom(size, row) == first + rest;
      forall pos | InRightHalf(pos, size) && pos.0 == row
        ensures pos in first
      {
        assert first[pos.1 - size / 2] == pos;
      }
      forall t, u | 0 <= t < u < |first + rest|
        ensures (first + rest)[t] != (first + rest)[u]
      {
        if u >= |first| && t < |first| {
          assert (first + rest)[u] == rest[u - |first|];
          assert rest[u - |first|] in rest;
        }
      }
    }
  }

  /** The list holds every right-half coordinate exactly once. */
  lemma RightHalfPositionsExact(size: nat)
    ensures forall pos :: pos in RightHalfPositions(size) <==> InRightHalf(pos, size)
    ensures Distinct(RightHalfPositions(size))
  {
    RowsFromExact(size, 0);
  }

  // ---------------------------------------------------------------------
  // One attempt: its draws and the pattern they give
  // ---------------------------------------------------------------------

  /**
   * The random draws of one call of the assembler: the index of the chosen
   * side, the index of the chosen family, the drawn count, the sampled indices
   * into the right-half coordinate list, and the coin of each left-half cell.
   */
  datatype Draws = Draws(sizeIndex: nat, typeIndex: nat, count: int, sample: seq<nat>, coin: (nat, nat) -> bool)

  /**
   * What the random module guarantees of the draws: choices fall inside their
   * lists, the count inside its inclusive range, and the sample has that many
   * (but no more than the right half) distinct indices into the coordinate list.
   */
  predicate ValidDraws(difficulty: string, d: Draws)
  {
    && d.sizeIndex < 2
    && d.typeIndex < |PatternTypes|
    && var size := GridSizeCandidates(difficulty)[d.sizeIndex];
       var range := MissingRange(difficulty, size);
       && range.0 <= d.count <= range.1
       && |d.sample| == Min(d.count, RightHalfCount(size))
       && (forall t :: 0 <= t < |d.sample| ==> d.sample[t] < RightHalfCount(size))
       && (forall t, u :: 0 <= t < u < |d.sample| ==> d.sample[t] != d.sample[u])
  }

  /** The coordinates the sample picks from the right-half list. */
  function SampledPositions(size: nat, sample: seq<nat>): (missing: seq<Position>)
    requires forall t :: 0 <= t < |sample| ==> sample[t] < RightHalfCount(size)
    ensures |missing| == |sample|
  {
    var positions := RightHalfPositions(size);
    seq(|sample|, t requires 0 <= t < |sample| => positions[sample[t]])
  }

  /** A copy of the grid with -1 written at each missing coordinate. */
  function Masked(full: seq<seq<int>>, missing: seq<Position>): (masked: seq<seq<int>>)
    ensures |masked| == |full|
    ensures forall i :: 0 <= i < |full| ==> |masked[i]| == |full[i]|
    ensures forall t :: 0 <= t < |missing| && 0 <= missing[t].0 < |full| && 0 <= missing[t].1 < |full[missing[t].0]| ==>
      masked[missing[t].0][missing[t].1] == -1
    ensures forall i, j :: 0 <= i < |full| && 0 <= j < |full[i]| && (i, j) !in missing ==> masked[i][j] == full[i][j]
  {
    seq(|full|, i requires 0 <= i < |full| =>
      seq(|full[i]|, j requires 0 <= j < |full[i]| => if (i, j) in missing then -1 else full[i][j]))
  }

  /** The task one attempt assembles from its draws. */
  function PatternOf(difficulty: string, d: Draws): (p: PatternSpec)
    requires ValidDraws(difficulty, d)
    ensures p.gridSize == GridSizeCandidates(difficulty)[d.sizeIndex] && p.patternType == PatternTypes[d.typeIndex]
    ensures p.difficulty == difficulty
    ensures p.full == FullPattern(p.patternType, p.gridSize, d.coin)
    ensures p.incomplete == Masked(p.full, p.missing)
    ensures |p.missing| == d.count
  {
    var size := GridSizeCandidates(difficulty)[d.sizeIndex];
    var patternType := PatternTypes[d.typeIndex];
    var full := FullPattern(patternType, size, d.coin);
    var missing := SampledPositions(size, d.sample);
    PatternSpec(patternType, size, full, Masked(full, missing), missing, difficulty)
  }

  /** Distinct sample indices pick distinct right-half coordinates. */
  lemma SampledPositionsSound(size: nat, sample: seq<nat>)
    requires forall t :: 0 <= t < |sample| ==> sample[t] < RightHalfCount(size)
    requires forall t, u :: 0 <= t < u < |sample| ==> sample[t] != sample[u]
    ensures forall t :: 0 <= t < |sample| ==> InRightHalf(SampledPositions(size, sample)[t], size)
    ensures Distinct(SampledPositions(size, sample))
  {
    RightHalfPositionsExact(size);
    var positions := RightHalfPositions(size);
    var missing := SampledPositions(size, sample);
    forall t | 0 <= t < |missing|
      ensures InRightHalf(missing[t], size)
    {
      assert missing[t] == positions[sample[t]] && missing[t] in positions;
    }
    forall t, u | 0 <= t < u < |missing|
      ensures missing[t] != missing[u]
    {
      assert missing[t] == positions[sample[t]] && missing[u] == positions[sample[u]];
    }
  }

  /**
   * Every attempt yields a well-formed task whose side is a candidate of the
   * difficulty, whose family is one of the four, and whose number of hidden
   * cells lies in the difficulty's range and never exceeds the right half.
   */
  lemma PatternOfWellFormed(difficulty: string, d: Draws)
    requires ValidDraws(difficulty, d)
    ensures WellFormed(PatternOf(difficulty, d))
    ensures PatternOf(difficulty, d).gridSize in GridSizeCandidates(difficulty)
    ensures PatternOf(difficulty, d).patternType in PatternTypes
    ensures var p := PatternOf(difficulty, d);
      MissingRange(difficulty, p.gridSize).0 <= |p.missing| <= MissingRange(difficulty, p.gridSize).1
    ensures |PatternOf(difficulty, d).missing| == d.count <= RightHalfCount(PatternOf(difficulty, d).gridSize)
  {
    var p := PatternOf(difficulty, d);
    FullPatternShape(p.patternType, p.gridSize, d.coin);
    SampledPositionsSound(p.gridSize, d.sample);
  }

  /** Off the missing cells the incomplete grid is the full grid; on them it is -1. */
  lemma IncompleteAgreesOffMask(difficulty: string, d: Draws, i: int, j: int)
    requires ValidDraws(difficulty, d)
    requires var p := PatternOf(difficulty, d); 0 <= i < p.gridSize && 0 <= j < p.gridSize
    ensures var p := PatternOf(difficulty, d);
      ((i, j) !in p.missing <==> p.incomplete[i][j] == p.full[i][j]) &&
      ((i, j) in p.missing <==> p.incomplete[i][j] == -1)
  {
    PatternOfWellFormed(difficulty, d);
  }

  // ---------------------------------------------------------------------
  // The imperative assembly of one attempt
  // ---------------------------------------------------------------------

  /** A fresh array holding the same cells (numpy's `copy`). */
  method CopyGrid(a: array2<int>) returns (b: array2<int>)
    ensures fresh(b) && b.Length0 == a.Length0 && b.Length1 == a.Length1
    ensures forall i, j :: 0 <= i < a.Length0 && 0 <= j < a.Length1 ==> b[i, j] == a[i, j]
  {
    b := new int[a.Length0, a.Length1];
    for i := 0 to a.Length0
      invariant forall r, c :: 0 <= r < i && 0 <= c < a.Length1 ==> b[r, c] == a[r, c]
    {
      for j := 0 to a.Length1
        invariant forall r, c :: (0 <= r < i && 0 <= c < a.Length1) || (r == i && 0 <= c < j) ==> b[r, c] == a[r, c]
      {
        b[i, j] := a[i, j];
      }
    }
  }

  /** Writes the missing sentinel -1 at each listed coordinate, leaving every other cell. */
  method WriteMissing(grid: array2<int>, missing: seq<Position>)
    requires forall t :: 0 <= t < |missing| ==> 0 <= missing[t].0 < grid.Length0 && 0 <= missing[t].1 < grid.Length1
    modifies grid
    ensures forall i, j :: 0 <= i < grid.Length0 && 0 <= j < grid.Length1 ==>
      grid[i, j] == if (i, j) in missing then -1 else old(grid[i, j])
  {
    for t := 0 to |missing|
      invariant forall i, j :: 0 <= i < grid.Length0 && 0 <= j < grid.Length1 ==>
        grid[i, j] == if (i, j) in missing[..t] then -1 else old(grid[i, j])
    {
      var (r, c) := missing[t];
      grid[r, c] := -1;
      assert missing[..t + 1] == missing[..t] + [missing[t]];
    }
    assert missing[..|missing|] == missing;
  }

  /** The snapshot of a masked copy is the masked snapshot. */
  lemma CellsOfMaskedCopy(full: array2<int>, incomplete: array2<int>, missing: seq<Position>)
    requires incomplete.Length0 == full.Length0 && incomplete.Length1 == full.Length1
    requires forall i, j :: 0 <= i < full.Length0 && 0 <= j < full.Length1 ==>
      incomplete[i, j] == if (i, j) in missing then -1 else full[i, j]
    ensures Cells(incomplete) == Masked(Cells(full), missing)
  {
    var masked := Masked(Cells(full), missing);
    forall i | 0 <= i < full.Length0
      ensures Cells(incomplete)[i] == masked[i]
    {
    }
  }

  /**
   * One attempt: side, family, full pattern, the number and coordinates of the
   * hidden cells, and the incomplete copy with -1 written at each of them. The
   * full grid is left as built.
   */
  method CreatePattern(difficulty: string, d: Draws) returns (p: PatternSpec)
    requires ValidDraws(difficulty, d)
    ensures p == PatternOf(difficulty, d)
  {
    var gridSize := GridSizeCandidates(difficulty)[d.sizeIndex];
    var patternType := PatternTypes[d.typeIndex];
    var built := GenerateFullPattern(patternType, gridSize, d.coin);
    var full := built.value;
    var range := MissingRange(difficulty, gridSize);
    var numMissing := d.count;
    var rightHalf := RightHalfPositions(gridSize);
    numMissing := Min(numMissing, |rightHalf|);
    var missing := SampledPositions(gridSize, d.sample);
    assert |missing| == numMissing && range.0 <= numMissing <= range.1;
    SampledPositionsSound(gridSize, d.sample);
    var incomplete := CopyGrid(full);
    WriteMissing(incomplete, missing);
    CellsOfMaskedCopy(full, incomplete, missing);
    p := PatternSpec(patternType, gridSize, Cells(full), Cells(incomplete), missing, difficulty);
  }

  // ---------------------------------------------------------------------
  // Deduplication within a run
  // ---------------------------------------------------------------------

  /** The number of extra attempts made after a colliding first attempt. */
  const MaxRetries: nat := 10

  /**
   * The attempt kept when attempts k.. are still to be tried: the first whose
   * signature is unseen, or the last attempt if they all collide.
   */
  function RetryChoice(seen: set<Signature>, sigs: seq<Signature>, k: nat): (chosen: nat)
    requires k <= MaxRetries < |sigs|
    ensures k <= chosen <= MaxRetries
    ensures sigs[chosen] !in seen || chosen == MaxRetries
    decreases MaxRetries - k
  {
    if sigs[k] !in seen || k == MaxRetries then k else RetryChoice(seen, sigs, k + 1)
  }

  /** Every attempt the retry rule passes over collided with the seen set. */
  lemma {:induction false} RetryChoiceSkipsOnlyCollisions(seen: set<Signature>, sigs: seq<Signature>, k: nat)
    requires k <= MaxRetries < |sigs|
    ensures forall t :: k <= t < RetryChoice(seen, sigs, k) ==> sigs[t] in seen
    decreases MaxRetries - k
  {
    if sigs[k] in seen && k < MaxRetries {
      RetryChoiceSkipsOnlyCollisions(seen, sigs, k + 1);
    }
  }

  /** The choice is the only attempt that collides with all before it and is unseen or last. */
  lemma {:induction false} RetryChoiceIs(seen: set<Signature>, sigs: seq<Signature>, k: nat, chosen: nat)
    requires k <= chosen <= MaxRetries < |sigs|
    requires forall t :: k <= t < chosen ==> sigs[t] in seen
    requires sigs[chosen] !in seen || chosen == MaxRetries
    ensures RetryChoice(seen, sigs, k) == chosen
    decreases chosen - k
  {
    if k < chosen {
      RetryChoiceIs(seen, sigs, k + 1, chosen);
    }
  }

  /** The signatures of the attempts' patterns, in order. */
  function AttemptSignatures(difficulty: string, attempts: seq<Draws>): (sigs: seq<Signature>)
    requires forall k :: 0 <= k < |attempts| ==> ValidDraws(difficulty, attempts[k])
    ensures |sigs| == |attempts|
  {
    seq(|attempts|, k requires 0 <= k < |attempts| => GetSignature(PatternOf(difficulty, attempts[k])))
  }

  /** A missing or empty configured difficulty means "medium". */
  function EffectiveDifficulty(configured: Option<string>): (difficulty: string)
    ensures difficulty != ""
    ensures configured.Some? && configured.value != "" ==> difficulty == configured.value
    ensures configured.None? || configured.value == "" ==> difficulty == "medium"
  {
    if configured.Some? && configured.value != "" then configured.value else "medium"
  }

  /**
   * When every attempt draws the same values and their pattern has been seen,
   * every retry collides: the last attempt is kept, and it is still well formed.
   */
  lemma RepeatedDuplicateKeepsLast(seen: set<Signature>, difficulty: string, d: Draws)
    requires ValidDraws(difficulty, d)
    requires GetSignature(PatternOf(difficulty, d)) in seen
    ensures var attempts := seq(MaxRetries + 1, _ => d);
      RetryChoice(seen, AttemptSignatures(difficulty, attempts), 0) == MaxRetries
    ensures WellFormed(PatternOf(difficulty, d))
  {
    var attempts := seq(MaxRetries + 1, _ => d);
    var sigs := AttemptSignatures(difficulty, attempts);
    assert forall k :: 0 <= k < |attempts| ==> sigs[k] in seen;
    PatternOfWellFormed(difficulty, d);
  }

  /**
   * The retry loop: the first attempt, then up to ten more while the
   * signature collides with `seen`. Returns the kept attempt's pattern and
   * signature.
   */
  method FirstUnseenPattern(difficulty: string, attempts: seq<Draws>, seen: set<Signature>)
    returns (p: PatternSpec, signature: Signature)
    requires |attempts| == MaxRetries + 1
    requires forall k :: 0 <= k < |attempts| ==> ValidDraws(difficulty, attempts[k])
    ensures p == PatternOf(difficulty, attempts[RetryChoice(seen, AttemptSignatures(difficulty, attempts), 0)])
    ensures signature == GetSignature(p)
  {
    ghost var sigs := AttemptSignatures(difficulty, attempts);
    var attempt := 0;
    p := CreatePattern(difficulty, attempts[attempt]);
    signature := GetSignature(p);
    assert signature == sigs[attempt];
    if signature in seen {
      var retry := 0;
      while retry < MaxRetries
        invariant retry <= MaxRetries && attempt == retry
        invariant p == PatternOf(difficulty, attempts[attempt])
        invariant signature == GetSignature(p) && signature == sigs[attempt] && signature in seen
        invariant RetryChoice(seen, sigs, 0) == RetryChoice(seen, sigs, attempt)
      {
        attempt := retry + 1;
        p := CreatePattern(difficulty, attempts[attempt]);
        signature := GetSignature(p);
        assert signature == sigs[attempt];
        if signature !in seen {
          break;
        }
        retry := retry + 1;
      }
    }
  }

  /** The generator's per-run state: the signatures of the tasks produced so far. */
  class TaskGenerator {
    var seenSignatures: set<Signature>

    constructor ()
      ensures seenSignatures == {}
    {
      seenSignatures := {};
    }

    /**
     * Assembles one task: keeps the first attempt whose signature is unseen in
     * this run, or the last of the eleven if all collide, records its
     * signature, and selects the family's prompt.
     */
    method GenerateTaskPair(configured: Option<string>, attempts: seq<Draws>) returns (p: PatternSpec, prompt: string)
      requires |attempts| == MaxRetries + 1
      requires forall k :: 0 <= k < |attempts| ==> ValidDraws(EffectiveDifficulty(configured), attempts[k])
      modifies this
      ensures var difficulty := EffectiveDifficulty(configured);
        p == PatternOf(difficulty, attempts[RetryChoice(old(seenSignatures), AttemptSignatures(difficulty, attempts), 0)])
      ensures seenSignatures == old(seenSignatures) + {GetSignature(p)}
      ensures WellFormed(p)
      ensures prompt in GetAllPrompts(p.patternType)
    {
      var difficulty := EffectiveDifficulty(configured);
      var signature;
      p, signature := FirstUnseenPattern(difficulty, attempts, seenSignatures);
      seenSignatures := seenSignatures + {signature};
      ghost var chosen := RetryChoice(old(seenSignatures), AttemptSignatures(difficulty, attempts), 0);
      PatternOfWellFormed(difficulty, attempts[chosen]);
      prompt := GetPrompt(p.patternType, 0);
    }
  }
}
