# Symmetry-completion task generator: the pattern core

This project models the generator behind the symmetry-completion task. Each task
shows a square binary grid whose left half is filled in and whose right half is
partly missing; the solver must mirror the left half across the vertical centre
line. The core modelled here does four things:

- It builds the full, vertically symmetric grid for one of four pattern
  families (`_generate_full_pattern`). The families are random bits, a
  checkerboard, horizontal stripes and a row-increment staircase.
- It assembles one task (`_create_pattern`). This picks the grid side for the
  difficulty and picks the family. It then decides how many right-half cells
  to blank, samples them, and writes the incomplete grid with `-1` in the
  blanked cells.
- It computes the content signature of a pattern (`PatternSpec.get_signature`).
  It also implements the retry loop in `generate_task_pair`, which tries up to
  ten more times to avoid a signature already seen in this run.
- It looks up the instruction prompt for a family (`PROMPTS`, `get_prompt`,
  `get_all_prompts`).

Modules:

- `Wrappers`: `Option`, `Result` and `Min`.
- `PatternBuilder` (`pattern_builder.dfy`): the imperative grid builder. It
  works on `array2<int>`, with one fill method per family, the mirroring pass
  and the symmetry sanity check. It is specified against the pure functions
  `LeftCell`, `FullCell` and `FullPattern`.
- `PatternModel` (`pattern_model.dfy`): the `PatternSpec` record as a value
  (grids are `seq<seq<int>>` snapshots) and its well-formedness invariant. It
  also holds the signature and the position sort it relies on.
- `TaskAssembler` (`task_assembler.dfy`): the difficulty tables, the right-half
  position list, `CreatePattern` and the deduplicating `TaskGenerator` class.
- `Prompts` (`prompts.dfy`): the prompt table and its two lookups.

Randomness is an input. The bits of the random family are a `coin(row, col)`
function. One call of `_create_pattern` draws a side index, a family index, a
count and a sample of right-half indices; these are carried by a `Draws` value.
`ValidDraws` states what Python's `random.choice`, `random.randint` and
`random.sample` guarantee about them. `generate_task_pair` receives the eleven
`Draws` it may consume (one first attempt and ten retries). `PatternOf` is the
pattern one attempt yields, as a function. The methods are proved to compute
exactly it, and the invariants of the task are proved about it.

The ratios `int(R * 0.3)` and the like become the integer expressions
`R * 3 / 10`. For every right-half size the generator can reach (8, 18, 32 and
50 cells), the two give the same value.

## Model

| member | source | states |
|---|---|---|
| PatternBuilder.LeftCell | src/generator.py:261-300 | A left-half cell is 0 or 1. The checkerboard fills it iff `(i+j)` is odd. Stripes fill it iff the row is odd. The increment family fills it iff `j < min(i+1, size/2)`. The random family copies the coin. Any other family name leaves it 0. |
| PatternBuilder.FullPattern | src/generator.py:256-305 | The finished grid is square with the given side, binary, and mirrored about the vertical centre line. |
| PatternBuilder.FullPatternShape | src/generator.py:256-305 | For an even side, the full grid is square and binary. It is mirrored about the vertical centre line. Its left half is exactly the family's left-half rule. |
| PatternBuilder.UnknownFamilyIsBlank | src/generator.py:256-305 | A family name outside the four known ones yields the all-zero grid. |
| PatternBuilder.CheckerboardFour | src/generator.py:272-281 | The 4x4 checkerboard is `0110/1001/0110/1001`. |
| PatternBuilder.FillRandom | src/generator.py:263-265 | Every left-half cell becomes the coin's bit. Every other cell is unchanged. |
| PatternBuilder.FillCheckerboard | src/generator.py:274-276 | Every left-half cell becomes `(i+j) % 2`. Every other cell is unchanged. |
| PatternBuilder.FillStripes | src/generator.py:285-288 | Every left-half cell of row `i` becomes `i % 2`. Every other cell is unchanged. |
| PatternBuilder.FillIncrement | src/generator.py:297-300 | The first `min(i+1, size/2)` cells of row `i` become 1. Every other cell is unchanged. |
| PatternBuilder.MirrorRightHalf | src/generator.py:266-270 | Each right-half cell `(i,j)` takes the old value at `(i, size-1-j)`. The left half is unchanged. |
| PatternBuilder.CheckSymmetry | src/generator.py:307-312 | Returns true exactly when every cell equals its mirror image across the centre column. |
| PatternBuilder.GenerateFullPattern | src/generator.py:249-314 | An odd side fails with `OddGridSize`. An even side yields a fresh side-by-side array equal to `FullPattern` and mirrored, so the sanity check never fails. |
| PatternModel.WellFormed | src/generator.py:46-54 | The invariant of an assembled spec. Whenever it holds, every missing position lies inside the incomplete grid and is -1 there. |
| PatternModel.Insert | src/generator.py:58 | Inserting into a sorted position list keeps it sorted and adds exactly the new position to its multiset. |
| PatternModel.SortPositions | src/generator.py:58 | The result is sorted lexicographically by (row, column) and is a permutation of the input. |
| PatternModel.SortedUnique | src/generator.py:58 | Two sorted lists with the same multiset are equal. |
| PatternModel.SortIgnoresOrder | src/generator.py:58 | Two position lists sort to the same list iff they are permutations of each other. |
| PatternModel.FlattenAt | src/generator.py:59 | The row-major flattening has `rows*width` entries and entry `i*width+j` is cell `(i,j)`. |
| PatternModel.FlattenInjective | src/generator.py:59 | Two grids of the same shape flatten to the same sequence iff they are equal. |
| PatternModel.GetSignature | src/generator.py:56-60 | The signature keeps the family and side, and holds the missing positions in sorted order as a permutation of the spec's list. |
| PatternModel.SignatureIgnoresMissingOrder | src/generator.py:58-60 | Reordering the missing positions leaves the signature unchanged. |
| PatternModel.SignatureEqualIff | src/generator.py:56-60 | Two specs have equal signatures iff they agree on family, side, the multiset of missing positions and the full grid. |
| TaskAssembler.GridSizeCandidates | src/generator.py:196-202 | Two even sides between 4 and 10: `[4,6]` for "easy", `[8,10]` for "hard" and `[6,8]` for every other difficulty. |
| TaskAssembler.RightHalfCount | src/generator.py:213-217 | The right half never holds more cells than the grid. For an even side it holds exactly half of them. |
| TaskAssembler.MissingRange | src/generator.py:210-226 | The blank-count range is ordered and never exceeds the number of right-half cells. |
| TaskAssembler.MissingRangeExamples | src/generator.py:215-226 | Easy at side 6 gives (5,7). Hard at side 8 gives (22,25). Medium at side 8 gives (16,19). |
| TaskAssembler.RightHalfPositions | src/generator.py:231 | The list holds `side * (side - side/2)` positions. |
| TaskAssembler.RowsFromExact | src/generator.py:231 | The rows-from-`r` list holds exactly the right-half positions in rows `>= r`, without repetition. |
| TaskAssembler.RightHalfPositionsExact | src/generator.py:231 | The position list holds exactly the right-half cells, each once. |
| TaskAssembler.SampledPositions | src/generator.py:231-233 | The sample of indices picks one right-half position per index. |
| TaskAssembler.SampledPositionsSound | src/generator.py:231-233 | A sample of distinct indices gives distinct right-half positions. |
| TaskAssembler.PatternOfWellFormed | src/generator.py:194-247 | Every attempt yields a well-formed spec. Its side is a candidate for the difficulty and its family is one of the four. Its blank count lies within the difficulty's range, capped at the right-half size. |
| TaskAssembler.Masked | src/generator.py:235-238 | The masked grid keeps the full grid's shape. Every listed position inside the grid becomes -1. Every unlisted cell keeps its value. |
| TaskAssembler.PatternOf | src/generator.py:194-247 | One attempt's spec: the side and family come from the draws and the difficulty is kept. The full grid is the builder's `FullPattern`, the incomplete grid is its mask, and the number of missing positions is the drawn count. |
| TaskAssembler.IncompleteAgreesOffMask | src/generator.py:235-238 | An incomplete cell is -1 iff its position was sampled; otherwise it equals the full cell. |
| TaskAssembler.CopyGrid | src/generator.py:236 | Returns a fresh array of the same shape with the same cells. |
| TaskAssembler.WriteMissing | src/generator.py:237-238 | Every listed position becomes -1. Every other cell is unchanged. |
| TaskAssembler.CellsOfMaskedCopy | src/generator.py:235-238 | The masked array's snapshot is the full snapshot with the listed positions set to -1. |
| TaskAssembler.CreatePattern | src/generator.py:194-247 | The assembled spec equals the attempt's `PatternOf`; it is therefore well formed. |
| TaskAssembler.RetryChoice | src/generator.py:163-170 | The attempt kept is the first whose signature is unseen, or the last one when all collide. |
| TaskAssembler.RetryChoiceSkipsOnlyCollisions | src/generator.py:164-170 | Every attempt before the one kept had an already seen signature. |
| TaskAssembler.RetryChoiceIs | src/generator.py:164-170 | Any index past only collisions that is unseen or last is the attempt kept. |
| TaskAssembler.EffectiveDifficulty | src/generator.py:160 | The difficulty is never empty. A non-empty configured value is used as is. A missing or empty value becomes "medium". |
| TaskAssembler.RepeatedDuplicateKeepsLast | src/generator.py:164-171 | When all eleven attempts repeat a seen signature, the last one is kept, and it is still well formed. |
| TaskAssembler.FirstUnseenPattern | src/generator.py:160-170 | The loop returns the pattern of the attempt chosen by `RetryChoice`, together with its signature. |
| TaskAssembler.TaskGenerator.constructor | src/generator.py:154 | A new generator has seen no signatures. |
| TaskAssembler.TaskGenerator.GenerateTaskPair | src/generator.py:156-183 | The pattern is the one `RetryChoice` selects over the signatures seen before the call, and it is well formed. Exactly its signature is added to the seen set. The prompt comes from its family's pool. |
| Prompts.GetAllPrompts | src/prompts.py:55-57 | The pool is never empty and is one of the five pools of the table. |
| Prompts.GetPrompt | src/prompts.py:41-52 | The chosen prompt belongs to the pool for the key. |
| Prompts.TableKeys | src/prompts.py:16-38 | The table's keys are "default" and the four family names. |
| Prompts.PoolsByKey | src/prompts.py:16-57 | Each family has one prompt and "default" has three. An unknown key falls back to the default pool. |
| Prompts.FamilyPromptIsForced | src/prompts.py:51-52 | For a family name every choice gives that family's single prompt. |

## Left out

- Rendering, video generation, `TaskPair` construction, configuration and the command line are not part of this model. They only consume the pattern.
- The Python `random` module is not modelled. Its draws are parameters (`coin`, `Draws`), and `ValidDraws` states the guarantees `choice`, `randint` and `sample` give. The preconditions of `CreatePattern` and `GenerateTaskPair` restate those guarantees; they are not demands on the caller.
- PatternModel.GetSignature: the signature is a structured value (family, side, sorted missing positions, flattened grid), not the dash- and comma-joined string. Equality of the structured value is therefore only as fine as the string's. The string form could in principle make a family name containing `-` collide with another; that cannot happen with the four fixed family names.
- TaskAssembler.MissingRange: the float products `int(R * 0.3)` and the like are written as `R * 3 / 10`. Both agree for every right-half size the generator reaches, but floating-point rounding is not modelled for other sizes.
- PatternBuilder.GenerateFullPattern: the side is a `nat`. Negative sides are not modelled. In the source, a negative odd side fails the evenness assertion, and a negative even side passes it and fails inside `np.zeros`. An odd side returns `Failure(OddGridSize)` where the source raises an assertion error.
- TaskAssembler.TaskGenerator.GenerateTaskPair: the prompt is taken at index 0 of the family's pool, where the source calls `random.choice`. Every family pool holds exactly one prompt (`Prompts.FamilyPromptIsForced`), so the result is the same.
- `GRID_SIZES` (which lists 12) is never used by the generator; sides are only ever 4 to 10.
- numpy's integer dtype and array copy semantics are modelled by `array2<int>` and an explicit copy loop.
