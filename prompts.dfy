/**
 * The prompt table: one pool of instruction strings per pattern family and a
 * default pool for every other key (src/prompts.py).
 *
 * `random.choice` over a pool is modelled by the index `pick` of the chosen
 * prompt, drawn by the caller.
 */
module Prompts {
  import opened PatternBuilder

  const DefaultKey: string := "default"

  const DefaultPool: seq<string> := [
    "Complete this pattern by filling in the missing grid cells on the right side. Observe the left half of the pattern and recognize that it should be mirrored to create a symmetric pattern. Fill in the right half by mirroring the left half across the vertical center line. Keep the camera view fixed in the top-down perspective and maintain all existing cells unchanged. Stop the video when the symmetric pattern is fully completed.",
    "Fill in the missing cells on the right side of the grid to complete the symmetric pattern. The left half shows the pattern that should be mirrored to the right. Mirror the left half across the vertical center line to complete the pattern. Maintain a fixed top-down camera view and keep all existing cells unchanged. Stop when the pattern is complete.",
    "Complete the symmetric pattern by mirroring the left half to the right. Observe the pattern in the left half and fill in the missing cells on the right side to create a vertically symmetric pattern. Keep the camera fixed in top-down view and preserve all existing cells. Stop the video when the symmetric pattern is fully completed."
  ]

  const VerticalSymmetryPool: seq<string> := [
    "Complete this pattern by filling in the missing grid cells on the right side. Observe the left half of the pattern and recognize that it should be mirrored to create a symmetric pattern. Fill in the right half by mirroring the left half across the vertical center line. Keep the camera view fixed in the top-down perspective and maintain all existing cells unchanged. Stop the video when the symmetric pattern is fully completed."
  ]

  const CheckerboardPool: seq<string> := [
    "Complete the checkerboard pattern by filling in the missing cells on the right side. The left half shows a checkerboard pattern that should be mirrored to the right. Mirror the left half across the vertical center line to complete the symmetric checkerboard. Keep the camera fixed in top-down view and preserve all existing cells. Stop when the pattern is complete."
  ]

  const StripesPool: seq<string> := [
    "Complete the striped pattern by filling in the missing cells on the right side. The left half shows horizontal stripes that should be mirrored to the right. Mirror the left half across the vertical center line to complete the symmetric striped pattern. Keep the camera fixed in top-down view and preserve all existing cells. Stop when the pattern is complete."
  ]

  const IncrementPool: seq<string> := [
    "Complete the incrementing pattern by filling in the missing cells on the right side. The left half shows a pattern where each row has an incrementing number of filled cells. Mirror the left half across the vertical center line to complete the symmetric incrementing pattern. Keep the camera fixed in top-down view and preserve all existing cells. Stop when the pattern is complete."
  ]

  /** The table of pools, keyed by family name or "default". */
  const PromptTable: map<string, seq<string>> := map[
    DefaultKey := DefaultPool,
    VerticalSymmetry := VerticalSymmetryPool,
    Checkerboard := CheckerboardPool,
    Stripes := StripesPool,
    Increment := IncrementPool
  ]

  /** The pool for a key, falling back to the default pool for unknown keys. */
  function GetAllPrompts(patternType: string): (pool: seq<string>)
    ensures |pool| > 0
    ensures pool == DefaultPool || pool == VerticalSymmetryPool || pool == CheckerboardPool
      || pool == StripesPool || pool == IncrementPool
  {
    if patternType in PromptTable then PromptTable[patternType] else PromptTable[DefaultKey]
  }

  /** One prompt from the key's pool; `pick` is the random index into the pool. */
  function GetPrompt(patternType: string, pick: nat): (prompt: string)
    requires pick < |GetAllPrompts(patternType)|
    ensures prompt in GetAllPrompts(patternType)
  {
    GetAllPrompts(patternType)[pick]
  }

  /** The table has exactly the default key and the four family keys. */
  lemma TableKeys()
    ensures PromptTable.Keys == {DefaultKey} + (set f | f in PatternTypes)
  {
    assert (set f | f in PatternTypes) == {VerticalSymmetry, Checkerboard, Stripes, Increment};
  }

  /**
   * Each family key has a pool of its own with one prompt; the default pool
   * has three; any other key gets the default pool.
   */
  lemma PoolsByKey(patternType: string)
    ensures patternType in PatternTypes ==>
      GetAllPrompts(patternType) == PromptTable[patternType] && |GetAllPrompts(patternType)| == 1
    ensures |GetAllPrompts(DefaultKey)| == 3
    ensures patternType !in PatternTypes ==> GetAllPrompts(patternType) == DefaultPool
  {
    if patternType !in PatternTypes && patternType != DefaultKey {
      assert patternType !in PromptTable;
    }
  }

  /** For a family key the choice is forced: every allowed pick gives the same prompt. */
  lemma FamilyPromptIsForced(patternType: string, pick1: nat, pick2: nat)
    requires patternType in PatternTypes
    requires pick1 < |GetAllPrompts(patternType)| && pick2 < |GetAllPrompts(patternType)|
    ensures GetPrompt(patternType, pick1) == GetPrompt(patternType, pick2)
  {
    PoolsByKey(patternType);
  }
}
