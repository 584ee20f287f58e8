/** Fitting a prompt into a model's context window: `truncate_for_context`. */
module Truncation {
  import opened Sequences

  /** about four characters a token */
  function EstimateTokens(text: string): (tokens: nat)
    ensures tokens >= 1
    ensures |text| < 4 ==> tokens == 1
    ensures |text| >= 4 ==> 4 * tokens <= |text| < 4 * (tokens + 1)
  {
    if |text| / 4 > 1 then |text| / 4 else 1
  }

  /** Python's `s[:n]`, which counts a negative n from the end. */
  function Upto(s: string, n: int): string {
    if n >= |s| then s
    else if n >= 0 then s[..n]
    else if |s| + n >= 0 then s[..|s| + n]
    else ""
  }

  /** Python's `s.rfind(pattern)`: the last place where the pattern occurs, or -1. */
  method RFind(s: string, pattern: string) returns (i: int)
    ensures i == -1 || OccursAt(s, pattern, i)
    ensures forall j :: OccursAt(s, pattern, j) ==> j <= i
  {
    i := |s| - |pattern|;
    while i >= 0
      invariant i >= -1 || i == |s| - |pattern|
      invariant forall j :: OccursAt(s, pattern, j) ==> j <= i
      decreases i + 1
    {
      if s[i..i + |pattern|] == pattern {
        return;
      }
      i := i - 1;
    }
    i := -1;
  }

  /** What is left for the prompt; half the window where nothing is. */
  function Budget(ctx: int, maxOutput: int, margin: int): int {
    if ctx - maxOutput - margin <= 0 then ctx / 2 else ctx - maxOutput - margin
  }

  const CUTS: seq<string> := ["}\n", ".\n", "\n\n"]

  /** No mark of the kinds before `kinds` begins beyond `half`. */
  ghost predicate NoMarkBeyond(text: string, half: int, kinds: nat) {
    forall c, i :: 0 <= c < kinds && c < |CUTS| && OccursAt(text, CUTS[c], i) ==> i <= half
  }

  /** r is text up to and with the last mark of the first kind that begins beyond `half`. */
  ghost predicate CutAtMark(text: string, half: int, r: string) {
    exists c: nat ::
      && c < |CUTS| && NoMarkBeyond(text, half, c)
      && OccursAt(text, CUTS[c], |r| - 2) && |r| - 2 > half
      && (forall j :: OccursAt(text, CUTS[c], j) ==> j <= |r| - 2)
  }

  /** What truncation promises of its result r:
      - it is a prefix of the prompt, and the prompt itself when that is within the budget;
      - its estimate, with the output and the margin, fits the window if and only if output
        and margin leave anything at all;
      - the budget is what output and margin leave, or half the window where that is nothing;
      - within a positive budget, a prompt that is cut keeps more than half the budget, and is
        cut at a mark, the last of the first kind there is, exactly when one begins beyond that
        half; within none, nothing is kept. */
  ghost predicate Fitted(prompt: string, ctx: int, maxOutput: int, margin: int, r: string) {
    var left := ctx - maxOutput - margin;
    var budget := if left > 0 then left else ctx / 2;
    && r <= prompt
    && (EstimateTokens(prompt) <= budget ==> r == prompt)
    && (EstimateTokens(r) + maxOutput + margin <= ctx <==> left > 0)
    && (ctx >= 0 ==> |r| <= 4 * budget || EstimateTokens(prompt) <= budget)
    && (budget == 0 ==> r == "")
    && (budget > 0 && r != prompt ==>
          && |prompt| > 4 * budget && |r| > 2 * budget
          && (if NoMarkBeyond(prompt[..4 * budget], 2 * budget, |CUTS|) then r == prompt[..4 * budget]
              else CutAtMark(prompt[..4 * budget], 2 * budget, r)))
  }

  /** For every window that has a size, truncating twice is truncating once. */
  lemma TruncatingTwice(prompt: string, ctx: int, maxOutput: int, margin: int, once: string, twice: string)
    requires ctx >= 0
    requires Fitted(prompt, ctx, maxOutput, margin, once) && Fitted(once, ctx, maxOutput, margin, twice)
    ensures twice == once
  {
    if EstimateTokens(once) > Budget(ctx, maxOutput, margin) {
      assert once == "";
    }
  }

  /** With the default output and margin, nothing fits a window of 4608 tokens or fewer. */
  lemma SmallWindowsOverflow(prompt: string, ctx: int, r: string)
    requires Fitted(prompt, ctx, 4096, 512, r)
    ensures EstimateTokens(r) + 4096 + 512 > ctx <==> ctx <= 4608
  {
  }

  method TruncateForContext(prompt: string, ctx: int, maxOutput: int, margin: int) returns (r: string)
    ensures Fitted(prompt, ctx, maxOutput, margin, r)
    ensures CUTS == ["}\n", ".\n", "\n\n"]
  {
    var budget := ctx - maxOutput - margin;
    if budget <= 0 {
      budget := ctx / 2;
    }
    if EstimateTokens(prompt) <= budget {
      return prompt;
    }
    var maxChars := budget * 4;
    var truncated := Upto(prompt, maxChars);
    r := truncated;
    hide Fitted, Upto, EstimateTokens;
    for c := 0 to |CUTS|
      invariant r == truncated
      invariant NoMarkBeyond(truncated, maxChars / 2, c)
    {
      var i := RFind(truncated, CUTS[c]);
      if i > maxChars / 2 {
        r := Upto(truncated, i + |CUTS[c]|);
        LongPromptCut(prompt, ctx, maxOutput, margin, c, i);
        return;
      }
    }
    LongPromptUncut(prompt, ctx, maxOutput, margin);
  }

  lemma LongPromptUncut(prompt: string, ctx: int, maxOutput: int, margin: int)
    requires EstimateTokens(prompt) > Budget(ctx, maxOutput, margin)
    requires var maxChars := Budget(ctx, maxOutput, margin) * 4;
             NoMarkBeyond(Upto(prompt, maxChars), maxChars / 2, |CUTS|)
    ensures Fitted(prompt, ctx, maxOutput, margin, Upto(prompt, Budget(ctx, maxOutput, margin) * 4))
  {
  }

  lemma LongPromptCut(prompt: string, ctx: int, maxOutput: int, margin: int, c: nat, i: int)
    requires EstimateTokens(prompt) > Budget(ctx, maxOutput, margin) && c < |CUTS|
    requires var maxChars := Budget(ctx, maxOutput, margin) * 4;
             var truncated := Upto(prompt, maxChars);
             && NoMarkBeyond(truncated, maxChars / 2, c)
             && i > maxChars / 2 && (i == -1 || OccursAt(truncated, CUTS[c], i))
             && (forall j :: OccursAt(truncated, CUTS[c], j) ==> j <= i)
    ensures Fitted(prompt, ctx, maxOutput, margin, Upto(Upto(prompt, Budget(ctx, maxOutput, margin) * 4), i + |CUTS[c]|))
  {
    hide NoMarkBeyond, CutAtMark, OccursAt;
    var maxChars := Budget(ctx, maxOutput, margin) * 4;
    if Budget(ctx, maxOutput, margin) > 0 {
      var truncated := Upto(prompt, maxChars);
      MarkCut(truncated, maxChars / 2, c, i);
      assert truncated == prompt[..maxChars];
      assert Upto(truncated, i + |CUTS[c]|) == truncated[..i + 2];
    }
  }

  lemma MarkCut(text: string, half: nat, c: nat, i: int)
    requires c < |CUTS| && NoMarkBeyond(text, half, c)
    requires i > half && OccursAt(text, CUTS[c], i)
    requires forall j :: OccursAt(text, CUTS[c], j) ==> j <= i
    ensures |CUTS[c]| == 2 && i + 2 <= |text|
    ensures CutAtMark(text, half, text[..i + 2]) && !NoMarkBeyond(text, half, |CUTS|)
  {
    assert |CUTS[c]| == 2;
    assert |text[..i + 2]| - 2 == i;
  }
}
