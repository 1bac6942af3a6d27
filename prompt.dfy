/** The system prompt (app.py lines 72-78): a fixed f-string template with two holes. */
module Prompt {

  const Opening: string :=
    "You are a data expert. Based on the user prompt and sample data, write Python code using pandas (and optionally plotly) to return the result.\n\nUser Prompt: "
  const Middle: string := "\nData Sample:\n"
  const Closing: string := "\nOutput only Python code using variables df1, df2 (if present).\n"

  /** The prompt for an intent and a sample. */
  function BuildPrompt(intent: string, sample: string): (prompt: string)
    ensures |prompt| == |Opening| + |intent| + |Middle| + |sample| + |Closing|
  {
    Opening + intent + Middle + sample + Closing
  }

  /** Layout: the template's fixed text, then the intent verbatim, then the sample verbatim, in
      that order and each at a fixed offset. */
  lemma PromptLayout(intent: string, sample: string)
    ensures BuildPrompt(intent, sample)[..|Opening|] == Opening
    ensures BuildPrompt(intent, sample)[|Opening|..|Opening| + |intent|] == intent
    ensures BuildPrompt(intent, sample)[|Opening| + |intent|..|Opening| + |intent| + |Middle|] == Middle
    ensures BuildPrompt(intent, sample)[|Opening| + |intent| + |Middle|..|Opening| + |intent| + |Middle| + |sample|] == sample
    ensures BuildPrompt(intent, sample)[|Opening| + |intent| + |Middle| + |sample|..] == Closing
  {
    var p := BuildPrompt(intent, sample);
    var a, b, c := |Opening|, |Opening| + |intent|, |Opening| + |intent| + |Middle|;
    var d := c + |sample|;
    assert p == (((Opening + intent) + Middle) + sample) + Closing;
    assert p[..d] == ((Opening + intent) + Middle) + sample;
    assert p[..c] == (Opening + intent) + Middle;
    assert p[..b] == Opening + intent;
    assert p[a..b] == p[..b][a..];
    assert p[b..c] == p[..c][b..];
    assert p[c..d] == p[..d][c..];
  }

  /** The intent and the sample can be read back from the prompt once the intent's length is
      known, so two different (intent, sample) pairs with intents of equal length never give
      the same prompt. */
  lemma PromptDeterminesInputs(i1: string, s1: string, i2: string, s2: string)
    requires |i1| == |i2|
    requires BuildPrompt(i1, s1) == BuildPrompt(i2, s2)
    ensures i1 == i2 && s1 == s2
  {
    PromptLayout(i1, s1);
    PromptLayout(i2, s2);
  }

  /** Without that knowledge the template is ambiguous: an intent that itself contains the
      "Data Sample" heading yields the same prompt as a shorter intent with a longer sample. */
  lemma PromptAmbiguous(a: string, b: string, c: string)
    ensures BuildPrompt(a + Middle + b, c) == BuildPrompt(a, b + Middle + c)
  {
    var whole := Opening + a + Middle + b + Middle + c + Closing;
    assert BuildPrompt(a + Middle + b, c) == whole;
    assert BuildPrompt(a, b + Middle + c) == whole;
  }
}
