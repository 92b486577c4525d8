/**
 * The text normalisation both commands apply to a prompt before asking for
 * its embedding: `text.replace("\n", " ")` in `get_embedding`.
 */
module PromptText {

  /** Python's `str.replace("\n", " ")`: every newline becomes a space, nothing else moves. */
  function ReplaceNewlines(text: string): (r: string)
    ensures |r| == |text|
    ensures forall i :: 0 <= i < |text| ==> r[i] == (if text[i] == '\n' then ' ' else text[i])
    ensures '\n' !in r
  {
    if text == [] then []
    else [if text[0] == '\n' then ' ' else text[0]] + ReplaceNewlines(text[1..])
  }

  /** Normalising twice is normalising once, and text without newlines is left as it is. */
  lemma {:induction false} ReplaceNewlinesIdempotent(text: string)
    ensures ReplaceNewlines(ReplaceNewlines(text)) == ReplaceNewlines(text)
    ensures '\n' !in text ==> ReplaceNewlines(text) == text
  {
    var once := ReplaceNewlines(text);
    var twice := ReplaceNewlines(once);
    assert |twice| == |once|;
    forall i | 0 <= i < |once| ensures twice[i] == once[i] {
    }
    if '\n' !in text {
      forall i | 0 <= i < |text| ensures once[i] == text[i] {
      }
    }
  }
}
