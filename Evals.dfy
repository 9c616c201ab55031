/** The two eval metrics under `app/src/mastra/evals/`: `TemporalRelevanceMetric` scores an
    answer by whether it repeats a year of the question, `CitationPresenceMetric` by whether
    it names a year or a "Source". Both recognise the years 1970-2019 as standalone tokens. */
module Evals {
  import opened Strings
  import opened Options
  import opened Years

  /** A metric's result: its score and `info.message`. */
  datatype MetricResult = MetricResult(score: real, message: string)

  // ---------------------------------------------------------------------------
  // TemporalRelevanceMetric

  const RelevantMessage: string := "Answer includes the requested years."
  const IrrelevantMessage: string := "Answer does not reference years from the question."

  /** `yearsInInput.some((year) => yearsInOutput.includes(year))`. */
  predicate SharesYear(input: string, output: string) {
    var inOutput := YearStrings(EvalRange, output);
    exists k :: 0 <= k < |YearStrings(EvalRange, input)| && YearStrings(EvalRange, input)[k] in inOutput
  }

  /** `TemporalRelevanceMetric.measure(input, output)`. */
  function TemporalRelevance(input: string, output: string): MetricResult {
    if SharesYear(input, output) then MetricResult(1.0, RelevantMessage)
    else MetricResult(0.3, IrrelevantMessage)
  }

  /** The score is 1 exactly when some standalone year from 1970 to 2019 of the question
      occurs, as a standalone token, in the answer; otherwise it is 0.3, also when the
      question has no year; the message agrees with the score. */
  lemma TemporalRelevanceScore(input: string, output: string)
    ensures var r := TemporalRelevance(input, output);
      (r.score == 1.0 <==> exists i, j :: MatchAt(EvalRange, input, i) && MatchAt(EvalRange, output, j)
                                            && input[i..i + 4] == output[j..j + 4])
      && (r.score == 1.0 || r.score == 0.3)
      && (r.message == RelevantMessage <==> r.score == 1.0)
  {
    if SharesYear(input, output) {
      var ins := YearStrings(EvalRange, input);
      var k :| 0 <= k < |ins| && ins[k] in YearStrings(EvalRange, output);
      YearStringsSound(EvalRange, input, k);
      var i :| MatchAt(EvalRange, input, i) && input[i..i + 4] == ins[k];
      var m :| 0 <= m < |YearStrings(EvalRange, output)| && YearStrings(EvalRange, output)[m] == ins[k];
      YearStringsSound(EvalRange, output, m);
      var j :| MatchAt(EvalRange, output, j) && output[j..j + 4] == YearStrings(EvalRange, output)[m];
    } else {
      forall i, j | MatchAt(EvalRange, input, i) && MatchAt(EvalRange, output, j)
        ensures input[i..i + 4] != output[j..j + 4]
      {
        YearStringsComplete(EvalRange, input, i);
        YearStringsComplete(EvalRange, output, j);
        var ins := YearStrings(EvalRange, input);
        var k :| 0 <= k < |ins| && ins[k] == input[i..i + 4];
      }
    }
  }

  /** A question without a year scores 0.3, whatever the answer. */
  lemma NoYearInQuestion(input: string, output: string)
    requires forall i :: !MatchAt(EvalRange, input, i)
    ensures TemporalRelevance(input, output) == MetricResult(0.3, IrrelevantMessage)
  {
    TemporalRelevanceScore(input, output);
  }

  // ---------------------------------------------------------------------------
  // CitationPresenceMetric

  const CitedMessage: string := "Citations found in the answer."
  const UncitedMessage: string := "No citations detected; answer may not be grounded."

  /** `CitationPresenceMetric.measure(input, output)`: the input is not read. */
  function CitationPresence(input: string, output: string): MetricResult {
    var hasCitation := FirstMatch(EvalRange, output, 0).Some? || IndexOf(output, "Source", 0) != -1;
    if hasCitation then MetricResult(1.0, CitedMessage) else MetricResult(0.0, UncitedMessage)
  }

  /** The score is 1 exactly when the answer holds a standalone year from 1970 to 2019 or
      the text "Source", and 0 otherwise; the question does not matter; the message agrees
      with the score. */
  lemma CitationPresenceScore(input: string, other: string, output: string)
    ensures var r := CitationPresence(input, output);
      (r.score == 1.0 <==> (exists j :: MatchAt(EvalRange, output, j)) || Contains(output, "Source"))
      && (r.score == 1.0 || r.score == 0.0)
      && (r.message == CitedMessage <==> r.score == 1.0)
      && r == CitationPresence(other, output)
  {
    ContainsIffIndexOf(output, "Source");
  }
}
