/**
 * The stand-alone confidence scorer of confidence.py, which repeats the rule that
 * `postprocess_segments` of core.py applies inline.
 */
module Confidence {
  import opened Strings
  import opened Values
  import Core

  /** `score_confidence`: the stored quality score if any, else "medium" or "high" by the summary. */
  function ScoreConfidence(segment: Record): (c: Value)
    requires Core.ScoreComputable(segment)
    ensures Core.ScoreKey in segment ==> c == segment[Core.ScoreKey]
    ensures Core.ScoreKey !in segment ==> (c == Str("medium") || c == Str("high"))
    ensures Core.ScoreKey !in segment ==>
      (c == Str("medium") <==> |TextOf(segment, "summary")| < 100 || EndsWith(TextOf(segment, "summary"), "..."))
  {
    if "summary_quality_score" in segment then segment["summary_quality_score"]
    else
      var summary := TextOf(segment, "summary");
      if |summary| < 100 || EndsWith(summary, "...") then Str("medium") else Str("high")
  }

  /** A segment with neither a score nor a summary scores "medium". */
  lemma MissingSummaryIsMedium(segment: Record)
    requires Core.ScoreKey !in segment && "summary" !in segment
    ensures ScoreConfidence(segment) == Str("medium")
  {
  }

  /** "low" can only come from a stored quality score. */
  lemma LowOnlyByPassThrough(segment: Record)
    requires Core.ScoreComputable(segment)
    ensures ScoreConfidence(segment) == Str("low") ==>
      Core.ScoreKey in segment && segment[Core.ScoreKey] == Str("low")
  {
  }

  /** The scorer gives the confidence that post-processing stores on the same segment. */
  lemma AgreesWithPostprocess(segment: Record, freshId: string)
    requires Core.Postprocessable(segment)
    ensures ScoreConfidence(segment) == Core.PostprocessOne(segment, freshId)[Core.ConfidenceKey]
  {
  }
}
