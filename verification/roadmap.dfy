/** The roadmap generator, `generate_learning_roadmap`. The prompt and the
    language-model call are foreign: the call is modelled by its outcome,
    `Some(text)` when the model answered and `None` when it raised. */
module Roadmap {
  import opened Wrappers

  /** The text returned in place of a roadmap when the model call fails. */
  const Fallback: string := "Failed to generate roadmap due to an AI error."

  /** The roadmap text the generator hands back for one call outcome: the
      model's answer verbatim, or the fixed fallback. */
  function RoadmapText(outcome: Option<string>): (r: string)
    ensures outcome.Some? ==> r == outcome.value
    ensures r == Fallback <==> outcome.None? || outcome.value == Fallback
  {
    match outcome
    case Some(text) => text
    case None => Fallback
  }
}
