/**
 * The FAQ accordion: at most one answer is open, recorded as its index or
 * none, and clicking a question toggles it.
 */
module Faq {
  import opened Wrappers

  const QuestionCount := 7

  /** Nothing is open when the page loads. */
  const InitiallyOpen: Option<nat> := None

  /** `toggleAccordion`: clicking the open question closes it, clicking any other opens that one alone. */
  function Toggle(open: Option<nat>, index: nat): (r: Option<nat>)
    ensures r.None? <==> open == Some(index)
    ensures r.Some? ==> r.value == index
  {
    if open == Some(index) then None else Some(index)
  }

  /** Answer i is rendered exactly when it is the open one. */
  predicate AnswerShown(open: Option<nat>, i: nat) {
    open == Some(i)
  }

  /** At most one answer is ever shown, and none at first. */
  lemma AtMostOneShown(open: Option<nat>, i: nat, j: nat)
    ensures AnswerShown(open, i) && AnswerShown(open, j) ==> i == j
    ensures !AnswerShown(InitiallyOpen, i)
  {
  }

  /** After a click exactly the clicked answer is shown, unless it was already shown. */
  lemma ToggleShows(open: Option<nat>, index: nat, i: nat)
    ensures AnswerShown(Toggle(open, index), i) <==> i == index && !AnswerShown(open, index)
  {
  }

  /**
   * Clicking the same question twice: when it was open, it is open again;
   * otherwise everything ends up closed, whatever was open before.
   */
  lemma ToggleTwice(open: Option<nat>, index: nat)
    ensures Toggle(Toggle(open, index), index) == if open == Some(index) then open else None
  {
  }
}
