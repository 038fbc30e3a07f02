/**
 * The shared completion tracker of the challenge flow: the list of completed
 * step numbers, an append-if-absent update and a membership query.
 */
module CaptchaContext {
  import opened Sequences

  /** The list the provider starts with: nothing completed. */
  const InitialSteps: seq<int> := []

  /** `isStepCompleted(step)`: the step is in the list. */
  predicate IsStepCompleted(completedSteps: seq<int>, step: int) {
    step in completedSteps
  }

  /** `completeStep(step)`: appends the step at the end unless it is already completed. */
  function CompleteStep(completedSteps: seq<int>, step: int): (r: seq<int>)
    ensures IsStepCompleted(r, step)
    ensures IsStepCompleted(completedSteps, step) ==> r == completedSteps
    ensures |completedSteps| <= |r| <= |completedSteps| + 1 && r[..|completedSteps|] == completedSteps
    ensures forall s :: s != step ==> (IsStepCompleted(r, s) <==> IsStepCompleted(completedSteps, s))
  {
    if !(step in completedSteps) then completedSteps + [step] else completedSteps
  }

  /** Completing a step never lists a step twice. */
  lemma CompleteStepKeepsDistinct(completedSteps: seq<int>, step: int)
    requires Distinct(completedSteps)
    ensures Distinct(CompleteStep(completedSteps, step))
  {
  }

  /** No step counts as completed before any is completed. */
  lemma NothingCompletedInitially(step: int)
    ensures !IsStepCompleted(InitialSteps, step)
  {
  }

  /** The list after completing `steps` in order, starting from `completedSteps`. */
  function CompleteAll(completedSteps: seq<int>, steps: seq<int>): seq<int>
    decreases |steps|
  {
    if steps == [] then completedSteps else CompleteStep(CompleteAll(completedSteps, steps[..|steps| - 1]), steps[|steps| - 1])
  }

  /**
   * From the initial list, any run of completions leaves a list without
   * duplicates that holds exactly the completed steps.
   */
  lemma {:induction false} CompletionHistory(steps: seq<int>)
    ensures Distinct(CompleteAll(InitialSteps, steps))
    ensures forall s :: IsStepCompleted(CompleteAll(InitialSteps, steps), s) <==> s in steps
    decreases |steps|
  {
    if steps != [] {
      var init := steps[..|steps| - 1];
      var last := steps[|steps| - 1];
      CompletionHistory(init);
      CompleteStepKeepsDistinct(CompleteAll(InitialSteps, init), last);
      assert steps == init + [last];
    }
  }

  /** Completing a step not yet in the list appends it. */
  lemma CompleteFresh(completedSteps: seq<int>, step: int)
    requires step !in completedSteps
    ensures CompleteStep(completedSteps, step) == completedSteps + [step]
  {
  }

  /** When each step is completed once, the list is the steps in the order they were completed. */
  lemma {:induction false} CompletionOrder(steps: seq<int>)
    requires Distinct(steps)
    ensures CompleteAll(InitialSteps, steps) == steps
    decreases |steps|
  {
    if steps != [] {
      var init := steps[..|steps| - 1];
      var last := steps[|steps| - 1];
      SplitLast(steps);
      CompletionOrder(init);
      CompleteFresh(init, last);
    }
  }
}
