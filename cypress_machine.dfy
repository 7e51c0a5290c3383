/**
 * The flat machine of the Cypress test: ESC declared on the root node, and a
 * SUBMIT candidate list in `form` whose unconditional fallback follows the
 * guarded candidate, so that an empty response also reaches `thanks`.
 */
module CypressMachine {

  import opened Xstate
  import opened FlatFeedback

  /** The root node's `on` map, consulted after the active state's. */
  function RootOn(): Handlers<State> {
    map[Esc := [Go(Closed)]]
  }

  /** Each state node's `on` map. */
  function On(s: State): Handlers<State> {
    match s
    case Question => map[ClickGood := [Go(Thanks)], ClickBad := [Go(Form)], Close := [Go(Closed)]]
    case Form => map[Submit := [Candidate(Thanks, ValueNonEmpty), Go(Thanks)], Close := [Go(Closed)]]
    case Thanks => map[Close := [Go(Closed)]]
    case Closed => map[]
  }

  function Initial(): State {
    Question
  }

  predicate IsFinal(s: State) {
    s == Closed
  }

  /**
   * One transition: a final state accepts nothing; otherwise the state's own
   * candidates are tried, then the root's; no enabled candidate means no change.
   */
  function Step(s: State, e: Event): (next: State)
    ensures IsFinal(s) ==> next == s
    ensures e.kind !in On(s) && e.kind != Esc ==> next == s
  {
    FlatStep([On(s), RootOn()], IsFinal(s), s, e)
  }

  /** The root-level ESC closes every state that is not yet closed. */
  lemma EscCloses(s: State, e: Event)
    requires e.kind == Esc
    ensures Step(s, e) == Closed
  {
    LookupChildThenParent(On(s), RootOn(), e);
  }

  lemma QuestionTransitions(e: Event)
    ensures e.kind == ClickGood ==> Step(Question, e) == Thanks
    ensures e.kind == ClickBad ==> Step(Question, e) == Form
    ensures e.kind == Close ==> Step(Question, e) == Closed
  {
  }

  /**
   * SUBMIT from `form` always reaches `thanks`: the first, guarded, candidate
   * is enabled exactly for a non-empty value, and the second, the fallback, is
   * enabled for every event, the empty string included.
   */
  lemma FormSubmitAlwaysThanks(e: Event)
    requires e.kind == Submit
    ensures Step(Form, e) == Thanks
    ensures |On(Form)[Submit]| == 2
    ensures On(Form)[Submit][0].cond(e) <==> ValueNonEmpty(e)
    ensures On(Form)[Submit][1].cond(e)
  {
    LookupChildThenParent(On(Form), RootOn(), e);
  }

  /** `thanks` closes on CLOSE and ESC only; `closed` absorbs every event. */
  lemma ThanksAndClosed(e: Event)
    ensures Step(Thanks, e) == (if e.kind == Close || e.kind == Esc then Closed else Thanks)
    ensures Step(Closed, e) == Closed
  {
    LookupChildThenParent(On(Thanks), RootOn(), e);
  }

}
