/**
 * How the machine configurations relate to `feedbackReducer`. The component
 * dispatches GOOD for a click on "Good", BAD for "Bad", CLOSE for the close
 * button and for the Escape key, and SUBMIT with the response for the form;
 * `UiAction` is that mapping from a test model's event to the action the
 * component dispatches.
 */
module Conformance {

  import opened Xstate
  import R = FeedbackReducer
  import opened FlatFeedback
  import JestMachine
  import E2eMachine
  import CypressMachine
  import FeedbackMachine

  /** The action the component dispatches when the test model's event is performed on it. */
  function UiAction(e: Event): (a: R.Action)
    // the "Good" and "Bad" buttons dispatch GOOD and BAD
    ensures e.kind == ClickGood ==> a == R.Action(R.GOOD, None)
    ensures e.kind == ClickBad ==> a == R.Action(R.BAD, None)
    // the close button and the Escape key both dispatch CLOSE
    ensures e.kind == Close || e.kind == Esc ==> a == R.Action(R.CLOSE, None)
    // the form dispatches SUBMIT with the response as its value
    ensures e.kind == Submit ==> a == R.Action(R.SUBMIT, e.value)
    // FOCUS has no counterpart in the component: every state ignores it
    ensures e.kind == Focus ==> forall state: string :: R.Reduce(state, a) == state
  {
    match e.kind
    case ClickGood => R.Action(R.GOOD, None)
    case ClickBad => R.Action(R.BAD, None)
    case Close => R.Action(R.CLOSE, None)
    case Esc => R.Action(R.CLOSE, None)
    case Submit => R.Action(R.SUBMIT, e.value)
    // the component has no FOCUS action; the reducer's default branch takes it
    case Focus => R.Action("FOCUS", None)
  }

  /** The Cypress machine agrees with the reducer on every state and every event. */
  lemma CypressConformsToReducer(s: State, e: Event)
    ensures Name(CypressMachine.Step(s, e)) == R.Reduce(Name(s), UiAction(e))
  {
    if s != Closed {
      LookupChildThenParent(CypressMachine.On(s), CypressMachine.RootOn(), e);
      if s == Form && e.kind == Submit {
        CypressMachine.FormSubmitAlwaysThanks(e);
      }
    }
  }

  /**
   * The Jest machine agrees with the reducer except on ESC in a state that is
   * not closed (the machine ignores it, the component closes) and on SUBMIT
   * with an empty or missing value in `form` (the machine stays, the component
   * thanks).
   */
  lemma JestAgreesIff(s: State, e: Event)
    ensures Name(JestMachine.Step(s, e)) == R.Reduce(Name(s), UiAction(e)) <==>
      && !(s != Closed && e.kind == Esc)
      && !(s == Form && e.kind == Submit && !ValueNonEmpty(e))
  {
    LookupSingle(JestMachine.On(s), e);
    NameBijective(JestMachine.Step(s, e), s, "");
    NameBijective(JestMachine.Step(s, e), Thanks, "");
    NameBijective(JestMachine.Step(s, e), Closed, "");
  }

  /** The divergence the Jest and puppeteer tests never exercise: an empty response. */
  lemma JestDivergesOnEmptySubmit()
    ensures JestMachine.Step(Form, Event(Submit, Some(""))) == Form
    ensures E2eMachine.Step(Form, Event(Submit, Some(""))) == Form
    ensures R.Reduce(R.FORM, UiAction(Event(Submit, Some("")))) == R.THANKS
    ensures CypressMachine.Step(Form, Event(Submit, Some(""))) == Thanks
  {
    CypressMachine.FormSubmitAlwaysThanks(Event(Submit, Some("")));
    JestMachine.FormTransitions(Event(Submit, Some("")));
    E2eMachine.FormTransitions(Event(Submit, Some("")));
  }

  /** The reducer state a hierarchical configuration corresponds to: `acknowledge` is the thanks screen. */
  function Abstract(s: FeedbackMachine.State): (name: string)
    ensures name in R.States
    ensures s.Form? <==> name == R.FORM
  {
    match s
    case Question => R.QUESTION
    case Form(_) => R.FORM
    case Acknowledge => R.THANKS
    case Closed => R.CLOSED
  }

  /**
   * Seen through `Abstract`, the hierarchical machine agrees with the reducer
   * on every event except SUBMIT inside `form`, where the machine stays in the
   * form (it moves between its children) while the component thanks.
   */
  lemma HierarchicalAgreesIff(s: FeedbackMachine.State, e: Event, formValid: Event -> bool)
    ensures Abstract(FeedbackMachine.Step(s, e, formValid)) == R.Reduce(Abstract(s), UiAction(e)) <==>
      !(s.Form? && e.kind == Submit)
  {
    match s
    case Question => LookupSingle(FeedbackMachine.On(FeedbackMachine.QuestionNode, formValid), e);
    case Form(c) =>
      LookupChildThenParent(
        FeedbackMachine.On(FeedbackMachine.ChildNode(c), formValid),
        FeedbackMachine.On(FeedbackMachine.FormNode, formValid), e);
    case Acknowledge => LookupSingle(FeedbackMachine.On(FeedbackMachine.AcknowledgeNode, formValid), e);
    case Closed =>
  }
}
