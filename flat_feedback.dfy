/**
 * The four states shared by the flat machine configurations, and the state
 * names they carry, which are the names `feedbackReducer` switches on.
 */
module FlatFeedback {

  import FeedbackReducer
  import opened Xstate

  datatype State = Question | Form | Thanks | Closed

  /** The state's key in the configuration's `states` object. */
  function Name(s: State): (name: string)
    ensures name in FeedbackReducer.States
  {
    match s
    case Question => FeedbackReducer.QUESTION
    case Form => FeedbackReducer.FORM
    case Thanks => FeedbackReducer.THANKS
    case Closed => FeedbackReducer.CLOSED
  }

  /** Distinct states have distinct names, and every reducer state is named. */
  lemma NameBijective(s: State, t: State, name: string)
    ensures Name(s) == Name(t) ==> s == t
    ensures name in FeedbackReducer.States ==> exists u :: Name(u) == name
  {
    if name in FeedbackReducer.States {
      var u :=
        if name == FeedbackReducer.QUESTION then Question
        else if name == FeedbackReducer.FORM then Form
        else if name == FeedbackReducer.THANKS then Thanks
        else Closed;
      assert Name(u) == name;
    }
  }

  /**
   * The event instances the three test models send: one per binding, and
   * SUBMIT once per payload case. The three event maps declare the same
   * bindings and the same cases.
   */
  function TestEvents(): seq<Event> {
    [ Event(ClickGood, None), Event(ClickBad, None), Event(Close, None), Event(Esc, None),
      Event(Submit, Some("something")), Event(Submit, Some("")) ]
  }

  /** SUBMIT is sent with exactly two payloads, one that passes the guard and one that does not. */
  lemma SubmitCases()
    ensures forall e | e in TestEvents() && e.kind == Submit ::
      e == Event(Submit, Some("something")) || e == Event(Submit, Some(""))
    ensures exists e | e in TestEvents() :: e.kind == Submit && ValueNonEmpty(e)
    ensures exists e | e in TestEvents() :: e.kind == Submit && !ValueNonEmpty(e)
  {
    assert TestEvents()[4].kind == Submit && ValueNonEmpty(TestEvents()[4]);
    assert TestEvents()[5].kind == Submit && !ValueNonEmpty(TestEvents()[5]);
  }
}
