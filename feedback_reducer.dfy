/**
 * `feedbackReducer` of the feedback widget: a total transition function over
 * state names, switching on the state and then on `event.type`. States and
 * event types are strings here, as in the component, so that unrecognised
 * states and event types can be stated about.
 */
module FeedbackReducer {

  import opened Xstate

  const QUESTION: string := "question"
  const FORM: string := "form"
  const THANKS: string := "thanks"
  const CLOSED: string := "closed"

  const GOOD: string := "GOOD"
  const BAD: string := "BAD"
  const CLOSE: string := "CLOSE"
  const SUBMIT: string := "SUBMIT"

  /** The four screens of the widget. */
  const States: set<string> := {QUESTION, FORM, THANKS, CLOSED}

  /** An action `{ type, value? }` sent to the reducer. */
  datatype Action = Action(kind: string, value: Option<string>)

  /** The event types each state's inner `switch` lists; the other states list none. */
  function Handled(state: string): (kinds: set<string>)
    ensures state !in {QUESTION, FORM, THANKS} ==> kinds == {}
  {
    if state == QUESTION then {GOOD, BAD, CLOSE}
    else if state == FORM then {SUBMIT, CLOSE}
    else if state == THANKS then {CLOSE}
    else {}
  }

  function Reduce(state: string, action: Action): (next: string)
    // closure: the four screens only lead to the four screens
    ensures state in States ==> next in States
    // `closed` and every unrecognised state are absorbing
    ensures state !in {QUESTION, FORM, THANKS} ==> next == state
    // an event type the state does not list leaves it unchanged
    ensures action.kind !in Handled(state) ==> next == state
  {
    if state == QUESTION then
      if action.kind == GOOD then THANKS
      else if action.kind == BAD then FORM
      else if action.kind == CLOSE then CLOSED
      else state
    else if state == FORM then
      if action.kind == SUBMIT then THANKS
      else if action.kind == CLOSE then CLOSED
      else state
    else if state == THANKS then
      if action.kind == CLOSE then CLOSED
      else state
    else state
  }

  /** The state `useReducer` starts from. */
  function Initial(): (s: string)
    ensures s in States && Handled(s) == {GOOD, BAD, CLOSE}
  {
    QUESTION
  }

  /** The state after dispatching the actions one by one. */
  function RunActions(state: string, actions: seq<Action>): (last: string)
    ensures state in States ==> last in States
    ensures state !in {QUESTION, FORM, THANKS} ==> last == state
    decreases |actions|
  {
    if actions == [] then state else RunActions(Reduce(state, actions[0]), actions[1..])
  }

  lemma QuestionTransitions(v: Option<string>)
    ensures Reduce(QUESTION, Action(GOOD, v)) == THANKS
    ensures Reduce(QUESTION, Action(BAD, v)) == FORM
    ensures Reduce(QUESTION, Action(CLOSE, v)) == CLOSED
  {
  }

  /** SUBMIT leaves the form for the thanks screen whatever its payload, the empty string included. */
  lemma FormTransitions(v: Option<string>)
    ensures Reduce(FORM, Action(SUBMIT, v)) == THANKS
    ensures Reduce(FORM, Action(SUBMIT, Some(""))) == THANKS
    ensures Reduce(FORM, Action(CLOSE, v)) == CLOSED
  {
  }

  /** On the thanks screen only CLOSE does anything, and it closes. */
  lemma ThanksOnlyClose(a: Action)
    ensures Reduce(THANKS, a) == (if a.kind == CLOSE then CLOSED else THANKS)
  {
  }

  /**
   * Every listed event type changes the state, and nothing else does: the
   * reducer never maps a state to itself through a listed case and never fails.
   */
  lemma ChangesIffHandled(state: string, a: Action)
    ensures Reduce(state, a) != state <==> a.kind in Handled(state)
  {
  }

  /** CLOSE closes every screen in one step, and closing again changes nothing. */
  lemma CloseIdempotent(state: string, v: Option<string>)
    ensures Reduce(Reduce(state, Action(CLOSE, v)), Action(CLOSE, v)) == Reduce(state, Action(CLOSE, v))
    ensures state in States ==> Reduce(state, Action(CLOSE, v)) == CLOSED
  {
  }

  /** A shortest action sequence from the initial state to `target`: one step at most. */
  function PathTo(target: string): (actions: seq<Action>)
    requires target in States
    ensures |actions| <= 1
    ensures RunActions(Initial(), actions) == target
  {
    if target == QUESTION then []
    else if target == FORM then [Action(BAD, None)]
    else if target == THANKS then [Action(GOOD, None)]
    else [Action(CLOSE, None)]
  }

  /** The thanks screen is also reached through the form, with an empty response too. */
  lemma ThanksThroughForm(v: Option<string>)
    ensures RunActions(Initial(), [Action(BAD, None), Action(SUBMIT, v)]) == THANKS
  {
    var actions := [Action(BAD, None), Action(SUBMIT, v)];
    assert Reduce(Initial(), actions[0]) == FORM;
    assert actions[1..] == [Action(SUBMIT, v)];
    assert Reduce(FORM, actions[1..][0]) == THANKS;
    assert RunActions(THANKS, actions[1..][1..]) == THANKS;
  }

  /** Every screen is reachable from the initial one, in one step at most. */
  lemma Reachable(target: string)
    requires target in States
    ensures exists actions: seq<Action> :: |actions| <= 1 && RunActions(Initial(), actions) == target
  {
    var actions := PathTo(target);
    assert |actions| <= 1 && RunActions(Initial(), actions) == target;
  }
}
