/**
 * The flat machine the Jest model-based test builds: four states, a single
 * guarded SUBMIT candidate in `form`, and `closed` final. The test model's
 * event map adds ESC, which no state declares, and expands SUBMIT into two
 * payload cases.
 */
module JestMachine {

  import opened Xstate
  import opened FlatFeedback

  /** Each state node's `on` map. */
  function On(s: State): Handlers<State> {
    match s
    case Question => map[ClickGood := [Go(Thanks)], ClickBad := [Go(Form)], Close := [Go(Closed)]]
    case Form => map[Submit := [Candidate(Thanks, ValueNonEmpty)], Close := [Go(Closed)]]
    case Thanks => map[Close := [Go(Closed)]]
    case Closed => map[]
  }

  function Initial(): State {
    Question
  }

  predicate IsFinal(s: State) {
    s == Closed
  }

  /**
   * One transition: a final state accepts nothing; otherwise the first enabled
   * candidate the state declares for the event decides, and none means no change.
   */
  function Step(s: State, e: Event): (next: State)
    ensures IsFinal(s) ==> next == s
    ensures e.kind !in On(s) ==> next == s
  {
    FlatStep([On(s)], IsFinal(s), s, e)
  }

  lemma QuestionTransitions(e: Event)
    ensures e.kind == ClickGood ==> Step(Question, e) == Thanks
    ensures e.kind == ClickBad ==> Step(Question, e) == Form
    ensures e.kind == Close ==> Step(Question, e) == Closed
  {
  }

  /** SUBMIT leaves the form exactly when its value is a non-empty string; CLOSE closes it. */
  lemma FormTransitions(e: Event)
    ensures e.kind == Submit ==> Step(Form, e) == (if ValueNonEmpty(e) then Thanks else Form)
    ensures Step(Form, Event(Submit, Some(""))) == Form
    ensures Step(Form, Event(Submit, Some("something"))) == Thanks
    ensures e.kind == Close ==> Step(Form, e) == Closed
  {
    LookupSingle(On(Form), e);
    LookupSingle(On(Form), Event(Submit, Some("")));
  }

  /** `thanks` only closes; `closed` absorbs every event. */
  lemma ThanksAndClosed(e: Event)
    ensures Step(Thanks, e) == (if e.kind == Close then Closed else Thanks)
    ensures Step(Closed, e) == Closed
  {
  }

  /** ESC is bound in the test model but declared by no state: it never changes the state. */
  lemma EscIsNoOp(s: State, e: Event)
    requires e.kind == Esc
    ensures Step(s, e) == s
  {
  }

  /** A path of the test model's own events from the initial state to `target`. */
  function PathTo(target: State): (events: seq<Event>)
    ensures |events| <= 1
    ensures forall i | 0 <= i < |events| :: events[i] in TestEvents()
    ensures Run(Step, Initial(), events) == target
  {
    match target
    case Question => []
    case Form => [Event(ClickBad, None)]
    case Thanks => [Event(ClickGood, None)]
    case Closed => [Event(Close, None)]
  }

  /** Every state is reachable from `question`, as the coverage test expects. */
  lemma AllStatesReachable(target: State)
    ensures exists events: seq<Event> ::
      && (forall i | 0 <= i < |events| :: events[i] in TestEvents())
      && Run(Step, Initial(), events) == target
  {
    var events := PathTo(target);
    assert Run(Step, Initial(), events) == target;
  }
}
