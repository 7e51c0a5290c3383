/**
 * The flat machine of the puppeteer end-to-end test, declared separately from
 * the Jest one with the same states, guard and test-model events.
 */
module E2eMachine {

  import opened Xstate
  import opened FlatFeedback
  import JestMachine

  /** Each state node's `on` map. */
  function On(s: State): Handlers<State> {
    match s
    case Question => map[ClickGood := [Go(Thanks)], ClickBad := [Go(Form)], Close := [Go(Closed)]]
    case Form => map[Submit := [Candidate(Thanks, ValueNonEmpty)], Close := [Go(Closed)]]
    case Thanks => map[Close := [Go(Closed)]]
    case Closed => map[]
  }

  function Initial(): State {
    Question
  }

  predicate IsFinal(s: State) {
    s == Closed
  }

  /**
   * One transition: a final state accepts nothing; otherwise the first enabled
   * candidate the state declares for the event decides, and none means no change.
   */
  function Step(s: State, e: Event): (next: State)
    ensures IsFinal(s) ==> next == s
    ensures e.kind !in On(s) ==> next == s
  {
    FlatStep([On(s)], IsFinal(s), s, e)
  }

  /** This machine and the Jest machine have the same initial state, final state and transitions. */
  lemma SameAsJest(s: State, e: Event)
    ensures Initial() == JestMachine.Initial()
    ensures IsFinal(s) <==> JestMachine.IsFinal(s)
    ensures Step(s, e) == JestMachine.Step(s, e)
  {
  }

  /** In `form`, SUBMIT leaves only with a non-empty value; CLOSE closes. */
  lemma FormTransitions(e: Event)
    ensures e.kind == Submit ==> Step(Form, e) == (if ValueNonEmpty(e) then Thanks else Form)
    ensures Step(Form, Event(Submit, Some(""))) == Form
    ensures e.kind == Close ==> Step(Form, e) == Closed
  {
    LookupSingle(On(Form), e);
    LookupSingle(On(Form), Event(Submit, Some("")));
  }

  /** ESC is bound in the test model but declared by no state: it never changes the state. */
  lemma EscIsNoOp(s: State, e: Event)
    requires e.kind == Esc
    ensures Step(s, e) == s
  {
  }

  /** Every state is reachable from `question` with the test model's events, as the coverage test expects. */
  lemma AllStatesReachable(target: State)
    ensures exists events: seq<Event> ::
      && (forall i | 0 <= i < |events| :: events[i] in TestEvents())
      && Run(Step, Initial(), events) == target
  {
    var events := JestMachine.PathTo(target);
    RunAgrees(Initial(), events);
  }

  /** Running both machines on the same events ends in the same state. */
  lemma {:induction false} RunAgrees(s: State, events: seq<Event>)
    ensures Run(Step, s, events) == Run(JestMachine.Step, s, events)
    decreases |events|
  {
    if events != [] {
      SameAsJest(s, events[0]);
      RunAgrees(Step(s, events[0]), events[1..]);
    }
  }
}
