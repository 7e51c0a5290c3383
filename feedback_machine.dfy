/**
 * The hierarchical `feedbackMachine`: `form` is a compound state whose
 * children are `pending` (its initial child), `invalid` and `submitted`;
 * `form` itself declares CLOSE and ESC for all of them, and `pending` tries the
 * named guard `formValid` before falling back to `invalid`. The guard's body is
 * not defined by the configuration, so it is a parameter of every transition.
 */
module FeedbackMachine {

  import opened Xstate

  /** The state nodes of the configuration, compound `form` included. */
  datatype Node = QuestionNode | FormNode | PendingNode | InvalidNode | SubmittedNode | AcknowledgeNode | ClosedNode

  datatype FormChild = Pending | Invalid | Submitted

  /** An active configuration: a top-level state, with the active child when it is `form`. */
  datatype State = Question | Form(child: FormChild) | Acknowledge | Closed

  /** The child `form` enters when it is the target of a transition. */
  function FormInitial(): FormChild {
    Pending
  }

  function Initial(): State {
    Question
  }

  predicate IsFinal(s: State) {
    s.Closed?
  }

  /** Each state node's `on` map; `formValid` stands for the guard of that name. */
  function On(n: Node, formValid: Event -> bool): Handlers<Node> {
    match n
    case QuestionNode =>
      map[ClickGood := [Go(AcknowledgeNode)], ClickBad := [Go(FormNode)],
          Close := [Go(ClosedNode)], Esc := [Go(ClosedNode)]]
    case FormNode => map[Close := [Go(ClosedNode)], Esc := [Go(ClosedNode)]]
    case PendingNode => map[Submit := [Candidate(SubmittedNode, formValid), Go(InvalidNode)]]
    case InvalidNode => map[Focus := [Go(PendingNode)]]
    case SubmittedNode => map[]
    case AcknowledgeNode => map[Close := [Go(ClosedNode)], Esc := [Go(ClosedNode)]]
    case ClosedNode => map[]
  }

  /** The node of a form child. */
  function ChildNode(c: FormChild): (n: Node)
    ensures n in {PendingNode, InvalidNode, SubmittedNode}
  {
    match c
    case Pending => PendingNode
    case Invalid => InvalidNode
    case Submitted => SubmittedNode
  }

  /** The configuration a transition to `target` activates; a compound target enters its initial child. */
  function Enter(target: Node): (s: State)
    ensures target == FormNode ==> s == Form(FormInitial())
    ensures forall c :: target == ChildNode(c) ==> s == Form(c)
  {
    match target
    case QuestionNode => Question
    case FormNode => Form(FormInitial())
    case PendingNode => Form(Pending)
    case InvalidNode => Form(Invalid)
    case SubmittedNode => Form(Submitted)
    case AcknowledgeNode => Acknowledge
    case ClosedNode => Closed
  }

  /** The `on` maps of the active nodes, innermost first: a form child, then `form`. */
  function ActiveHandlers(s: State, formValid: Event -> bool): (chain: seq<Handlers<Node>>)
    ensures s.Form? ==> chain == [On(ChildNode(s.child), formValid), On(FormNode, formValid)]
  {
    match s
    case Question => [On(QuestionNode, formValid)]
    case Form(c) => [On(ChildNode(c), formValid), On(FormNode, formValid)]
    case Acknowledge => [On(AcknowledgeNode, formValid)]
    case Closed => [On(ClosedNode, formValid)]
  }

  /**
   * One transition: a final state accepts nothing; otherwise the innermost
   * active node with an enabled candidate decides, and the configuration it
   * targets is entered; no enabled candidate means no change.
   */
  function Step(s: State, e: Event, formValid: Event -> bool): (next: State)
    ensures IsFinal(s) ==> next == s
  {
    if IsFinal(s) then s
    else
      match Lookup(ActiveHandlers(s, formValid), e)
      case Some(target) => Enter(target)
      case None => s
  }

  /** Entering `form` with CLICK_BAD lands in its initial child `pending`. */
  lemma ClickBadEntersPending(e: Event, formValid: Event -> bool)
    requires e.kind == ClickBad
    ensures Step(Question, e, formValid) == Form(Pending)
  {
  }

  /**
   * SUBMIT in `pending` goes to `submitted` when `formValid` holds and falls
   * back to `invalid` otherwise; it is never a no-op.
   */
  lemma PendingSubmit(e: Event, formValid: Event -> bool)
    requires e.kind == Submit
    ensures Step(Form(Pending), e, formValid) == (if formValid(e) then Form(Submitted) else Form(Invalid))
    ensures Step(Form(Pending), e, formValid) != Form(Pending)
  {
    var cands := [Candidate(SubmittedNode, formValid), Go(InvalidNode)];
    assert Candidates(On(PendingNode, formValid), e) == cands;
    if formValid(e) {
      assert Select(cands, e) == Some(SubmittedNode);
    } else {
      assert cands[1..] == [Go(InvalidNode)];
      assert Select(cands, e) == Some(InvalidNode);
    }
    LookupChildThenParent(On(PendingNode, formValid), On(FormNode, formValid), e);
  }

  /** FOCUS takes `invalid` back to `pending`. */
  lemma InvalidFocus(e: Event, formValid: Event -> bool)
    requires e.kind == Focus
    ensures Step(Form(Invalid), e, formValid) == Form(Pending)
  {
  }

  /**
   * CLOSE and ESC, declared on `form`, close every child, `submitted` (which
   * declares nothing) included.
   */
  lemma FormCloses(c: FormChild, e: Event, formValid: Event -> bool)
    requires e.kind == Close || e.kind == Esc
    ensures Step(Form(c), e, formValid) == Closed
  {
    LookupChildThenParent(On(ChildNode(c), formValid), On(FormNode, formValid), e);
  }

  /** CLICK_GOOD goes to `acknowledge`, which CLOSE and ESC close; nothing else leaves it. */
  lemma AcknowledgeTransitions(e: Event, formValid: Event -> bool)
    ensures e.kind == ClickGood ==> Step(Question, e, formValid) == Acknowledge
    ensures Step(Acknowledge, e, formValid) == (if e.kind == Close || e.kind == Esc then Closed else Acknowledge)
  {
    LookupSingle(On(QuestionNode, formValid), e);
    LookupSingle(On(AcknowledgeNode, formValid), e);
  }

  /** `closed` is final: every event leaves it as it is. */
  lemma ClosedIsFinal(e: Event, formValid: Event -> bool)
    ensures Step(Closed, e, formValid) == Closed
  {
  }

  /** SUBMIT outside `pending` and FOCUS outside `invalid` are no-ops. */
  lemma SubmitAndFocusElsewhere(s: State, e: Event, formValid: Event -> bool)
    ensures e.kind == Submit && s != Form(Pending) ==> Step(s, e, formValid) == s
    ensures e.kind == Focus && s != Form(Invalid) ==> Step(s, e, formValid) == s
  {
    if s.Form? {
      LookupChildThenParent(On(ChildNode(s.child), formValid), On(FormNode, formValid), e);
    } else if !s.Closed? {
      LookupSingle(ActiveHandlers(s, formValid)[0], e);
    }
  }

  /** The event types under which each configuration changes. */
  function Handled(s: State): set<Kind> {
    match s
    case Question => {ClickGood, ClickBad, Close, Esc}
    case Form(Pending) => {Submit, Close, Esc}
    case Form(Invalid) => {Focus, Close, Esc}
    case Form(Submitted) => {Close, Esc}
    case Acknowledge => {Close, Esc}
    case Closed => {}
  }

  /**
   * A configuration changes exactly under the event types it or its parent
   * declares: every declared candidate list has an enabled candidate whatever
   * `formValid` says, and no declared transition is a self-transition.
   */
  lemma ChangesIffHandled(s: State, e: Event, formValid: Event -> bool)
    ensures Step(s, e, formValid) != s <==> e.kind in Handled(s)
  {
    match s
    case Question => LookupSingle(On(QuestionNode, formValid), e);
    case Form(c) =>
      LookupChildThenParent(On(ChildNode(c), formValid), On(FormNode, formValid), e);
    case Acknowledge => AcknowledgeTransitions(e, formValid);
    case Closed =>
  }

  /** `acknowledge`, `form.pending` and `closed` are one step from `question`, whatever `formValid` says. */
  lemma ReachableInOneStep(formValid: Event -> bool)
    ensures Run((s, e) => Step(s, e, formValid), Initial(), [Event(ClickGood, None)]) == Acknowledge
    ensures Run((s, e) => Step(s, e, formValid), Initial(), [Event(ClickBad, None)]) == Form(Pending)
    ensures Run((s, e) => Step(s, e, formValid), Initial(), [Event(Close, None)]) == Closed
  {
    ClickBadEntersPending(Event(ClickBad, None), formValid);
    AcknowledgeTransitions(Event(ClickGood, None), formValid);
    LookupSingle(On(QuestionNode, formValid), Event(Close, None));
  }

  /** `form.submitted` is two steps from `question`, through a SUBMIT the guard accepts. */
  lemma ReachableSubmitted(formValid: Event -> bool, ok: Event)
    requires ok.kind == Submit && formValid(ok)
    ensures Run((s, e) => Step(s, e, formValid), Initial(), [Event(ClickBad, None), ok]) == Form(Submitted)
  {
    var step := (s, e) => Step(s, e, formValid);
    ClickBadEntersPending(Event(ClickBad, None), formValid);
    PendingSubmit(ok, formValid);
    RunAppend(step, Initial(), [Event(ClickBad, None)], [ok]);
    assert [Event(ClickBad, None)] + [ok] == [Event(ClickBad, None), ok];
  }

  /** `form.invalid` is two steps from `question`, through a SUBMIT the guard rejects. */
  lemma ReachableInvalid(formValid: Event -> bool, bad: Event)
    requires bad.kind == Submit && !formValid(bad)
    ensures Run((s, e) => Step(s, e, formValid), Initial(), [Event(ClickBad, None), bad]) == Form(Invalid)
  {
    var step := (s, e) => Step(s, e, formValid);
    ClickBadEntersPending(Event(ClickBad, None), formValid);
    PendingSubmit(bad, formValid);
    RunAppend(step, Initial(), [Event(ClickBad, None)], [bad]);
    assert [Event(ClickBad, None)] + [bad] == [Event(ClickBad, None), bad];
  }
}
