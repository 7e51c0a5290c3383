# Feedback widget workflow, modelled in Dafny

The repository is a small React feedback widget (question → form or thanks →
closed) together with model-based tests that describe the same workflow as
xstate machine configurations. This project models that one workflow in each
of the forms the repository writes it down, and proves how they relate:

- `feedbackReducer`, the component's pure transition function over the state
  names `question`, `form`, `thanks` and `closed` (module `FeedbackReducer`,
  on strings as in the component, so unrecognised states and event types are
  covered);
- the flat machine of the Jest test and the identical one of the puppeteer
  test (`JestMachine`, `E2eMachine`), with one guarded SUBMIT candidate;
- the flat machine of the Cypress test (`CypressMachine`), with a root-level
  ESC and an unconditional SUBMIT fallback;
- the hierarchical `feedbackMachine` (`FeedbackMachine`), whose compound
  `form` state has the children `pending`, `invalid` and `submitted`, a named
  guard `formValid`, and CLOSE/ESC declared on `form` for all children.

Module `Xstate` holds the transition semantics the configurations rely on:
an `on` map from event type to an ordered list of candidates
`{ target, cond? }`; the first candidate whose guard holds wins; a state with
no enabled candidate defers to its parent (innermost first); no enabled
candidate anywhere means no change; a final state accepts nothing. The inline
guard `(_, e) => e.value.length` is `ValueNonEmpty`; `formValid`, which the
configuration names but never defines, is a parameter `formValid: Event -> bool`.
Module `Conformance` maps each test-model event to the action the component
dispatches (a click on "Good" dispatches GOOD, "Bad" dispatches BAD, the close
button and the Escape key dispatch CLOSE, the form dispatches SUBMIT) and
proves where each machine agrees with the reducer.

Everything is finite and side-effect free, so the model consists of datatypes,
functions and lemmas only.

## Model

| member | source | states |
|---|---|---|
| `Xstate.Go` | src/App.test.js:47-49 | the `EVENT: 'target'` shorthand is a candidate for that target whose guard holds for every event |
| `Xstate.ValueNonEmpty` | src/App.test.js:62 | the inline guard `(_, e) => e.value.length` (also cypress/integration/App.spec.js:32 and src/App.e2e.js:26) holds for a non-empty string payload and fails for "" and for a missing payload |
| `Xstate.FlatStep` | cypress/integration/App.spec.js:6-69 | a machine without compound states: a final state accepts nothing, and an event type that neither the state's `on` nor the root's declares leaves the state unchanged |
| `Xstate.SelectFirstEnabled` | cypress/integration/App.spec.js:29-37 | candidates are tried in order: the chosen target is that of an enabled candidate with no enabled candidate before it, and nothing is chosen exactly when no candidate is enabled |
| `Xstate.LookupInnermostFirst` | src/feedbackMachine.js:15-36 | along the chain of active nodes, innermost first, the first node with an enabled candidate decides; the lookup fails exactly when no node has one |
| `Xstate.LookupChildThenParent` | src/feedbackMachine.js:17-36 | a parent's candidates are consulted only when the active child has none enabled for the event |
| `FeedbackReducer.Reduce` | src/App.js:157-189 | the four screens lead only to the four screens; `closed` and every unrecognised state are absorbing; an event type the state's switch does not list leaves the state unchanged (the reducer is total) |
| `FeedbackReducer.Initial` | src/App.js:192 | the reducer starts in `question`, one of the four screens, which lists GOOD, BAD and CLOSE |
| `FeedbackReducer.RunActions` | src/App.js:157-189 | any sequence of actions from a screen ends on a screen; from `closed` or an unrecognised state it changes nothing |
| `FeedbackReducer.QuestionTransitions` | src/App.js:159-166 | from `question`, GOOD goes to `thanks`, BAD to `form`, CLOSE to `closed` |
| `FeedbackReducer.FormTransitions` | src/App.js:170-175 | from `form`, SUBMIT goes to `thanks` whatever its value, the empty string and a missing value included; CLOSE goes to `closed` |
| `FeedbackReducer.ThanksOnlyClose` | src/App.js:179-184 | from `thanks`, CLOSE goes to `closed` and every other event type leaves it on `thanks` |
| `FeedbackReducer.ChangesIffHandled` | src/App.js:157-189 | the state changes exactly when the event type is one its switch lists: every listed case moves, every default branch stays |
| `FeedbackReducer.CloseIdempotent` | src/App.js:165-187 | CLOSE reaches `closed` in one step from every screen, and applying CLOSE twice is the same as once, for every state |
| `FeedbackReducer.PathTo` | src/App.js:161-166 | for each screen, an action sequence of at most one step from the initial state that ends on it |
| `FeedbackReducer.ThanksThroughForm` | src/App.js:163-173 | BAD then SUBMIT from the initial state reaches `thanks` for every value, the empty one included |
| `FeedbackReducer.Reachable` | src/App.js:157-192 | every screen is reachable from the initial state in at most one step |
| `FlatFeedback.Name` | src/App.test.js:44-90 | the state keys of the flat configurations are reducer screens |
| `FlatFeedback.NameBijective` | src/App.test.js:44-90 | the state keys and the reducer's screen names correspond one to one |
| `FlatFeedback.SubmitCases` | src/App.test.js:108-116 | the SUBMIT event instances of the test models (also cypress/integration/App.spec.js:87-94 and src/App.e2e.js:72-78) are exactly "something" and "", one passing the guard and one failing it |
| `JestMachine.Step` | src/App.test.js:41-92 | `closed` is final and accepts nothing; an event type the state does not declare leaves it unchanged |
| `JestMachine.QuestionTransitions` | src/App.test.js:45-50 | from `question`, CLICK_GOOD goes to `thanks`, CLICK_BAD to `form`, CLOSE to `closed` |
| `JestMachine.FormTransitions` | src/App.test.js:57-66 | in `form`, SUBMIT goes to `thanks` exactly when its value is non-empty and otherwise stays, "" staying and "something" leaving; CLOSE closes |
| `JestMachine.ThanksAndClosed` | src/App.test.js:73-90 | `thanks` changes only on CLOSE, to `closed`; `closed` absorbs every event |
| `JestMachine.EscIsNoOp` | src/App.test.js:105-107 | ESC, bound by the test model but declared by no state, leaves every state unchanged |
| `JestMachine.PathTo` | src/App.test.js:41-92 | for each state, a path of the test model's own events, at most one long, from `question` to it |
| `JestMachine.AllStatesReachable` | src/App.test.js:135-137 | every state is reachable from `question` using the test model's events, which the coverage test requires |
| `E2eMachine.Step` | src/App.e2e.js:5-56 | `closed` is final and accepts nothing; an event type the state does not declare leaves it unchanged |
| `E2eMachine.SameAsJest` | src/App.e2e.js:5-56 | same initial state, same final state and same transition on every state and event as the Jest machine, proved from the two separately written `on` tables |
| `E2eMachine.RunAgrees` | src/App.e2e.js:5-56 | any event sequence ends in the same state on this machine and on the Jest machine |
| `E2eMachine.FormTransitions` | src/App.e2e.js:21-30 | in `form`, SUBMIT leaves for `thanks` only with a non-empty value and stays with ""; CLOSE closes |
| `E2eMachine.EscIsNoOp` | src/App.e2e.js:69-71 | ESC, bound by the test model but declared by no state, leaves every state unchanged |
| `E2eMachine.AllStatesReachable` | src/App.e2e.js:99-101 | every state is reachable from `question` using the test model's events, which the coverage test requires |
| `CypressMachine.Step` | cypress/integration/App.spec.js:6-69 | `closed` is final and accepts nothing; an event type neither the state nor the root declares leaves it unchanged |
| `CypressMachine.EscCloses` | cypress/integration/App.spec.js:9-11 | the root-level ESC takes every state to `closed` |
| `CypressMachine.QuestionTransitions` | cypress/integration/App.spec.js:13-18 | from `question`, CLICK_GOOD goes to `thanks`, CLICK_BAD to `form`, CLOSE to `closed` |
| `CypressMachine.FormSubmitAlwaysThanks` | cypress/integration/App.spec.js:29-37 | SUBMIT from `form` always reaches `thanks`; there are two candidates, the first, guarded, one enabled exactly for a non-empty value and the second, the fallback, enabled for every event |
| `CypressMachine.ThanksAndClosed` | cypress/integration/App.spec.js:46-60 | `thanks` changes only on CLOSE or ESC, to `closed`; `closed` absorbs every event |
| `FeedbackMachine.Enter` | src/feedbackMachine.js:15-31 | a transition to the compound `form` enters its initial child `pending`; a transition to a child enters that child |
| `FeedbackMachine.Step` | src/feedbackMachine.js:3-48 | the final `closed` accepts nothing |
| `FeedbackMachine.ClickBadEntersPending` | src/feedbackMachine.js:10-16 | CLICK_BAD from `question` lands in `form.pending` |
| `FeedbackMachine.PendingSubmit` | src/feedbackMachine.js:20-23 | SUBMIT in `form.pending` goes to `form.submitted` when `formValid` holds and to `form.invalid` otherwise; it is never a no-op |
| `FeedbackMachine.InvalidFocus` | src/feedbackMachine.js:26-29 | FOCUS takes `form.invalid` back to `form.pending` |
| `FeedbackMachine.FormCloses` | src/feedbackMachine.js:31-36 | CLOSE and ESC declared on `form` close every child, `submitted` included |
| `FeedbackMachine.AcknowledgeTransitions` | src/feedbackMachine.js:7-43 | CLICK_GOOD from `question` goes to `acknowledge`; `acknowledge` goes to `closed` on CLOSE or ESC and stays on every other event |
| `FeedbackMachine.ClosedIsFinal` | src/feedbackMachine.js:44-46 | `closed` leaves every event unchanged |
| `FeedbackMachine.SubmitAndFocusElsewhere` | src/feedbackMachine.js:7-47 | SUBMIT outside `form.pending` and FOCUS outside `form.invalid` change nothing |
| `FeedbackMachine.ChangesIffHandled` | src/feedbackMachine.js:7-47 | a configuration changes exactly under the event types it or its parent declares, whatever `formValid` says |
| `FeedbackMachine.ReachableInOneStep` | src/feedbackMachine.js:5-16 | for every `formValid`, CLICK_GOOD, CLICK_BAD and CLOSE take `question` to `acknowledge`, `form.pending` and `closed` |
| `FeedbackMachine.ReachableSubmitted` | src/feedbackMachine.js:10-22 | CLICK_BAD followed by a SUBMIT the guard accepts reaches `form.submitted` |
| `FeedbackMachine.ReachableInvalid` | src/feedbackMachine.js:10-23 | CLICK_BAD followed by a SUBMIT the guard rejects reaches `form.invalid` |
| `Conformance.UiAction` | src/App.js:198-211 | the action the component dispatches for each test-model event: a click on "Good" dispatches GOOD and one on "Bad" dispatches BAD (src/App.js:198-199), the close button and the Escape key (src/App.js:88, 109, 147) both dispatch CLOSE, the form dispatches SUBMIT with the response, and FOCUS, which the component never dispatches, is ignored by every reducer state |
| `Conformance.CypressConformsToReducer` | cypress/integration/App.spec.js:9-57 | for every state and event, the Cypress machine's step names the state `feedbackReducer` reaches on the action the component dispatches for that event |
| `Conformance.JestAgreesIff` | src/App.test.js:41-92 | the Jest machine agrees with the reducer exactly when the event is not ESC in an open state and not SUBMIT with an empty or missing value in `form` |
| `Conformance.JestDivergesOnEmptySubmit` | src/App.test.js:59-64 | on SUBMIT with "" in `form`, the Jest and puppeteer machines stay in `form` while the reducer and the Cypress machine go to `thanks` |
| `Conformance.HierarchicalAgreesIff` | src/feedbackMachine.js:3-48 | reading `acknowledge` as the thanks screen and every form child as the form, the hierarchical machine agrees with the reducer exactly on the events that are not SUBMIT inside `form` |

## Left out

- Rendering, JSX screens, styled-components CSS and the keyboard-listener wiring (`useKeyDown`, `useEffect`) are UI and DOM code.
- Conformance.UiAction: maps ESC to CLOSE as the screens' Escape listeners do; the response textarea stops the propagation of an Escape typed inside it, which the mapping leaves out as DOM event handling.
- Conformance.UiAction: the component never dispatches FOCUS; the mapping gives it an action type the reducer does not list, so it falls into the reducer's default branches.
- The test models' driver bindings (testing-library `fireEvent`, Cypress `cy.*`, puppeteer `page.*`) and the per-state `meta.test` assertions act on a live page.
- `@xstate/test`'s `getSimplePathPlans` and `testCoverage` and xstate's interpreter are library code that is not part of this model: path enumeration, plan grouping, plan descriptions and coverage accounting are not modelled; reachability is stated with explicit witness paths instead.
- The test runner's async sequencing, timeouts and jest-puppeteer.config.js are runner configuration.
- The body of `formValid` is defined nowhere, so it stays a parameter.
- Xstate.ValueNonEmpty: a SUBMIT without a value would make `e.value.length` throw in JavaScript; the model treats that guard as not satisfied. Every SUBMIT case of the test models carries a string value, so this never arises there.
- FeedbackReducer.Action: the component's SUBMIT carries an object holding the textarea element rather than a string; the reducer never reads it, so the payload is an opaque optional string.
- Events of types outside the ones the configurations and test models name are not modelled for the machines (the reducer takes arbitrary event type strings).
- The component (src/App.js:172-173) and the Cypress configuration's fallback (cypress/integration/App.spec.js:36) take an empty SUBMIT from `form` to `thanks`, while the Jest and puppeteer configurations stay in `form` (src/App.test.js:59-64, src/App.e2e.js:23-28); the model follows each file's code.

## Findings

| source | as written | input that shows it | evidently intended | confidence | as-written member | corrected member |
|---|---|---|---|---|---|---|
| src/App.test.js:59-64 | SUBMIT in `form` has only the guarded candidate, so an empty response is a self-transition | state `form`, event SUBMIT with value "" | the model should follow the component, which moves to `thanks` on every SUBMIT (src/App.js:172-173); the Cypress configuration adds that fallback (cypress/integration/App.spec.js:34-36) | medium; not executed | `Conformance.JestDivergesOnEmptySubmit` | `Conformance.CypressConformsToReducer` |
| src/App.test.js:41-92 | ESC is bound to an Escape key press (lines 105-107) but no state declares it, so it is a self-transition everywhere | state `question`, event ESC | the component closes on Escape from every screen (src/App.js:88, 109, 147); the Cypress configuration declares ESC on the root (cypress/integration/App.spec.js:9-11) | medium; not executed | `JestMachine.EscIsNoOp` | `Conformance.CypressConformsToReducer` |
