/**
 * The part of xstate's transition semantics that the feedback machines use:
 * events `{ type, value? }`, an `on` map from event type to an ordered list of
 * candidates `{ target, cond? }`, first-enabled-candidate selection, and
 * innermost-first lookup along the chain of active state nodes.
 */
module Xstate {

  datatype Option<T> = None | Some(value: T)

  /** The event types named by the machine configurations and their test models. */
  datatype Kind = ClickGood | ClickBad | Close | Esc | Focus | Submit

  /** An event object: its type and an optional string payload (`e.value`). */
  datatype Event = Event(kind: Kind, value: Option<string>)

  /** One transition candidate; a candidate without `cond` carries `Always`. */
  datatype Candidate<N> = Candidate(target: N, cond: Event -> bool)

  /** A state node's `on` property. */
  type Handlers<N> = map<Kind, seq<Candidate<N>>>

  /** The guard of a candidate written without `cond`. */
  predicate Always(e: Event) {
    true
  }

  /** An unconditional candidate, the expansion of `EVENT: 'target'`. */
  function Go<N>(target: N): (c: Candidate<N>)
    ensures c.target == target && forall e :: c.cond(e)
  {
    Candidate(target, Always)
  }

  /**
   * The inline guard `cond: (_, e) => e.value.length`: truthy exactly when the
   * payload is a non-empty string.
   */
  predicate ValueNonEmpty(e: Event)
    ensures e.value.None? ==> !ValueNonEmpty(e)
    ensures e.value == Some("") ==> !ValueNonEmpty(e)
    ensures forall v: string :: e.value == Some(v) && v != "" ==> ValueNonEmpty(e)
  {
    e.value.Some? && |e.value.value| > 0
  }

  /** The candidates a node declares for the event's type; none when the type is not a key. */
  function Candidates<N>(on: Handlers<N>, e: Event): (cs: seq<Candidate<N>>)
    ensures e.kind !in on ==> cs == []
  {
    if e.kind in on then on[e.kind] else []
  }

  /**
   * The target of the first candidate whose guard holds, or None when no
   * candidate is enabled (the event is then not handled by this node).
   */
  function Select<N>(cands: seq<Candidate<N>>, e: Event): Option<N>
    decreases |cands|
  {
    if cands == [] then None
    else if cands[0].cond(e) then Some(cands[0].target)
    else Select(cands[1..], e)
  }

  /** Select picks the first enabled candidate, and finds none only when none is enabled. */
  lemma {:induction false} SelectFirstEnabled<N>(cands: seq<Candidate<N>>, e: Event)
    ensures Select(cands, e).None? <==> forall i | 0 <= i < |cands| :: !cands[i].cond(e)
    ensures Select(cands, e).Some? ==>
      exists i | 0 <= i < |cands| ::
        && cands[i].cond(e)
        && Select(cands, e) == Some(cands[i].target)
        && forall j | 0 <= j < i :: !cands[j].cond(e)
    decreases |cands|
  {
    if cands != [] && !cands[0].cond(e) {
      SelectFirstEnabled(cands[1..], e);
      assert forall i | 1 <= i < |cands| :: cands[i] == cands[1..][i - 1];
      if Select(cands, e).Some? {
        var i :| 0 <= i < |cands[1..]| && cands[1..][i].cond(e) && Select(cands[1..], e) == Some(cands[1..][i].target)
          && forall j | 0 <= j < i :: !cands[1..][j].cond(e);
        assert cands[i + 1].cond(e) && Select(cands, e) == Some(cands[i + 1].target);
        assert forall j | 0 <= j < i + 1 :: !cands[j].cond(e) by {
          forall j | 0 <= j < i + 1 ensures !cands[j].cond(e) {
            if j > 0 { assert cands[j] == cands[1..][j - 1]; }
          }
        }
      }
    } else if cands != [] {
      assert cands[0].cond(e) && Select(cands, e) == Some(cands[0].target);
    }
  }

  /**
   * Innermost-first lookup: the first node in `chain` (the active leaf first,
   * then its ancestors) that has an enabled candidate for the event decides the
   * target; None when no node handles it.
   */
  function Lookup<N>(chain: seq<Handlers<N>>, e: Event): Option<N>
    decreases |chain|
  {
    if chain == [] then None
    else if Select(Candidates(chain[0], e), e).Some? then Select(Candidates(chain[0], e), e)
    else Lookup(chain[1..], e)
  }

  /** Lookup is decided by the innermost node that handles the event, and fails only when none does. */
  lemma {:induction false} LookupInnermostFirst<N>(chain: seq<Handlers<N>>, e: Event)
    ensures Lookup(chain, e).None? <==> forall k | 0 <= k < |chain| :: Select(Candidates(chain[k], e), e).None?
    ensures Lookup(chain, e).Some? ==>
      exists k | 0 <= k < |chain| ::
        && Select(Candidates(chain[k], e), e) == Lookup(chain, e)
        && forall j | 0 <= j < k :: Select(Candidates(chain[j], e), e).None?
    decreases |chain|
  {
    if chain != [] && Select(Candidates(chain[0], e), e).None? {
      LookupInnermostFirst(chain[1..], e);
      assert forall k | 1 <= k < |chain| :: chain[k] == chain[1..][k - 1];
      if Lookup(chain, e).Some? {
        var k :| 0 <= k < |chain[1..]| && Select(Candidates(chain[1..][k], e), e) == Lookup(chain, e)
          && forall j | 0 <= j < k :: Select(Candidates(chain[1..][j], e), e).None?;
        assert chain[k + 1] == chain[1..][k];
        assert forall j | 0 <= j < k + 1 :: Select(Candidates(chain[j], e), e).None? by {
          forall j | 0 <= j < k + 1 ensures Select(Candidates(chain[j], e), e).None? {
            if j > 0 { assert chain[j] == chain[1..][j - 1]; }
          }
        }
      }
    }
  }

  /**
   * With an active node and its parent, the parent's candidates are consulted
   * only when the node itself has none enabled.
   */
  lemma LookupChildThenParent<N>(child: Handlers<N>, parent: Handlers<N>, e: Event)
    ensures Lookup([child, parent], e) ==
      if Select(Candidates(child, e), e).Some? then Select(Candidates(child, e), e)
      else Select(Candidates(parent, e), e)
  {
    var chain := [child, parent];
    assert chain[0] == child && chain[1..] == [parent];
    LookupSingle(parent, e);
  }

  /** With a single node, lookup is that node's selection. */
  lemma LookupSingle<N>(node: Handlers<N>, e: Event)
    ensures Lookup([node], e) == Select(Candidates(node, e), e)
  {
  }

  /**
   * One transition of a machine whose states have no children: a final state
   * accepts nothing; otherwise the chain (the state's `on`, then the root's, if
   * any) decides, and no enabled candidate means no change.
   */
  function FlatStep<S>(chain: seq<Handlers<S>>, final: bool, s: S, e: Event): (next: S)
    ensures final ==> next == s
    ensures (forall k | 0 <= k < |chain| :: e.kind !in chain[k]) ==> next == s
  {
    if final then s
    else
      LookupInnermostFirst(chain, e);
      match Lookup(chain, e)
      case Some(t) => t
      case None => s
  }

  /** The state after sending the events one by one from `s`. */
  function Run<S>(step: (S, Event) -> S, s: S, events: seq<Event>): S
    decreases |events|
  {
    if events == [] then s else Run(step, step(s, events[0]), events[1..])
  }

  /** Running a concatenation runs the first part, then the second from where it ended. */
  lemma {:induction false} RunAppend<S>(step: (S, Event) -> S, s: S, xs: seq<Event>, ys: seq<Event>)
    ensures Run(step, s, xs + ys) == Run(step, Run(step, s, xs), ys)
    decreases |xs|
  {
    if xs == [] {
      assert xs + ys == ys;
    } else {
      assert (xs + ys)[1..] == xs[1..] + ys;
      RunAppend(step, step(s, xs[0]), xs[1..], ys);
    }
  }
}
