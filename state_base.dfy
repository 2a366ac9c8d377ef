/**
 * The three-phase state runtime of StateBase, stated on values.
 *
 * A state object carries a stage (Enter, Update or Exit) and a recorded
 * successor. `Process` runs the hook of the current stage; the base `Enter`
 * moves the stage to Update; `Transition` records the successor and moves
 * the stage to Exit, and the next `Process` runs `Exit` and hands the
 * successor back. The class `EnemyStates.EnemyState` implements this with
 * mutable fields and is proved against the functions below.
 */
module StateBase {
  import opened Common

  datatype Stage = Enter | Update | Exit

  /** The runtime part of a state object: its stage and its recorded successor. */
  datatype Slot<S> = Slot(stage: Stage, next: Option<S>)

  /** A state as constructed: stage Enter, no successor recorded. */
  function Fresh<S>(): Slot<S>
  {
    Slot(Enter, None)
  }

  /** `Transition(s)`: record `s` as the successor and move to Exit. */
  function Transitioned<S>(st: Slot<S>, s: S): Slot<S>
  {
    Slot(Exit, Some(s))
  }

  /**
   * The slot after `Process` ran the hook of `st.stage`, that hook having
   * called `Transition(req.value)` last when `req` is Some. The base `Enter`
   * runs first in every override, so a Transition inside Enter wins.
   */
  function AfterHook<S>(st: Slot<S>, req: Option<S>): Slot<S>
  {
    var ran := if st.stage == Enter then st.(stage := Update) else st;
    if req.Some? then Transitioned(ran, req.value) else ran
  }

  /**
   * What `Process` hands back: None stands for `this`, Some(s) for the
   * successor read after `Exit` ran.
   */
  function HandOff<S>(st: Slot<S>, req: Option<S>): Option<S>
  {
    if st.stage == Exit then AfterHook(st, req).next else None
  }

  /** A second Transition before the Exit-stage Process replaces the first. */
  lemma LastTransitionWins<S>(st: Slot<S>, a: S, b: S)
    ensures Transitioned(Transitioned(st, a), b) == Transitioned(st, b)
    ensures Transitioned(Transitioned(st, a), b).next == Some(b)
  {
  }

  /**
   * Process returns something other than `this` exactly on the Exit stage,
   * and then it returns the recorded successor.
   */
  lemma HandOffOnlyOnExit<S>(st: Slot<S>, req: Option<S>)
    requires st.stage == Exit ==> st.next.Some?
    ensures HandOff(st, req).Some? <==> st.stage == Exit
    ensures st.stage == Exit && req.None? ==> HandOff(st, req) == st.next
  {
  }

  /** A Transition inside Enter leaves the stage at Exit, not Update. */
  lemma TransitionInEnterWins<S>(st: Slot<S>, s: S)
    requires st.stage == Enter
    ensures AfterHook(st, Some(s)) == Slot(Exit, Some(s))
    ensures AfterHook(st, None) == Slot(Update, st.next)
  {
  }

  /** `n` copies of the Update stage. */
  function Updates(n: nat): (r: seq<Stage>)
    ensures |r| == n
    ensures forall i :: 0 <= i < n ==> r[i] == Update
  {
    if n == 0 then [] else [Update] + Updates(n - 1)
  }

  /**
   * The stages whose hooks successive `Process` calls run on one state, and
   * what the last of them hands back. `reqs[i]` is the Transition that the
   * hook run by call i issues (None: no Transition). The run stops at the
   * call that hands off, since the owner then replaces the state.
   */
  function Run<S>(st: Slot<S>, reqs: seq<Option<S>>): (seq<Stage>, Option<S>)
    decreases |reqs|
  {
    if reqs == [] then ([], None)
    else if st.stage == Exit then ([Exit], HandOff(st, reqs[0]))
    else
      var rest := Run(AfterHook(st, reqs[0]), reqs[1..]);
      ([st.stage] + rest.0, rest.1)
  }

  /** A state in Update with no request pending runs Update on every call. */
  lemma {:induction false} RunWithoutRequest<S>(st: Slot<S>, reqs: seq<Option<S>>)
    requires st.stage == Update
    requires forall i :: 0 <= i < |reqs| ==> reqs[i].None?
    ensures Run(st, reqs) == (Updates(|reqs|), None)
  {
    if reqs != [] {
      RunWithoutRequest(AfterHook(st, reqs[0]), reqs[1..]);
      assert Updates(|reqs|) == [Update] + Updates(|reqs| - 1);
    }
  }

  /**
   * From Update, the first request issued on call j makes call j + 1 run
   * Exit and hand off exactly that successor.
   */
  lemma {:induction false} RunUntilRequest<S>(st: Slot<S>, reqs: seq<Option<S>>, j: nat)
    requires st.stage == Update
    requires j + 1 < |reqs| && reqs[j].Some?
    requires forall i :: 0 <= i < j ==> reqs[i].None?
    requires reqs[j + 1].None?
    ensures Run(st, reqs) == (Updates(j + 1) + [Exit], reqs[j])
  {
    if j == 0 {
      var after := AfterHook(st, reqs[0]);
      assert after == Slot(Exit, reqs[0]);
      assert reqs[1..][0] == reqs[1];
      assert Run(after, reqs[1..]) == ([Exit], reqs[0]);
      assert Updates(1) == [Update];
    } else {
      RunUntilRequest(AfterHook(st, reqs[0]), reqs[1..], j - 1);
      assert Updates(j + 1) + [Exit] == [Update] + (Updates(j) + [Exit]);
    }
  }

  /**
   * The lifetime of a new state: Enter exactly once and first, then Update
   * on every call until the first request, then Exit exactly once, which
   * hands off the first requested successor.
   */
  lemma {:induction false} LifetimeOfFreshState<S>(reqs: seq<Option<S>>, j: nat)
    requires j + 1 < |reqs| && reqs[j].Some? && reqs[j + 1].None?
    requires forall i :: 0 <= i < j ==> reqs[i].None?
    ensures Run(Fresh<S>(), reqs) == ([Enter] + Updates(j) + [Exit], reqs[j])
  {
    var after := AfterHook(Fresh<S>(), reqs[0]);
    assert Run(Fresh<S>(), reqs) == ([Enter] + Run(after, reqs[1..]).0, Run(after, reqs[1..]).1);
    if j == 0 {
      assert after == Slot(Exit, reqs[0]);
      assert reqs[1..][0] == reqs[1];
      assert Run(after, reqs[1..]) == ([Exit], reqs[0]);
      assert [Enter] + Updates(0) + [Exit] == [Enter] + [Exit];
    } else {
      assert after == Slot(Update, None);
      RunUntilRequest(after, reqs[1..], j - 1);
      assert [Enter] + Updates(j) + [Exit] == [Enter] + (Updates(j) + [Exit]);
    }
  }

  /** A new state that never requests a transition: Enter, then Update forever. */
  lemma {:induction false} LifetimeWithoutRequest<S>(reqs: seq<Option<S>>)
    requires |reqs| > 0
    requires forall i :: 0 <= i < |reqs| ==> reqs[i].None?
    ensures Run(Fresh<S>(), reqs) == ([Enter] + Updates(|reqs| - 1), None)
  {
    RunWithoutRequest(AfterHook(Fresh<S>(), reqs[0]), reqs[1..]);
  }

  /**
   * A Transition made from outside before the first Process skips Enter:
   * the first call already runs Exit and hands off.
   */
  lemma TransitionBeforeFirstProcess<S>(s: S, reqs: seq<Option<S>>)
    requires |reqs| > 0 && reqs[0].None?
    ensures Run(Transitioned(Fresh<S>(), s), reqs) == ([Exit], Some(s))
  {
  }
}
