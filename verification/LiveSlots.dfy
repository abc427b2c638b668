/**
  Live-connection slots (`acquire_live_slot`, `release_live_slot`, `src/api/ws.rs`): an optimistic
  counter. A caller first adds one; if the counter had already reached the limit it is refused and
  takes its one away in a second, separate step. Callers interleave freely.
*/
module LiveSlots {
  const MAX_LIVE_CONNECTIONS := 64

  /** `counter` is the shared atomic; the sets say which callers were granted and which still owe an undo. */
  datatype State = State(counter: int, granted: set<nat>, undoing: set<nat>)

  datatype Step = FetchAdd(caller: nat) | UndoRefused(caller: nat) | Release(caller: nat)

  const INIT := State(0, {}, {})

  predicate Enabled(s: State, step: Step) {
    match step
    case FetchAdd(c) => c !in s.granted && c !in s.undoing
    case UndoRefused(c) => c in s.undoing
    case Release(c) => c in s.granted
  }

  function Next(s: State, step: Step): State {
    match step
    case FetchAdd(c) =>
      if s.counter >= MAX_LIVE_CONNECTIONS then State(s.counter + 1, s.granted, s.undoing + {c})
      else State(s.counter + 1, s.granted + {c}, s.undoing)
    case UndoRefused(c) => State(s.counter - 1, s.granted, s.undoing - {c})
    case Release(c) => State(s.counter - 1, s.granted - {c}, s.undoing)
  }

  ghost predicate IsRun(run: seq<State>, steps: seq<Step>) {
    && |run| == |steps| + 1 && run[0] == INIT
    && forall k :: 0 <= k < |steps| ==> Enabled(run[k], steps[k]) && run[k + 1] == Next(run[k], steps[k])
  }

  /**
    In every interleaving at most 64 slots are granted, and the counter is exactly the granted slots
    plus the refused callers that have not undone yet, so no decrement ever goes below zero.
  */
  lemma {:induction false} SlotsAreSafe(run: seq<State>, steps: seq<Step>, k: nat)
    requires IsRun(run, steps) && k < |run|
    ensures run[k].counter == |run[k].granted| + |run[k].undoing|
    ensures |run[k].granted| <= MAX_LIVE_CONNECTIONS
    ensures run[k].granted !! run[k].undoing
    ensures k < |steps| && !steps[k].FetchAdd? ==> run[k].counter > 0
  {
    if k > 0 {
      SlotsAreSafe(run, steps, k - 1);
      assert Enabled(run[k - 1], steps[k - 1]);
    }
    if k < |steps| && !steps[k].FetchAdd? {
      assert Enabled(run[k], steps[k]);
      assert steps[k].caller in run[k].granted || steps[k].caller in run[k].undoing;
    }
  }

  /** With no undo pending a caller is refused exactly when all 64 slots are taken. */
  lemma RefusedExactlyWhenFull(run: seq<State>, steps: seq<Step>, k: nat)
    requires IsRun(run, steps) && k < |steps| && steps[k].FetchAdd? && run[k].undoing == {}
    ensures steps[k].caller in run[k + 1].undoing <==> |run[k].granted| == MAX_LIVE_CONNECTIONS
  {
    SlotsAreSafe(run, steps, k);
    assert Enabled(run[k], steps[k]);
  }
}
