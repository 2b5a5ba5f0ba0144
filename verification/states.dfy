/** The per-neuron state of the table-based SRM model. */
module States {

  /** Marker for "the firing table predicts no spike". The header that defines
      it is not part of this model; no property depends on its value. */
  const NoSpikePredicted: real := -1.0

  /**
    `vars` is the state vector: slot 0 is the elapsed-time sentinel, slots
    1..NumStateVar hold the declared state variables, and the trailing slots
    serve the last-spike and seed bookkeeping. `lastSpikeTime` is what the
    state reports as its last own spike; `elapsedTime` accumulates the time
    added by `AddElapsedTime`.
   */
  datatype State = State(
    vars: seq<real>,
    lastUpdateTime: real,
    nextPredictedSpikeTime: real,
    lastSpikeTime: real,
    elapsedTime: real)

  /** Overwrites slot `i` of the state vector. */
  function SetVar(s: State, i: nat, v: real): State
    requires i < |s.vars|
  {
    s.(vars := s.vars[i := v])
  }

  /** Adds `dt` to the elapsed-time bookkeeping. */
  function AddElapsedTime(s: State, dt: real): State {
    s.(elapsedTime := s.elapsedTime + dt)
  }

  /** The vectors `a` and `b` agree everywhere except possibly at the slots in `except`. */
  predicate SameExcept(a: seq<real>, b: seq<real>, except: set<nat>) {
    |a| == |b| && forall j :: 0 <= j < |a| && j !in except ==> a[j] == b[j]
  }
}
