/**
  The per-neuron operations of the table-based SRM model: synaptic effect,
  state advance, firing prediction and spike generation.
 */
module SrmEngine {
  import opened Results
  import opened Tables
  import opened States
  import opened SrmModel

  /** Reading a table on a state (the interpolation is not modelled). */
  type Access = (Table, State) -> real

  /** The generic table-based state advance that recomputes every variable
      from its table; it belongs to the base model and is supplied here. */
  type BaseUpdate = (State, real) -> State

  /** The value `rand() % 10` draws for the seed slot. */
  type Jitter = x: nat | x < 10

  /** Stands for `exp(1.0)`, the peak amplitude a synaptic weight is scaled by. */
  const K: real := 2.718281828459045

  /** An incoming connection: its synapse type and weight. */
  datatype Connection = Connection(kind: nat, weight: real)

  /** A spike event: absolute time and source neuron. */
  datatype InternalSpike = InternalSpike(time: real, source: nat)

  /** The state after writing the bookkeeping slots, and the firing table's answer. */
  datatype Prediction = Prediction(state: State, value: real)

  /** The state after spike generation, and the event produced, if any. */
  datatype Generated = Generated(state: State, next: Option<InternalSpike>)

  /** The part of the SRM state advance that precedes the base recomputation:
      the time since the last update is added to the elapsed time. */
  function AdvanceElapsed(s: State, t: real): (r: State)
    ensures r.elapsedTime == s.elapsedTime + (t - s.lastUpdateTime)
    ensures r.(elapsedTime := s.elapsedTime) == s
    ensures s.lastUpdateTime == t ==> r == s
  {
    AddElapsedTime(s, t - s.lastUpdateTime)
  }

  /** The SRM state advance: elapsed time first, then the base recomputation.
      With a recomputation that stamps the update time, the state ends up at
      `t` having accumulated the whole span since its last update. */
  function UpdateState(base: BaseUpdate, s: State, t: real): (r: State)
    ensures StampsTime(base) ==> r.lastUpdateTime == t && r.elapsedTime == s.elapsedTime + (t - s.lastUpdateTime)
  {
    base(AdvanceElapsed(s, t), t)
  }

  /** The slot of the state vector that connections of type `kind` feed. */
  function SynapticSlot(c: Config, kind: nat): nat
    requires kind < |c.synapticVar|
  {
    c.synapticVar[kind] + 1
  }

  /** A spike arriving over `conn` adds `weight * K` to the slot of its type;
      every other slot and every time field is left as it was. */
  function SynapsisEffect(c: Config, s: State, conn: Connection): (r: State)
    requires conn.kind < |c.synapticVar| && SynapticSlot(c, conn.kind) < |s.vars|
    ensures var slot := SynapticSlot(c, conn.kind);
      SameExcept(r.vars, s.vars, {slot}) && r.vars[slot] == s.vars[slot] + conn.weight * K
    ensures r.(vars := s.vars) == s
  {
    var slot := SynapticSlot(c, conn.kind);
    SetVar(s, slot, s.vars[slot] + conn.weight * K)
  }

  /** The slots the firing prediction writes exist in `s`. */
  predicate PredictionSlotsFit(c: Config, s: State) {
    c.lastSpikeVar + 1 < |s.vars| && c.seedVar + 1 < |s.vars|
  }

  /**
    Writes the last spike time into slot `lastSpikeVar + 1` and the jitter into
    slot `seedVar + 1` (in that order, so the jitter wins if both are the same
    slot), then reads the firing table on the resulting state.
   */
  function NextFiringPrediction(c: Config, access: Access, jitter: Jitter, s: State): (p: Prediction)
    requires c.firingIndex < |c.tables| && PredictionSlotsFit(c, s)
    ensures SameExcept(p.state.vars, s.vars, {c.lastSpikeVar + 1, c.seedVar + 1})
    ensures p.state.vars[c.seedVar + 1] == jitter as real
    ensures c.lastSpikeVar != c.seedVar ==> p.state.vars[c.lastSpikeVar + 1] == s.lastSpikeTime
    ensures p.state.(vars := s.vars) == s
    ensures p.value == access(c.tables[c.firingIndex], p.state)
  {
    var s1 := SetVar(s, c.lastSpikeVar + 1, s.lastSpikeTime);
    var s2 := SetVar(s1, c.seedVar + 1, jitter as real);
    Prediction(s2, access(c.tables[c.firingIndex], s2))
  }

  /** This model has no refractory period. */
  function EndRefractoryPeriod(s: State): real {
    0.0
  }

  /**
    Handles the dispatch of `spike`, the source neuron's own scheduled spike:
    advance its state to the spike time, predict the next firing, and either
    schedule a spike for the same neuron at the predicted offset plus the
    last-update time or, when no spike is predicted, none. The recorded
    next-predicted time agrees with the event returned.
   */
  function GenerateNextSpike(c: Config, base: BaseUpdate, access: Access, jitter: Jitter,
                             spike: InternalSpike, s: State): (g: Generated)
    requires c.firingIndex < |c.tables| && PredictionSlotsFit(c, UpdateState(base, s, spike.time))
    ensures var p := NextFiringPrediction(c, access, jitter, UpdateState(base, s, spike.time));
      && (g.next.None? <==> p.value == NoSpikePredicted)
      && (g.next.Some? ==> g.next.value == InternalSpike(p.value + p.state.lastUpdateTime, spike.source))
      && g.state.nextPredictedSpikeTime == (if g.next.Some? then g.next.value.time else NoSpikePredicted)
      && g.state.(nextPredictedSpikeTime := p.state.nextPredictedSpikeTime) == p.state
  {
    var u := UpdateState(base, s, spike.time);
    var p := NextFiringPrediction(c, access, jitter, u);
    if p.value != NoSpikePredicted then
      var t := p.value + p.state.lastUpdateTime;
      Generated(p.state.(nextPredictedSpikeTime := t), Some(InternalSpike(t, spike.source)))
    else
      Generated(p.state.(nextPredictedSpikeTime := p.value), None)
  }

  /** A base recomputation that stamps the update time and leaves the
      elapsed time to the SRM part. */
  ghost predicate StampsTime(base: BaseUpdate) {
    forall st: State, t: real :: base(st, t).lastUpdateTime == t && base(st, t).elapsedTime == st.elapsedTime
  }

  /** Advancing to `t1` and then to `t2` accumulates the whole span from the
      state's last update to `t2`, as a single advance to `t2` would. */
  lemma ElapsedTelescopes(base: BaseUpdate, s: State, t1: real, t2: real)
    requires StampsTime(base)
    ensures UpdateState(base, UpdateState(base, s, t1), t2).elapsedTime == UpdateState(base, s, t2).elapsedTime
    ensures UpdateState(base, UpdateState(base, s, t1), t2).elapsedTime == s.elapsedTime + (t2 - s.lastUpdateTime)
  {
    var u1 := UpdateState(base, s, t1);
    assert u1.lastUpdateTime == t1 && u1.elapsedTime == s.elapsedTime + (t1 - s.lastUpdateTime);
    var u2 := UpdateState(base, u1, t2);
    assert u2.elapsedTime == u1.elapsedTime + (t2 - t1);
  }

  /** Predicting again on the state a prediction left, with the same draw,
      changes nothing: both bookkeeping slots already hold what would be
      written. */
  lemma PredictionIdempotent(c: Config, access: Access, jitter: Jitter, s: State)
    requires c.firingIndex < |c.tables| && PredictionSlotsFit(c, s)
    ensures var p := NextFiringPrediction(c, access, jitter, s);
      NextFiringPrediction(c, access, jitter, p.state) == p
  {
    var p := NextFiringPrediction(c, access, jitter, s);
    var q := NextFiringPrediction(c, access, jitter, p.state);
    assert q.state.vars == p.state.vars;
  }

  /** Two arriving spikes give the same state in either order. */
  lemma SynapsisEffectsCommute(c: Config, s: State, a: Connection, b: Connection)
    requires a.kind < |c.synapticVar| && SynapticSlot(c, a.kind) < |s.vars|
    requires b.kind < |c.synapticVar| && SynapticSlot(c, b.kind) < |s.vars|
    ensures SynapsisEffect(c, SynapsisEffect(c, s, a), b) == SynapsisEffect(c, SynapsisEffect(c, s, b), a)
  {
    var ab := SynapsisEffect(c, SynapsisEffect(c, s, a), b);
    var ba := SynapsisEffect(c, SynapsisEffect(c, s, b), a);
    assert ab.vars == ba.vars;
  }

  /**
    When the base recomputation stamps the event time as the last-update time
    and the firing table yields either the marker or a non-negative offset, no
    spike is scheduled before the event being handled, and the recorded
    prediction is the marker or lies at or after the last update.
   */
  lemma SpikeNotInPast(c: Config, base: BaseUpdate, access: Access, jitter: Jitter, spike: InternalSpike, s: State)
    requires c.firingIndex < |c.tables| && PredictionSlotsFit(c, UpdateState(base, s, spike.time))
    requires UpdateState(base, s, spike.time).lastUpdateTime == spike.time
    requires var p := NextFiringPrediction(c, access, jitter, UpdateState(base, s, spike.time));
      p.value == NoSpikePredicted || p.value >= 0.0
    ensures var g := GenerateNextSpike(c, base, access, jitter, spike, s);
      && (g.next.Some? ==> g.next.value.time >= spike.time)
      && (g.state.nextPredictedSpikeTime == NoSpikePredicted
          || g.state.nextPredictedSpikeTime >= g.state.lastUpdateTime)
  {
  }

  /** A firing table that never predicts a spike yields no event and records
      the marker. */
  lemma SilentFiringTable(c: Config, base: BaseUpdate, access: Access, jitter: Jitter, spike: InternalSpike, s: State)
    requires c.firingIndex < |c.tables| && PredictionSlotsFit(c, UpdateState(base, s, spike.time))
    requires forall st :: access(c.tables[c.firingIndex], st) == NoSpikePredicted
    ensures GenerateNextSpike(c, base, access, jitter, spike, s).next.None?
    ensures GenerateNextSpike(c, base, access, jitter, spike, s).state.nextPredictedSpikeTime == NoSpikePredicted
  {
  }
}
