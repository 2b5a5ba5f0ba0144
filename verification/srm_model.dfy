/**
  The shared configuration of a table-based SRM neuron model: built once from
  a model-definition file and used read-only by every neuron of the model.
 */
module SrmModel {
  import opened Results
  import opened Tables
  import opened States
  import opened VarOrder
  import opened ModelFile
  import ModelFileProofs

  /**
    `tablesIndex[i]` links state variable `i` to its table, `firingIndex` is
    the firing table, `synapticVar[t]` the slot (before the +1 offset of the
    state vector) that synapse type `t` feeds, and `stateVarOrder` the order in
    which the variables are recomputed, whose first `numTimeDependent` entries
    are the time-dependent variables.
   */
  datatype Config = Config(
    numStateVar: nat,
    tablesIndex: seq<nat>,
    firingIndex: nat,
    synapticVar: seq<nat>,
    lastSpikeVar: nat,
    seedVar: nat,
    tables: seq<Table>,
    numTimeDependent: nat,
    stateVarOrder: seq<nat>,
    initialState: State)

  /** The table links of a definition point at tables it declares. The loader
      does not check this; the model requires it of the file. */
  predicate LinksInRange(d: Definition) {
    && (forall k :: 0 <= k < |d.tablesIndex| ==> d.tablesIndex[k] < |d.tables|)
    && d.firingIndex < |d.tables|
  }

  /** The template every neuron starts from: slot 0 is zero, slot `nv + 1`
      holds the `nv`-th declared initial value, the two bookkeeping slots and
      the times start at zero, and no spike is predicted. */
  function Template(initValues: seq<real>): State {
    State([0.0] + initValues + [0.0, 0.0], 0.0, NoSpikePredicted, 0.0, 0.0)
  }

  /** State variable `nt` is time-dependent: its table has an elapsed-time axis. */
  predicate TimeDependent(c: Config, nt: nat)
    requires nt < |c.tablesIndex| && c.tablesIndex[nt] < |c.tables|
  {
    HasTimeAxis(c.tables[c.tablesIndex[nt]])
  }

  /** What a successful load establishes about a configuration. */
  predicate Valid(c: Config) {
    && |c.tablesIndex| == c.numStateVar
    && (forall k :: 0 <= k < c.numStateVar ==> c.tablesIndex[k] < |c.tables|)
    && c.firingIndex < |c.tables|
    && c.numTimeDependent == |Pick(Classify(c.tables, c.tablesIndex), true)|
    && c.stateVarOrder == Order(Classify(c.tables, c.tablesIndex))
    && |c.initialState.vars| == c.numStateVar + 3
    && c.initialState.vars[0] == 0.0
    && c.initialState.lastUpdateTime == 0.0
    && c.initialState.nextPredictedSpikeTime == NoSpikePredicted
  }

  /** Table links, time-dependence classification, evaluation order and the
      initial-state template of a parsed definition. */
  function Build(d: Definition): (c: Config)
    requires LinksInRange(d) && |d.initValues| == |d.tablesIndex|
    ensures Valid(c)
    ensures c.numStateVar == |d.tablesIndex| && c.tablesIndex == d.tablesIndex && c.tables == d.tables
    ensures c.firingIndex == d.firingIndex && c.synapticVar == d.synapticVar
    ensures c.lastSpikeVar == d.lastSpikeVar && c.seedVar == d.seedVar
    ensures forall nv :: 0 <= nv < c.numStateVar ==> c.initialState.vars[nv + 1] == d.initValues[nv]
  {
    var td := Classify(d.tables, d.tablesIndex);
    Config(|d.tablesIndex|, d.tablesIndex, d.firingIndex, d.synapticVar, d.lastSpikeVar, d.seedVar,
           d.tables, |Pick(td, true)|, Order(td), Template(d.initValues))
  }

  /** The file, if it parses, links only to tables it declares. */
  predicate Loadable(file: Option<seq<Token>>) {
    file.Some? && ParseDefinition(file.value).Ok? ==> LinksInRange(ParseDefinition(file.value).value)
  }

  /** Loads a model definition; `None` is a file that cannot be opened. */
  function LoadNeuronModel(file: Option<seq<Token>>): (r: Result<Config, LoadError>)
    requires Loadable(file)
    ensures file.None? ==> r == Err(FileError(FileNotOpened, 0))
    ensures file.Some? ==> (r.Ok? <==> ParseDefinition(file.value).Ok?)
    ensures file.Some? && r.Err? ==> r.error == ParseDefinition(file.value).error
    ensures r.Ok? ==> Valid(r.value)
  {
    match file
    case None => Err(FileError(FileNotOpened, 0))
    case Some(toks) =>
      var d :- ParseDefinition(toks);
      Ok(Build(d))
  }

  /** A new neuron's state: a copy of the template. */
  function InitializeState(c: Config): (s: State)
    requires Valid(c)
    ensures |s.vars| == c.numStateVar + 3 && s.vars[0] == 0.0
    ensures s.lastUpdateTime == 0.0 && s.nextPredictedSpikeTime == NoSpikePredicted
  {
    c.initialState
  }

  /** The property of a new neuron's state stated in `LoadedInitialState`. */
  predicate StartsFromFile(toks: seq<Token>, c: Config)
    requires Valid(c)
  {
    var s, n := InitializeState(c), c.numStateVar;
    && IntAt(toks, 0) && n == UnsignedAt(toks, 0)
    && |s.vars| == n + 3 && s.vars[0] == 0.0
    && (forall k :: 1 + n <= k < 1 + 2 * n ==> NumberAt(toks, k) && s.vars[k - n] == RealAt(toks, k))
    && s.lastUpdateTime == 0.0 && s.nextPredictedSpikeTime == NoSpikePredicted
  }

  /** After a successful load, a new neuron's state has `NumStateVar + 3`
      slots, slot 0 is zero and slot `nv + 1` holds the `nv`-th initial value
      written in the file (the word at position `1 + n + nv`); its last-update
      time is zero and no spike is predicted. */
  lemma LoadedInitialState(toks: seq<Token>, c: Config)
    requires Loadable(Some(toks)) && LoadNeuronModel(Some(toks)) == Ok(c)
    ensures Valid(c) && StartsFromFile(toks, c)
  {
    var d := LoadedIsBuilt(toks, c);
    ModelFileProofs.ParsedInitValues(toks, d);
    BuiltStartsFromFile(toks, d);
  }

  lemma BuiltStartsFromFile(toks: seq<Token>, d: Definition)
    requires LinksInRange(d) && |d.initValues| == |d.tablesIndex|
    requires IntAt(toks, 0) && UnsignedAt(toks, 0) == |d.tablesIndex|
    requires RealsAt(toks, 1 + |d.tablesIndex|, d.initValues)
    ensures StartsFromFile(toks, Build(d))
  {
    TemplateFromFile(toks, d.initValues);
  }

  /** The template built from the initial values read at `1 + n` holds, at
      slot `k - n`, the word at `k`. */
  lemma TemplateFromFile(toks: seq<Token>, initValues: seq<real>)
    requires RealsAt(toks, 1 + |initValues|, initValues)
    ensures var s, n := Template(initValues), |initValues|;
      forall k :: 1 + n <= k < 1 + 2 * n ==> NumberAt(toks, k) && s.vars[k - n] == RealAt(toks, k)
  {
    var s, n := Template(initValues), |initValues|;
    forall k | 1 + n <= k < 1 + 2 * n
      ensures NumberAt(toks, k) && s.vars[k - n] == RealAt(toks, k)
    {
      assert s.vars[(k - 1 - n) + 1] == initValues[k - 1 - n];
    }
  }

  /** A successful load is the configuration built from the parsed definition. */
  lemma LoadedIsBuilt(toks: seq<Token>, c: Config) returns (d: Definition)
    requires Loadable(Some(toks)) && LoadNeuronModel(Some(toks)) == Ok(c)
    ensures ParseDefinition(toks) == Ok(d) && LinksInRange(d) && |d.initValues| == |d.tablesIndex|
    ensures c == Build(d)
  {
    d := ParseDefinition(toks).value;
  }

  /** Round trip: loading a file written for a definition yields the
      configuration built from that definition. */
  lemma LoadWritten(toks: seq<Token>, d: Definition)
    requires Representable(d) && ModelFileProofs.Holds(toks, d) && LinksInRange(d)
    ensures Loadable(Some(toks))
    ensures LoadNeuronModel(Some(toks)) == Ok(Build(d))
  {
    ModelFileProofs.ParseWritten(toks, d);
  }

  /**
    The evaluation order of a loaded model: a permutation of the variable
    indices whose first `numTimeDependent` entries are exactly the
    time-dependent variables and the rest exactly the stationary ones, each run
    ascending; `numTimeDependent` is the number of time-dependent variables.
   */
  lemma LoadedOrder(c: Config)
    requires Valid(c)
    ensures IsPermutation(c.stateVarOrder, c.numStateVar)
    ensures c.numTimeDependent <= c.numStateVar
    ensures forall k :: 0 <= k < c.numStateVar ==>
      (k < c.numTimeDependent <==> TimeDependent(c, c.stateVarOrder[k]))
    ensures forall j, k :: 0 <= j < k < c.numTimeDependent ==> c.stateVarOrder[j] < c.stateVarOrder[k]
    ensures forall j, k :: c.numTimeDependent <= j < k < c.numStateVar ==> c.stateVarOrder[j] < c.stateVarOrder[k]
    ensures c.numTimeDependent == |set nt | 0 <= nt < c.numStateVar && TimeDependent(c, nt)|
  {
    var td := Classify(c.tables, c.tablesIndex);
    OrderIsPermutation(td);
    OrderIsStablePartition(td);
    PickSizes(td);
    CountIsCardinality(td);
    assert (set nt | 0 <= nt < c.numStateVar && TimeDependent(c, nt)) == (set i | 0 <= i < |td| && td[i]);
  }
}
