# SRM table-based neuron model

A Dafny model of the table-based Spike Response Model (SRM) neuron of the
EDLUT simulator, `SRMTableBasedModel`. It covers four parts:

- **Loading the model definition.** The definition file is a fixed sequence
  of numeric fields:
  - the state-variable count;
  - one table index per variable, then one initial value per variable;
  - the firing-table index;
  - the synaptic-variable count and the synaptic slots;
  - the last-spike slot and the seed slot;
  - the table count, then the table descriptions.

  Every missing field fails the load with its own error code. On success the
  loader links each variable to its table and builds the initial-state
  template.
- **The evaluation order.** Each state variable is classified as
  time-dependent if its table has a dimension bound to variable 0 (time).
  `StateVarOrder` is a stable two-bucket partition: the time-dependent
  variables first, then the stationary ones, each group in declaration order.
- **The per-neuron operations.**
  - The state advance adds the elapsed time, then runs the generic table
    recomputation.
  - A synaptic effect adds `weight·e` to one slot.
  - The firing prediction writes the last-spike and seed slots, then reads
    the firing table.
  - A new neuron's state is a copy of the template.
- **Spike generation.** When a neuron's own spike is dispatched, the next
  spike is predicted and scheduled, or none is if the firing table answers
  "no spike predicted".

Modules:

- `Results`: `Option` and `Result`.
- `Tables`: a table as its dimensions (each a state-variable binding and a
  size) and its flattened samples; only the bindings are read by the model.
- `States`: the neuron state, with slot updates.
- `ModelFile`: the definition file as tokens, the field parser and a writer.
- `ModelFileProofs`: the parse/write round trip and the per-field error codes.
- `VarOrder`: the classification and the order, both as pure functions and
  as the loader's loops, proved equal.
- `SrmModel`: the configuration, `LoadNeuronModel` and `InitializeState`.
- `SrmEngine`: the state advance, the synaptic effect, the firing prediction
  and spike generation.

### Modelling choices

**The file.**
- The file is `Option<seq<Token>>`. `None` is a file that cannot be opened,
  which fails with code 25 at line 0.
- A token is a word together with the line it came from. Comment skipping
  happens before the model.
- A word reads as an integer, as a number, or as one whole table description
  (what the table loader reads).
- `%i` into an `unsigned int` keeps the value modulo 2^32. `%f` accepts an
  integer or a real word.

**Error lines.**
- The loader reports `Currentline`. Up to the table count only the comment
  skipper, which runs between field groups, advances it; the table loader at
  line 110 also receives it, but no field is read after the tables. So every
  error of a field group carries the line at the start of that group.
- The model takes that to be the line of the group's first token. Past the
  end of the file it is the last token's line, or 1 for an empty file.

**What the loader does not check.**
- The loader does not check table indices against the table count. The model
  makes this a precondition of loading (`Loadable`) rather than a new error.
- Slot indices against the state size become preconditions of the engine
  operations.
- The order the loader fills at lines 124-128 lists the variables
  `0 .. NumStateVar-1`. Slot 0 of the state vector (time) is not among them;
  variable `nv` lives in slot `nv + 1`.

**Parameters.**
- Reading a table on a state is a function parameter, `Access`.
- The base class's per-variable recomputation is a function parameter,
  `BaseUpdate`.
- The value `rand() % 10` is a parameter of type `Jitter` (0..9).
- `exp(1.0)` is the constant `K`.

**What is not shown.**
- The state class itself is not shown. The model gives the state an elapsed
  time and a last-spike time, and assumes the template starts both at zero.
- `NO_SPIKE_PREDICTED` is defined in a header that is not shown. The model
  uses `-1.0`, and no proof depends on its value.

## Model

| member | source | states |
|---|---|---|
| `ModelFile.ReadInts` | trunk/Kernel/src/neuron_model/SRMTableBasedModel.cpp:44-49 | a group of `n` unsigned fields reads iff all `n` words are integers; the values are those words in order; otherwise the error is the group's code at the group's line |
| `ModelFile.ReadReals` | trunk/Kernel/src/neuron_model/SRMTableBasedModel.cpp:61-67 | `n` initial values read iff all `n` words are numbers; the values are those numbers in order; otherwise the error is code 42 (for initial values) at the group's line |
| `ModelFile.ReadTables` | trunk/Kernel/src/neuron_model/SRMTableBasedModel.cpp:109-111 | `n` table descriptions read iff all `n` words are descriptions, giving those tables in order; otherwise it is a table-loading error |
| `ModelFile.ParseDefinition` | trunk/Kernel/src/neuron_model/SRMTableBasedModel.cpp:34-140 | a parsed definition has one initial value per state variable; every field error carries one of the nine field codes 34, 41, 42, 35, 36, 40, 46, 47, 37 |
| `ModelFileProofs.ParseWritten` | trunk/Kernel/src/neuron_model/SRMTableBasedModel.cpp:34-111 | a file starting with the words written for a representable definition parses back to exactly that definition, whatever follows |
| `ModelFileProofs.ParsedIsWritten` | trunk/Kernel/src/neuron_model/SRMTableBasedModel.cpp:34-111 | whatever parses is representable, and the file starts with the words written for it |
| `ModelFileProofs.TruncatedFileFails` | trunk/Kernel/src/neuron_model/SRMTableBasedModel.cpp:34-140 | a file that is correct up to a non-empty field group and ends there fails with that field's own code, reported at the line the reader is on |
| `ModelFileProofs.UnreadableFieldFails` | trunk/Kernel/src/neuron_model/SRMTableBasedModel.cpp:34-140 | a file that is correct up to the group of field `f`, and in which some word of that group is missing (the file ends before or inside the group) or cannot be converted as the field is read, fails with `f`'s own code at the line where the group starts |
| `SrmModel.LoadNeuronModel` | trunk/Kernel/src/neuron_model/SRMTableBasedModel.cpp:27-144 | a file that cannot be opened fails with code 25 at line 0; otherwise the load succeeds iff the fields parse, fails with the parser's error, and a loaded configuration is well formed |
| `SrmModel.Build` | trunk/Kernel/src/neuron_model/SRMTableBasedModel.cpp:101-128 | the configuration keeps every parsed field, has one variable per table index, holds initial value `nv` in slot `nv+1`, and is well formed (links in range, order derived from the tables) |
| `SrmModel.LoadWritten` | trunk/Kernel/src/neuron_model/SRMTableBasedModel.cpp:27-144 | loading the file written for a definition whose links are in range yields the configuration built from that definition |
| `SrmModel.LoadedIsBuilt` | trunk/Kernel/src/neuron_model/SRMTableBasedModel.cpp:27-144 | a successful load is the configuration built from the parsed definition, whose table links are in range |
| `SrmModel.InitializeState` | trunk/Kernel/src/neuron_model/SRMTableBasedModel.cpp:179-181 | a new state has `NumStateVar+3` slots, slot 0 is zero, the last-update time is zero and no spike is predicted |
| `SrmModel.LoadedInitialState` | trunk/Kernel/src/neuron_model/SRMTableBasedModel.cpp:56-67 | after a successful load, the count is the file's first word; a new state has `NumStateVar+3` slots; slot 0 is 0; slot `nv+1` holds the `nv`-th initial value written in the file; the last-update time is 0 and no spike is predicted |
| `SrmModel.LoadedOrder` | trunk/Kernel/src/neuron_model/SRMTableBasedModel.cpp:113-128 | in a loaded configuration the order is a permutation of the variables. Its first `NumTimeDependentStateVar` entries are exactly the time-dependent variables, the rest exactly the stationary ones, each run ascending. The count equals the number of time-dependent variables |
| `VarOrder.Pick` | trunk/Kernel/src/neuron_model/SRMTableBasedModel.cpp:124-128 | one bucket of the order holds only variables of its class, strictly ascending |
| `VarOrder.PickComplete` | trunk/Kernel/src/neuron_model/SRMTableBasedModel.cpp:124-128 | every variable of a class is in that class's bucket |
| `VarOrder.PickSizes` | trunk/Kernel/src/neuron_model/SRMTableBasedModel.cpp:124-128 | the two buckets together have one entry per variable |
| `VarOrder.OrderIsPermutation` | trunk/Kernel/src/neuron_model/SRMTableBasedModel.cpp:124-128 | the order writes every index `0..n-1` exactly once |
| `VarOrder.OrderIsStablePartition` | trunk/Kernel/src/neuron_model/SRMTableBasedModel.cpp:124-128 | position `k` holds a time-dependent variable iff `k` is below the number of time-dependent variables; both runs are ascending |
| `VarOrder.CountIsCardinality` | trunk/Kernel/src/neuron_model/SRMTableBasedModel.cpp:113-122 | the number of time-dependent variables is the size of the set of time-dependent indices |
| `VarOrder.ClassifyVars` | trunk/Kernel/src/neuron_model/SRMTableBasedModel.cpp:113-122 | the loader's search for a dimension bound to variable 0 marks variable `nt` exactly when its table has a time axis, and counts them |
| `VarOrder.FillOrder` | trunk/Kernel/src/neuron_model/SRMTableBasedModel.cpp:124-128 | the two-cursor fill produces exactly the time-dependent bucket followed by the stationary bucket |
| `VarOrder.DeriveOrder` | trunk/Kernel/src/neuron_model/SRMTableBasedModel.cpp:113-128 | classification and fill together give the classification, the count, and an order that is the stable partition and a permutation |
| `SrmEngine.AdvanceElapsed` | trunk/Kernel/src/neuron_model/SRMTableBasedModel.cpp:146-151 | the elapsed time grows by the time since the last update and nothing else changes; advancing to the last-update time is the identity |
| `SrmEngine.UpdateState` | trunk/Kernel/src/neuron_model/SRMTableBasedModel.cpp:146-154 | with a base recomputation that stamps the update time and leaves the elapsed time alone, the advanced state is at `t` and its elapsed time has grown by `t` minus the previous last-update time |
| `SrmEngine.ElapsedTelescopes` | trunk/Kernel/src/neuron_model/SRMTableBasedModel.cpp:146-154 | with a recomputation that stamps the update time, advancing to `t1` and then to `t2` accumulates the same elapsed time as one advance to `t2` |
| `SrmEngine.SynapsisEffect` | trunk/Kernel/src/neuron_model/SRMTableBasedModel.cpp:156-159 | slot `SynapticVar[type]+1` grows by `weight·e`; every other slot and every time field is unchanged |
| `SrmEngine.SynapsisEffectsCommute` | trunk/Kernel/src/neuron_model/SRMTableBasedModel.cpp:156-159 | in exact arithmetic, two arriving spikes leave the same state in either order |
| `SrmEngine.NextFiringPrediction` | trunk/Kernel/src/neuron_model/SRMTableBasedModel.cpp:161-165 | only the last-spike and seed slots change. The seed slot holds the draw (0..9), and the last-spike slot holds the last spike time unless the two slots coincide. No time field changes. The answer is the firing table read on the updated state |
| `SrmEngine.PredictionIdempotent` | trunk/Kernel/src/neuron_model/SRMTableBasedModel.cpp:161-165 | predicting again on the resulting state with the same draw changes nothing |
| `SrmEngine.GenerateNextSpike` | trunk/Kernel/src/neuron_model/SRMTableBasedModel.cpp:183-204 | after advancing to the spike time and predicting: no event iff the prediction is the marker; otherwise an event for the same neuron at prediction plus last-update time; the recorded next-predicted time is that event's time or the marker; nothing else in the state differs from the prediction's state |
| `SrmEngine.SpikeNotInPast` | trunk/Kernel/src/neuron_model/SRMTableBasedModel.cpp:195-201 | when the recomputation stamps the spike time and the firing table answers the marker or a non-negative offset, no event is scheduled before the spike being handled |
| `SrmEngine.SilentFiringTable` | trunk/Kernel/src/neuron_model/SRMTableBasedModel.cpp:195-201 | a firing table that always answers the marker yields no event and records the marker |

## Left out

- File access and comment skipping (`fopen`, `skip_comments`): the model starts
  from the comment-free token sequence. The loader skips comments only between
  field groups, so a comment inside a group (say between two table indices)
  makes `fscanf` fail with that group's code; comment-free tokens cannot show
  this failure.
- Partial reads by `fscanf`, such as `%i` stopping inside `1.5`, and the
  octal/hex prefixes `%i` accepts: the tokeniser is not modelled.
- ModelFileProofs.UnreadableFieldFails: a table description, or a real word in
  an integer field, standing where a numeric field is expected (a file whose
  counts are off) fails that field with its code in the model, while the code's
  `fscanf` reads the leading number of that text and goes on. The lemma, like
  `ModelFile.ParseDefinition`, is exact only for files whose words are whole
  tokens of the kinds the fields expect, missing words and non-numeric words.
- Integers beyond the range of `long`, which `%i` saturates: tokens carry
  unbounded integers, reduced modulo 2^32.
- The exact line of an error: it is approximated by the line of the group's
  first token, because `skip_comments` is not modelled.
- The other numbers `EDLUTFileException` carries besides the code: only the error
  code and the line are modelled.
- `NeuronModelTable::LoadTableDescription`: it is not part of this model. A
  table is represented by its dimensions (binding and size) and its samples,
  of which only the bindings are read by the model, and a failed table read
  is `TableLoadError`.
- `TableAccess` and the interpolation: they are not part of this model. They
  become the `Access` parameter.
- `TableBasedModel::UpdateState`: it is not part of this model. It becomes the
  `BaseUpdate` parameter.
- `float`/`double` rounding: values are `real`. This includes the `float`
  temporary in the synaptic effect and in reading initial values, and
  `exp(1.0)`, which is the constant `K`.
- `rand()`: replaced by the `Jitter` parameter.
- The fixed buffer `tdeptables[MAXSTATEVARS]`: the model has no bound on the
  number of state variables. Larger counts overflow the buffer in the code.
- Out-of-range table links and slot indices, which the code never checks:
  they are preconditions in the model.
- Memory management: allocation, the leaked table-index array, and pointer
  arithmetic on the table array.
- The constructor and destructor, which do no work.
- `EndRefractoryPeriod` always answers 0 and carries no contract.
- SrmEngine.AdvanceElapsed: `SRMState::AddElapsedTime` is not part of this
  model. It is assumed to add its argument to an elapsed-time field and to
  change nothing else, in particular neither the last-spike time (which the
  firing prediction copies into a slot) nor any slot of the state vector.
  `SrmEngine.UpdateState` and `SrmEngine.ElapsedTelescopes` rest on the same
  assumption.
- The internals of the state class: only the fields the operations use are
  modelled.
- Event queues and the host-simulator glue, which are outside this file.
