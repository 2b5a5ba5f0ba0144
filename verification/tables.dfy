/**
  Lookup-table descriptors. The interpolation itself is not modelled: a table is
  its list of dimensions plus an opaque payload of samples, and reading a table
  is a function supplied by the caller (see `SrmEngine.Access`).
 */
module Tables {

  /** One axis of a table. `statevar == 0` binds the axis to the elapsed-time
      slot; `statevar == v > 0` binds it to state slot `v`. */
  datatype Dimension = Dimension(statevar: nat, size: nat)

  /** A loaded table: its dimensions and the flattened samples. */
  datatype Table = Table(dims: seq<Dimension>, samples: seq<real>)

  /** Reference definition: some dimension of `t` is bound to elapsed time. */
  predicate HasTimeAxis(t: Table) {
    exists k :: 0 <= k < |t.dims| && t.dims[k].statevar == 0
  }
}
