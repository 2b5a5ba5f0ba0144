/**
  Time-dependence classification of the state variables and the evaluation
  order derived from it: time-dependent variables first, stationary ones
  after, each run in declaration order.
 */
module VarOrder {
  import opened Tables

  /** `td[i]` says whether state variable `i` is time-dependent: its linked table
      has a dimension bound to elapsed time. */
  function Classify(tables: seq<Table>, tablesIndex: seq<nat>): (td: seq<bool>)
    requires forall k :: 0 <= k < |tablesIndex| ==> tablesIndex[k] < |tables|
    ensures |td| == |tablesIndex|
  {
    seq(|tablesIndex|, i requires 0 <= i < |tablesIndex| => HasTimeAxis(tables[tablesIndex[i]]))
  }

  /** The indices `i` with `td[i] == b`, in ascending order. */
  function Pick(td: seq<bool>, b: bool): (r: seq<nat>)
    ensures |r| <= |td|
    ensures forall k :: 0 <= k < |r| ==> r[k] < |td| && td[r[k]] == b
    ensures forall j, k :: 0 <= j < k < |r| ==> r[j] < r[k]
    decreases |td|
  {
    if |td| == 0 then []
    else Pick(td[..|td| - 1], b) + (if td[|td| - 1] == b then [|td| - 1] else [])
  }

  /** Every index whose classification is `b` appears in the run of `b`. */
  lemma {:induction false} PickComplete(td: seq<bool>, b: bool, i: nat)
    requires i < |td| && td[i] == b
    ensures i in Pick(td, b)
    decreases |td|
  {
    var p := td[..|td| - 1];
    if i < |p| {
      assert p[i] == td[i];
      PickComplete(p, b, i);
    }
  }

  /** The evaluation order: the time-dependent run followed by the stationary run. */
  function Order(td: seq<bool>): seq<nat> {
    Pick(td, true) + Pick(td, false)
  }

  /** `order` lists every index below `n` exactly once. */
  predicate IsPermutation(order: seq<nat>, n: nat) {
    && |order| == n
    && (forall k :: 0 <= k < n ==> order[k] < n)
    && (forall j, k :: 0 <= j < k < n ==> order[j] != order[k])
    && (forall i :: 0 <= i < n ==> i in order)
  }

  /** The two runs together have one entry per variable. */
  lemma {:induction false} PickSizes(td: seq<bool>)
    ensures |Pick(td, true)| + |Pick(td, false)| == |td|
    decreases |td|
  {
    if |td| > 0 {
      PickSizes(td[..|td| - 1]);
    }
  }

  /** Position `k` of `Order` reads the time-dependent run below the split and
      the stationary run above it. */
  lemma OrderAt(td: seq<bool>, k: nat)
    requires k < |td|
    ensures |Order(td)| == |td|
    ensures k < |Pick(td, true)| ==> Order(td)[k] == Pick(td, true)[k]
    ensures k >= |Pick(td, true)| ==> Order(td)[k] == Pick(td, false)[k - |Pick(td, true)|]
  {
    PickSizes(td);
  }

  /** `Order` lists every variable index exactly once. */
  lemma OrderIsPermutation(td: seq<bool>)
    ensures IsPermutation(Order(td), |td|)
  {
    PickSizes(td);
    var t, f, o := Pick(td, true), Pick(td, false), Order(td);
    forall k | 0 <= k < |td|
      ensures o[k] < |td|
    {
      OrderAt(td, k);
    }
    forall j, k | 0 <= j < k < |td|
      ensures o[j] != o[k]
    {
      OrderAt(td, j);
      OrderAt(td, k);
      if j < |t| && k >= |t| {
        assert td[o[j]] && !td[o[k]];
      }
    }
    forall i | 0 <= i < |td|
      ensures i in o
    {
      PickComplete(td, td[i], i);
    }
  }

  /** Below the split `Order` holds exactly the time-dependent variables, above
      it exactly the stationary ones, and each run is ascending. */
  lemma OrderIsStablePartition(td: seq<bool>)
    ensures |Order(td)| == |td|
    ensures Order(td)[..|Pick(td, true)|] == Pick(td, true)
    ensures forall k :: 0 <= k < |td| ==> (k < |Pick(td, true)| <==> td[Order(td)[k]])
    ensures forall j, k :: 0 <= j < k < |Pick(td, true)| ==> Order(td)[j] < Order(td)[k]
    ensures forall j, k :: |Pick(td, true)| <= j < k < |td| ==> Order(td)[j] < Order(td)[k]
  {
    PickSizes(td);
    var t, o := Pick(td, true), Order(td);
    assert o[..|t|] == t;
    forall k | 0 <= k < |td|
      ensures k < |t| <==> td[o[k]]
    {
      OrderAt(td, k);
    }
    forall j, k | |t| <= j < k < |td|
      ensures o[j] < o[k]
    {
      OrderAt(td, j);
      OrderAt(td, k);
    }
  }

  /** The number of time-dependent variables is the size of the set of indices
      classified as time-dependent. */
  lemma {:induction false} CountIsCardinality(td: seq<bool>)
    ensures |Pick(td, true)| == |set i | 0 <= i < |td| && td[i]|
    decreases |td|
  {
    if |td| > 0 {
      var p := td[..|td| - 1];
      CountIsCardinality(p);
      var sp := set i | 0 <= i < |p| && p[i];
      var st := set i | 0 <= i < |td| && td[i];
      var last := if td[|td| - 1] then {|td| - 1} else {};
      forall i | i in st
        ensures i in sp + last
      {
        if i < |p| {
          assert p[i] == td[i];
        }
      }
      forall i | i in sp + last
        ensures i in st
      {
        if i < |p| {
          assert p[i] == td[i];
        }
      }
      assert st == sp + last;
      assert |td| - 1 !in sp;
      assert |Pick(td, true)| == |Pick(p, true)| + |last|;
    }
  }

  /** Appending one variable extends the matching run by its index. */
  lemma PickSnoc(td: seq<bool>, x: bool, b: bool)
    ensures Pick(td + [x], b) == Pick(td, b) + (if x == b then [|td|] else [])
  {
    assert (td + [x])[..|td|] == td;
  }

  /** A prefix never has a longer run than the whole sequence. */
  lemma {:induction false} PickPrefixLength(td: seq<bool>, n: nat, b: bool)
    requires n <= |td|
    ensures |Pick(td[..n], b)| <= |Pick(td, b)|
    decreases |td| - n
  {
    if n < |td| {
      PickPrefixLength(td, n + 1, b);
      PickSnoc(td[..n], td[n], b);
      assert td[..n + 1] == td[..n] + [td[n]];
    } else {
      assert td[..n] == td;
    }
  }

  /**
    The classification pass of the loader: for each variable, a linear search
    of its table's dimensions for one bound to elapsed time, counting the
    time-dependent variables.
   */
  method ClassifyVars(tables: seq<Table>, tablesIndex: seq<nat>)
    returns (tdep: seq<bool>, numTimeDependent: nat)
    requires forall k :: 0 <= k < |tablesIndex| ==> tablesIndex[k] < |tables|
    ensures tdep == Classify(tables, tablesIndex)
    ensures numTimeDependent == |Pick(tdep, true)|
  {
    tdep := [];
    numTimeDependent := 0;
    for nt := 0 to |tablesIndex|
      invariant |tdep| == nt
      invariant forall i :: 0 <= i < nt ==> tdep[i] == HasTimeAxis(tables[tablesIndex[i]])
      invariant numTimeDependent == |Pick(tdep, true)|
    {
      var dims := tables[tablesIndex[nt]].dims;
      var nv := 0;
      while nv < |dims| && dims[nv].statevar != 0
        invariant nv <= |dims|
        invariant forall j :: 0 <= j < nv ==> dims[j].statevar != 0
      {
        nv := nv + 1;
      }
      PickSnoc(tdep, nv < |dims|, true);
      if nv < |dims| {
        tdep := tdep + [true];
        numTimeDependent := numTimeDependent + 1;
      } else {
        tdep := tdep + [false];
      }
    }
  }

  /** Placement after the first `nt` variables: the first run holds the
      time-dependent ones among them and ends at `tpos`, the second starts at
      `numTimeDependent`, holds the stationary ones and ends at `ntpos`. */
  predicate Placed(tdep: seq<bool>, nt: nat, numTimeDependent: nat, order: seq<nat>, tpos: nat, ntpos: nat) {
    && nt <= |tdep|
    && |order| == |tdep|
    && tpos == |Pick(tdep[..nt], true)| <= numTimeDependent
    && ntpos == numTimeDependent + |Pick(tdep[..nt], false)| <= |tdep|
    && order[..tpos] == Pick(tdep[..nt], true)
    && order[numTimeDependent..ntpos] == Pick(tdep[..nt], false)
  }

  /** Writing a time-dependent variable `nt` at the first cursor keeps `Placed`. */
  lemma PlaceTimeDependent(tdep: seq<bool>, nt: nat, numTimeDependent: nat, order: seq<nat>, tpos: nat, ntpos: nat)
    requires numTimeDependent == |Pick(tdep, true)|
    requires Placed(tdep, nt, numTimeDependent, order, tpos, ntpos) && nt < |tdep| && tdep[nt]
    ensures tpos < numTimeDependent
    ensures Placed(tdep, nt + 1, numTimeDependent, order[tpos := nt], tpos + 1, ntpos)
  {
    var pre, post := tdep[..nt], tdep[..nt + 1];
    assert post == pre + [true];
    PickSnoc(pre, true, true);
    PickSnoc(pre, true, false);
    PickPrefixLength(tdep, nt + 1, true);
    var o := order[tpos := nt];
    assert o[..tpos + 1] == order[..tpos] + [nt];
    assert o[numTimeDependent..ntpos] == order[numTimeDependent..ntpos];
  }

  /** Writing a stationary variable `nt` at the second cursor keeps `Placed`. */
  lemma PlaceStationary(tdep: seq<bool>, nt: nat, numTimeDependent: nat, order: seq<nat>, tpos: nat, ntpos: nat)
    requires numTimeDependent == |Pick(tdep, true)|
    requires Placed(tdep, nt, numTimeDependent, order, tpos, ntpos) && nt < |tdep| && !tdep[nt]
    ensures ntpos < |tdep|
    ensures Placed(tdep, nt + 1, numTimeDependent, order[ntpos := nt], tpos, ntpos + 1)
  {
    var pre, post := tdep[..nt], tdep[..nt + 1];
    assert post == pre + [false];
    PickSizes(tdep);
    PickSnoc(pre, false, true);
    PickSnoc(pre, false, false);
    PickPrefixLength(tdep, nt + 1, false);
    var o := order[ntpos := nt];
    assert o[numTimeDependent..ntpos + 1] == order[numTimeDependent..ntpos] + [nt];
    assert o[..tpos] == order[..tpos];
  }

  /**
    The placement pass of the loader: two cursors, one starting at 0 for the
    time-dependent run and one starting at `numTimeDependent` for the
    stationary run; each variable is written at its run's cursor, which then
    advances.
   */
  method FillOrder(tdep: seq<bool>, numTimeDependent: nat) returns (order: seq<nat>)
    requires numTimeDependent == |Pick(tdep, true)|
    ensures order == Order(tdep)
  {
    var n := |tdep|;
    PickSizes(tdep);
    order := seq(n, _ => 0);
    var tpos: nat, ntpos: nat := 0, numTimeDependent;
    for nt := 0 to n
      invariant Placed(tdep, nt, numTimeDependent, order, tpos, ntpos)
    {
      if tdep[nt] {
        PlaceTimeDependent(tdep, nt, numTimeDependent, order, tpos, ntpos);
        order := order[tpos := nt];
        tpos := tpos + 1;
      } else {
        PlaceStationary(tdep, nt, numTimeDependent, order, tpos, ntpos);
        order := order[ntpos := nt];
        ntpos := ntpos + 1;
      }
    }
    assert tdep[..n] == tdep;
    assert order == order[..numTimeDependent] + order[numTimeDependent..n];
  }

  /** Lines 113-128 of the loader: classification followed by placement. */
  method DeriveOrder(tables: seq<Table>, tablesIndex: seq<nat>)
    returns (tdep: seq<bool>, numTimeDependent: nat, order: seq<nat>)
    requires forall k :: 0 <= k < |tablesIndex| ==> tablesIndex[k] < |tables|
    ensures tdep == Classify(tables, tablesIndex)
    ensures numTimeDependent == |Pick(tdep, true)|
    ensures order == Order(tdep)
    ensures IsPermutation(order, |tablesIndex|)
  {
    tdep, numTimeDependent := ClassifyVars(tables, tablesIndex);
    order := FillOrder(tdep, numTimeDependent);
    OrderIsPermutation(tdep);
  }
}
