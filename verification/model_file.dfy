/**
  The SRM model-definition file as a token sequence, its parser and a writer.
  Comment skipping is done by the tokeniser, which is not part of this model;
  each token keeps the line it came from, for error reports.
 */
module ModelFile {
  import opened Results
  import opened Tables

  /** What a whitespace-separated word of the file reads as. `TableDescription`
      stands for one whole table description, as read by the table loader. */
  datatype Lexeme = Int(n: int) | Real(r: real) | Word | TableDescription(table: Table)

  datatype Token = Token(lex: Lexeme, line: nat)

  /** The fields of the definition, in file order. */
  datatype Field =
    | NumStateVar | TableIndex | InitValue | FiringIndex | NumSynapticVar
    | SynapticVar | LastSpikeVar | SeedVar | NumTables

  /** The error code the loader reports for a missing or unreadable field. */
  function Code(f: Field): nat {
    match f
    case NumStateVar => 34
    case TableIndex => 41
    case InitValue => 42
    case FiringIndex => 35
    case NumSynapticVar => 36
    case SynapticVar => 40
    case LastSpikeVar => 46
    case SeedVar => 47
    case NumTables => 37
  }

  /** The error code for a definition file that cannot be opened. */
  const FileNotOpened: nat := 25

  /** A failed load: a coded file error at a line, or a failure inside a table
      description (whose own codes belong to the table loader). */
  datatype LoadError = FileError(code: nat, line: nat) | TableLoadError(line: nat)

  /** The fields read from the file, before any derivation. The state-variable,
      synaptic and table counts are the lengths of the sequences. */
  datatype Definition = Definition(
    tablesIndex: seq<nat>,
    initValues: seq<real>,
    firingIndex: nat,
    synapticVar: seq<nat>,
    lastSpikeVar: nat,
    seedVar: nat,
    tables: seq<Table>)

  const Modulus: int := 0x1_0000_0000

  /** The value an integer word takes once stored in a 32-bit unsigned field. */
  function U32(n: int): (r: nat)
    ensures r < Modulus
    ensures 0 <= n < Modulus ==> r == n
  {
    n % Modulus
  }

  /** The line the reader is on when it expects a field at `pos`: the line of
      the token there, or the last line when the file has ended. */
  function LineAt(toks: seq<Token>, pos: nat): nat {
    if pos < |toks| then toks[pos].line
    else if |toks| == 0 then 1
    else toks[|toks| - 1].line
  }

  /** The value of a word read as a floating-point number (integers are accepted). */
  predicate IsNumber(x: Lexeme) {
    x.Int? || x.Real?
  }

  function RealOf(x: Lexeme): real
    requires IsNumber(x)
  {
    if x.Int? then x.n as real else x.r
  }

  /** The word at `p` reads as an integer, a number, a table description. */
  predicate IntAt(toks: seq<Token>, p: nat) {
    p < |toks| && toks[p].lex.Int?
  }

  predicate NumberAt(toks: seq<Token>, p: nat) {
    p < |toks| && IsNumber(toks[p].lex)
  }

  predicate TableAt(toks: seq<Token>, p: nat) {
    p < |toks| && toks[p].lex.TableDescription?
  }

  /** The integer word at `p` as stored in a 32-bit unsigned field. */
  function UnsignedAt(toks: seq<Token>, p: nat): nat
    requires IntAt(toks, p)
  {
    U32(toks[p].lex.n)
  }

  /** The numeric word at `p` as a floating-point value. */
  function RealAt(toks: seq<Token>, p: nat): real
    requires NumberAt(toks, p)
  {
    RealOf(toks[p].lex)
  }

  /** From `pos` on the file holds the integers `xs`, the numbers `xs`, the tables `ts`. */
  predicate IntsAt(toks: seq<Token>, pos: nat, xs: seq<nat>) {
    forall k :: pos <= k < pos + |xs| ==> IntAt(toks, k) && UnsignedAt(toks, k) == xs[k - pos]
  }

  predicate RealsAt(toks: seq<Token>, pos: nat, xs: seq<real>) {
    forall k :: pos <= k < pos + |xs| ==> NumberAt(toks, k) && RealAt(toks, k) == xs[k - pos]
  }

  predicate TablesAt(toks: seq<Token>, pos: nat, ts: seq<Table>) {
    forall k :: pos <= k < pos + |ts| ==> TableAt(toks, k) && toks[k].lex.table == ts[k - pos]
  }

  /** The `n` integer words from `pos` on. */
  function IntsFrom(toks: seq<Token>, pos: nat, n: nat): (r: seq<nat>)
    requires forall k :: pos <= k < pos + n ==> IntAt(toks, k)
    ensures |r| == n && IntsAt(toks, pos, r)
    decreases n
  {
    if n == 0 then [] else [UnsignedAt(toks, pos)] + IntsFrom(toks, pos + 1, n - 1)
  }

  /** The `n` numeric words from `pos` on. */
  function RealsFrom(toks: seq<Token>, pos: nat, n: nat): (r: seq<real>)
    requires forall k :: pos <= k < pos + n ==> NumberAt(toks, k)
    ensures |r| == n && RealsAt(toks, pos, r)
    decreases n
  {
    if n == 0 then [] else [RealAt(toks, pos)] + RealsFrom(toks, pos + 1, n - 1)
  }

  /** Reads one unsigned integer field at `pos`. */
  function ReadCount(toks: seq<Token>, pos: nat, f: Field): (r: Result<nat, LoadError>)
    ensures r.Ok? <==> IntAt(toks, pos)
    ensures r.Ok? ==> r.value == UnsignedAt(toks, pos)
    ensures r.Err? ==> r.error == FileError(Code(f), LineAt(toks, pos))
  {
    if IntAt(toks, pos) then Ok(UnsignedAt(toks, pos))
    else Err(FileError(Code(f), LineAt(toks, pos)))
  }

  /** Reads `n` unsigned integers starting at `pos`; a failure anywhere in the
      group is reported at the line where the group starts. */
  function ReadInts(toks: seq<Token>, pos: nat, n: nat, f: Field): (r: Result<seq<nat>, LoadError>)
    ensures r.Ok? <==> forall k :: pos <= k < pos + n ==> IntAt(toks, k)
    ensures r.Ok? ==> |r.value| == n && IntsAt(toks, pos, r.value)
    ensures r.Err? ==> r.error == FileError(Code(f), LineAt(toks, pos))
  {
    if forall k :: pos <= k < pos + n ==> IntAt(toks, k) then
      Ok(IntsFrom(toks, pos, n))
    else
      Err(FileError(Code(f), LineAt(toks, pos)))
  }

  /** Reads `n` floating-point numbers starting at `pos`. */
  function ReadReals(toks: seq<Token>, pos: nat, n: nat, f: Field): (r: Result<seq<real>, LoadError>)
    ensures r.Ok? <==> forall k :: pos <= k < pos + n ==> NumberAt(toks, k)
    ensures r.Ok? ==> |r.value| == n && RealsAt(toks, pos, r.value)
    ensures r.Err? ==> r.error == FileError(Code(f), LineAt(toks, pos))
  {
    if forall k :: pos <= k < pos + n ==> NumberAt(toks, k) then
      Ok(RealsFrom(toks, pos, n))
    else
      Err(FileError(Code(f), LineAt(toks, pos)))
  }

  /** Reads `n` table descriptions starting at `pos`; the first word that is not
      a table description fails the load at its own line. */
  function ReadTables(toks: seq<Token>, pos: nat, n: nat): (r: Result<seq<Table>, LoadError>)
    ensures r.Ok? <==> forall k :: pos <= k < pos + n ==> TableAt(toks, k)
    ensures r.Ok? ==> |r.value| == n && TablesAt(toks, pos, r.value)
    ensures r.Err? ==> r.error.TableLoadError?
    decreases n
  {
    if n == 0 then Ok([])
    else if TableAt(toks, pos) then
      var rest :- ReadTables(toks, pos + 1, n - 1);
      Ok([toks[pos].lex.table] + rest)
    else Err(TableLoadError(LineAt(toks, pos)))
  }

  /**
    The loader's field reading. With `n` state variables and `m` synaptic
    variables the fields sit at fixed positions: the count at 0, the table
    indices from 1, the initial values from 1 + n, the firing-table index at
    1 + 2n, the synaptic count at 2 + 2n, the synaptic slots from 3 + 2n, the
    last-spike slot, seed slot and table count after them, then the tables.
   */
  function ParseDefinition(toks: seq<Token>): (r: Result<Definition, LoadError>)
    ensures r.Ok? ==> |r.value.initValues| == |r.value.tablesIndex|
    ensures r.Err? && r.error.FileError? ==> r.error.code in FieldCodes
  {
    var n :- ReadCount(toks, 0, NumStateVar);
    var tablesIndex :- ReadInts(toks, 1, n, TableIndex);
    var initValues :- ReadReals(toks, 1 + n, n, InitValue);
    ParseSynapses(toks, 1 + 2 * n, tablesIndex, initValues)
  }

  /** The codes of the per-field errors. */
  const FieldCodes: set<nat> := {34, 41, 42, 35, 36, 40, 46, 47, 37}

  /** The fields from the firing-table index on, starting at `pos`. */
  function ParseSynapses(toks: seq<Token>, pos: nat, tablesIndex: seq<nat>, initValues: seq<real>)
    : (r: Result<Definition, LoadError>)
    ensures r.Ok? ==> r.value.tablesIndex == tablesIndex && r.value.initValues == initValues
    ensures r.Err? && r.error.FileError? ==> r.error.code in FieldCodes
  {
    var firingIndex :- ReadCount(toks, pos, FiringIndex);
    var m :- ReadCount(toks, pos + 1, NumSynapticVar);
    var synapticVar :- ReadInts(toks, pos + 2, m, SynapticVar);
    ParseTables(toks, pos + 2 + m, tablesIndex, initValues, firingIndex, synapticVar)
  }

  /** The fields from the last-spike slot on, starting at `pos`. */
  function ParseTables(toks: seq<Token>, pos: nat, tablesIndex: seq<nat>, initValues: seq<real>,
                       firingIndex: nat, synapticVar: seq<nat>): (r: Result<Definition, LoadError>)
    ensures r.Ok? ==> r.value.tablesIndex == tablesIndex && r.value.initValues == initValues
    ensures r.Ok? ==> r.value.firingIndex == firingIndex && r.value.synapticVar == synapticVar
    ensures r.Err? && r.error.FileError? ==> r.error.code in FieldCodes
  {
    var lastSpikeVar :- ReadCount(toks, pos, LastSpikeVar);
    var seedVar :- ReadCount(toks, pos + 1, SeedVar);
    var numTables :- ReadCount(toks, pos + 2, NumTables);
    var tables :- ReadTables(toks, pos + 3, numTables);
    Ok(Definition(tablesIndex, initValues, firingIndex, synapticVar, lastSpikeVar, seedVar, tables))
  }

  /** A definition a file can hold: every integer fits a 32-bit unsigned field
      and there is one initial value per state variable. */
  predicate Representable(d: Definition) {
    && |d.initValues| == |d.tablesIndex|
    && |d.tablesIndex| < Modulus && |d.synapticVar| < Modulus && |d.tables| < Modulus
    && (forall k :: 0 <= k < |d.tablesIndex| ==> d.tablesIndex[k] < Modulus)
    && (forall k :: 0 <= k < |d.synapticVar| ==> d.synapticVar[k] < Modulus)
    && d.firingIndex < Modulus && d.lastSpikeVar < Modulus && d.seedVar < Modulus
  }

  function Ints(xs: seq<nat>): (r: seq<Lexeme>)
    ensures |r| == |xs| && forall k :: 0 <= k < |xs| ==> r[k] == Int(xs[k])
  {
    seq(|xs|, k requires 0 <= k < |xs| => Int(xs[k]))
  }

  function Reals(xs: seq<real>): (r: seq<Lexeme>)
    ensures |r| == |xs| && forall k :: 0 <= k < |xs| ==> r[k] == Real(xs[k])
  {
    seq(|xs|, k requires 0 <= k < |xs| => Real(xs[k]))
  }

  function Descriptions(ts: seq<Table>): (r: seq<Lexeme>)
    ensures |r| == |ts| && forall k :: 0 <= k < |ts| ==> r[k] == TableDescription(ts[k])
  {
    seq(|ts|, k requires 0 <= k < |ts| => TableDescription(ts[k]))
  }

  /** The words a definition file for `d` consists of, in file order. */
  function Lexemes(d: Definition): seq<Lexeme> {
    [Int(|d.tablesIndex|)] + Ints(d.tablesIndex) + Reals(d.initValues)
    + [Int(d.firingIndex), Int(|d.synapticVar|)] + Ints(d.synapticVar)
    + [Int(d.lastSpikeVar), Int(d.seedVar), Int(|d.tables|)] + Descriptions(d.tables)
  }
}

module ModelFileProofs {
  import opened Results
  import opened Tables
  import opened ModelFile

  /** The word `x` of a file reads back as the written word `y`: an integer up
      to 32-bit wrap-around, a number written as integer or real, or the same
      table description. */
  predicate ReadsAs(x: Lexeme, y: Lexeme) {
    match y
    case Int(v) => x.Int? && U32(x.n) == v
    case Real(r) => IsNumber(x) && RealOf(x) == r
    case TableDescription(_) => x == y
    case Word => false
  }

  /** The file `toks` starts with words that read as the file written for `d`. */
  predicate Holds(toks: seq<Token>, d: Definition) {
    var w := Lexemes(d);
    |w| <= |toks| && forall i :: 0 <= i < |w| ==> ReadsAs(toks[i].lex, w[i])
  }

  /** Where each field of `d` sits in the file written for it. */
  lemma LexemesLayout(d: Definition)
    requires |d.initValues| == |d.tablesIndex|
    ensures var w, n, m := Lexemes(d), |d.tablesIndex|, |d.synapticVar|;
      && |w| == 6 + 2 * n + m + |d.tables|
      && w[0] == Int(n)
      && (forall k :: 1 <= k < 1 + n ==> w[k] == Int(d.tablesIndex[k - 1]))
      && (forall k :: 1 + n <= k < 1 + 2 * n ==> w[k] == Real(d.initValues[k - 1 - n]))
      && w[1 + 2 * n] == Int(d.firingIndex)
      && w[2 + 2 * n] == Int(m)
      && (forall k :: 3 + 2 * n <= k < 3 + 2 * n + m ==> w[k] == Int(d.synapticVar[k - 3 - 2 * n]))
      && w[3 + 2 * n + m] == Int(d.lastSpikeVar)
      && w[4 + 2 * n + m] == Int(d.seedVar)
      && w[5 + 2 * n + m] == Int(|d.tables|)
      && (forall k :: 6 + 2 * n + m <= k < |w| ==> w[k] == TableDescription(d.tables[k - 6 - 2 * n - m]))
  {
    var n, m := |d.tablesIndex|, |d.synapticVar|;
    var a := [Int(n)] + Ints(d.tablesIndex) + Reals(d.initValues);
    var b := [Int(d.firingIndex), Int(m)] + Ints(d.synapticVar);
    var c := [Int(d.lastSpikeVar), Int(d.seedVar), Int(|d.tables|)];
    var e := Descriptions(d.tables);
    assert Lexemes(d) == a + b + c + e;
  }

  lemma IntsRead(toks: seq<Token>, pos: nat, xs: seq<nat>, f: Field)
    requires IntsAt(toks, pos, xs)
    ensures ReadInts(toks, pos, |xs|, f) == Ok(xs)
  {
    var r := IntsFrom(toks, pos, |xs|);
    forall i | 0 <= i < |xs|
      ensures r[i] == xs[i]
    {
      assert IntAt(toks, pos + i);
    }
    assert r == xs;
  }

  lemma RealsRead(toks: seq<Token>, pos: nat, xs: seq<real>, f: Field)
    requires RealsAt(toks, pos, xs)
    ensures ReadReals(toks, pos, |xs|, f) == Ok(xs)
  {
    var r := RealsFrom(toks, pos, |xs|);
    forall i | 0 <= i < |xs|
      ensures r[i] == xs[i]
    {
      assert NumberAt(toks, pos + i);
    }
    assert r == xs;
  }

  lemma TablesRead(toks: seq<Token>, pos: nat, ts: seq<Table>)
    requires TablesAt(toks, pos, ts)
    ensures ReadTables(toks, pos, |ts|) == Ok(ts)
  {
    var r := ReadTables(toks, pos, |ts|).value;
    forall i | 0 <= i < |ts|
      ensures r[i] == ts[i]
    {
      assert TableAt(toks, pos + i);
    }
    assert r == ts;
  }

  /** The file from `pos` on holds the last-spike slot, seed slot, table count
      and tables of `d`. */
  predicate HoldsTail(toks: seq<Token>, pos: nat, d: Definition) {
    && IntAt(toks, pos) && UnsignedAt(toks, pos) == d.lastSpikeVar
    && IntAt(toks, pos + 1) && UnsignedAt(toks, pos + 1) == d.seedVar
    && IntAt(toks, pos + 2) && UnsignedAt(toks, pos + 2) == |d.tables|
    && TablesAt(toks, pos + 3, d.tables)
  }

  /** The file from `pos` on holds the firing-table index, the synaptic count
      and slots of `d`, then its tail. */
  predicate HoldsSynapses(toks: seq<Token>, pos: nat, d: Definition) {
    && IntAt(toks, pos) && UnsignedAt(toks, pos) == d.firingIndex
    && IntAt(toks, pos + 1) && UnsignedAt(toks, pos + 1) == |d.synapticVar|
    && IntsAt(toks, pos + 2, d.synapticVar)
    && HoldsTail(toks, pos + 2 + |d.synapticVar|, d)
  }

  /** The whole file, field group by field group. */
  predicate HoldsGroups(toks: seq<Token>, d: Definition) {
    var n := |d.tablesIndex|;
    && |d.initValues| == n
    && IntAt(toks, 0) && UnsignedAt(toks, 0) == n
    && IntsAt(toks, 1, d.tablesIndex)
    && RealsAt(toks, 1 + n, d.initValues)
    && HoldsSynapses(toks, 1 + 2 * n, d)
  }

  lemma ParseTailWritten(toks: seq<Token>, pos: nat, d: Definition)
    requires HoldsTail(toks, pos, d)
    ensures ParseTables(toks, pos, d.tablesIndex, d.initValues, d.firingIndex, d.synapticVar) == Ok(d)
  {
    TablesRead(toks, pos + 3, d.tables);
  }

  lemma ParseSynapsesWritten(toks: seq<Token>, pos: nat, d: Definition)
    requires HoldsSynapses(toks, pos, d)
    ensures ParseSynapses(toks, pos, d.tablesIndex, d.initValues) == Ok(d)
  {
    IntsRead(toks, pos + 2, d.synapticVar, SynapticVar);
    ParseTailWritten(toks, pos + 2 + |d.synapticVar|, d);
  }

  lemma ParseGroups(toks: seq<Token>, d: Definition)
    requires HoldsGroups(toks, d)
    ensures ParseDefinition(toks) == Ok(d)
  {
    var n := |d.tablesIndex|;
    IntsRead(toks, 1, d.tablesIndex, TableIndex);
    RealsRead(toks, 1 + n, d.initValues, InitValue);
    ParseSynapsesWritten(toks, 1 + 2 * n, d);
  }

  lemma ParsedTail(toks: seq<Token>, pos: nat, ti: seq<nat>, iv: seq<real>, fi: nat, sv: seq<nat>, d: Definition)
    requires ParseTables(toks, pos, ti, iv, fi, sv) == Ok(d)
    ensures HoldsTail(toks, pos, d)
  {
  }

  lemma ParsedSynapses(toks: seq<Token>, pos: nat, ti: seq<nat>, iv: seq<real>, d: Definition)
    requires ParseSynapses(toks, pos, ti, iv) == Ok(d)
    ensures HoldsSynapses(toks, pos, d)
  {
    var fi := UnsignedAt(toks, pos);
    var m := UnsignedAt(toks, pos + 1);
    var sv := ReadInts(toks, pos + 2, m, SynapticVar).value;
    ParsedTail(toks, pos + 2 + m, ti, iv, fi, sv, d);
  }

  /** A successful parse took its state-variable count from the first word and
      its initial values from the words after the table indices. */
  lemma ParsedInitValues(toks: seq<Token>, d: Definition)
    requires ParseDefinition(toks) == Ok(d)
    ensures IntAt(toks, 0) && UnsignedAt(toks, 0) == |d.tablesIndex|
    ensures RealsAt(toks, 1 + |d.tablesIndex|, d.initValues)
  {
    var n := UnsignedAt(toks, 0);
    var ti := ReadInts(toks, 1, n, TableIndex).value;
    var iv := ReadReals(toks, 1 + n, n, InitValue).value;
    assert ParseSynapses(toks, 1 + 2 * n, ti, iv) == Ok(d);
  }

  lemma ParsedGroups(toks: seq<Token>, d: Definition)
    requires ParseDefinition(toks) == Ok(d)
    ensures HoldsGroups(toks, d)
  {
    var n := UnsignedAt(toks, 0);
    var ti := ReadInts(toks, 1, n, TableIndex).value;
    var iv := ReadReals(toks, 1 + n, n, InitValue).value;
    ParsedSynapses(toks, 1 + 2 * n, ti, iv, d);
  }

  /** The first `len` words of `toks` read as the first `len` words written for `d`. */
  predicate HoldsPrefix(toks: seq<Token>, d: Definition, len: nat) {
    var w := Lexemes(d);
    len <= |toks| && len <= |w| && forall i :: 0 <= i < len ==> ReadsAs(toks[i].lex, w[i])
  }

  /** Every field group that lies wholly inside a read prefix is in place. */
  lemma PrefixGroups(toks: seq<Token>, d: Definition, len: nat)
    requires Representable(d) && HoldsPrefix(toks, d, len)
    ensures var n, m := |d.tablesIndex|, |d.synapticVar|;
      var p, q := 1 + 2 * n, 3 + 2 * n + m;
      && (len > 0 ==> IntAt(toks, 0) && UnsignedAt(toks, 0) == n)
      && (len >= 1 + n ==> IntsAt(toks, 1, d.tablesIndex))
      && (len >= p ==> RealsAt(toks, 1 + n, d.initValues))
      && (len > p ==> IntAt(toks, p) && UnsignedAt(toks, p) == d.firingIndex)
      && (len > p + 1 ==> IntAt(toks, p + 1) && UnsignedAt(toks, p + 1) == m)
      && (len >= q ==> IntsAt(toks, p + 2, d.synapticVar))
      && (len > q ==> IntAt(toks, q) && UnsignedAt(toks, q) == d.lastSpikeVar)
      && (len > q + 1 ==> IntAt(toks, q + 1) && UnsignedAt(toks, q + 1) == d.seedVar)
      && (len > q + 2 ==> IntAt(toks, q + 2) && UnsignedAt(toks, q + 2) == |d.tables|)
      && (len >= q + 3 + |d.tables| ==> TablesAt(toks, q + 3, d.tables))
  {
    LexemesLayout(d);
    var w := Lexemes(d);
    var n, m := |d.tablesIndex|, |d.synapticVar|;
    var p, q := 1 + 2 * n, 3 + 2 * n + m;
    forall k | 0 <= k < len && (k == 0 || k == p || k == p + 1 || k == q || k == q + 1 || k == q + 2)
      ensures ReadsAs(toks[k].lex, w[k])
    {
    }
    forall k | 1 <= k < p && k < len
      ensures k < 1 + n ==> IntAt(toks, k) && UnsignedAt(toks, k) == d.tablesIndex[k - 1]
      ensures k >= 1 + n ==> NumberAt(toks, k) && RealAt(toks, k) == d.initValues[k - 1 - n]
    {
      assert ReadsAs(toks[k].lex, w[k]);
    }
    forall k | p + 2 <= k < q && k < len
      ensures IntAt(toks, k) && UnsignedAt(toks, k) == d.synapticVar[k - (p + 2)]
    {
      assert ReadsAs(toks[k].lex, w[k]);
    }
    forall k | q + 3 <= k < q + 3 + |d.tables| && k < len
      ensures TableAt(toks, k) && toks[k].lex.table == d.tables[k - (q + 3)]
    {
      assert ReadsAs(toks[k].lex, w[k]);
    }
  }

  /** Field groups and written words describe the same files. */
  lemma HoldsAsGroups(toks: seq<Token>, d: Definition)
    requires Representable(d) && Holds(toks, d)
    ensures HoldsGroups(toks, d)
  {
    LexemesLayout(d);
    PrefixGroups(toks, d, |Lexemes(d)|);
  }

  lemma GroupsAsHolds(toks: seq<Token>, d: Definition)
    requires HoldsGroups(toks, d)
    ensures Representable(d) && Holds(toks, d)
  {
    LexemesLayout(d);
    var w := Lexemes(d);
    var n, m := |d.tablesIndex|, |d.synapticVar|;
    var p := 1 + 2 * n;
    var q := p + 2 + m;
    assert HoldsSynapses(toks, p, d);
    assert HoldsTail(toks, q, d);
    forall k | 0 <= k < n
      ensures d.tablesIndex[k] < Modulus
    {
      assert IntAt(toks, 1 + k);
    }
    forall k | 0 <= k < m
      ensures d.synapticVar[k] < Modulus
    {
      assert IntAt(toks, p + 2 + k);
    }
    if |d.tables| > 0 {
      assert TableAt(toks, q + 3 + (|d.tables| - 1));
    }
    assert |w| <= |toks|;
    forall i | 0 <= i < |w|
      ensures i < |toks| && ReadsAs(toks[i].lex, w[i])
    {
      if 1 <= i < p {
        if i < 1 + n {
          assert IntAt(toks, i);
        } else {
          assert NumberAt(toks, i);
        }
      } else if p + 2 <= i < q {
        assert IntAt(toks, i);
      } else if q + 3 <= i {
        assert TableAt(toks, i);
      }
    }
  }

  /** Round trip: a file holding the words written for a representable
      definition parses back to exactly that definition, whatever follows. */
  lemma ParseWritten(toks: seq<Token>, d: Definition)
    requires Representable(d) && Holds(toks, d)
    ensures ParseDefinition(toks) == Ok(d)
  {
    HoldsAsGroups(toks, d);
    ParseGroups(toks, d);
  }

  /** Converse: whatever the parser accepts is representable and the file holds
      the words written for it. */
  lemma ParsedIsWritten(toks: seq<Token>, d: Definition)
    requires ParseDefinition(toks) == Ok(d)
    ensures Representable(d) && Holds(toks, d)
  {
    ParsedGroups(toks, d);
    GroupsAsHolds(toks, d);
  }

  /** Where the group of field `f` starts in the file written for `d`. */
  function Offset(d: Definition, f: Field): nat {
    var n, m := |d.tablesIndex|, |d.synapticVar|;
    match f
    case NumStateVar => 0
    case TableIndex => 1
    case InitValue => 1 + n
    case FiringIndex => 1 + 2 * n
    case NumSynapticVar => 2 + 2 * n
    case SynapticVar => 3 + 2 * n
    case LastSpikeVar => 3 + 2 * n + m
    case SeedVar => 4 + 2 * n + m
    case NumTables => 5 + 2 * n + m
  }

  /** How many words the group of field `f` has in the file written for `d`. */
  function GroupSize(d: Definition, f: Field): nat {
    match f
    case TableIndex => |d.tablesIndex|
    case InitValue => |d.tablesIndex|
    case SynapticVar => |d.synapticVar|
    case _ => 1
  }

  /** The word at `k` can be converted as field `f` is read: a number for the
      initial values, an integer for every other field. */
  predicate FieldWordAt(toks: seq<Token>, k: nat, f: Field) {
    if f.InitValue? then NumberAt(toks, k) else IntAt(toks, k)
  }

  /** A bad or missing word inside the state-variable groups. */
  lemma UnreadableHead(toks: seq<Token>, d: Definition, f: Field, j: nat)
    requires f.NumStateVar? || f.TableIndex? || f.InitValue?
    requires Representable(d) && j < GroupSize(d, f)
    requires HoldsPrefix(toks, d, Offset(d, f)) && !FieldWordAt(toks, Offset(d, f) + j, f)
    ensures ParseDefinition(toks) == Err(FileError(Code(f), LineAt(toks, Offset(d, f))))
  {
    PrefixGroups(toks, d, Offset(d, f));
    var n := |d.tablesIndex|;
    if !f.NumStateVar? {
      assert ReadCount(toks, 0, NumStateVar) == Ok(n);
      if f.InitValue? {
        IntsRead(toks, 1, d.tablesIndex, TableIndex);
      }
    }
  }

  /** A bad or missing word inside the synaptic groups. */
  lemma UnreadableSynapses(toks: seq<Token>, d: Definition, f: Field, j: nat)
    requires f.FiringIndex? || f.NumSynapticVar? || f.SynapticVar?
    requires Representable(d) && j < GroupSize(d, f)
    requires HoldsPrefix(toks, d, Offset(d, f)) && !FieldWordAt(toks, Offset(d, f) + j, f)
    ensures ParseSynapses(toks, 1 + 2 * |d.tablesIndex|, d.tablesIndex, d.initValues)
         == Err(FileError(Code(f), LineAt(toks, Offset(d, f))))
  {
    PrefixGroups(toks, d, Offset(d, f));
  }

  /** A bad or missing word in the last-spike, seed or table-count field. */
  lemma UnreadableTail(toks: seq<Token>, d: Definition, f: Field)
    requires f.LastSpikeVar? || f.SeedVar? || f.NumTables?
    requires Representable(d)
    requires HoldsPrefix(toks, d, Offset(d, f)) && !FieldWordAt(toks, Offset(d, f), f)
    ensures ParseTables(toks, 3 + 2 * |d.tablesIndex| + |d.synapticVar|, d.tablesIndex, d.initValues,
                        d.firingIndex, d.synapticVar)
         == Err(FileError(Code(f), LineAt(toks, Offset(d, f))))
  {
    PrefixGroups(toks, d, Offset(d, f));
  }

  /** Once the state-variable groups are in place the parse continues with the
      synaptic fields. */
  lemma HeadRead(toks: seq<Token>, d: Definition, len: nat)
    requires Representable(d) && HoldsPrefix(toks, d, len) && len >= 1 + 2 * |d.tablesIndex|
    ensures ParseDefinition(toks) == ParseSynapses(toks, 1 + 2 * |d.tablesIndex|, d.tablesIndex, d.initValues)
  {
    PrefixGroups(toks, d, len);
    IntsRead(toks, 1, d.tablesIndex, TableIndex);
    RealsRead(toks, 1 + |d.tablesIndex|, d.initValues, InitValue);
  }

  /** Once the synaptic groups are in place the parse continues with the tail. */
  lemma SynapsesRead(toks: seq<Token>, d: Definition, len: nat)
    requires Representable(d) && HoldsPrefix(toks, d, len)
    requires len >= 3 + 2 * |d.tablesIndex| + |d.synapticVar|
    ensures ParseSynapses(toks, 1 + 2 * |d.tablesIndex|, d.tablesIndex, d.initValues)
         == ParseTables(toks, 3 + 2 * |d.tablesIndex| + |d.synapticVar|, d.tablesIndex, d.initValues,
                        d.firingIndex, d.synapticVar)
  {
    PrefixGroups(toks, d, len);
    IntsRead(toks, 3 + 2 * |d.tablesIndex|, d.synapticVar, SynapticVar);
  }

  /**
    A file that is correct up to the group of field `f`, and in which some word
    of that group is missing or cannot be converted as the field is read, fails
    with the field's own code, reported at the line where the group starts.
   */
  lemma UnreadableFieldFails(toks: seq<Token>, d: Definition, f: Field, j: nat)
    requires Representable(d) && j < GroupSize(d, f)
    requires HoldsPrefix(toks, d, Offset(d, f)) && !FieldWordAt(toks, Offset(d, f) + j, f)
    ensures ParseDefinition(toks) == Err(FileError(Code(f), LineAt(toks, Offset(d, f))))
  {
    if f.NumStateVar? || f.TableIndex? || f.InitValue? {
      UnreadableHead(toks, d, f, j);
    } else {
      HeadRead(toks, d, Offset(d, f));
      UnreadableAfterHead(toks, d, f, j);
    }
  }

  /** A bad or missing word in a field after the initial values. */
  lemma UnreadableAfterHead(toks: seq<Token>, d: Definition, f: Field, j: nat)
    requires !(f.NumStateVar? || f.TableIndex? || f.InitValue?)
    requires Representable(d) && j < GroupSize(d, f)
    requires HoldsPrefix(toks, d, Offset(d, f)) && !FieldWordAt(toks, Offset(d, f) + j, f)
    ensures ParseSynapses(toks, 1 + 2 * |d.tablesIndex|, d.tablesIndex, d.initValues)
         == Err(FileError(Code(f), LineAt(toks, Offset(d, f))))
  {
    if f.FiringIndex? || f.NumSynapticVar? || f.SynapticVar? {
      UnreadableSynapses(toks, d, f, j);
    } else {
      SynapsesRead(toks, d, Offset(d, f));
      UnreadableTail(toks, d, f);
    }
  }

  /**
    A file that ends just before a non-empty field group, and is correct up to
    there, fails with that field's own code, reported at the line the reader
    is on when it expects the field.
   */
  lemma TruncatedFileFails(toks: seq<Token>, d: Definition, f: Field)
    requires Representable(d) && GroupSize(d, f) > 0
    requires |toks| == Offset(d, f) && HoldsPrefix(toks, d, |toks|)
    ensures ParseDefinition(toks) == Err(FileError(Code(f), LineAt(toks, |toks|)))
  {
    UnreadableFieldFails(toks, d, f, 0);
  }
}
