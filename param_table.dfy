/**
 * What the two tasks of scripts/01_prepare_input_parameters/generate_param_df.py
 * share: params_default, column_order, completing a row from the defaults, and
 * the DataFrame operations that reorder, drop, deduplicate and add columns.
 *
 * Each task scans a few parameters with itertools.product, writes one row
 * dict per combination, completes it from params_default, turns the list into
 * a DataFrame with the columns in column_order, and derives a "unique" table
 * that ignores the replicate seed. A row is a map from column to cell; a
 * table keeps its column order next to its rows. Writing the CSV files and
 * the command line are not modelled.
 */
module ParamTable {
  import opened Sweep

  /** The columns of a parameter table: the keys of params_default, in that dict's order. */
  datatype Param =
    | seed | RUNTIME | BURNIN | LOGINTERVAL | N_POP | RECOVERY
    | GEN_LEN_DEPENDS_ON_TEMP | FIXED_GEN_LEN | USE_EXTERNAL_TEMP_DATA
    | TEMPDATA_PATH | MEAN_TEMP | STDEV_TEMP | NUM_REP_TEMP_DATA | B_default
    | CTmin_default | B_critical | DeltaB | CTmin_critical | DeltaCTmin
    | CTmax_critical | DeltaCTmax | OUTDIR | OUTNAME

  type Row = map<Param, Value>

  /** params_default.keys(), in insertion order. */
  const DefaultKeys: seq<Param> :=
    [seed, RUNTIME, BURNIN, LOGINTERVAL, N_POP, RECOVERY,
     GEN_LEN_DEPENDS_ON_TEMP, FIXED_GEN_LEN, USE_EXTERNAL_TEMP_DATA,
     TEMPDATA_PATH, MEAN_TEMP, STDEV_TEMP, NUM_REP_TEMP_DATA, B_default,
     CTmin_default, B_critical, DeltaB, CTmin_critical, DeltaCTmin,
     CTmax_critical, DeltaCTmax, OUTDIR, OUTNAME]

  /** params_default[p]: the values of the master simulation script. */
  function Default(p: Param): Value
  {
    match p
    case seed => IntV(13579)
    case RUNTIME => IntV(200)
    case BURNIN => IntV(50)
    case LOGINTERVAL => IntV(1)
    case N_POP => IntV(5000)
    case RECOVERY => StrV("F")
    case GEN_LEN_DEPENDS_ON_TEMP => StrV("T")
    case FIXED_GEN_LEN => IntV(10)
    case USE_EXTERNAL_TEMP_DATA => StrV("T")
    case TEMPDATA_PATH => StrV("./VT_weather.txt")
    case MEAN_TEMP => IntV(5)
    case STDEV_TEMP => IntV(0)
    case NUM_REP_TEMP_DATA => IntV(20)
    case B_default => IntV(30)
    case CTmin_default => IntV(0)
    case B_critical => IntV(40)
    case DeltaB => IntV(2)
    case CTmin_critical => IntV(0)
    case DeltaCTmin => IntV(2)
    case CTmax_critical => IntV(40)
    case DeltaCTmax => FloatV("0.2")
    case OUTDIR => StrV("./data")
    case OUTNAME => StrV("out")
  }

  /** column_order: the column order of every saved table. */
  const ColumnOrder: seq<Param> :=
    [seed, RUNTIME, BURNIN, LOGINTERVAL, N_POP, RECOVERY,
     GEN_LEN_DEPENDS_ON_TEMP, FIXED_GEN_LEN, USE_EXTERNAL_TEMP_DATA,
     TEMPDATA_PATH, MEAN_TEMP, STDEV_TEMP, NUM_REP_TEMP_DATA, B_default,
     CTmin_default, B_critical, DeltaB, CTmin_critical, DeltaCTmin,
     CTmax_critical, DeltaCTmax, OUTDIR, OUTNAME]

  /** column_order lists exactly the keys of params_default, each once. */
  lemma ColumnOrderListsDefaults()
    ensures |ColumnOrder| == 23 && ColumnOrder == DefaultKeys
    ensures NoDuplicates(ColumnOrder)
  {
    forall i, j | 0 <= i < j < |ColumnOrder|
      ensures ColumnOrder[i] != ColumnOrder[j]
    {
      assert Position(ColumnOrder[i]) == i && Position(ColumnOrder[j]) == j;
    }
  }

  /** Where a column sits in column_order. */
  function Position(p: Param): nat
  {
    match p
    case seed => 0 case RUNTIME => 1 case BURNIN => 2 case LOGINTERVAL => 3
    case N_POP => 4 case RECOVERY => 5 case GEN_LEN_DEPENDS_ON_TEMP => 6
    case FIXED_GEN_LEN => 7 case USE_EXTERNAL_TEMP_DATA => 8 case TEMPDATA_PATH => 9
    case MEAN_TEMP => 10 case STDEV_TEMP => 11 case NUM_REP_TEMP_DATA => 12
    case B_default => 13 case CTmin_default => 14 case B_critical => 15
    case DeltaB => 16 case CTmin_critical => 17 case DeltaCTmin => 18
    case CTmax_critical => 19 case DeltaCTmax => 20 case OUTDIR => 21 case OUTNAME => 22
  }

  // ---------------------------------------------------------------------
  // Completing a row from params_default

  /** params_default has a key for every column. */
  lemma DefaultKeysComplete()
    ensures forall p :: p in DefaultKeys
  {
    forall p
      ensures p in DefaultKeys
    {
      assert DefaultKeys[Position(p)] == p;
    }
  }

  /**
   * new_row completed from params_default: every column is present, with
   * new_row's value where it sets one and the default elsewhere.
   */
  function Merged(newRow: Row): (row: Row)
    ensures forall p :: p in row && row[p] == if p in newRow then newRow[p] else Default(p)
  {
    DefaultKeysComplete();
    map p | p in newRow.Keys + (set k | k in DefaultKeys) ::
      if p in newRow then newRow[p] else Default(p)
  }

  /** The loop that adds every missing key of params_default to a new row. */
  method FillDefaults(newRow: Row) returns (row: Row)
    ensures row == Merged(newRow)
  {
    row := newRow;
    for i := 0 to |DefaultKeys|
      invariant forall p :: p in row <==> p in newRow || p in DefaultKeys[..i]
      invariant forall p :: p in row ==> row[p] == if p in newRow then newRow[p] else Default(p)
    {
      var key := DefaultKeys[i];
      if key !in row {
        row := row[key := Default(key)];
      }
      assert DefaultKeys[..i + 1] == DefaultKeys[..i] + [key];
    }
    assert DefaultKeys[..|DefaultKeys|] == DefaultKeys;
    IsMerged(newRow, row);
  }

  /** A row holding every column, each with new_row's value or else the default, is the completed row. */
  lemma IsMerged(newRow: Row, row: Row)
    requires forall p :: p in row <==> p in newRow || p in DefaultKeys
    requires forall p :: p in row ==> row[p] == if p in newRow then newRow[p] else Default(p)
    ensures row == Merged(newRow)
  {
    DefaultKeysComplete();
  }

  // ---------------------------------------------------------------------
  // DataFrame operations

  /** A DataFrame: its column labels in order, and one row per record. */
  datatype Frame = Frame(columns: seq<Param>, rows: seq<Row>)

  /** Every row holds exactly the table's columns. */
  predicate Valid(f: Frame)
  {
    forall r, c :: r in f.rows ==> (c in r <==> c in f.columns)
  }

  /** pd.DataFrame(records)[cols]: the records restricted to cols, in that order. */
  function Select(records: seq<Row>, cols: seq<Param>): (f: Frame)
    requires forall i, c :: 0 <= i < |records| && c in cols ==> c in records[i]
    ensures Valid(f) && f.columns == cols && |f.rows| == |records|
    ensures forall i, c :: 0 <= i < |records| && c in cols ==> f.rows[i][c] == records[i][c]
  {
    Frame(cols, seq(|records|, i requires 0 <= i < |records| =>
      map c | c in cols :: records[i][c]))
  }

  /** A record holding exactly the selected columns comes through the selection unchanged. */
  lemma SelectKeepsFullRow(records: seq<Row>, cols: seq<Param>, i: nat)
    requires forall i, c :: 0 <= i < |records| && c in cols ==> c in records[i]
    requires i < |records| && forall c :: c in records[i] <==> c in cols
    ensures Select(records, cols).rows[i] == records[i]
  {
  }

  /** The columns of cs outside gone, in order. */
  function Without(cs: seq<Param>, gone: set<Param>): (kept: seq<Param>)
    ensures forall c :: c in kept <==> c in cs && c !in gone
  {
    if cs == [] then []
    else (if cs[0] in gone then [] else [cs[0]]) + Without(cs[1..], gone)
  }

  /** df.drop(columns=gone). */
  function DropColumns(f: Frame, gone: set<Param>): (g: Frame)
    ensures g.columns == Without(f.columns, gone) && |g.rows| == |f.rows|
    ensures forall i :: 0 <= i < |f.rows| ==> g.rows[i] == RowWithout(f.rows[i], gone)
    ensures Valid(f) ==> Valid(g)
  {
    Frame(Without(f.columns, gone), seq(|f.rows|, i requires 0 <= i < |f.rows| =>
      RowWithout(f.rows[i], gone)))
  }

  /** One row with the cells of the columns in gone removed. */
  function RowWithout(r: Row, gone: set<Param>): (r': Row)
    ensures forall c :: c in r' <==> c in r && c !in gone
    ensures forall c :: c in r' ==> r'[c] == r[c]
  {
    map c | c in r && c !in gone :: r[c]
  }

  /** df.drop_duplicates().reset_index(drop=True): first occurrences, in order. */
  function DropDuplicates(f: Frame): (g: Frame)
    ensures g.columns == f.columns && g.rows == Dedup(f.rows)
    ensures forall r :: r in g.rows <==> r in f.rows
    ensures NoDuplicates(g.rows)
    ensures Valid(f) ==> Valid(g)
  {
    DedupSameElements(f.rows);
    DedupNoDuplicates(f.rows);
    Frame(f.columns, Dedup(f.rows))
  }

  /** df[c] = vals for a column c the frame does not have: appended as the last column. */
  function AddColumn(f: Frame, c: Param, vals: seq<Value>): (g: Frame)
    requires |vals| == |f.rows| && c !in f.columns
    ensures g.columns == f.columns + [c] && |g.rows| == |f.rows|
    ensures forall i :: 0 <= i < |f.rows| ==> g.rows[i] == f.rows[i][c := vals[i]]
    ensures Valid(f) ==> Valid(g)
  {
    Frame(f.columns + [c], seq(|f.rows|, i requires 0 <= i < |f.rows| => f.rows[i][c := vals[i]]))
  }

  /** The column c of a valid frame, top to bottom. */
  function Column(f: Frame, c: Param): (col: seq<Value>)
    requires Valid(f) && c in f.columns
    ensures |col| == |f.rows| && forall i :: 0 <= i < |f.rows| ==> col[i] == f.rows[i][c]
  {
    seq(|f.rows|, i requires 0 <= i < |f.rows| => f.rows[i][c])
  }

  /** The unique table before its new OUTNAME: seed and OUTNAME dropped, duplicates removed. */
  function WithoutReplicates(f: Frame): (g: Frame)
    requires Valid(f)
    ensures Valid(g) && g.columns == Without(f.columns, {seed, OUTNAME})
    ensures OUTNAME !in g.columns
  {
    DropDuplicates(DropColumns(f, {seed, OUTNAME}))
  }

  // ---------------------------------------------------------------------
  // Facts about completed rows

  /** A completed row holds exactly the columns of column_order. */
  lemma MergedHoldsColumns(newRow: Row)
    ensures forall c :: c in Merged(newRow) <==> c in ColumnOrder
  {
    ColumnOrderListsDefaults();
    DefaultKeysComplete();
  }

  /** Rows that agree outside gone still agree outside gone once completed. */
  lemma MergedAgreeOutside(n: Row, n': Row, gone: set<Param>)
    requires forall c :: c !in gone ==> (c in n <==> c in n') && (c in n ==> n[c] == n'[c])
    ensures RowWithout(Merged(n), gone) == RowWithout(Merged(n'), gone)
  {
    var r, r' := RowWithout(Merged(n), gone), RowWithout(Merged(n'), gone);
    assert forall c :: c in r ==> c in r' && r[c] == r'[c];
  }

  /** A row with seed and OUTNAME dropped and a new OUTNAME set agrees with the original elsewhere. */
  lemma RenamedAgrees(r: Row, d: Row, v: Value)
    requires d == RowWithout(r, {seed, OUTNAME})
    ensures forall c :: c != OUTNAME ==> (c in d[OUTNAME := v] <==> c in r && c != seed)
    ensures forall c :: c != OUTNAME && c in d[OUTNAME := v] ==> d[OUTNAME := v][c] == r[c]
  {
  }

  /** Dropping seed and OUTNAME, then setting OUTNAME back to its old value, only drops seed. */
  lemma RenamedIsWithoutSeed(r: Row)
    requires OUTNAME in r
    ensures RowWithout(r, {seed, OUTNAME})[OUTNAME := r[OUTNAME]] == RowWithout(r, {seed})
  {
  }
}
