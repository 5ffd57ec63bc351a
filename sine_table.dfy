/**
 * sine() of scripts/01_prepare_input_parameters/generate_param_df.py:
 * sinusoidal mean temperature read from ./sine.csv, scanning the survival
 * model (RECOVERY) and whether generation length depends on temperature.
 */
module SineTable {
  import opened Sweep
  import opened ParamTable

  const RecoveryOptions: seq<string> := ["T", "F"]
  const GenLenOptions: seq<string> := ["T", "F"]

  /** The scan itertools.product(RECOVERY_list, GEN_LEN_DEPENDS_ON_TEMP_list). */
  function SineScan(): seq<(string, string)>
  {
    Product(RecoveryOptions, GenLenOptions)
  }

  function SineName(recovery: string, genLen: string): string
  {
    "sine_RECOVERY_" + recovery + "_GEN_LEN_DEPENDS_ON_TEMP_" + genLen
  }

  /** The new_row dict of one sine run. */
  function SineNewRow(recovery: string, genLen: string): Row
  {
    map[RUNTIME := IntV(20000),
        BURNIN := IntV(5000),
        B_default := IntV(31),
        CTmin_default := IntV(5),
        N_POP := IntV(50000),
        TEMPDATA_PATH := StrV("./sine.csv"),
        OUTDIR := StrV("/projects/lotterhos/TPC_evol_SLiM"),
        RECOVERY := StrV(recovery),
        GEN_LEN_DEPENDS_ON_TEMP := StrV(genLen),
        OUTNAME := StrV(SineName(recovery, genLen))]
  }

  /** params_list: one completed row per scanned combination. */
  function SineRecords(): seq<Row>
  {
    var scan := SineScan();
    seq(|scan|, i requires 0 <= i < |scan| => Merged(SineNewRow(scan[i].0, scan[i].1)))
  }

  function SineParams(): Frame
  {
    SineRecordsHoldColumns();
    Select(SineRecords(), ColumnOrder)
  }

  /** params_unique: OUTNAME re-added from the RECOVERY and GEN_LEN_DEPENDS_ON_TEMP columns. */
  function SineUnique(f: Frame): (g: Frame)
    requires Valid(f) && RECOVERY in f.columns && GEN_LEN_DEPENDS_ON_TEMP in f.columns
    ensures Valid(g)
  {
    var d := WithoutReplicates(f);
    var recoveries := Column(d, RECOVERY);
    var genLens := Column(d, GEN_LEN_DEPENDS_ON_TEMP);
    AddColumn(d, OUTNAME, seq(|d.rows|, i requires 0 <= i < |d.rows| => SineUniqueLabel(recoveries[i], genLens[i])))
  }

  /** The OUTNAME cell params_unique rebuilds from the RECOVERY and GEN_LEN_DEPENDS_ON_TEMP cells of a row. */
  function SineUniqueLabel(recovery: Value, genLen: Value): Value
  {
    StrV("sine_RECOVERY_" + Str(recovery) + "_GEN_LEN_DEPENDS_ON_TEMP_" + Str(genLen))
  }

  /** Every completed sine row holds every column of column_order. */
  lemma SineRecordsHoldColumns()
    ensures forall i, c :: 0 <= i < |SineRecords()| && c in ColumnOrder ==> c in SineRecords()[i]
  {
    ColumnOrderListsDefaults();
  }

  /** The loop of sine(): one completed row per scanned (RECOVERY, GEN_LEN_DEPENDS_ON_TEMP), in scan order. */
  method SineRows() returns (paramsList: seq<Row>)
    ensures paramsList == SineRecords()
  {
    var scan := SineScan();
    paramsList := [];
    for i := 0 to |scan|
      invariant paramsList == SineRecords()[..i]
    {
      var (recovery, genLen) := scan[i];
      var row := FillDefaults(SineNewRow(recovery, genLen));
      SineRecordsAppend(paramsList, i, row);
      paramsList := paramsList + [row];
    }
    assert SineRecords()[..|scan|] == SineRecords();
  }

  /** Appending the completed row of scan position i extends the first i records by one. */
  lemma SineRecordsAppend(done: seq<Row>, i: nat, row: Row)
    requires i < |SineScan()| && done == SineRecords()[..i]
    requires row == Merged(SineNewRow(SineScan()[i].0, SineScan()[i].1))
    ensures done + [row] == SineRecords()[..i + 1]
  {
    assert SineRecords()[i] == row;
    PrefixExtend(SineRecords(), done, i, row);
  }

  /** sine(): the saved table and its unique table. */
  method Sine() returns (params: Frame, paramsUnique: Frame)
    ensures params == SineParams()
    ensures Valid(params) && RECOVERY in params.columns && GEN_LEN_DEPENDS_ON_TEMP in params.columns
    ensures paramsUnique == SineUnique(params)
  {
    var paramsList := SineRows();
    SineRecordsHoldColumns();
    params := Select(paramsList, ColumnOrder);
    paramsUnique := SineUnique(params);
  }

  // ---------------------------------------------------------------------
  // What sine() produces

  /** Scan position i holds (RECOVERY_list[i / 2], GEN_LEN_DEPENDS_ON_TEMP_list[i % 2]). */
  lemma SineScanAt(i: nat)
    requires i < 4
    ensures |SineScan()| == |RecoveryOptions| * |GenLenOptions| == 4
    ensures SineScan()[i] == (RecoveryOptions[i / 2], GenLenOptions[i % 2])
  {
    ProductIndex(RecoveryOptions, GenLenOptions, i);
  }

  /** The saved table has 2 x 2 rows and exactly the columns of column_order, in that order. */
  lemma SineTableShape()
    ensures SineParams().columns == ColumnOrder
    ensures |SineParams().rows| == |RecoveryOptions| * |GenLenOptions| == 4
    ensures Valid(SineParams())
  {
    SineScanAt(0);
  }

  /** Row i of the saved table is the completed new_row of scan position i. */
  lemma SineRecordAt(i: nat)
    requires i < 4
    ensures |SineParams().rows| == 4
    ensures SineParams().rows[i] == Merged(SineNewRow(RecoveryOptions[i / 2], GenLenOptions[i % 2]))
  {
    SineScanAt(i);
    MergedHoldsColumns(SineNewRow(RecoveryOptions[i / 2], GenLenOptions[i % 2]));
    SineRecordsHoldColumns();
    SelectKeepsFullRow(SineRecords(), ColumnOrder, i);
  }

  /**
   * A completed sine row carries the scanned RECOVERY and GEN_LEN_DEPENDS_ON_TEMP,
   * the run name, and the default seed 13579: sine() does not set a seed.
   */
  lemma SineRowScanned(recovery: string, genLen: string)
    ensures
      var r := Merged(SineNewRow(recovery, genLen));
      && RECOVERY in r && GEN_LEN_DEPENDS_ON_TEMP in r && OUTNAME in r && seed in r
      && r[RECOVERY] == StrV(recovery) && r[GEN_LEN_DEPENDS_ON_TEMP] == StrV(genLen)
      && r[OUTNAME] == StrV(SineName(recovery, genLen))
      && r[seed] == Default(seed) == IntV(13579)
  {
  }

  /** The task's constants override params_default; every other column keeps its default. */
  lemma SineRowConstants(recovery: string, genLen: string)
    ensures
      var r := Merged(SineNewRow(recovery, genLen));
      && RUNTIME in r && BURNIN in r && B_default in r && CTmin_default in r && N_POP in r
      && TEMPDATA_PATH in r && OUTDIR in r
      && r[RUNTIME] == IntV(20000) && r[BURNIN] == IntV(5000) && r[B_default] == IntV(31)
      && r[CTmin_default] == IntV(5) && r[N_POP] == IntV(50000)
      && r[TEMPDATA_PATH] == StrV("./sine.csv") && r[OUTDIR] == StrV("/projects/lotterhos/TPC_evol_SLiM")
    ensures
      var r := Merged(SineNewRow(recovery, genLen));
      forall p :: p !in SineNewRow(recovery, genLen) ==> p in r && r[p] == Default(p)
  {
  }

  /** Row i of the saved table carries the scanned flags and their run name. */
  lemma SineRowAt(i: nat)
    requires i < 4
    ensures |SineParams().rows| == 4
    ensures
      var r := SineParams().rows[i];
      var rec, gen := RecoveryOptions[i / 2], GenLenOptions[i % 2];
      && RECOVERY in r && GEN_LEN_DEPENDS_ON_TEMP in r && OUTNAME in r
      && r[RECOVERY] == StrV(rec) && r[GEN_LEN_DEPENDS_ON_TEMP] == StrV(gen)
      && r[OUTNAME] == StrV(SineName(rec, gen))
  {
    SineRecordAt(i);
    SineRowScanned(RecoveryOptions[i / 2], GenLenOptions[i % 2]);
  }

  /** Distinct scan positions scan distinct flag pairs. */
  lemma SineScanDistinct(i: nat, j: nat)
    requires i < j < 4
    ensures (RecoveryOptions[i / 2], GenLenOptions[i % 2]) != (RecoveryOptions[j / 2], GenLenOptions[j % 2])
  {
    ProductNoDuplicates(RecoveryOptions, GenLenOptions);
    SineScanAt(i);
    SineScanAt(j);
  }

  /** The run name determines RECOVERY and GEN_LEN_DEPENDS_ON_TEMP when the flags hold no underscore. */
  lemma SineNameInjective(recovery: string, genLen: string, recovery': string, genLen': string)
    requires '_' !in recovery && '_' !in recovery'
    ensures SineName(recovery, genLen) == SineName(recovery', genLen') ==> recovery == recovery' && genLen == genLen'
  {
    if SineName(recovery, genLen) == SineName(recovery', genLen') {
      var t, t' := "_GEN_LEN_DEPENDS_ON_TEMP_" + genLen, "_GEN_LEN_DEPENDS_ON_TEMP_" + genLen';
      assert SineName(recovery, genLen) == "sine_RECOVERY_" + recovery + t;
      assert SineName(recovery', genLen') == "sine_RECOVERY_" + recovery' + t';
      FieldThenRest("sine_RECOVERY_", recovery, t, recovery', t');
      DropCommonPrefix("_GEN_LEN_DEPENDS_ON_TEMP_", genLen, genLen');
    }
  }

  /** No two rows of the saved table share an OUTNAME. */
  lemma SineOutnamesDistinct(i: nat, j: nat)
    requires i < j < 4
    ensures |SineParams().rows| == 4
    ensures SineParams().rows[i][OUTNAME] != SineParams().rows[j][OUTNAME]
  {
    SineRowAt(i);
    SineRowAt(j);
    SineNameInjective(RecoveryOptions[i / 2], GenLenOptions[i % 2], RecoveryOptions[j / 2], GenLenOptions[j % 2]);
    SineScanDistinct(i, j);
  }

  // ---------------------------------------------------------------------
  // What sine()'s unique table holds

  /** With seed and OUTNAME dropped the four rows still differ, so drop_duplicates keeps them all. */
  lemma SineDeduplicated()
    ensures WithoutReplicates(SineParams()).rows == DropColumns(SineParams(), {seed, OUTNAME}).rows
  {
    SineTableShape();
    var d := DropColumns(SineParams(), {seed, OUTNAME}).rows;
    forall i, j | 0 <= i < j < |d|
      ensures d[i] != d[j]
    {
      SineDroppedRowsDiffer(i, j);
    }
    DedupBlocks(d, d, 1);
  }

  lemma SineDroppedRowsDiffer(i: nat, j: nat)
    requires i < j < 4
    ensures |SineParams().rows| == 4
    ensures RowWithout(SineParams().rows[i], {seed, OUTNAME}) != RowWithout(SineParams().rows[j], {seed, OUTNAME})
  {
    SineRowAt(i);
    SineRowAt(j);
    SineScanDistinct(i, j);
    var ri := RowWithout(SineParams().rows[i], {seed, OUTNAME});
    var rj := RowWithout(SineParams().rows[j], {seed, OUTNAME});
    assert RECOVERY in ri && GEN_LEN_DEPENDS_ON_TEMP in ri;
    assert ri[RECOVERY] != rj[RECOVERY] || ri[GEN_LEN_DEPENDS_ON_TEMP] != rj[GEN_LEN_DEPENDS_ON_TEMP];
  }

  /** Row i of a sine unique table: row i of the deduplicated table plus its OUTNAME. */
  lemma SineUniqueRowOf(f: Frame, i: nat)
    requires Valid(f) && RECOVERY in f.columns && GEN_LEN_DEPENDS_ON_TEMP in f.columns
    requires i < |WithoutReplicates(f).rows|
    ensures
      var d := WithoutReplicates(f).rows[i];
      && |SineUnique(f).rows| == |WithoutReplicates(f).rows|
      && RECOVERY in d && GEN_LEN_DEPENDS_ON_TEMP in d
      && SineUnique(f).rows[i]
         == d[OUTNAME := SineUniqueLabel(d[RECOVERY], d[GEN_LEN_DEPENDS_ON_TEMP])]
  {
    var d := WithoutReplicates(f);
    assert d.rows[i] in d.rows;
    assert RECOVERY in d.columns && GEN_LEN_DEPENDS_ON_TEMP in d.columns;
    var recoveries, genLens := Column(d, RECOVERY), Column(d, GEN_LEN_DEPENDS_ON_TEMP);
    assert recoveries[i] == d.rows[i][RECOVERY] && genLens[i] == d.rows[i][GEN_LEN_DEPENDS_ON_TEMP];
  }

  /**
   * The unique table has the same four rows, in the same order: each is the
   * saved row without its seed, and its rebuilt OUTNAME equals the saved one.
   */
  lemma SineUniqueIsParamsWithoutSeed(i: nat)
    requires i < 4
    ensures |SineParams().rows| == 4 && |SineUnique(SineParams()).rows| == 4
    ensures SineUnique(SineParams()).rows[i] == RowWithout(SineParams().rows[i], {seed})
  {
    SineUniqueRowIs(i);
    SineRowAt(i);
    SineRenameRestores(SineParams().rows[i], RecoveryOptions[i / 2], GenLenOptions[i % 2]);
  }

  /** Unique row i is saved row i with seed and OUTNAME dropped and OUTNAME rebuilt from its flags. */
  lemma SineUniqueRowIs(i: nat)
    requires i < 4
    ensures |SineParams().rows| == 4 && |SineUnique(SineParams()).rows| == 4
    ensures
      var d := RowWithout(SineParams().rows[i], {seed, OUTNAME});
      && RECOVERY in d && GEN_LEN_DEPENDS_ON_TEMP in d
      && SineUnique(SineParams()).rows[i]
         == d[OUTNAME := SineUniqueLabel(d[RECOVERY], d[GEN_LEN_DEPENDS_ON_TEMP])]
  {
    SineDedupRowAt(i);
    SineUniqueRowOf(SineParams(), i);
  }

  /** Row i of the deduplicated table is saved row i without seed and OUTNAME. */
  lemma SineDedupRowAt(i: nat)
    requires i < 4
    ensures |SineParams().rows| == 4 && |WithoutReplicates(SineParams()).rows| == 4
    ensures WithoutReplicates(SineParams()).rows[i] == RowWithout(SineParams().rows[i], {seed, OUTNAME})
  {
    SineTableShape();
    SineDeduplicated();
  }

  /** A row whose OUTNAME is built from its flags gets the same OUTNAME back when rebuilt. */
  lemma SineRenameRestores(r: Row, recovery: string, genLen: string)
    requires RECOVERY in r && GEN_LEN_DEPENDS_ON_TEMP in r && OUTNAME in r
    requires r[RECOVERY] == StrV(recovery) && r[GEN_LEN_DEPENDS_ON_TEMP] == StrV(genLen)
    requires r[OUTNAME] == StrV(SineName(recovery, genLen))
    ensures
      var d := RowWithout(r, {seed, OUTNAME});
      && RECOVERY in d && GEN_LEN_DEPENDS_ON_TEMP in d
      && d[OUTNAME := SineUniqueLabel(d[RECOVERY], d[GEN_LEN_DEPENDS_ON_TEMP])]
         == RowWithout(r, {seed})
  {
    var d := RowWithout(r, {seed, OUTNAME});
    assert Str(d[RECOVERY]) == recovery && Str(d[GEN_LEN_DEPENDS_ON_TEMP]) == genLen;
    assert SineUniqueLabel(d[RECOVERY], d[GEN_LEN_DEPENDS_ON_TEMP]) == StrV(SineName(recovery, genLen));
    RenamedIsWithoutSeed(r);
  }

  /** The unique table drops seed and OUTNAME and re-adds OUTNAME as the last column. */
  lemma SineUniqueShape()
    ensures
      var u := SineUnique(SineParams());
      && |u.rows| == 4
      && u.columns == Without(ColumnOrder, {seed, OUTNAME}) + [OUTNAME]
  {
    SineTableShape();
    SineDeduplicated();
  }
}
