/**
 * gaussian() of scripts/01_prepare_input_parameters/generate_param_df.py:
 * Gaussian-distributed temperature, scanning three means, three standard
 * deviations and 30 replicate seeds.
 */
module GaussianTable {
  import opened Sweep
  import opened ParamTable

  // ---------------------------------------------------------------------
  // gaussian()

  const MeanTemps: seq<int> := [5, 20, 35]
  const StdevTemps: seq<int> := [1, 3, 10]
  const Seeds: seq<int> := Range(30)

  /** The scan itertools.product(MEAN_TEMP_list, STDEV_TEMP_list, seed_list), as ((mean, stdev), seed). */
  function GaussianScan(): seq<((int, int), int)>
  {
    Product(Product(MeanTemps, StdevTemps), Seeds)
  }

  function GaussianName(meanTemp: int, stdevTemp: int, sd: int): string
  {
    "gaussian_MEAN_TEMP_" + IntStr(meanTemp) + "_STDEV_TEMP_" + IntStr(stdevTemp) + "_seed_" + IntStr(sd)
  }

  function GaussianUniqueName(meanTemp: int, stdevTemp: int): string
  {
    "gaussian_MEAN_TEMP_" + IntStr(meanTemp) + "_STDEV_TEMP_" + IntStr(stdevTemp)
  }

  /** RUNTIME of a Gaussian run: doubled for mean 35 and stdev 3, which need longer to equilibrate. */
  function GaussianRuntime(meanTemp: int, stdevTemp: int): int
  {
    if meanTemp == 35 && stdevTemp == 3 then 40000 else 20000
  }

  /** The new_row dict of one Gaussian run, given its runtime. */
  function GaussianDict(meanTemp: int, stdevTemp: int, sd: int, runtime: int): Row
  {
    map[seed := IntV(sd),
        RUNTIME := IntV(runtime),
        BURNIN := IntV(5000),
        GEN_LEN_DEPENDS_ON_TEMP := StrV("F"),
        USE_EXTERNAL_TEMP_DATA := StrV("F"),
        MEAN_TEMP := IntV(meanTemp),
        STDEV_TEMP := IntV(stdevTemp),
        B_default := IntV(31),
        CTmin_default := IntV(5),
        OUTDIR := StrV("/projects/lotterhos/TPC_evol_SLiM"),
        OUTNAME := StrV(GaussianName(meanTemp, stdevTemp, sd))]
  }

  /** The new_row dict of the Gaussian run scanning (meanTemp, stdevTemp, sd). */
  function GaussianNewRow(meanTemp: int, stdevTemp: int, sd: int): Row
  {
    GaussianDict(meanTemp, stdevTemp, sd, GaussianRuntime(meanTemp, stdevTemp))
  }

  /** params_list: one completed row per scanned combination. */
  function GaussianRecords(): seq<Row>
  {
    var scan := GaussianScan();
    seq(|scan|, i requires 0 <= i < |scan| =>
      Merged(GaussianNewRow(scan[i].0.0, scan[i].0.1, scan[i].1)))
  }

  function GaussianParams(): Frame
  {
    GaussianRecordsHoldColumns();
    Select(GaussianRecords(), ColumnOrder)
  }

  /** params_unique: OUTNAME re-added from the MEAN_TEMP and STDEV_TEMP columns. */
  function GaussianUnique(f: Frame): (g: Frame)
    requires Valid(f) && MEAN_TEMP in f.columns && STDEV_TEMP in f.columns
    ensures Valid(g)
  {
    var d := WithoutReplicates(f);
    var means := Column(d, MEAN_TEMP);
    var stdevs := Column(d, STDEV_TEMP);
    AddColumn(d, OUTNAME, seq(|d.rows|, i requires 0 <= i < |d.rows| => GaussianUniqueLabel(means[i], stdevs[i])))
  }

  /** The OUTNAME cell params_unique rebuilds from the MEAN_TEMP and STDEV_TEMP cells of a row. */
  function GaussianUniqueLabel(mean: Value, stdev: Value): Value
  {
    StrV("gaussian_MEAN_TEMP_" + Str(mean) + "_STDEV_TEMP_" + Str(stdev))
  }

  /** Every completed Gaussian row holds every column of column_order. */
  lemma GaussianRecordsHoldColumns()
    ensures forall i, c :: 0 <= i < |GaussianRecords()| && c in ColumnOrder ==> c in GaussianRecords()[i]
  {
    ColumnOrderListsDefaults();
  }

  /** The loop of gaussian(): one completed row per scanned (mean, stdev, seed), in scan order. */
  method GaussianRows() returns (paramsList: seq<Row>)
    ensures paramsList == GaussianRecords()
  {
    var scan := GaussianScan();
    paramsList := [];
    for i := 0 to |scan|
      invariant paramsList == GaussianRecords()[..i]
    {
      var row := GaussianRow(scan[i].0.0, scan[i].0.1, scan[i].1);
      GaussianRecordsAppend(paramsList, i, row);
      paramsList := paramsList + [row];
    }
    assert GaussianRecords()[..|scan|] == GaussianRecords();
  }

  /** Appending the completed row of scan position i extends the first i records by one. */
  lemma GaussianRecordsAppend(done: seq<Row>, i: nat, row: Row)
    requires i < |GaussianScan()| && done == GaussianRecords()[..i]
    requires row == Merged(GaussianNewRow(GaussianScan()[i].0.0, GaussianScan()[i].0.1, GaussianScan()[i].1))
    ensures done + [row] == GaussianRecords()[..i + 1]
  {
    assert GaussianRecords()[i] == row;
    PrefixExtend(GaussianRecords(), done, i, row);
  }

  /** One pass of that loop: pick the runtime, build new_row, fill in the defaults. */
  method GaussianRow(meanTemp: int, stdevTemp: int, sd: int) returns (row: Row)
    ensures row == Merged(GaussianNewRow(meanTemp, stdevTemp, sd))
  {
    var runtime;
    if meanTemp == 35 && stdevTemp == 3 {
      runtime := 40000;   // needs extra runtime to equilibrate
    } else {
      runtime := 20000;
    }
    row := FillDefaults(GaussianDict(meanTemp, stdevTemp, sd, runtime));
  }

  /** gaussian(): the saved table and its seedless unique table. */
  method Gaussian() returns (params: Frame, paramsUnique: Frame)
    ensures params == GaussianParams()
    ensures Valid(params) && MEAN_TEMP in params.columns && STDEV_TEMP in params.columns
    ensures paramsUnique == GaussianUnique(params)
  {
    var paramsList := GaussianRows();
    GaussianRecordsHoldColumns();
    params := Select(paramsList, ColumnOrder);
    paramsUnique := GaussianUnique(params);
  }

  // ---------------------------------------------------------------------
  // What gaussian() produces

  /** Scan position i holds (MEAN_TEMP_list[i / 90], STDEV_TEMP_list[(i / 30) % 3], i % 30): mean outermost, seed innermost. */
  lemma GaussianScanAt(i: nat)
    requires i < 270
    ensures |GaussianScan()| == |MeanTemps| * |StdevTemps| * |Seeds| == 270
    ensures GaussianScan()[i] == ((MeanTemps[i / 30 / 3], StdevTemps[i / 30 % 3]), i % 30)
  {
    ProductLength(MeanTemps, StdevTemps);
    ProductIndex(Product(MeanTemps, StdevTemps), Seeds, i);
    ProductIndex(MeanTemps, StdevTemps, i / 30);
  }

  /** The saved table has 3 x 3 x 30 rows and exactly the columns of column_order, in that order. */
  lemma GaussianTableShape()
    ensures GaussianParams().columns == ColumnOrder
    ensures |GaussianParams().rows| == |MeanTemps| * |StdevTemps| * |Seeds| == 270
    ensures Valid(GaussianParams())
  {
    GaussianScanAt(0);
  }

  /** Row i of the saved table is the completed new_row of scan position i. */
  lemma GaussianRecordAt(i: nat)
    requires i < 270
    ensures |GaussianParams().rows| == 270
    ensures GaussianParams().rows[i]
         == Merged(GaussianNewRow(MeanTemps[i / 30 / 3], StdevTemps[i / 30 % 3], i % 30))
  {
    GaussianScanAt(i);
    MergedHoldsColumns(GaussianNewRow(MeanTemps[i / 30 / 3], StdevTemps[i / 30 % 3], i % 30));
    GaussianRecordsHoldColumns();
    SelectKeepsFullRow(GaussianRecords(), ColumnOrder, i);
  }

  /**
   * A completed Gaussian row carries the scanned mean, stdev and seed, the
   * runtime override (40000 exactly for mean 35 and stdev 3, 20000 otherwise)
   * and the run name.
   */
  lemma GaussianRowScanned(m: int, s: int, sd: int)
    ensures
      var r := Merged(GaussianNewRow(m, s, sd));
      && MEAN_TEMP in r && STDEV_TEMP in r && seed in r && RUNTIME in r && OUTNAME in r
      && r[MEAN_TEMP] == IntV(m) && r[STDEV_TEMP] == IntV(s) && r[seed] == IntV(sd)
      && (r[RUNTIME] == IntV(40000) <==> m == 35 && s == 3)
      && (r[RUNTIME] == IntV(40000) || r[RUNTIME] == IntV(20000))
      && r[OUTNAME] == StrV(GaussianName(m, s, sd))
  {
    GaussianDictCells(m, s, sd, GaussianRuntime(m, s));
  }

  /** The scanned cells of a Gaussian new_row dict. */
  lemma GaussianDictCells(m: int, s: int, sd: int, runtime: int)
    ensures
      var d := GaussianDict(m, s, sd, runtime);
      && MEAN_TEMP in d && STDEV_TEMP in d && seed in d && RUNTIME in d && OUTNAME in d
      && d[MEAN_TEMP] == IntV(m) && d[STDEV_TEMP] == IntV(s) && d[seed] == IntV(sd)
      && d[RUNTIME] == IntV(runtime) && d[OUTNAME] == StrV(GaussianName(m, s, sd))
  {
  }

  /** The task's constants override params_default; every other column keeps its default. */
  lemma GaussianRowConstants(m: int, s: int, sd: int)
    ensures
      var r := Merged(GaussianNewRow(m, s, sd));
      && BURNIN in r && B_default in r && CTmin_default in r && GEN_LEN_DEPENDS_ON_TEMP in r
      && USE_EXTERNAL_TEMP_DATA in r && OUTDIR in r
      && r[BURNIN] == IntV(5000) && r[B_default] == IntV(31) && r[CTmin_default] == IntV(5)
      && r[GEN_LEN_DEPENDS_ON_TEMP] == StrV("F") && r[USE_EXTERNAL_TEMP_DATA] == StrV("F")
      && r[OUTDIR] == StrV("/projects/lotterhos/TPC_evol_SLiM")
    ensures
      var r := Merged(GaussianNewRow(m, s, sd));
      forall p :: p !in GaussianNewRow(m, s, sd) ==> p in r && r[p] == Default(p)
  {
  }

  /** The run name determines mean, stdev and seed. */
  lemma GaussianNameInjective(m: int, s: int, sd: int, m': int, s': int, sd': int)
    ensures GaussianName(m, s, sd) == GaussianName(m', s', sd') ==> m == m' && s == s' && sd == sd'
  {
    if GaussianName(m, s, sd) == GaussianName(m', s', sd') {
      GaussianNameFields(m, s, sd, m', s', sd');
    }
  }

  lemma GaussianNameFields(m: int, s: int, sd: int, m': int, s': int, sd': int)
    requires GaussianName(m, s, sd) == GaussianName(m', s', sd')
    ensures m == m' && s == s' && sd == sd'
  {
    IntStrInjective(m, m');
    IntStrInjective(s, s');
    IntStrInjective(sd, sd');
    IntStrInjective(m', m);
    IntStrInjective(s', s);
    ThreeFields("gaussian_MEAN_TEMP_", IntStr(m), "_STDEV_TEMP_", IntStr(s), "_seed_", IntStr(sd),
                IntStr(m'), IntStr(s'), IntStr(sd'));
  }

  /** The OUTNAME of row i names its scanned mean, stdev and seed. */
  lemma GaussianOutnameAt(i: nat)
    requires i < 270
    ensures |GaussianParams().rows| == 270 && OUTNAME in GaussianParams().rows[i]
    ensures GaussianParams().rows[i][OUTNAME]
         == StrV(GaussianName(MeanTemps[i / 30 / 3], StdevTemps[i / 30 % 3], i % 30))
  {
    GaussianRecordAt(i);
    GaussianRowScanned(MeanTemps[i / 30 / 3], StdevTemps[i / 30 % 3], i % 30);
  }

  /** Distinct scan positions scan distinct (mean, stdev, seed) triples. */
  lemma GaussianScanDistinct(i: nat, j: nat)
    requires i < j < 270
    ensures (MeanTemps[i / 30 / 3], StdevTemps[i / 30 % 3], i % 30)
         != (MeanTemps[j / 30 / 3], StdevTemps[j / 30 % 3], j % 30)
  {
    ProductNoDuplicates(MeanTemps, StdevTemps);
    ProductNoDuplicates(Product(MeanTemps, StdevTemps), Seeds);
    GaussianScanAt(i);
    GaussianScanAt(j);
  }

  /** No two rows of the saved table share an OUTNAME, so no run overwrites another's output. */
  lemma GaussianOutnamesDistinct(i: nat, j: nat)
    requires i < j < 270
    ensures |GaussianParams().rows| == 270
    ensures GaussianParams().rows[i][OUTNAME] != GaussianParams().rows[j][OUTNAME]
  {
    GaussianOutnameAt(i);
    GaussianOutnameAt(j);
    GaussianScanDistinct(i, j);
    GaussianNameInjective(MeanTemps[i / 30 / 3], StdevTemps[i / 30 % 3], i % 30,
                          MeanTemps[j / 30 / 3], StdevTemps[j / 30 % 3], j % 30);
  }

  // ---------------------------------------------------------------------
  // What gaussian()'s unique table holds

  /** Replicates of one (mean, stdev) differ only in seed and OUTNAME. */
  lemma ReplicatesAgree(m: int, s: int, sd: int, sd': int)
    ensures RowWithout(Merged(GaussianNewRow(m, s, sd)), {seed, OUTNAME})
         == RowWithout(Merged(GaussianNewRow(m, s, sd')), {seed, OUTNAME})
  {
    var n, n' := GaussianNewRow(m, s, sd), GaussianNewRow(m, s, sd');
    forall c | c !in {seed, OUTNAME}
      ensures (c in n <==> c in n') && (c in n ==> n[c] == n'[c])
    {
    }
    MergedAgreeOutside(n, n', {seed, OUTNAME});
  }

  /** The first replicate of each (mean, stdev), seed and OUTNAME dropped: one row per scanned pair. */
  function GaussianSharedRows(): (rows: seq<Row>)
    ensures |rows| == 9
  {
    GaussianTableShape();
    seq(9, q requires 0 <= q < 9 => RowWithout(GaussianParams().rows[q * 30], {seed, OUTNAME}))
  }

  /** Shared row q belongs to the pair (MEAN_TEMP_list[q / 3], STDEV_TEMP_list[q % 3]). */
  lemma GaussianSharedRowAt(q: nat)
    requires q < 9
    ensures GaussianSharedRows()[q]
         == RowWithout(Merged(GaussianNewRow(MeanTemps[q / 3], StdevTemps[q % 3], 0)), {seed, OUTNAME})
  {
    DivOf(q * 30, 30, q, 0);
    GaussianRecordAt(q * 30);
    ReplicatesAgree(MeanTemps[q / 3], StdevTemps[q % 3], 0, 0);
  }

  /** After dropping seed and OUTNAME, the 270 rows come in 9 blocks of 30 equal rows. */
  lemma GaussianDroppedBlocked()
    ensures Blocked(DropColumns(GaussianParams(), {seed, OUTNAME}).rows, GaussianSharedRows(), 30)
  {
    GaussianTableShape();
    var d := DropColumns(GaussianParams(), {seed, OUTNAME}).rows;
    forall i | 0 <= i < |d|
      ensures i / 30 < 9 && d[i] == GaussianSharedRows()[i / 30]
    {
      GaussianDroppedRowAt(i);
    }
  }

  /** Row i with seed and OUTNAME dropped is the shared row of its (mean, stdev). */
  lemma GaussianDroppedRowAt(i: nat)
    requires i < 270
    ensures |GaussianParams().rows| == 270 && i / 30 < 9
    ensures RowWithout(GaussianParams().rows[i], {seed, OUTNAME}) == GaussianSharedRows()[i / 30]
  {
    var q := i / 30;
    GaussianSharedRowAt(q);
    GaussianRecordAt(i);
    ReplicatesAgree(MeanTemps[q / 3], StdevTemps[q % 3], i % 30, 0);
  }

  /** The shared rows differ pairwise: each carries its own (mean, stdev). */
  lemma GaussianSharedRowsDistinct()
    ensures NoDuplicates(GaussianSharedRows())
  {
    ProductNoDuplicates(MeanTemps, StdevTemps);
    ProductLength(MeanTemps, StdevTemps);
    forall q, q' | 0 <= q < q' < 9
      ensures GaussianSharedRows()[q] != GaussianSharedRows()[q']
    {
      GaussianSharedRowAt(q);
      GaussianSharedRowAt(q');
      ProductIndex(MeanTemps, StdevTemps, q);
      ProductIndex(MeanTemps, StdevTemps, q');
      GaussianRowScanned(MeanTemps[q / 3], StdevTemps[q % 3], 0);
      GaussianRowScanned(MeanTemps[q' / 3], StdevTemps[q' % 3], 0);
    }
  }

  /** drop_duplicates keeps exactly the first replicate of each (mean, stdev), in scan order. */
  lemma GaussianDeduplicated()
    ensures WithoutReplicates(GaussianParams()).rows == GaussianSharedRows()
  {
    GaussianTableShape();
    GaussianDroppedBlocked();
    GaussianSharedRowsDistinct();
    DedupBlocks(DropColumns(GaussianParams(), {seed, OUTNAME}).rows, GaussianSharedRows(), 30);
  }

  /** The unique table: one row per (mean, stdev), seed and OUTNAME dropped, a seedless OUTNAME last. */
  lemma GaussianUniqueShape()
    ensures
      var u := GaussianUnique(GaussianParams());
      && |u.rows| == |MeanTemps| * |StdevTemps| == 9
      && u.columns == Without(ColumnOrder, {seed, OUTNAME}) + [OUTNAME]
  {
    GaussianTableShape();
    GaussianDeduplicated();
  }

  /** Shared row q: no seed or OUTNAME, the pair (MEAN_TEMP_list[q / 3], STDEV_TEMP_list[q % 3]) and its runtime. */
  lemma GaussianSharedRowValues(q: nat)
    requires q < 9
    ensures
      var r := GaussianSharedRows()[q];
      var m, s := MeanTemps[q / 3], StdevTemps[q % 3];
      && seed !in r && OUTNAME !in r && MEAN_TEMP in r && STDEV_TEMP in r && RUNTIME in r
      && r[MEAN_TEMP] == IntV(m) && r[STDEV_TEMP] == IntV(s)
      && (r[RUNTIME] == IntV(40000) <==> m == 35 && s == 3)
  {
    var m, s := MeanTemps[q / 3], StdevTemps[q % 3];
    GaussianSharedRowAt(q);
    GaussianRowScanned(m, s, 0);
    SharedCells(Merged(GaussianNewRow(m, s, 0)), m, s);
  }

  /** Dropping seed and OUTNAME from a row keeps its mean, stdev and runtime. */
  lemma SharedCells(r: Row, m: int, s: int)
    requires MEAN_TEMP in r && STDEV_TEMP in r && RUNTIME in r
    requires r[MEAN_TEMP] == IntV(m) && r[STDEV_TEMP] == IntV(s)
    requires r[RUNTIME] == IntV(40000) <==> m == 35 && s == 3
    ensures
      var d := RowWithout(r, {seed, OUTNAME});
      && seed !in d && OUTNAME !in d && MEAN_TEMP in d && STDEV_TEMP in d && RUNTIME in d
      && d[MEAN_TEMP] == IntV(m) && d[STDEV_TEMP] == IntV(s)
      && (d[RUNTIME] == IntV(40000) <==> m == 35 && s == 3)
  {
  }

  /** The OUTNAME rebuilt from a row's mean and stdev cells is the seedless run name. */
  lemma UniqueLabelOf(d: Row, m: int, s: int)
    requires MEAN_TEMP in d && STDEV_TEMP in d && d[MEAN_TEMP] == IntV(m) && d[STDEV_TEMP] == IntV(s)
    ensures GaussianUniqueLabel(d[MEAN_TEMP], d[STDEV_TEMP]) == StrV(GaussianUniqueName(m, s))
  {
  }

  /** Unique row q is shared row q with its seedless OUTNAME added. */
  lemma GaussianUniqueRowIs(q: nat)
    requires q < 9
    ensures |GaussianUnique(GaussianParams()).rows| == 9
    ensures GaussianUnique(GaussianParams()).rows[q]
         == GaussianSharedRows()[q][OUTNAME := StrV(GaussianUniqueName(MeanTemps[q / 3], StdevTemps[q % 3]))]
  {
    GaussianUniqueShape();
    GaussianDeduplicated();
    GaussianSharedRowValues(q);
    GaussianUniqueRowOf(GaussianParams(), q);
    UniqueLabelOf(GaussianSharedRows()[q], MeanTemps[q / 3], StdevTemps[q % 3]);
  }

  /** Row q of a unique table: row q of the deduplicated table plus its OUTNAME. */
  lemma GaussianUniqueRowOf(f: Frame, q: nat)
    requires Valid(f) && MEAN_TEMP in f.columns && STDEV_TEMP in f.columns
    requires q < |WithoutReplicates(f).rows|
    ensures
      var d := WithoutReplicates(f).rows[q];
      && |GaussianUnique(f).rows| == |WithoutReplicates(f).rows|
      && MEAN_TEMP in d && STDEV_TEMP in d
      && GaussianUnique(f).rows[q]
         == d[OUTNAME := GaussianUniqueLabel(d[MEAN_TEMP], d[STDEV_TEMP])]
  {
    var d := WithoutReplicates(f);
    assert d.rows[q] in d.rows;
    assert MEAN_TEMP in d.columns && STDEV_TEMP in d.columns;
    var means, stdevs := Column(d, MEAN_TEMP), Column(d, STDEV_TEMP);
    assert means[q] == d.rows[q][MEAN_TEMP] && stdevs[q] == d.rows[q][STDEV_TEMP];
  }

  /** Unique row q: the pair (MEAN_TEMP_list[q / 3], STDEV_TEMP_list[q % 3]), its runtime and its seedless name. */
  lemma GaussianUniqueRowAt(q: nat)
    requires q < 9
    ensures |GaussianUnique(GaussianParams()).rows| == 9
    ensures
      var r := GaussianUnique(GaussianParams()).rows[q];
      var m, s := MeanTemps[q / 3], StdevTemps[q % 3];
      && seed !in r && MEAN_TEMP in r && STDEV_TEMP in r && RUNTIME in r && OUTNAME in r
      && r[MEAN_TEMP] == IntV(m) && r[STDEV_TEMP] == IntV(s)
      && (r[RUNTIME] == IntV(40000) <==> m == 35 && s == 3)
      && r[OUTNAME] == StrV(GaussianUniqueName(m, s))
  {
    GaussianUniqueRowIs(q);
    GaussianSharedRowValues(q);
  }

  /**
   * Unique row i / 30 stands for every replicate i of its (mean, stdev): it
   * agrees with row i of the saved table on every column but seed and OUTNAME.
   */
  lemma GaussianUniqueSummarisesReplicates(i: nat)
    requires i < 270
    ensures |GaussianParams().rows| == 270 && |GaussianUnique(GaussianParams()).rows| == 9
    ensures
      var u, r := GaussianUnique(GaussianParams()).rows[i / 30], GaussianParams().rows[i];
      && (forall c :: c != OUTNAME ==> (c in u <==> c in r && c != seed))
      && (forall c :: c != OUTNAME && c in u ==> u[c] == r[c])
  {
    GaussianDroppedRowAt(i);
    GaussianUniqueRowIs(i / 30);
    var q := i / 30;
    RenamedAgrees(GaussianParams().rows[i], GaussianSharedRows()[q],
                  StrV(GaussianUniqueName(MeanTemps[q / 3], StdevTemps[q % 3])));
  }

  /** Row i's OUTNAME is the OUTNAME of its unique row followed by "_seed_" and the seed. */
  lemma GaussianOutnameExtendsUnique(i: nat)
    requires i < 270
    ensures |GaussianParams().rows| == 270 && |GaussianUnique(GaussianParams()).rows| == 9
    ensures
      var u, r := GaussianUnique(GaussianParams()).rows[i / 30], GaussianParams().rows[i];
      && OUTNAME in u && OUTNAME in r
      && r[OUTNAME] == StrV(Str(u[OUTNAME]) + "_seed_" + IntStr(i % 30))
  {
    var q := i / 30;
    var m, s := MeanTemps[q / 3], StdevTemps[q % 3];
    GaussianUniqueRowAt(q);
    GaussianOutnameAt(i);
    GaussianNameExtends(m, s, i % 30);
    NameExtends(GaussianUnique(GaussianParams()).rows[q][OUTNAME], GaussianParams().rows[i][OUTNAME],
                GaussianUniqueName(m, s), GaussianName(m, s, i % 30), i % 30);
  }

  /** A run name is the seedless name of its (mean, stdev) followed by "_seed_" and the seed. */
  lemma GaussianNameExtends(m: int, s: int, sd: int)
    ensures GaussianName(m, s, sd) == GaussianUniqueName(m, s) + "_seed_" + IntStr(sd)
  {
  }
}
