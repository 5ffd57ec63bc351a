/**
 * gaussian_temp() of scripts/01_prepare_input_parameters.py: the older sweep
 * builder for the Gaussian-temperature runs. It appends one dict per
 * (muT, sigmaT, seed) with a sequential run_id, then a second list with one
 * dict per (muT, sigmaT), and writes each list under the header formed by
 * the keys of its first dict. A Python dict is modelled with its key order
 * next to its key-value map. Writing the files and the two console messages
 * are not modelled; the counts those messages show are returned instead.
 */
module LegacySweep {
  import opened Sweep

  datatype Field = run_id | muT | sigmaT | seed | N | RUNTIME | B_WT | CTmin_WT | OUTNAME

  /** A dict in insertion order: its keys, and the value of each. */
  datatype Dict = Dict(keys: seq<Field>, values: map<Field, Value>)

  predicate WellFormed(d: Dict)
  {
    NoDuplicates(d.keys) && d.values.Keys == set k | k in d.keys
  }

  const MuTs: seq<int> := [5, 20, 35]
  const SigmaTs: seq<int> := [1, 3, 10]
  const SeedList: seq<int> := Range(30)

  /** The key order of a dict in runs, and of one in runs_unique. */
  const RunFields: seq<Field> := [run_id, muT, sigmaT, seed, N, RUNTIME, B_WT, CTmin_WT, OUTNAME]
  const UniqueFields: seq<Field> := [muT, sigmaT, N, RUNTIME, B_WT, CTmin_WT, OUTNAME]

  function RunName(mu: int, sigma: int, sd: int): string
  {
    "A1_nr_muT_" + IntStr(mu) + "_sigmaT_" + IntStr(sigma) + "_seed_" + IntStr(sd)
  }

  function UniqueRunName(mu: int, sigma: int): string
  {
    "A1_nr_muT_" + IntStr(mu) + "_sigmaT_" + IntStr(sigma)
  }

  function Runtime(mu: int, sigma: int): int
  {
    if mu == 35 && sigma == 3 then 40000 else RuntimeDefault
  }

  /** The dict appended for run i of (mu, sigma, sd). */
  function Run(i: int, mu: int, sigma: int, sd: int): Dict
  {
    Dict(RunFields,
         map[run_id := IntV(i), muT := IntV(mu), sigmaT := IntV(sigma), seed := IntV(sd),
             N := IntV(5000), RUNTIME := IntV(Runtime(mu, sigma)), B_WT := IntV(31),
             CTmin_WT := IntV(5), OUTNAME := StrV(RunName(mu, sigma, sd))])
  }

  /** The dict appended for the pair (mu, sigma) of runs_unique. */
  function UniqueRun(mu: int, sigma: int): Dict
  {
    Dict(UniqueFields,
         map[muT := IntV(mu), sigmaT := IntV(sigma), N := IntV(5000),
             RUNTIME := IntV(Runtime(mu, sigma)), B_WT := IntV(31), CTmin_WT := IntV(5),
             OUTNAME := StrV(UniqueRunName(mu, sigma))])
  }

  function Scan(): seq<((int, int), int)>
  {
    Product(Product(MuTs, SigmaTs), SeedList)
  }

  function Runs(): seq<Dict>
  {
    var scan := Scan();
    seq(|scan|, i requires 0 <= i < |scan| => Run(i, scan[i].0.0, scan[i].0.1, scan[i].1))
  }

  function UniqueRuns(): seq<Dict>
  {
    var pairs := Product(MuTs, SigmaTs);
    seq(|pairs|, q requires 0 <= q < |pairs| => UniqueRun(pairs[q].0, pairs[q].1))
  }

  /** The runtime every run gets unless it is overridden. */
  const RuntimeDefault := 20000

  /**
   * gaussian_temp(): runs with its header and the total it reports, then
   * runs_unique with its header and the count it reports.
   */
  method GaussianTemp() returns (runs: seq<Dict>, fieldnames: seq<Field>, total: int,
                                 runsUnique: seq<Dict>, fieldnamesUnique: seq<Field>, uniqueCount: int)
    ensures runs == Runs() && runsUnique == UniqueRuns()
    ensures |runs| > 0 && fieldnames == runs[0].keys
    ensures |runsUnique| > 0 && fieldnamesUnique == runsUnique[0].keys
    ensures total == |MuTs| * |SigmaTs| * |SeedList| == |runs| && uniqueCount == |runsUnique|
  {
    runs := CollectRuns();
    ScanAt(0);
    fieldnames := runs[0].keys;
    total := |MuTs| * |SigmaTs| * |SeedList|;
    runsUnique := CollectUniqueRuns();
    ProductLength(MuTs, SigmaTs);
    fieldnamesUnique := runsUnique[0].keys;
    uniqueCount := |runsUnique|;
  }

  /** The first loop of gaussian_temp(): one dict per scanned (muT, sigmaT, seed), numbered from 0. */
  method CollectRuns() returns (runs: seq<Dict>)
    ensures runs == Runs()
  {
    var scan := Product(Product(MuTs, SigmaTs), SeedList);
    runs := [];
    for i := 0 to |scan|
      invariant runs == Runs()[..i]
    {
      var (pair, sd) := scan[i];
      var (mu, sigma) := pair;
      var runtime;
      if mu == 35 && sigma == 3 {
        runtime := 40000;   // needs extra runtime to equilibrate
      } else {
        runtime := RuntimeDefault;
      }
      var run := Dict(RunFields,
        map[run_id := IntV(i), muT := IntV(mu), sigmaT := IntV(sigma), seed := IntV(sd),
            N := IntV(5000), RUNTIME := IntV(runtime), B_WT := IntV(31),
            CTmin_WT := IntV(5), OUTNAME := StrV(RunName(mu, sigma, sd))]);
      RunsAppend(runs, i, run);
      runs := runs + [run];
    }
    assert Runs()[..|scan|] == Runs();
  }

  lemma RunsAppend(done: seq<Dict>, i: nat, run: Dict)
    requires i < |Scan()| && done == Runs()[..i]
    requires run == Run(i, Scan()[i].0.0, Scan()[i].0.1, Scan()[i].1)
    ensures done + [run] == Runs()[..i + 1]
  {
    assert Runs()[i] == run;
    PrefixExtend(Runs(), done, i, run);
  }

  /** The second loop of gaussian_temp(): one dict per (muT, sigmaT), without run_id and seed. */
  method CollectUniqueRuns() returns (runsUnique: seq<Dict>)
    ensures runsUnique == UniqueRuns()
  {
    var pairs := Product(MuTs, SigmaTs);
    runsUnique := [];
    for q := 0 to |pairs|
      invariant runsUnique == UniqueRuns()[..q]
    {
      var (mu, sigma) := pairs[q];
      var runtime;
      if mu == 35 && sigma == 3 {
        runtime := 40000;
      } else {
        runtime := RuntimeDefault;
      }
      var run := Dict(UniqueFields,
        map[muT := IntV(mu), sigmaT := IntV(sigma), N := IntV(5000),
            RUNTIME := IntV(runtime), B_WT := IntV(31), CTmin_WT := IntV(5),
            OUTNAME := StrV(UniqueRunName(mu, sigma))]);
      UniqueRunsAppend(runsUnique, q, run);
      runsUnique := runsUnique + [run];
    }
    assert UniqueRuns()[..|pairs|] == UniqueRuns();
  }

  lemma UniqueRunsAppend(done: seq<Dict>, q: nat, run: Dict)
    requires q < |Product(MuTs, SigmaTs)| && done == UniqueRuns()[..q]
    requires run == UniqueRun(Product(MuTs, SigmaTs)[q].0, Product(MuTs, SigmaTs)[q].1)
    ensures done + [run] == UniqueRuns()[..q + 1]
  {
    assert UniqueRuns()[q] == run;
    PrefixExtend(UniqueRuns(), done, q, run);
  }

  // ---------------------------------------------------------------------
  // What gaussian_temp() produces

  /** Scan position i holds (muTlist[i / 90], sigmaTlist[(i / 30) % 3], i % 30). */
  lemma ScanAt(i: nat)
    requires i < 270
    ensures |Scan()| == |MuTs| * |SigmaTs| * |SeedList| == 270
    ensures Scan()[i] == ((MuTs[i / 30 / 3], SigmaTs[i / 30 % 3]), i % 30)
  {
    ProductLength(MuTs, SigmaTs);
    ProductIndex(Product(MuTs, SigmaTs), SeedList, i);
    ProductIndex(MuTs, SigmaTs, i / 30);
  }

  /**
   * Run i: run_id is the enumeration index i, the scanned muT, sigmaT and
   * seed in product order, the runtime override and the run name.
   */
  lemma RunAt(i: nat)
    requires i < 270
    ensures |Runs()| == 270
    ensures
      var r := Runs()[i].values;
      var mu, sigma := MuTs[i / 30 / 3], SigmaTs[i / 30 % 3];
      && run_id in r && muT in r && sigmaT in r && seed in r && RUNTIME in r && OUTNAME in r
      && r[run_id] == IntV(i)
      && r[muT] == IntV(mu) && r[sigmaT] == IntV(sigma) && r[seed] == IntV(i % 30)
      && (r[RUNTIME] == IntV(40000) <==> mu == 35 && sigma == 3)
      && (r[RUNTIME] == IntV(40000) || r[RUNTIME] == IntV(20000))
      && r[OUTNAME] == StrV(RunName(mu, sigma, i % 30))
  {
    ScanAt(i);
  }

  /** Every dict of runs is well formed and has the header's keys, in the header's order. */
  lemma RunsShareHeader()
    ensures |Runs()| == 270
    ensures forall i :: 0 <= i < |Runs()| ==> WellFormed(Runs()[i]) && Runs()[i].keys == Runs()[0].keys
  {
    ScanAt(0);
    FieldListsDistinct();
  }

  /** The run name determines muT, sigmaT and seed. */
  lemma RunNameInjective(mu: int, sigma: int, sd: int, mu': int, sigma': int, sd': int)
    ensures RunName(mu, sigma, sd) == RunName(mu', sigma', sd') ==> mu == mu' && sigma == sigma' && sd == sd'
  {
    if RunName(mu, sigma, sd) == RunName(mu', sigma', sd') {
      IntStrInjective(mu, mu');
      IntStrInjective(sigma, sigma');
      IntStrInjective(sd, sd');
      IntStrInjective(mu', mu);
      IntStrInjective(sigma', sigma);
      ThreeFields("A1_nr_muT_", IntStr(mu), "_sigmaT_", IntStr(sigma), "_seed_", IntStr(sd),
                  IntStr(mu'), IntStr(sigma'), IntStr(sd'));
    }
  }

  /** Distinct scan positions scan distinct (muT, sigmaT, seed) triples. */
  lemma ScanDistinct(i: nat, j: nat)
    requires i < j < 270
    ensures (MuTs[i / 30 / 3], SigmaTs[i / 30 % 3], i % 30) != (MuTs[j / 30 / 3], SigmaTs[j / 30 % 3], j % 30)
  {
    ProductNoDuplicates(MuTs, SigmaTs);
    ProductNoDuplicates(Product(MuTs, SigmaTs), SeedList);
    ScanAt(i);
    ScanAt(j);
  }

  /** No two runs share an OUTNAME. */
  lemma RunNamesDistinct(i: nat, j: nat)
    requires i < j < 270
    ensures |Runs()| == 270
    ensures Runs()[i].values[OUTNAME] != Runs()[j].values[OUTNAME]
  {
    RunAt(i);
    RunAt(j);
    ScanDistinct(i, j);
    RunNameInjective(MuTs[i / 30 / 3], SigmaTs[i / 30 % 3], i % 30, MuTs[j / 30 / 3], SigmaTs[j / 30 % 3], j % 30);
  }

  /**
   * runs_unique has one dict per (muT, sigmaT), in product order, without
   * run_id or seed, with the runtime override and the seedless run name.
   */
  lemma UniqueRunAt(q: nat)
    requires q < 9
    ensures |UniqueRuns()| == |MuTs| * |SigmaTs| == 9
    ensures
      var r := UniqueRuns()[q].values;
      var mu, sigma := MuTs[q / 3], SigmaTs[q % 3];
      && run_id !in r && seed !in r
      && muT in r && sigmaT in r && RUNTIME in r && OUTNAME in r
      && r[muT] == IntV(mu) && r[sigmaT] == IntV(sigma)
      && (r[RUNTIME] == IntV(40000) <==> mu == 35 && sigma == 3)
      && (r[RUNTIME] == IntV(40000) || r[RUNTIME] == IntV(20000))
      && r[OUTNAME] == StrV(UniqueRunName(mu, sigma))
  {
    ProductLength(MuTs, SigmaTs);
    ProductIndex(MuTs, SigmaTs, q);
  }

  /** Every dict of runs_unique is well formed and has the header's keys, in the header's order. */
  lemma UniqueRunsShareHeader()
    ensures |UniqueRuns()| == 9
    ensures forall q :: 0 <= q < |UniqueRuns()| ==>
      WellFormed(UniqueRuns()[q]) && UniqueRuns()[q].keys == UniqueRuns()[0].keys
  {
    ProductLength(MuTs, SigmaTs);
    FieldListsDistinct();
  }

  /** Neither header lists a key twice. */
  lemma FieldListsDistinct()
    ensures NoDuplicates(RunFields) && NoDuplicates(UniqueFields)
  {
  }

  /**
   * Unique dict i / 30 stands for run i: same muT, sigmaT, N, RUNTIME, B_WT
   * and CTmin_WT, and run i's name is the unique name followed by "_seed_"
   * and its seed.
   */
  lemma UniqueRunSummarisesRuns(i: nat)
    requires i < 270
    ensures |Runs()| == 270 && |UniqueRuns()| == 9
    ensures
      var u, r := UniqueRuns()[i / 30].values, Runs()[i].values;
      && (forall f :: f in u && f != OUTNAME ==> f in r && u[f] == r[f])
      && OUTNAME in u && OUTNAME in r
      && r[OUTNAME] == StrV(Str(u[OUTNAME]) + "_seed_" + IntStr(i % 30))
  {
    ScanAt(i);
    ProductLength(MuTs, SigmaTs);
    ProductIndex(MuTs, SigmaTs, i / 30);
  }
}
