# Thermal-performance fitness and SLiM parameter sweeps, in Dafny

This project models the sequential logic of a repository that studies how a
thermal performance curve (TPC) evolves under fluctuating temperature. It has
three parts.

* **Fitness of a thermal performance curve** (class `w_TPC` in
  `scripts/tpc_functions_oo.py`). The model covers:
  * the three logistic constraint factors `w_B`, `w_CTmin` and `w_CTmax`;
  * the piecewise enzymatic curve: a Gaussian rise up to
    `Topt = CTmin + 2/3 B`, then a parabolic fall, clamped at zero;
  * the four-factor product `w_TPC`, with `CTmax = CTmin + B`;
  * the analytic partial derivatives in B and CTmin, which are built by the
    product rule;
  * the expected-fitness grids of the recovery and no-recovery models;
  * the no-recovery survival weight `C`, its slope, and the fallback these
    use when `1 - r` is below the smallest positive double.

  Everything is over Dafny `real`. The SciPy and NumPy routines (`expit`,
  `exp`, normal pdf and cdf, `quad`, `finfo(float64).tiny`) are function
  values bundled in `Numerics.Library`. The few facts the proofs need about
  them (`expit` in (0, 1) and `expit(0) = 1/2`; `exp` in (0, 1] on
  non-positive arguments; distribution functions in [0, 1]; densities
  non-negative; the integral of a non-negative function is non-negative) are
  predicates that the lemmas take as hypotheses.
* **Parameter-sweep tables** (`gaussian()` and `sine()` in
  `scripts/01_prepare_input_parameters/generate_param_df.py`). The model
  covers:
  * `params_default` and `column_order`;
  * the scan made with `itertools.product`;
  * the runtime override;
  * completing each new row from the defaults, with the same loop the source
    uses;
  * the `OUTNAME` strings;
  * the DataFrame steps that reorder the columns, drop `seed` and `OUTNAME`,
    remove duplicates (first occurrence kept) and re-add a seedless
    `OUTNAME`.

  A row is a `map<Param, Value>`. A table keeps its column order next to its
  rows.
* **Legacy sweep** (`gaussian_temp()` in
  `scripts/01_prepare_input_parameters.py`). The model covers:
  * the `runs` list, with a sequential `run_id`;
  * the `runs_unique` list;
  * the CSV header of each list, which is the key order of its first dict;
  * the two counts the function reports.

**How the contracts relate to their partners**

* The survival weight is related to an independent reference, the mean
  survival `(1 + r + ... + r^(nr-1)) / nr`, and to its term-by-term
  derivative.
* The hand-assembled gradients are checked against a generic product-rule
  derivative over the four factors.
* Each loop-built table equals the declarative definition of that table.
* The facts the source relies on are proved about those definitions:
  * row counts, product order, the runtime override, default completion and
    column order;
  * injective run names;
  * that the unique table has one row per scanned pair, which agrees with
    every one of its replicates.

Files:

* `numerics.dfy`: the library routines and small real-arithmetic facts.
* `product_rule.dfy`: products of factors and their derivative.
* `fitness.dfy`: the fitness definitions.
* `fitness_laws.dfy`: the fitness lemmas.
* `survival.dfy`: the weight `C`.
* `expected.dfy`: the expected-fitness grids and gradients.
* `sweep.dfy`: shared pieces of the sweeps (`itertools.product`,
  `drop_duplicates`, `str()` of an int).
* `param_table.dfy`: the defaults, the column order and the DataFrame
  operations.
* `gaussian_table.dfy`: `gaussian()`.
* `sine_table.dfy`: `sine()`.
* `legacy_sweep.dfy`: `gaussian_temp()`.

## Model

| member | source | states |
|---|---|---|
| Fitness.DefaultTpc | scripts/tpc_functions_oo.py:14-24 | The constructor defaults give positive widths for all three logistics and 10 days per generation. |
| Fitness.WB | scripts/tpc_functions_oo.py:25-29 | w_B lies strictly between 0 and 1, and is exactly 1/2 at B = B_critical. |
| Fitness.WCTmin | scripts/tpc_functions_oo.py:31-35 | w_CTmin lies strictly between 0 and 1, and is exactly 1/2 at CTmin = CTmin_critical. |
| Fitness.WCTmax | scripts/tpc_functions_oo.py:37-41 | w_CTmax lies strictly between 0 and 1, and is exactly 1/2 at CTmax = CTmax_critical. |
| Fitness.WEnzymatic | scripts/tpc_functions_oo.py:43-64 | The clamped branch value is never negative, and it is at most 1 when exp is at most 1 on non-positive arguments. |
| Fitness.WTpc | scripts/tpc_functions_oo.py:66-80 | Definition (no contract of its own): fitness at (CTmin, B, T) is the product of the enzymatic curve, w_B(B), w_CTmin(CTmin) and w_CTmax(CTmin + B). Its range [0, 1) and its zero set T >= CTmax are proved in FitnessLaws. |
| Fitness.DwBDB | scripts/tpc_functions_oo.py:164-168 | dw_B/dB is negative for a positive Delta_B, and equals -1/(4 Delta_B) at B_critical. |
| Fitness.DwCTminDCTmin | scripts/tpc_functions_oo.py:169-173 | dw_CTmin/dCTmin is positive for a positive Delta_CTmin, and equals 1/(4 Delta_CTmin) at CTmin_critical. |
| Fitness.DwCTmaxDCTmax | scripts/tpc_functions_oo.py:174-186 | The slope of w_CTmax is negative for a positive Delta_CTmax, and equals -1/(4 Delta_CTmax) at CTmax_critical. |
| Fitness.DwCTmaxDB | scripts/tpc_functions_oo.py:174-179 | Definition (no contract of its own): the slope of w_CTmax at CTmax = CTmin + B, taken in B. Its sign and midpoint value come from Fitness.DwCTmaxDCTmax, and FitnessLaws.CTmaxSlopesAgree relates it to the CTmin slope. |
| Fitness.DwCTmaxDCTmin | scripts/tpc_functions_oo.py:181-186 | Definition (no contract of its own): the slope of w_CTmax at CTmax = CTmin + B, taken in CTmin. It equals the B slope of any trait pair with the same CTmax (FitnessLaws.CTmaxSlopesAgree). |
| Fitness.RegionOf | scripts/tpc_functions_oo.py:192-198 | Definition (no contract of its own): the region test the derivatives share. It is Rising for T <= Topt, Falling up to CTmax and Flat above. FitnessLaws.RegionsPartitionTemperature proves that this split is disjoint and exhaustive. |
| Fitness.DwEnzymaticDB | scripts/tpc_functions_oo.py:188-198 | The B-slope of the enzymatic curve is exactly 0 in the region above CTmax. |
| Fitness.DwEnzymaticDCTmin | scripts/tpc_functions_oo.py:200-211 | The CTmin-slope of the enzymatic curve is exactly 0 in the region above CTmax. |
| Fitness.DwTpcDB | scripts/tpc_functions_oo.py:213-224 | Definition (no contract of its own): the hand-assembled B-gradient, with w_CTmin factored out. FitnessLaws.FitnessGradientDBIsProductRule proves it equals the product-rule derivative. |
| Fitness.DwTpcDCTmin | scripts/tpc_functions_oo.py:226-237 | Definition (no contract of its own): the hand-assembled CTmin-gradient, with w_B factored out. FitnessLaws.FitnessGradientDCTminIsProductRule proves it equals the product-rule derivative. |
| FitnessLaws.RegionsPartitionTemperature | scripts/tpc_functions_oo.py:192-198 | For B > 0 the three derivative regions are exactly T <= Topt, Topt < T <= CTmax and T > CTmax, and Topt < CTmax. |
| FitnessLaws.FallingBranchSign | scripts/tpc_functions_oo.py:57-63 | Above Topt the parabola is >= 0 exactly when T <= CTmax, and > 0 exactly when T < CTmax. |
| FitnessLaws.EnzymaticZeroIffAtOrAboveCTmax | scripts/tpc_functions_oo.py:52-63 | For B > 0 the enzymatic curve is 0 exactly when T >= CTmax. The Gaussian side, including T below CTmin, is never 0. |
| FitnessLaws.EnzymaticPeaksAtTopt | scripts/tpc_functions_oo.py:43-64 | The curve is 1 at Topt and at most that everywhere. Both enzymatic slopes vanish at Topt. |
| FitnessLaws.FitnessInUnitInterval | scripts/tpc_functions_oo.py:66-80 | w_TPC lies in [0, 1). |
| FitnessLaws.FitnessZeroIffAtOrAboveCTmax | scripts/tpc_functions_oo.py:66-80 | For B > 0, w_TPC is 0 exactly when T >= CTmin + B. |
| FitnessLaws.EnzymaticSlopeSigns | scripts/tpc_functions_oo.py:188-211 | For B > 0 the CTmin-slope is <= 0 on the rising side and > 0 on the falling side. The B-slope is > 0 on the falling side. |
| FitnessLaws.FitnessIsProduct | scripts/tpc_functions_oo.py:73-79 | w_TPC is the product of the enzymatic curve, w_B(B), w_CTmin(CTmin) and w_CTmax(CTmin + B). |
| FitnessLaws.FitnessGradientDBIsProductRule | scripts/tpc_functions_oo.py:213-224 | dw_TPC_dB equals the product-rule derivative of the four factors, with w_CTmin's B-slope 0. |
| FitnessLaws.FitnessGradientDCTminIsProductRule | scripts/tpc_functions_oo.py:226-237 | dw_TPC_dCTmin equals the product-rule derivative of the four factors, with w_B's CTmin-slope 0. |
| FitnessLaws.GradientVanishesAboveCTmax | scripts/tpc_functions_oo.py:213-237 | Above CTmax the fitness and both of its partial derivatives are 0. |
| FitnessLaws.CTmaxSlopesAgree | scripts/tpc_functions_oo.py:174-186 | dw_CTmax_dB and dw_CTmax_dCTmin are equal for any two trait pairs with the same CTmin + B. |
| ProductRule.PullOutThirdFactor | scripts/tpc_functions_oo.py:218-223 | (d1 x z + e dx z + e x dz) y is the derivative of e x y z when y's slope is 0. |
| ProductRule.PullOutSecondFactor | scripts/tpc_functions_oo.py:231-236 | (d1 y z + e dy z + e y dz) x is the derivative of e x y z when x's slope is 0. |
| Survival.GeomClosed | scripts/tpc_functions_oo.py:143 | (1 - r)(1 + r + ... + r^(n-1)) = 1 - r^n, the identity behind the closed form of C. |
| Survival.Weight | scripts/tpc_functions_oo.py:139-143 | Definition (no contract of its own): C is 1 when 1 - r < tiny, and the closed form otherwise. Survival.WeightIsMeanSurvival and Survival.WeightBounds state what it means. |
| Survival.WeightSlope | scripts/tpc_functions_oo.py:258-263 | Definition (no contract of its own): dC/dB is (nr - 1)/2 times the density when 1 - r < tiny, and the closed slope times the density otherwise. Survival.WeightIsMeanSurvival and Survival.WeightSlopeNonnegative state what it means. |
| Survival.DGeomClosed | scripts/tpc_functions_oo.py:263 | (1 - r)^2 times the derivative of that sum is 1 - n r^(n-1) + (n-1) r^n. |
| Survival.ClosedWeightIsMeanSurvival | scripts/tpc_functions_oo.py:143 | For r != 1 the closed form of C equals the mean over the nr days of r^(days already lived). |
| Survival.ClosedSlopeIsMeanSurvivalSlope | scripts/tpc_functions_oo.py:263 | For r != 1 the closed form of dC/dr equals the r-derivative of that mean. |
| Survival.FallbackIsValueAtOne | scripts/tpc_functions_oo.py:258-260 | The fallbacks C = 1 and dC/dr = (nr - 1)/2 are the values of the mean and its derivative at r = 1. |
| Survival.WeightAtOne | scripts/tpc_functions_oo.py:139-141 | At r = 1 the fallback is taken and C = 1: every day of the generation is survived. |
| Survival.WeightAtZero | scripts/tpc_functions_oo.py:139-143 | At r = 0 the fallback is not taken, and C = 1/nr, the mean survival when no day after the first is survived. |
| Survival.WeightIsMeanSurvival | scripts/tpc_functions_oo.py:258-263 | C, and dC times the density, are the mean survival and its slope times the density. Both use the same point: r, or 1 when 1 - r < tiny. |
| Survival.WeightBounds | scripts/tpc_functions_oo.py:139-143 | For a probability r, 1/nr <= C <= 1. C < 1 when the closed form is used with nr >= 2. |
| Survival.WeightSlopeNonnegative | scripts/tpc_functions_oo.py:258-263 | dC is never negative for r >= 0 and a non-negative density. |
| Expected.ExpectedRecoveryGrid | scripts/tpc_functions_oo.py:82-101 | The grid has one row per B and one column per CTmin. Cell (i, j) is the quadrature of fitness times density from CTmin_j to CTmin_j + B_i. |
| Expected.ExpectedNoRecoveryGrid | scripts/tpc_functions_oo.py:118-145 | The grid has one row per B and one column per CTmin. Cell (i, j) is C at r = cdf(CTmax) times that cell's integral. |
| Expected.NoRecoveryCell | scripts/tpc_functions_oo.py:134-144 | One cell is C times the integral: C = 1 when 1 - r < tiny, and the closed form otherwise. |
| Expected.ExpectedRecovery | scripts/tpc_functions_oo.py:82-101 | Definition (no contract of its own): one cell of the recovery grid, the quadrature of fitness times density from CTmin to CTmin + B. Its sign is in Expected.ExpectedRecoveryNonnegative. |
| Expected.ExpectedNoRecovery | scripts/tpc_functions_oo.py:118-145 | Definition (no contract of its own): one cell of the no-recovery grid, C at r = cdf(CTmax) times the recovery integral. Expected.NoRecoveryIsMeanSurvivalTimesRecovery and Expected.NoRecoveryBetween state what it means. |
| Expected.GradientIntegrandDB | scripts/tpc_functions_oo.py:245-246 | Definition (no contract of its own): the B-gradient of fitness at T times the density of T. |
| Expected.GradientIntegrandDCTmin | scripts/tpc_functions_oo.py:272-273 | Definition (no contract of its own): the CTmin-gradient of fitness at T times the density of T. |
| Expected.DExpectedRecoveryDB | scripts/tpc_functions_oo.py:239-248 | Definition (no contract of its own): the quadrature of the B-gradient integrand from muT - 5 sigmaT to CTmax. Expected.IntegrandsVanishAboveCTmax is its partner. The calculus is listed under Left out. |
| Expected.DExpectedRecoveryDCTmin | scripts/tpc_functions_oo.py:267-275 | Definition (no contract of its own): the quadrature of the CTmin-gradient integrand over the same bounds. Expected.IntegrandsVanishAboveCTmax is its partner. |
| Expected.DExpectedNoRecoveryDB | scripts/tpc_functions_oo.py:250-265 | Definition (no contract of its own): dC E + C dE, with the fallback branch of C and dC. Expected.NoRecoveryGradientDBFollowsSurvival states what it means. |
| Expected.DExpectedNoRecoveryDCTmin | scripts/tpc_functions_oo.py:277-291 | Definition (no contract of its own): the same product rule for CTmin. Expected.NoRecoveryGradientDCTminFollowsSurvival states what it means. |
| Expected.IntegrandsVanishAboveCTmax | scripts/tpc_functions_oo.py:245-246 | For B > 0 and T > CTmax, the expectation integrand and both gradient integrands are 0. So the upper bound CTmax of every quadrature cuts off no mass. |
| Expected.ExpectedRecoveryNonnegative | scripts/tpc_functions_oo.py:92-100 | For B > 0 every recovery cell is non-negative. |
| Expected.NoRecoveryIsMeanSurvivalTimesRecovery | scripts/tpc_functions_oo.py:139-144 | A no-recovery cell is the recovery cell times the mean survival at r, or at 1 under the fallback. |
| Expected.NoRecoveryBetween | scripts/tpc_functions_oo.py:139-144 | For B > 0, recovery / nr <= no-recovery <= recovery. |
| Expected.NoRecoveryGradientDBFollowsSurvival | scripts/tpc_functions_oo.py:250-265 | The no-recovery B-gradient is dC E + C dE. C and dC/dr are the mean survival and its slope at the same point, and dr is the density at CTmax. |
| Expected.NoRecoveryGradientDCTminFollowsSurvival | scripts/tpc_functions_oo.py:277-291 | The same product rule holds for the CTmin-gradient. |
| Sweep.Range | scripts/01_prepare_input_parameters/generate_param_df.py:56 | range(n) has n entries, and entry j is j. |
| Sweep.Product | scripts/01_prepare_input_parameters/generate_param_df.py:74 | Definition (no contract of its own): itertools.product of two lists, first list outermost. Its length, its entries and whether it has repeats are given by the Product lemmas below. |
| Sweep.ProductLength | scripts/01_prepare_input_parameters/generate_param_df.py:74 | itertools.product of two lists has \|xs\| * \|ys\| pairs. |
| Sweep.ProductIndex | scripts/01_prepare_input_parameters/generate_param_df.py:74 | Position k holds (xs[k / \|ys\|], ys[k % \|ys\|]): the first list is outermost. |
| Sweep.ProductMembers | scripts/01_prepare_input_parameters/generate_param_df.py:74 | Every pair takes its entries from the two lists. |
| Sweep.ProductNoDuplicates | scripts/01_prepare_input_parameters/generate_param_df.py:74 | Lists without repeats give a product without repeats. |
| Sweep.Dedup | scripts/01_prepare_input_parameters/generate_param_df.py:107 | Definition (no contract of its own): drop_duplicates, keeping the first occurrence in order. Its elements, its lack of repeats and its result on blocks are given by the Dedup lemmas below. |
| Sweep.DedupSameElements | scripts/01_prepare_input_parameters/generate_param_df.py:107 | drop_duplicates keeps exactly the rows that occur. |
| Sweep.DedupNoDuplicates | scripts/01_prepare_input_parameters/generate_param_df.py:107 | After drop_duplicates no row occurs twice. |
| Sweep.DedupBlocks | scripts/01_prepare_input_parameters/generate_param_df.py:107 | Blocks of k equal rows, one block per distinct value, deduplicate to those values in order. |
| Sweep.DecimalRoundTrip | scripts/01_prepare_input_parameters/generate_param_df.py:92 | The decimal digits of n are a non-empty digit string that reads back as n. |
| Sweep.IntStrInjective | scripts/01_prepare_input_parameters/generate_param_df.py:92 | str() of an int has no underscore, and different ints give different strings. |
| Sweep.ThreeFields | scripts/01_prepare_input_parameters/generate_param_df.py:92 | A name made of underscore-free fields, joined by labels that start with an underscore, determines its fields. |
| ParamTable.ColumnOrderListsDefaults | scripts/01_prepare_input_parameters/generate_param_df.py:37-41 | column_order lists the 23 keys of params_default, in their order, each once. |
| ParamTable.DefaultKeysComplete | scripts/01_prepare_input_parameters/generate_param_df.py:11-34 | params_default has a key for every column. |
| ParamTable.Default | scripts/01_prepare_input_parameters/generate_param_df.py:11-34 | Definition (no contract of its own): the params_default value of every column. ParamTable.ColumnOrderListsDefaults and ParamTable.DefaultKeysComplete show that every column has one. |
| ParamTable.Merged | scripts/01_prepare_input_parameters/generate_param_df.py:94-96 | The completed row holds every column: new_row's value where it sets one, the default elsewhere. |
| ParamTable.FillDefaults | scripts/01_prepare_input_parameters/generate_param_df.py:94-96 | The loop over params_default's keys produces exactly the completed row. |
| ParamTable.MergedHoldsColumns | scripts/01_prepare_input_parameters/generate_param_df.py:94-96 | A completed row holds exactly the columns of column_order. |
| ParamTable.Select | scripts/01_prepare_input_parameters/generate_param_df.py:100-102 | The table has the requested columns in the requested order, one row per record, and keeps each record's cells. |
| ParamTable.SelectKeepsFullRow | scripts/01_prepare_input_parameters/generate_param_df.py:102 | A record holding exactly the selected columns comes through unchanged. |
| ParamTable.Without | scripts/01_prepare_input_parameters/generate_param_df.py:107 | The kept columns are the listed ones outside the dropped set. |
| ParamTable.RowWithout | scripts/01_prepare_input_parameters/generate_param_df.py:107 | A row loses exactly the dropped columns and keeps every other cell. |
| ParamTable.DropColumns | scripts/01_prepare_input_parameters/generate_param_df.py:107 | drop(columns=...) keeps the other columns in order and drops the cells of the dropped ones from each row. |
| ParamTable.DropDuplicates | scripts/01_prepare_input_parameters/generate_param_df.py:107 | The rows keep first occurrences in order: the same set of rows, none twice. |
| ParamTable.WithoutReplicates | scripts/01_prepare_input_parameters/generate_param_df.py:107 | After dropping seed and OUTNAME and deduplicating, the table is still well formed, and neither column remains. |
| ParamTable.Column | scripts/01_prepare_input_parameters/generate_param_df.py:109 | A column read top to bottom: entry i is row i's cell. |
| ParamTable.AddColumn | scripts/01_prepare_input_parameters/generate_param_df.py:109 | A new column is appended last, and row i gains cell i. |
| ParamTable.RenamedAgrees | scripts/01_prepare_input_parameters/generate_param_df.py:107-109 | A renamed unique row agrees with the original row on every column but seed and OUTNAME. |
| ParamTable.RenamedIsWithoutSeed | scripts/01_prepare_input_parameters/generate_param_df.py:107-109 | Dropping seed and OUTNAME and then restoring the old OUTNAME only drops seed. |
| GaussianTable.GaussianRow | scripts/01_prepare_input_parameters/generate_param_df.py:75-96 | One pass of the loop yields the completed new_row of its (mean, stdev, seed). |
| GaussianTable.GaussianDict | scripts/01_prepare_input_parameters/generate_param_df.py:81-93 | Definition (no contract of its own): the new_row dict of one scanned triple. Its cells are given by GaussianTable.GaussianRowScanned and GaussianTable.GaussianRowConstants. |
| GaussianTable.GaussianRows | scripts/01_prepare_input_parameters/generate_param_df.py:73-97 | The loop builds params_list: one completed row per scan position, in scan order. |
| GaussianTable.Gaussian | scripts/01_prepare_input_parameters/generate_param_df.py:44-111 | gaussian() returns the saved table and the unique table derived from it. |
| GaussianTable.GaussianUnique | scripts/01_prepare_input_parameters/generate_param_df.py:107-109 | The unique table is well formed: each row holds exactly its columns. |
| GaussianTable.GaussianScanAt | scripts/01_prepare_input_parameters/generate_param_df.py:74 | The scan has 3 x 3 x 30 = 270 entries. Entry i is (MEAN_TEMP_list[i / 90], STDEV_TEMP_list[(i / 30) % 3], i % 30). |
| GaussianTable.GaussianScanDistinct | scripts/01_prepare_input_parameters/generate_param_df.py:74 | Distinct scan positions hold distinct triples. |
| GaussianTable.GaussianTableShape | scripts/01_prepare_input_parameters/generate_param_df.py:100-102 | The saved table has 270 rows and exactly the columns of column_order, in order. |
| GaussianTable.GaussianRecordAt | scripts/01_prepare_input_parameters/generate_param_df.py:97-102 | Saved row i is the completed new_row of scan position i. |
| GaussianTable.GaussianRowScanned | scripts/01_prepare_input_parameters/generate_param_df.py:75-93 | A row carries its mean, stdev, seed and run name. RUNTIME is 40000 exactly when mean = 35 and stdev = 3, and 20000 otherwise. |
| GaussianTable.GaussianRowConstants | scripts/01_prepare_input_parameters/generate_param_df.py:59-96 | The sweep's fixed settings override the defaults. Every column that new_row does not set keeps its default. |
| GaussianTable.GaussianNameInjective | scripts/01_prepare_input_parameters/generate_param_df.py:92 | The run name determines mean, stdev and seed. |
| GaussianTable.GaussianOutnameAt | scripts/01_prepare_input_parameters/generate_param_df.py:92 | Row i's OUTNAME names its scanned mean, stdev and seed. |
| GaussianTable.GaussianOutnamesDistinct | scripts/01_prepare_input_parameters/generate_param_df.py:92 | No two saved rows share an OUTNAME. |
| GaussianTable.ReplicatesAgree | scripts/01_prepare_input_parameters/generate_param_df.py:81-96 | Replicates of one (mean, stdev) differ only in seed and OUTNAME. |
| GaussianTable.GaussianDroppedRowAt | scripts/01_prepare_input_parameters/generate_param_df.py:107 | Without seed and OUTNAME, saved row i is shared row i / 30: the 30 replicates of a pair form one block of equal rows. |
| GaussianTable.GaussianSharedRowsDistinct | scripts/01_prepare_input_parameters/generate_param_df.py:107 | The nine shared rows, one per (mean, stdev), are pairwise different. |
| GaussianTable.GaussianDeduplicated | scripts/01_prepare_input_parameters/generate_param_df.py:107 | drop_duplicates keeps exactly the first replicate of each (mean, stdev), in scan order. |
| GaussianTable.GaussianUniqueShape | scripts/01_prepare_input_parameters/generate_param_df.py:107-109 | The unique table has 9 rows. Its columns are column_order without seed and OUTNAME, then OUTNAME last. |
| GaussianTable.GaussianSharedRowValues | scripts/01_prepare_input_parameters/generate_param_df.py:107 | Deduplicated row q has no seed or OUTNAME. It holds (MEAN_TEMP_list[q / 3], STDEV_TEMP_list[q % 3]) and that pair's runtime. |
| GaussianTable.GaussianUniqueRowOf | scripts/01_prepare_input_parameters/generate_param_df.py:107-109 | Unique row q of any table is deduplicated row q plus OUTNAME built from that row's MEAN_TEMP and STDEV_TEMP. |
| GaussianTable.GaussianUniqueRowIs | scripts/01_prepare_input_parameters/generate_param_df.py:107-109 | Unique row q is shared row q with the seedless name of its pair. |
| GaussianTable.GaussianUniqueRowAt | scripts/01_prepare_input_parameters/generate_param_df.py:107-109 | Unique row q has no seed. It has its pair, its runtime and OUTNAME gaussian_MEAN_TEMP_m_STDEV_TEMP_s. |
| GaussianTable.GaussianUniqueSummarisesReplicates | scripts/01_prepare_input_parameters/generate_param_df.py:107-109 | Unique row i / 30 agrees with saved row i on every column but seed and OUTNAME. |
| GaussianTable.GaussianOutnameExtendsUnique | scripts/01_prepare_input_parameters/generate_param_df.py:109 | Saved row i's OUTNAME is its unique row's OUTNAME + "_seed_" + the seed. |
| GaussianTable.GaussianNameExtends | scripts/01_prepare_input_parameters/generate_param_df.py:92 | A run name is the seedless name + "_seed_" + the seed. |
| SineTable.SineRows | scripts/01_prepare_input_parameters/generate_param_df.py:142-159 | The loop builds params_list: one completed row per (RECOVERY, GEN_LEN_DEPENDS_ON_TEMP), in scan order. |
| SineTable.SineNewRow | scripts/01_prepare_input_parameters/generate_param_df.py:144-155 | Definition (no contract of its own): the new_row dict of one flag pair. Its cells are given by SineTable.SineRowScanned and SineTable.SineRowConstants. |
| SineTable.Sine | scripts/01_prepare_input_parameters/generate_param_df.py:114-176 | sine() returns the saved table and the unique table derived from it. |
| SineTable.SineUnique | scripts/01_prepare_input_parameters/generate_param_df.py:169-174 | The unique table is well formed. |
| SineTable.SineScanAt | scripts/01_prepare_input_parameters/generate_param_df.py:143 | The scan has 2 x 2 = 4 entries. Entry i is (RECOVERY_list[i / 2], GEN_LEN_DEPENDS_ON_TEMP_list[i % 2]). |
| SineTable.SineScanDistinct | scripts/01_prepare_input_parameters/generate_param_df.py:143 | Distinct scan positions hold distinct flag pairs. |
| SineTable.SineTableShape | scripts/01_prepare_input_parameters/generate_param_df.py:162-164 | The saved table has 4 rows and exactly the columns of column_order, in order. |
| SineTable.SineRecordAt | scripts/01_prepare_input_parameters/generate_param_df.py:159-164 | Saved row i is the completed new_row of scan position i. |
| SineTable.SineRowScanned | scripts/01_prepare_input_parameters/generate_param_df.py:144-158 | A row carries its flags, its run name and the default seed 13579. |
| SineTable.SineRowConstants | scripts/01_prepare_input_parameters/generate_param_df.py:129-158 | The sweep's fixed settings override the defaults. Every column that new_row does not set keeps its default. |
| SineTable.SineRowAt | scripts/01_prepare_input_parameters/generate_param_df.py:154 | Saved row i holds the scanned flags and OUTNAME sine_RECOVERY_r_GEN_LEN_DEPENDS_ON_TEMP_g. |
| SineTable.SineNameInjective | scripts/01_prepare_input_parameters/generate_param_df.py:154 | For flags without an underscore, the run name determines both flags. |
| SineTable.SineOutnamesDistinct | scripts/01_prepare_input_parameters/generate_param_df.py:154 | No two saved rows share an OUTNAME. |
| SineTable.SineDroppedRowsDiffer | scripts/01_prepare_input_parameters/generate_param_df.py:169 | Without seed and OUTNAME, the four rows are still pairwise different. |
| SineTable.SineDeduplicated | scripts/01_prepare_input_parameters/generate_param_df.py:169 | drop_duplicates removes nothing. |
| SineTable.SineDedupRowAt | scripts/01_prepare_input_parameters/generate_param_df.py:169 | Deduplicated row i is saved row i without seed and OUTNAME. |
| SineTable.SineUniqueRowOf | scripts/01_prepare_input_parameters/generate_param_df.py:169-174 | Unique row i of any table is deduplicated row i plus OUTNAME built from its RECOVERY and GEN_LEN_DEPENDS_ON_TEMP. |
| SineTable.SineUniqueRowIs | scripts/01_prepare_input_parameters/generate_param_df.py:169-174 | Unique row i is saved row i without seed and OUTNAME, with OUTNAME rebuilt from its flags. |
| SineTable.SineRenameRestores | scripts/01_prepare_input_parameters/generate_param_df.py:171-174 | The rebuilt OUTNAME equals the one the row was saved with. |
| SineTable.SineUniqueIsParamsWithoutSeed | scripts/01_prepare_input_parameters/generate_param_df.py:169-174 | Unique row i is exactly saved row i without its seed. |
| SineTable.SineUniqueShape | scripts/01_prepare_input_parameters/generate_param_df.py:169-174 | The unique table has 4 rows. Its columns are column_order without seed and OUTNAME, then OUTNAME last. |
| LegacySweep.GaussianTemp | scripts/01_prepare_input_parameters.py:5-68 | Returns the two lists. Each header is the key order of its list's first dict. The printed total, the product of the three list lengths, equals the number of runs. The second count is the length of runs_unique. |
| LegacySweep.CollectRuns | scripts/01_prepare_input_parameters.py:21-38 | The first loop builds runs: one dict per scan position, in order, numbered from 0. |
| LegacySweep.CollectUniqueRuns | scripts/01_prepare_input_parameters.py:47-61 | The second loop builds runs_unique: one dict per (muT, sigmaT), in order. |
| LegacySweep.Run | scripts/01_prepare_input_parameters.py:21-38 | Definition (no contract of its own): the dict appended for one scanned triple, in its key order. LegacySweep.RunAt and LegacySweep.RunsShareHeader state its contents. |
| LegacySweep.UniqueRun | scripts/01_prepare_input_parameters.py:47-61 | Definition (no contract of its own): the dict appended for one (muT, sigmaT), in its key order. LegacySweep.UniqueRunAt states its contents. |
| LegacySweep.ScanAt | scripts/01_prepare_input_parameters.py:22 | The scan has \|muTlist\| * \|sigmaTlist\| * \|seedlist\| = 270 entries. Entry i is (muTlist[i / 90], sigmaTlist[(i / 30) % 3], i % 30). |
| LegacySweep.ScanDistinct | scripts/01_prepare_input_parameters.py:22 | Distinct scan positions hold distinct triples. |
| LegacySweep.RunAt | scripts/01_prepare_input_parameters.py:22-38 | Run i has run_id = i, its scanned muT, sigmaT and seed, and its run name. RUNTIME is 40000 exactly when muT = 35 and sigmaT = 3, and 20000 otherwise. |
| LegacySweep.RunsShareHeader | scripts/01_prepare_input_parameters.py:39 | Every run dict is well formed and has the keys of runs[0], in the same order. |
| LegacySweep.RunNameInjective | scripts/01_prepare_input_parameters.py:37 | The run name determines muT, sigmaT and seed. |
| LegacySweep.RunNamesDistinct | scripts/01_prepare_input_parameters.py:37 | No two runs share an OUTNAME. |
| LegacySweep.UniqueRunAt | scripts/01_prepare_input_parameters.py:48-61 | runs_unique has 9 dicts, in product order, with no run_id or seed. Each has its runtime override and the seedless name. |
| LegacySweep.UniqueRunsShareHeader | scripts/01_prepare_input_parameters.py:62 | Every unique dict is well formed and has the keys of runs_unique[0], in the same order. |
| LegacySweep.UniqueRunSummarisesRuns | scripts/01_prepare_input_parameters.py:48-61 | Unique dict i / 30 agrees with run i on every key it has except OUTNAME. Run i's name is the unique name + "_seed_" + its seed. |

## Left out

- Floating point. Every float is a Dafny `real`, and IEEE rounding, overflow and NaN are not modelled.
  - `finfo(float64).tiny` is an abstract positive number. `np.nextafter` does not occur in the core.
  - `a / (b * c)` and `B ** 3` are written as successive divisions. These are equal over the reals.
- `expit`, `exp`, the normal pdf and cdf, and `quad`: the model does not evaluate these library routines. Each is a parameter of type `Numerics.Library`. The facts the lemmas use are hypotheses: `ExpitLaws`, `ExpLaws`, `CdfLaws`, `PdfLaws` and `QuadLaws`.
- Checking each analytic derivative against the function it differentiates. This needs calculus over transcendental functions. What is proved instead:
  - the region split and the signs of the derivatives;
  - the product-rule assembly of the fitness gradients and of the no-recovery gradients;
  - that the closed forms of C and dC/dr are the mean survival and its term-by-term derivative.
- The integration bounds. The recovery and no-recovery integrals run from CTmin to CTmax (`scripts/tpc_functions_oo.py:99`, `:138`). The recovery gradients run from `muT - 5 sigmaT` to CTmax (`:247`, `:274`). Both are modelled as written and not reconciled.
- `optimize_expected_w_TPC_*` (L-BFGS-B) and `CTmin_B_traj_*` (`solve_ivp`). These are wrappers over numeric solvers.
- NumPy `meshgrid`, broadcasting and `squeeze`. Fitness is modelled for one scalar (CTmin, B, T). A grid is indexed by a sequence of B values (rows) and a sequence of CTmin values (columns), and is not squeezed.
- Fitness.WEnzymatic, Fitness.WTpc, Fitness.DwEnzymaticDB, Fitness.DwEnzymaticDCTmin and the members of Expected require B != 0. With B = 0 NumPy returns NaN, which a real-valued model cannot hold.
- Fitness.WB, Fitness.WCTmin and Fitness.WCTmax require a non-zero width, and `Tpc.Valid` requires all three widths non-zero. In the source, a zero width turns the logistic into a step: on NumPy arrays `-(x - crit) / Delta` is an infinity, so `expit` gives 0 or 1, or NaN at `x == crit`. The slopes, such as `- 1 / self.Delta_B`, divide by zero, which raises ZeroDivisionError for Python-number widths.
- Survival.WeightAtZero requires `tiny <= 1`. In the model `tiny` is an abstract positive number. In the source it is the smallest positive double, far below 1.
- Expected.NoRecoveryCell, Expected.ExpectedNoRecoveryGrid and the no-recovery lemmas require `num_days_per_gen >= 1`. With 0 days the closed form divides by zero.
- The degenerate fixed-temperature branch for a near-zero `sigmaT` is taken by the caller in `scripts/04_analytical_prediction/predict.py`. That file is not part of this model.
- CSV writing, `argparse` and the console messages. `LegacySweep.GaussianTemp` returns the two counts it would print. The `gaussian()` and `sine()` tables are returned, not written.
- ParamTable.Default keeps the one float default, `DeltaCTmax = 0.2`, as its literal text. No arithmetic is done on table cells.
- pandas `astype(str)` is modelled as Python's `str()`. For int cells this is the decimal form, proved injective. For str cells it is the string itself. Float cells are never rebuilt into names.
- pandas indexing by a missing column (a `KeyError`) cannot happen on the tables built here. The generic frame operations require the column to be present.
- SineTable.SineNameInjective requires flags without an underscore. The scanned flags are `'T'` and `'F'`.
- The context scripts are not part of this model: averaging and plotting logs, `predict.py` and `make_sine_data.py`.

## Notes on the code

- `r` is the normal distribution function at CTmax, the probability that a day is survivable. C is 1 at `r = 1`, through the fallback, and `1/nr` at `r = 0` (`Survival.WeightAtOne`, `Survival.WeightAtZero`). Between those, `1/nr <= C <= 1` (`Survival.WeightBounds`).
- The Gaussian rise is positive for every T up to Topt, including T below CTmin. `w_TPC` is 0 only at and above CTmax (`FitnessLaws.EnzymaticZeroIffAtOrAboveCTmax`).
