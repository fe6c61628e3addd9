# Referential sampling of the FoodData Central tables

`sample_datasets.py` builds a small, referentially consistent sample of the USDA FoodData
Central dataset. It draws up to 5000 foods and collects their `fdc_id` values into a key set.
It then walks a fixed list of tables in script order, doing one of three things to each:
- filter it by membership of its `fdc_id` column in the key set;
- filter `measure_unit` by a second key set, derived from the already filtered `food_portion`
  output;
- copy a reference table whole.

Finally it prints a summary of the `.parquet` files in the output directory.

This project models that logic over abstract tables and proves what the script guarantees.

- `tables.dfy` (`Tables`): tables as a column list plus rows of nullable cells.
  - `Filter` is membership filtering, proved to be the unique order-preserving selection.
  - `NonNullValues` collects the distinct non-null values of one column.
- `catalog.dfy` (`Catalog`): the 34 tables the script knows, in the order it processes them, and
  their `.parquet` file names.
  - Each table has a descriptor: whether the script reads it without an existence check, and its
    mode: `CopyAll`, `FilterBy`, `FilterOrCopy`, `FilterOrDrop` or `DeriveThenFilter`.
- `sampling.dfy` (`Sampling`): the sample size `min(5000, |food|)` and the key set.
  - The seeded random draw is a parameter: a list of distinct row positions of the right length.
- `executor.dfy` (`Executor`):
  - `ProcessTable` is one step.
  - `RunCatalog` folds the steps over the catalog.
  - `Run` is the whole script. It either completes with the map of written tables, or stops
    where the script raises, keeping what it has written so far.
  - The lemmas characterise a completed run's output table by table.
- `summary.dfy` (`Summary`): the closing report.
  - Names are sorted in Python's code-point string order.
  - Non-`.parquet` entries are skipped.
  - The output directory is the earlier contents overwritten by this run's files.

Behaviour worth knowing:
- **Errors stop the run.** A missing `food`, `food_nutrient` or `nutrient` file raises. So does a
  missing `fdc_id` in `food`, `food_nutrient` or `food_portion`, and a missing `id` in
  `measure_unit` when that step runs. Each of these stops the whole run (`Run` returns
  `Aborted`).
- **`fdc_id` fallback.** Only `food_nutrient_source` and `food_update_log_entry` fall back to a
  full copy when they lack `fdc_id`. `wweia_food_category`, `branded_food`, `input_food` and
  `sample_food` are then not written at all.
- **`measure_unit` nesting.** `measure_unit` is processed only inside the `food_portion` branch.
  Without `food_portion` it is never written, even when its own file exists.
- **The summary lists files, not tables.** It lists the output directory. Because the directory
  is created with `exist_ok=True` and never cleared, `.parquet` files left by an earlier run are
  listed too.

## Model

| member | source | states |
|---|---|---|
| Tables.Filter | sample_datasets.py:33 | An `isin` filter keeps the column list. A row is in the result exactly when it is an input row whose key cell is in the key set. Well-formed tables stay well-formed. |
| Tables.FilterRowsIsSelection | sample_datasets.py:49 | The filter is an order-preserving selection. The positions it keeps are strictly increasing, and they are exactly the rows whose key is in the set. |
| Tables.SelectionIsFilter | sample_datasets.py:65 | Any order-preserving selection by the same membership test equals the filter's result, so the filtered output is uniquely determined. |
| Tables.NonNullValues | sample_datasets.py:80 | `dropna().unique()` as a set: a value is in it exactly when it is non-null and occurs in the column. |
| Tables.DerivedFromFilteredIsSubset | sample_datasets.py:80 | Units derived from a filtered `food_portion` are a subset of those of the unfiltered one. |
| Catalog.FileName | sample_datasets.py:117-122 | Every table's file name ends in `.parquet`. |
| Catalog.FileNameInjective | sample_datasets.py:110-115 | Distinct tables are read from and written to distinct files. |
| Catalog.PositionIsInverse | sample_datasets.py:33-278 | The processing order lists every table exactly once. |
| Catalog.StepsWellOrdered | sample_datasets.py:62-85 | The catalog has 34 distinct tables in script order. Every derived-key step comes after its source, so `food_portion` comes before `measure_unit`. |
| Sampling.TargetCount | sample_datasets.py:25-27 | The sample size is at most the food count and at most 5000, and equals one of them. |
| Sampling.SampleKeys | sample_datasets.py:29-30 | The key set is exactly the `fdc_id` values of the drawn rows, so it is a subset of `food`'s `fdc_id` values. |
| Sampling.DrawExists | sample_datasets.py:29 | A draw meeting the sampler's contract exists for every food table. |
| Sampling.SampleKeysBounded | sample_datasets.py:25-30 | The key set is a subset of food's `fdc_id` values with at most `min(5000, food count)` members. |
| Sampling.SampleSizeExact | sample_datasets.py:28-30 | When `fdc_id` is a key of `food`, the key set has exactly `min(5000, food count)` members. |
| Sampling.SmallFoodFullySampled | sample_datasets.py:26-30 | A food table of at most 5000 rows is sampled whole: the key set is all of its `fdc_id` values. |
| Executor.ProcessTable | sample_datasets.py:62-70 | Any table written has its input's columns, and its rows come from that input. An absent table is never written. It stops the run exactly when the script reads it unconditionally. A present copy table is written unchanged. |
| Executor.ApplyMode | sample_datasets.py:180-188 | A present table keeps its columns and input rows. It aborts only for a missing column it needs, naming that table and column. |
| Executor.RunCatalog | sample_datasets.py:33-278 | The fold writes only catalog tables, each with its input's columns, and keeps earlier entries that the catalog does not name. |
| Executor.ProcessTableLocal | sample_datasets.py:30 | A step's outcome depends only on its own input and on its derivation source's output. The key set is fixed, so no other table can change it. |
| Executor.RunCatalogSpec | sample_datasets.py:62-85 | For a catalog with distinct names and sources first: a completed fold's outputs are what each step produces when it sees the final outputs, and an aborted fold stopped at a step that aborts. |
| Executor.Run | sample_datasets.py:16-30 | Every written table exists in the input with the same columns. A missing `food` or `food_nutrient` aborts before anything is written. |
| Executor.RunConsistent | sample_datasets.py:16-278 | On inputs the script can run on, the run completes. Each table's output is what its own step produces, given the sampled key set and the run's other outputs. |
| Executor.AbortCauses | sample_datasets.py:16-81 | A step aborts only in three cases: a required file is missing; `food`, `food_nutrient` or `food_portion` lacks `fdc_id`; or `measure_unit` lacks `id` while the filtered `food_portion` has `measure_unit_id`. |
| Executor.ConsistentRunnable | sample_datasets.py:16-81 | A consistent output exists only when every unconditional read and column access succeeds. |
| Executor.NoStepAborts | sample_datasets.py:62-81 | On runnable inputs no step aborts, as long as the `food_portion` output so far has its input's columns. |
| Executor.UnrunnableRunAborts | sample_datasets.py:16-33 | A run on inputs lacking a required file, or an `fdc_id` or `id` column that the script indexes without a check, stops early. |
| Executor.RunnableRunCompletes | sample_datasets.py:16-81 | A run on such inputs never stops early. |
| Executor.RunCompletesIffRunnable | sample_datasets.py:16-81 | A run completes exactly when the required files and the columns indexed without a check are present. |
| Executor.ConsistentCopy | sample_datasets.py:89-94 | A copy table's output exists exactly when its input does, and equals it. |
| Executor.RunCopiesReferenceTables | sample_datasets.py:117-122 | On inputs the script can run on, the run completes, and a copy table is written exactly when its source exists, and then equals the input in rows, order and columns. An absent copy table raises no error. |
| Executor.ConsistentFdc | sample_datasets.py:102 | A table with `fdc_id` and an `fdc_id` mode is written as the filter of its input by the key set. |
| Executor.ConsistentFoodIntegrity | sample_datasets.py:49 | Every `fdc_id` kept in a filtered table is the `fdc_id` of a row of the written `food` table. |
| Executor.RunFiltersByFdcId | sample_datasets.py:205 | On inputs the script can run on, the run completes. An `fdc_id`-filtered output is the order-preserving selection of input rows whose `fdc_id` was sampled. Each such `fdc_id` belongs to a row of the written `food`. |
| Executor.ConsistentWithoutFdcId | sample_datasets.py:101 | Without `fdc_id`, the two source tables are copied whole and the four food-detail tables are not written. |
| Executor.RunWithoutFdcId | sample_datasets.py:180-188 | On inputs the script can run on, the run completes. Without `fdc_id`, `food_nutrient_source` and `food_update_log_entry` are copied whole. `wweia_food_category`, `branded_food`, `input_food` and `sample_food` are not written. |
| Executor.ConsistentMeasureUnit | sample_datasets.py:74-77 | `measure_unit` is written exactly when `food_portion` and `measure_unit` exist and `food_portion` has `measure_unit_id`. It is then filtered by the units of the filtered `food_portion`. |
| Executor.RunMeasureUnit | sample_datasets.py:74-84 | On inputs the script can run on, the run completes with the `measure_unit` behaviour above. Every kept `measure_unit` row has a non-null `id` equal to the `measure_unit_id` of an input `food_portion` row whose `fdc_id` was sampled. |
| Executor.ConsistentLocal | sample_datasets.py:65 | Two consistent outputs with the same key set agree on a table when its input agrees, and for `measure_unit` when `food_portion` agrees as well. |
| Executor.RunOutputIsLocal | sample_datasets.py:80 | For two runnable input sets with the same `food` and draw: changing other tables never changes a table's output. Only its own input, `food` with the draw, and for `measure_unit` also `food_portion` matter. |
| Summary.StrLessIrreflexive | sample_datasets.py:286 | No name sorts before itself. |
| Summary.StrLessTransitive | sample_datasets.py:286 | The name order is transitive. |
| Summary.StrLessTotal | sample_datasets.py:286 | Any two distinct names are ordered one way or the other. |
| Summary.Least | sample_datasets.py:286 | Returns a member of the set that sorts before every other member. |
| Summary.SortedNames | sample_datasets.py:286 | The result is strictly increasing and holds exactly the given names. |
| Summary.IncreasingUnique | sample_datasets.py:286 | Two increasing listings of the same names are equal, so the sorted order is determined. |
| Summary.ParquetLines | sample_datasets.py:287-290 | From sorted names, it keeps each `.parquet` name in order, with its row count. |
| Summary.Summarize | sample_datasets.py:286-290 | The report lists exactly the directory's `.parquet` files, in increasing name order, each with its row count. |
| Summary.SummaryFiles | sample_datasets.py:286-290 | A report's file names are exactly the directory's `.parquet` names, in increasing order. |
| Summary.SummaryUnique | sample_datasets.py:286-290 | A directory has exactly one such report. |
| Summary.FileNamesDistinct | sample_datasets.py:117-122 | No two tables share a file name. |
| Summary.OutputDirectory | sample_datasets.py:9 | After the run, each written table is under its file name. Files this run does not write keep their old contents. Every other name came from one of the two. |
| Summary.FreshSummaryListsWritten | sample_datasets.py:286-290 | Starting from an empty directory, the report lists every written table with its row count. |
| Summary.FreshSummaryOnlyWritten | sample_datasets.py:286-290 | Starting from an empty directory, every report line is a written table with its row count. |
| Summary.StaleFileReported | sample_datasets.py:286-290 | A `.parquet` file left by an earlier run, under a name this run does not write, is still reported with its old row count. |

## Left out

- Parquet reading and writing, the pyarrow engine and the file system. Input files are a map
  from table names to tables; a file exists when its name is in the map. Read and write failures
  other than a missing file are not modelled.
- The seeded permutation of `DataFrame.sample(random_state=42)`. The draw is a parameter: distinct
  in-range row positions, `min(5000, |food|)` of them. Which rows it picks is not modelled.
- `isin` dtype coercion and NaN equality. A null `fdc_id` in the key set matches null cells here.
  `dropna()` is a plain "not null" test.
- `unique_nutrient_ids` (line 41) is computed and printed but never used. It is left out,
  including the KeyError it would raise when `food_nutrient` lacks `nutrient_id`.
- The hard-coded paths, `os.makedirs` itself, and every progress `print`. The existing contents of
  the output directory are a parameter of `Summary.OutputDirectory`.
- `convert_csvs_to_parquet.py` is not part of this model. It transcodes CSV files to parquet.
- Summary.Summarize: the row counts come from the tables in the directory map. Re-reading each
  file (line 289) is not modelled, and neither is its failure on a corrupt file.
- Tables.DerivedFromFilteredIsSubset: states only inclusion. That the filtered and unfiltered
  unit sets can differ is shown only through `Executor.RunMeasureUnit`, which ties the units to
  sampled portions.
