# Rentals investment pipeline — a Dafny model

The rentals investment pipeline downloads single-family listings for rent and
for sale in a fixed list of zip codes, stores one dataset per (zip code,
listing kind), and ranks the zip codes by the ratio of the median rental
price per square foot to the median sale price per square foot. This project
models the pipeline's core, `rentals_investment_pipeline.py`, and proves
properties of the model:

- **Paths** (`paths.dfy`): the storage key of a dataset,
  `data/rentals_<zip>.csv` or `data/sales_<zip>.csv`, and its injectivity.
- **Values** (`values.dfy`): listings as records (`map<string, Value>`).
  A cell missing from a record is the key's absence, which is how pandas
  fills a rectangular frame with NaN. A `KeyError` raised because a column is
  absent from the whole frame is the `Checked.KeyError` variant.
- **Normalizer** (`normalizer.dfy`): the loop over `cols_to_expand`. It drops
  each nested column and merges its sub-fields back in: the `address`
  sub-fields keep their own names, and the `lot_size` and `building_size`
  sub-fields are renamed `<col>_<sub>` (pandas `add_prefix`). An independent
  reference definition, `Flatten`, describes the flat record; the lemmas show
  that the loop computes it in either expansion order.
- **KpiCalculator** (`kpi_calculator.dfy`): `get_kpis`, the three per-listing
  quotients `price_per_sqft`, `price_per_beds` and `price_per_bath`.
- **Store** (`store.dfy`): the artifact store as a class whose map from path
  to dataset is updated in place by `Put`. Its invariant: every stored
  dataset is non-empty, its rows share one `run_date`, and each row carries
  `price_per_sqft`.
- **DatasetManager** (`dataset_manager.dfy`): `check_run_today` together with
  `gen_rental_data` / `gen_sales_data`. The two download functions are the
  same code apart from the kind and the expansion order, so they are folded
  into one `Acquire` method parameterised by the kind. `Acquire` is proved
  against the specification function `Acquisition`. Lemmas about
  `Acquisition` give the staleness skip, the write frame, idempotence, no
  write on bad input, and the stored rows end to end.
- **Stats** (`stats.dfy`) and **Ranking** (`ranking.dfy`): the median that
  `Series.median` computes (skipping missing values), and the descending sort
  with undefined ratios last that `sort_values(ascending=False)` performs.
- **Aggregator** (`aggregator.dfy`): `analyze`. A zip code gets a ratio
  exactly when both its datasets are stored. The ratio depends only on that
  zip's two datasets. The ranking lists every (zip, ratio) pair once.

The current date, the upstream HTTP answer and the store's contents are
parameters of the model: `today`, `payload` and the `ArtifactStore`.

The model follows the code where it differs from the pipeline's intended
behaviour:

- Ties in the ranking are not broken by zip code. `sort_values` makes no
  promise about tie order, so the model promises none.
- A malformed upstream answer makes the source call itself again, with no
  bound on the number of retries. A second failure does not abort. In the
  model the attempt ends with the outcome `Retry` and a caller may start
  another attempt.
- A listing frame in which one of `address`, `lot_size` or `building_size`
  is absent from every listing raises `KeyError` in `df.drop`. The dataset is
  then not written, even when the KPI inputs are all present. This includes a
  frame whose listings have an `address` and a `building_size` but none has a
  `lot_size` (`DatasetManager.AbsentNestedColumnAborts`).
- Division by zero does not give a value that every median excludes. The
  source gets infinity, and `Series.median` skips NaN but not infinity. The
  model abstracts every non-finite quotient to "undefined" (see Left out).

## Model

| member | source | states |
|---|---|---|
| Paths.PathFor | rentals_investment_pipeline.py:38 | the key is the kind's prefix (`data/rentals_` or `data/sales_`), then the zip code, then `.csv`; the same format is built at 52, 258 and 265 |
| Paths.PathInjective | rentals_investment_pipeline.py:258-265 | two (kind, zip) pairs with the same path are the same pair, so the rental and sale datasets of all zips never share a key |
| Normalizer.WithPrefix | rentals_investment_pipeline.py:126 | `add_prefix`: each key k of the input appears as prefix+k with the same value, and each key of the result is prefix+k for some input key k |
| Normalizer.ExpandCellShape | rentals_investment_pipeline.py:122-126 | one row after expanding one column: a row without the column is unchanged; otherwise each sub-field s of the cell appears as s (`address`) or `<col>_s` with its value, every other cell is kept unless a sub-field overrides it, and nothing else appears |
| Normalizer.ExpandColumnDrops | rentals_investment_pipeline.py:124-126 | `df.drop(col)` then `concat`: the row count is kept and the column is gone from every row, except a row whose own sub-fields carry its name |
| Normalizer.ExpandColumns | rentals_investment_pipeline.py:122-126 | the expansion loop keeps the row count and flattens each row on its own; a `KeyError` names one of the columns being expanded |
| Normalizer.RentalFlatten | rentals_investment_pipeline.py:117-126 | the rental order (address, lot_size, building_size) turns a row into its reference flat record |
| Normalizer.SaleFlatten | rentals_investment_pipeline.py:193-202 | the sale order (address, building_size, lot_size) turns a row into its reference flat record |
| Normalizer.FlattenShape | rentals_investment_pipeline.py:122-126 | after flattening, the keys are exactly the pass-through, address, `lot_size_*` and `building_size_*` keys, each with its original value, and no nested column remains |
| Normalizer.FlattenOrderIndependent | rentals_investment_pipeline.py:193-202 | the sale download's expansion order gives the same record as the rental download's |
| Normalizer.ExpandColumnsFlatten | rentals_investment_pipeline.py:117-126 | over a whole frame, flattening succeeds exactly when each of the three nested columns occurs in some listing, and then every row becomes its flat record |
| KpiCalculator.Quotient | rentals_investment_pipeline.py:246 | the quotient is defined exactly when both operands are numbers and the divisor is non-zero, and then quotient × divisor = dividend |
| KpiCalculator.AssignQuotient | rentals_investment_pipeline.py:246 | one column assignment: every row gains (or has overwritten) the target cell, holding the quotient of its own two operand cells, and keeps every other cell |
| KpiCalculator.AddKpis | rentals_investment_pipeline.py:246-248 | the three assignments in a row: the row count is kept, every row gains exactly the three KPI cells with their quotients, and every other cell is kept |
| KpiCalculator.GetKpis | rentals_investment_pipeline.py:240-249 | succeeds exactly when `price`, `building_size_size`, `beds` and `baths` each occur in some row; a failure names an absent input column; on success each row gains the three KPI columns and keeps every other field |
| KpiCalculator.KpiValues | rentals_investment_pipeline.py:246-248 | with a price p, each KPI is p divided by its divisor, and a zero or missing divisor gives an undefined KPI |
| Stats.SortAsc | rentals_investment_pipeline.py:273 | the values the median is taken over, sorted ascending and as a permutation of the input |
| Stats.MedianOfSorted | rentals_investment_pipeline.py:273 | no median for no values; otherwise at least half the values are ≤ it and at least half are ≥ it, and for an even count it is midway between the two middle values |
| Stats.MedianIgnoresOrder | rentals_investment_pipeline.py:273 | the median depends only on the multiset of values, not on the row order of the stored dataset |
| Stats.DefinedValues | rentals_investment_pipeline.py:273 | the median skips missing cells: a number is taken exactly when some row holds it in the column |
| Stats.DefinedValuesSingle | rentals_investment_pipeline.py:273 | one row contributes its number in the column, or nothing when the cell is missing or not a number |
| Stats.DefinedValuesAppend | rentals_investment_pipeline.py:273 | the values of two blocks of rows are those of the first block followed by those of the second; with the single-row lemma this fixes every value and how often it occurs |
| Stats.DefinedValuesPermute | rentals_investment_pipeline.py:273 | reordering the rows keeps the multiset of values, multiplicities included |
| Stats.Median | rentals_investment_pipeline.py:273 | `Series.median` on numbers: none exactly for no values, and otherwise a value between the least and the greatest of them |
| Stats.ColumnMedian | rentals_investment_pipeline.py:273 | `df[col].median()`: none exactly when no row holds a number in the column, and otherwise a value between two of the column's numbers |
| Stats.ColumnMedianIgnoresRowOrder | rentals_investment_pipeline.py:273 | a column median does not depend on the order of the rows |
| Ranking.RankDescending | rentals_investment_pipeline.py:291 | `sort_values(ascending=False)`: the result is a permutation of the entries, ratios are non-increasing, and undefined ratios come last |
| Ranking.RankKeepsDistinct | rentals_investment_pipeline.py:291 | ranking keeps each zip code once |
| Ranking.RankingExample | rentals_investment_pipeline.py:291 | ratios {A: 2.0, B: 1.5} rank as exactly [A, B] |
| Store.ArtifactStore.Put | rentals_investment_pipeline.py:132-133 | storing a dataset replaces the artifact at its path, leaves every other path alone, and keeps the store invariant |
| DatasetManager.CheckRunToday | rentals_investment_pipeline.py:75-85 | nothing when no artifact exists at the path; otherwise the `run_date` shared by all its rows |
| DatasetManager.StampRunDate | rentals_investment_pipeline.py:128 | every row gets `run_date` = today, and nothing else changes |
| DatasetManager.Prepare | rentals_investment_pipeline.py:116-130 | a prepared dataset has one row per listing, each stamped with today and carrying `price_per_sqft` |
| DatasetManager.ExpandAll | rentals_investment_pipeline.py:122-126 | the loop over `cols_to_expand` computes the expansion of every column in order, or the `KeyError` of the first column that no row has |
| DatasetManager.Acquisition | rentals_investment_pipeline.py:99-135 | one acquisition keeps the store invariant |
| DatasetManager.Acquire | rentals_investment_pipeline.py:99-135 | the method's outcome and new store are those of `Acquisition` on the old store, with the steps in the source's order: run check, parse, empty check, expansion loop, stamp, KPIs, write |
| DatasetManager.StaleSkip | rentals_investment_pipeline.py:100-105 | when the stored dataset is from today the outcome is `AlreadyCollected` and the store is unchanged, whatever the upstream answer |
| DatasetManager.WriteFrame | rentals_investment_pipeline.py:107-135 | a write happens exactly when the stored data is not from today, there are listings and preparation succeeds; it touches only its own path, stores one row per listing stamped today, and every other outcome leaves the store unchanged |
| DatasetManager.OtherKeysUntouched | rentals_investment_pipeline.py:133 | an acquisition for one (kind, zip) never adds, removes or changes the artifact of another (kind, zip) |
| DatasetManager.AcquireIdempotent | rentals_investment_pipeline.py:100-105 | right after an acquisition that wrote or found today's data, a second one for the same key and day is `AlreadyCollected` and changes nothing |
| DatasetManager.NoWriteOnBadInput | rentals_investment_pipeline.py:107-115 | a malformed answer gives `Retry` and an empty listing collection gives `NoListings` (unless today's data is already stored); neither changes the store |
| DatasetManager.StoredRows | rentals_investment_pipeline.py:116-133 | a written dataset holds, row for row, each listing's flat record stamped with today and extended with its KPIs |
| DatasetManager.AbsentNestedColumnAborts | rentals_investment_pipeline.py:122-126 | a nested column absent from every listing makes the acquisition end without a write |
| Aggregator.RatioOf | rentals_investment_pipeline.py:273 | the ratio is defined exactly when both medians exist and the sale median is non-zero, and then ratio × sale median = rental median |
| Aggregator.ZipRatio | rentals_investment_pipeline.py:273 | defined exactly when both datasets hold a numeric `price_per_sqft` and the sale median is not zero; then ratio × sale median = rental median |
| Aggregator.PricedMedian | rentals_investment_pipeline.py:273 | a `price_per_sqft` median exists exactly when some listing has a numeric `price_per_sqft` |
| Aggregator.Analyze | rentals_investment_pipeline.py:252-291 | a zip of the list gets a ratio exactly when both its datasets are stored; that ratio is the ratio of the two `price_per_sqft` medians of its own datasets; the ranking is a descending ranking of exactly those (zip, ratio) pairs |

## Left out

- HTTP requests to the listing service (`_get_rental_data`, `_get_sales_data`): the parsed answer is the `payload` parameter. Query constants such as the radius, the sort key and the limit of 200 belong to that request and are not modelled.
- JSON parsing: the parsed answer is either `Malformed`, meaning invalid JSON or no `properties` key, or the listing records. A reply that is valid JSON but not an object makes the source raise an uncaught `TypeError`, and a scalar `properties` makes `pd.DataFrame` raise `ValueError`; such replies are outside the `Payload` type.
- The retry after a malformed answer: the model ends the attempt with `Retry` and does not recurse.
- The clock: `today` is one parameter. The source reads the clock twice, once for the run check and once for the stamp, and the two readings could differ across midnight.
- CSV writing and reading back, including the index column `to_csv` adds and the re-inference of types: a stored dataset is kept as the records that were written.
- The orchestration (`run`, `pause`, `co.main`): the order of downloads and the pause are not modelled; `Analyze` takes the zip list as a parameter, and `Aggregator.ZipCodes` holds the default list.
- Printed text: status messages, the per-zip KPI markdown tables, and the ranking's markdown rendering and its series name.
- Normalizer.ExpandCell: models `apply(pd.Series)` cell by cell. An object gives its fields. A number or a string gives a single field `0` (`lot_size_0`, `building_size_0` after the prefix), as pandas does. JSON null gives no field, as pandas does. A cell missing from a listing (NaN) makes pandas add a column `0` that is missing in every row; the model adds nothing, so the only difference is that column's name in the frame, which no later step reads. A list cell would give columns `0` to `n-1`; the value type has no list variant, so lists are outside the model.
- Normalizer.Flatten: the lemmas assume sub-field names do not collide with other fields (`NoCollision`). pandas would keep duplicate columns, while the model's merge lets the sub-field win.
- KpiCalculator.Quotient: infinity, NaN and a `TypeError` from a non-numeric operand are all abstracted to `Undefined`. The source gives infinity for a positive price over a zero divisor, and raises on text operands.
- Stats.DefinedValues: skips every undefined cell. `Series.median` skips NaN but keeps infinity, so a stored infinite `price_per_sqft` would shift the source's median and not the model's.
- Ranking.RankDescending: promises no order among equal ratios, because `sort_values` is not stable by default. Every undefined ratio, whether from NaN or from infinity, ranks last.
- Floating point: ratios and medians are exact reals, with no rounding.
- Persistence of the pipeline's data store (a single map in the model) and concurrent access by parallel pipeline nodes are not modelled.
