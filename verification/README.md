# Taxi star schema: a Dafny model of `modelling_transform.py`

The script turns a table of yellow-taxi trips into a star schema. It has four
steps:

- `add_prefix` renames columns.
- `merge_zone_data` left-joins the taxi-zone lookup table onto the trips, once
  for the pickup location and once for the drop-off location. Each zone column
  is prefixed, and the zone's `LocationID` is dropped.
- `create_dimension_tables` removes duplicate trips and numbers them with
  `trip_id`. It then builds seven dimension tables: date and time, passenger
  count, trip distance, rate code, pickup location, drop-off location and
  payment type. Each one is keyed by row position. The rate-code and
  payment-type tables also get a display name, looked up from fixed
  dictionaries.
- `create_fact_table` inner-joins the trips with every dimension on
  `trip_id == <dimension>_id`. It then keeps the seventeen fact columns.

The model represents a pandas `DataFrame` as an immutable value:

- a list of distinct column names (`Frame.Table`, well-formed as `Frame.Frame`);
- a list of rows, where each row maps every column to a cell (`Option<Value>`);
- a missing value (`NaN`/`None`/`NaT`) is `None`.

Each pandas operation the script uses is a pure function:

- `drop_duplicates`;
- `df.index`;
- `df[[...]]`;
- `df[c] = ...`;
- `Series.map(dict)`;
- `rename`;
- `merge` with `how='left'` and `how='inner'`;
- `drop`.

A `KeyError` becomes `Result.Failure(KeyError(column))`.

The modules follow the script:

| module | models |
|---|---|
| `Seqs` | first-occurrence de-duplication (`drop_duplicates`) and sequence concatenation |
| `Frame` | tables, column selection, column assignment, renaming, dropping, position columns |
| `Join`, `JoinFacts` | `DataFrame.merge` and what it guarantees for unique and positional keys |
| `Enrich` | `add_prefix`, `merge_zone_data` |
| `Lookups` | the `rate_code_type` and `payment_type_name` dictionaries |
| `Dimensions`, `DimensionFacts` | `create_dimension_tables` |
| `Fact`, `FactFacts` | `create_fact_table` |
| `Pipeline` | the dimension stage followed by the fact stage |

The model follows the code in two places where one might expect more:

- `create_fact_table` does not check that each dimension has as many rows as the trip table. An inner join against a shorter dimension silently drops the trips past its end: `JoinFacts.InnerJoinOnPositions` shows the result has min(n, m) rows. Tables built by `create_dimension_tables` always have the same length, so `FactFacts.FactTableOfStar` keeps every trip.
- `merge_zone_data` does not check that zone identifiers are unique. `Join.Merge` models the general merge, in which a repeated `LocationID` duplicates a trip. The one-row-per-trip results assume unique identifiers.

## Model

| member | source | states |
|---|---|---|
| Enrich.AddPrefix | modelling_transform.py:3-5 | Each column not excluded becomes `prefix_name`, and each excluded column keeps its name and position. The column count and row count are unchanged, and every cell is found under its new name with its old value. |
| Enrich.AddPrefixRoundTrip | modelling_transform.py:3-5 | Stripping `prefix_` again gives back exactly the original table (columns, order and cells), provided no prefixed name is itself an excluded name. |
| Frame.RenameColumns | modelling_transform.py:5 | `DataFrame.rename(columns=f)` with distinct labels keeps the column count and row count. Column k is relabelled `f(column k)`, and each cell moves to the new label unchanged. |
| Frame.RenameColumnsRoundTrip | modelling_transform.py:5 | Renaming with `f` and then with a `g` that undoes `f` on these columns is the identity on the table. |
| Enrich.MergeZoneData | modelling_transform.py:7-10 | Succeeds exactly when the location column and the zone `LocationID` exist and the trips have no `LocationID` of their own other than the join key; otherwise it is a `KeyError`. On success `LocationID` is gone and the result has at least as many rows as the trips. |
| Enrich.MergeZoneDataKeepsTrips | modelling_transform.py:7-10 | Whatever the zone table holds, every trip row reappears in some result row, with its own cell in every trip column the result keeps. |
| Enrich.MergeZoneDataOneRowPerTrip | modelling_transform.py:7-10 | With unique zone identifiers alone, whatever the trip columns are called, the result has exactly one row per trip, in trip order. Each row holds its trip's own cell in every trip column the result keeps. |
| Enrich.MergeZoneDataEnriches | modelling_transform.py:7-10 | With unique zone identifiers and no name clash, the result is a left join. It has one row per trip, in trip order. Its columns are the trip columns followed by exactly the prefixed zone columns other than `LocationID`. Trip cells are unchanged. `prefix_c` is attribute `c` of the zone whose `LocationID` equals the trip's location, or missing when no zone matches. |
| Enrich.MergeZoneDataColumns | modelling_transform.py:9-10 | In that setting the merged table has exactly as many rows as the trips. Its columns are the trip columns followed by the prefixed zone columns in zone order, with `LocationID` removed. |
| Enrich.EnrichedZoneCell | modelling_transform.py:10 | One trip's `prefix_c` cell is the attribute of the zone with the trip's identifier. It is missing when there is no such zone. |
| Enrich.ZoneAttributeOf | modelling_transform.py:10 | With unique identifiers, looking up zone j's own identifier yields zone j's attribute. |
| Enrich.PrefixedZones | modelling_transform.py:9 | The prefixed zone table keeps `LocationID` and every identifier in place. Every other column is `prefix_c`, holding attribute `c` row for row. Without `LocationID`, its columns are the prefixed zone columns in order. |
| Join.Merge | modelling_transform.py:10 | Succeeds exactly when both key columns exist; otherwise it is a `KeyError`. The error names the right key when that key is missing, because pandas looks it up first, and the left key otherwise. On success the result is well-formed. Its columns are the kept left columns followed by the kept right columns. Its rows are, for each left row in order, that row's matches in right order. |
| JoinFacts.LeftJoinKeepsEveryRow | modelling_transform.py:10 | A left join has at least as many rows as its left table, whatever the right table holds. |
| JoinFacts.LeftJoinKeepsEveryLeftRow | modelling_transform.py:10 | For every left row, some row of a left join holds that row's cell in every column the join keeps from the left side. |
| JoinFacts.LeftJoinOneToOneKeepsLeft | modelling_transform.py:10 | Against unique right keys, row i of a left join holds left row i's cell in every column the join keeps from the left side. |
| JoinFacts.LeftJoinOneToOne | modelling_transform.py:10 | Against unique right keys, a left join has exactly one row per left row, in left order. That row combines the left row with the right row holding its key, or is padded with missing values when no right row does. |
| Enrich.JoinedUnmatchedCell | modelling_transform.py:10 | A trip without a matching zone gets a missing value in every column the zone side contributes. |
| JoinFacts.InnerJoinOnPositions | modelling_transform.py:70-76 | An inner join of two tables whose key columns hold row positions has min(n, m) rows. Row i combines row i of each side. |
| Seqs.DropDuplicates | modelling_transform.py:14 | The result has no repeated row. Every input row occurs in it, and nothing else does. |
| Seqs.DropDuplicatesKeepsFirstOrder | modelling_transform.py:14 | Rows appear in the order of their first occurrence in the input. |
| Seqs.DropDuplicatesOfDistinct | modelling_transform.py:14 | A table without repeated rows is left unchanged. |
| Seqs.DropDuplicatesIdempotent | modelling_transform.py:14 | De-duplicating twice is the same as de-duplicating once. |
| Seqs.DropDuplicatesScan | modelling_transform.py:14 | A single pass that keeps a row only if it has not been seen before computes the same result. |
| Frame.DropDuplicateRows | modelling_transform.py:14 | `drop_duplicates().reset_index(drop=True)` keeps the columns, and its rows are the first-occurrence de-duplication of the input rows. |
| Frame.DropColumn | modelling_transform.py:10 | `drop(name, axis=1)` succeeds exactly when the column exists; otherwise it is a `KeyError` naming it. It removes just that column, keeps the other columns in order and the row count, and leaves every other cell alone. |
| Frame.WithColumn | modelling_transform.py:15 | `df[name] = values` keeps the row count. It appends a new name last and leaves an existing one in place. Row i's `name` cell is `values[i]`, and every other cell is unchanged. |
| Frame.Derive | modelling_transform.py:18-27 | `df[name] = df[src].map(f)` keeps the row count and the column order, appending a new name last. Row i's `name` cell is `f` of its `src` cell, and every other cell is unchanged. |
| Frame.IndexColumn | modelling_transform.py:15 | `df[name] = df.index` makes column `name` equal to each row's position. A new name is appended last, and every other cell stays as it was. |
| Dimensions.Trips | modelling_transform.py:14-15 | The trip table has one row per distinct input row, in first-occurrence order. `trip_id` is dense 0..N-1, and the other cells come from the de-duplicated rows. |
| Frame.Select | modelling_transform.py:77-79 | `df[cols]` succeeds exactly when every listed column exists; otherwise it is a `KeyError` naming a listed column that is absent. It yields the listed columns in the listed order, one row per input row, with the input's cells. |
| Dimensions.DatetimeDimension | modelling_transform.py:17-28 | `dim_datetime` fails only when a timestamp column is missing. Its columns are the two timestamps, `pick_hour` through `drop_year` and `datetime_id`, in the source's order. It has one row per trip, `datetime_id` equals the row position, and the timestamps are copied. Every `pick_`/`drop_` cell is that calendar field of the trip's timestamp, and missing when the timestamp is missing. |
| Dimensions.AddParts | modelling_transform.py:18-27 | Adding the calendar columns one by one appends them in order, leaves every earlier cell alone, and fills each with its field of the source timestamp. |
| Dimensions.Projection | modelling_transform.py:30-34 | `df[[c]].copy()` plus `<dim>_id = index` succeeds exactly when the column exists. Its columns are `[c, <dim>_id]`, with one row per trip. The key equals the row position and the cells are copied. |
| Dimensions.LabelledDimension | modelling_transform.py:44-46 | The rate-code and payment-type dimensions have columns `[code, <dim>_id, name]` and one row per trip. The key equals the row position. The code is copied, and the name is the code looked up in the dictionary. |
| Lookups.Label | modelling_transform.py:46 | `Series.map(dict)` gives a name exactly when the cell is an integer code the dictionary holds; otherwise it gives a missing value. |
| Lookups.KnownCodes | modelling_transform.py:36-43 | Both dictionaries hold exactly the codes 1 to 6 (2 is "JFK", 1 is "Credit card"). Any other integer, a missing cell and a text cell map to missing. |
| Lookups.LookupTablesInjective | modelling_transform.py:36-61 | No two codes of either dictionary share a name. |
| Lookups.LabelRoundTrip | modelling_transform.py:64 | A looked-up name determines its code: the inverse lookup recovers it, and two cells with the same name are equal. |
| Dimensions.CreateDimensionTables | modelling_transform.py:12-66 | Succeeds exactly when all eight source columns exist. Otherwise it is a `KeyError` naming the first one missing in the source's reading order. On success the trip table is the de-duplicated, numbered input. |
| DimensionFacts.DimensionTablesShape | modelling_transform.py:12-66 | Each of the seven dimensions has the source's columns, one row per distinct trip, and a `<dim>_id` equal to the row position. The trip table's cells come from the de-duplicated input. |
| DimensionFacts.DimensionTablesCells | modelling_transform.py:17-64 | Every dimension row carries its trip's own cells. The codes are copied, the names are looked up from the codes, and the calendar fields of both timestamps are filled in. |
| Dimensions.BuildStar | modelling_transform.py:66 | The star returns the trip table it was built from, unchanged, next to the seven dimensions. |
| DimensionFacts.BuildStarShaped | modelling_transform.py:17-66 | For a trip table numbered by `trip_id`, every dimension has the source's columns, one row per trip and a key equal to the row position. |
| DimensionFacts.BuildStarCells | modelling_transform.py:17-64 | Every dimension row copies its trip's source cells. The names are the codes looked up in the dictionaries, and both timestamps get their calendar fields. |
| Fact.Steps | modelling_transform.py:70-76 | The seven merges join on each surrogate key exactly once. |
| Fact.MergeSteps | modelling_transform.py:70-76 | The chain of inner merges on `trip_id` can only fail with a `KeyError` naming `trip_id` or one of the dimension keys. |
| Fact.CreateFactTable | modelling_transform.py:68-79 | On success the columns are exactly the seventeen fact columns in the source's order. Any `KeyError` names one of those columns. |
| FactFacts.MergeStepsCarries | modelling_transform.py:70-76 | Merging aligned, position-keyed dimensions keeps one row per trip in trip order. The kept trip cells are unchanged, `trip_id` and every merged key equal the row position, and only trip and dimension columns appear. |
| FactFacts.FactTableOfStar | modelling_transform.py:68-79 | For a star whose tables all have one row per trip and a position key, the fact table succeeds. It has the seventeen columns and one row per trip. `trip_id` and all seven surrogate keys equal the row position, and the nine carried trip columns (`VendorID`, `store_and_fwd_flag` and the seven amounts) hold the trip's own values. |
| Pipeline.StarSchema | modelling_transform.py:12-79 | From a trip table with the source and carried columns, the dimension stage and then the fact stage give one fact row per distinct trip, in first-occurrence order. Its keys equal the row position, and its carried columns equal the distinct trip's cells. |

## Left out

- The `__main__` block (lines 81-109) is not modelled. It reads the undefined globals `df1`/`df2`, converts the tables with `to_dict` and prints. The chain it runs is covered by `Pipeline.StarSchema`, from the dimension stage on.
- Calendar arithmetic is not modelled. `Series.dt.hour`, `.day`, `.weekday`, `.month` and `.year` are a parameter `cal: Calendar` that the model takes as given. The `AttributeError` that `.dt` raises on a column that is not datetime-like is also left out.
- Floating point and dtype coercion are not modelled. Cells are integers, text or opaque values. A float code such as `1.0` (which Python's dictionary lookup treats like `1`) is represented as the integer. The upcast of integer columns to float after a left join introduces missing values is not modelled.
- pandas renames a non-key column name present on both sides of a merge to `_x`/`_y`. The model drops such columns from the joined table instead. Either way they are not reachable under their plain name. In the enrichment setting (`Enrich.EnrichSetting`: no trip column named `LocationID` or `prefix_c`), no name is shared, so no zone column is affected. In the fact merges the shared names are the dimensions' copied source columns, such as `passenger_count`. None of them is a fact column, because every dimension column is apart from the carried columns and `trip_id` (`FactFacts.DimensionsApartFromCarried`). A trip table that already had, say, a `PU_Zone` column would lose it in the model.
- Duplicate column labels cannot be represented. `Enrich.AddPrefix` requires that no prefixed name coincide with a kept excluded name. `Frame.Select` requires distinct requested names, which every call in the script has.
- Frame.Select: on a `KeyError` the model names the first absent column in the requested order, while pandas lists every absent column in one message.
- Enrich.MergeZoneData: its own contract only bounds the row count from below, because a zone table with a repeated `LocationID` fans a trip out into several rows. `Enrich.MergeZoneDataKeepsTrips` proves that every trip row survives. `Enrich.MergeZoneDataOneRowPerTrip` proves exactly one row per trip, in order, under unique zone identifiers. `Enrich.MergeZoneDataEnriches` adds the zone cells when no trip column clashes with a prefixed name.
- Dimensions.BuildStar: its own contract only names the trip table. The dimensions' shape and cells are proved by `DimensionFacts.BuildStarShaped` and `DimensionFacts.BuildStarCells`.
- Fact.CreateFactTable: its own contract states only the columns and the error cases. The row count, keys and carried columns are proved by `FactFacts.FactTableOfStar` for tables of the shape `create_dimension_tables` produces.
- Index labels other than the row position are not modelled. Every table the script builds has a default `RangeIndex` after `reset_index(drop=True)` or `merge`.
