# COVID dashboard ETL, modelled in Dafny

This project models the record-level ETL core of the COVID-19 dashboard
(a Django application with pandas transformers and BeautifulSoup scrapers).
Its scope is the logic that runs after HTML pages or database rows have
been fetched and before anything is written to Postgres:

- **Weekly transformers.** These turn daily national and regional
  statistics and cumulative vaccination readings into Monday-ending weekly
  rows. The stored running totals (infected, recovered, deaths) are
  extended with seeded running sums, nationally and per region.
- **Upsert mapper.** It keeps an index of stored objects by natural key.
  It splits incoming records into inserts, in-place updates and no-ops.
  The model also covers the key and update-field configuration of the
  global, regional and population mappers.
- **Scraper text logic.** This covers three sources:
  - the stopcorona bulletins (current parser, older parser and the
    prototype `Parser`): date ranges with year inference, header skipping,
    5-cell chunking and digit conversion;
  - the gogov vaccination page (both parser generations);
  - the Rosstat population archive: URL and year pairing, the archive
    entry rule, the column rule.
- **Deduplication and validation.** These are the stopcorona `upload_to_db`
  commands, `import_regions` and the API's dataset-parameter validation.

Modelling conventions:

- Dates are day numbers.
- Null cells are absent map keys or `None`.
- Frames are sequences of records in row order.
- Python exceptions are a `Parsed` result, either `Raises(error)` or
  `Returns(value)`.
- The parts of Python the code relies on (`str` methods, `int()` on text,
  `datetime.strptime` and `strftime`, pandas `groupby`/`merge`/`resample`)
  are written out in their own modules: `Common`, `PyStr`, `Calendar` and
  `Resample`.
- Calls into code that is not modelled are function parameters:
  - HTTP fetches, BeautifulSoup lookups and database reads;
  - the transformation chain the transformers import;
  - `rename_regions`.

Where a stateful class updates fields in place, it is a Dafny `class`.
Its methods are proved against the specification functions beside them:
`BaseMapper`, the `GlobalDataTransformer` and `RegionsDataTransformer`
steps, the prototype `Parser`, `PopulationTransformer` and the commands.

## Model

| member | source | states |
|---|---|---|
| GlobalTransformers.SummarizeByDate | app/apps/etl/utils/data_transformers/global_transformers.py:37-40 | the result is strictly ascending by date, has exactly the input's dates, and each of its counter cells is the sum of that counter over the input rows of that date |
| GlobalTransformers.SummarizeByDateSpec | app/apps/etl/utils/data_transformers/global_transformers.py:37-40 | each summarised row's counter is the sum over the input rows of its date, that date occurs in the input, and no other summarised row has it |
| GlobalTransformers.CsvDay | app/apps/etl/utils/data_transformers/global_transformers.py:47 | a CSV row becomes a daily row of the same date with `cases` as infections and `deaths` as deaths, a null value giving an absent cell |
| GlobalTransformers.CutOff | app/apps/etl/utils/data_transformers/global_transformers.py:44-45 | the cut-over date is the latest CSV date: no CSV row is later and some CSV row has it |
| GlobalTransformers.JoinRow | app/apps/etl/utils/data_transformers/global_transformers.py:57 | a left row with no vaccination row of its date is kept once, and otherwise appears once per matching vaccination row with that row's vaccination cells added |
| GlobalTransformers.JoinRowSpec | app/apps/etl/utils/data_transformers/global_transformers.py:57 | every joined row carries its left row's date and cells, and its vaccination cells come from a vaccination row of that date, or are null when there is none |
| GlobalTransformers.LeftJoinKeepsLeft | app/apps/etl/utils/data_transformers/global_transformers.py:57 | the left join keeps every left row |
| GlobalTransformers.LeftJoinFromLeft | app/apps/etl/utils/data_transformers/global_transformers.py:57 | every row of the left join carries some left row, and its vaccination cells come from a vaccination row of its date or are null |
| GlobalTransformers.MergeAll | app/apps/etl/utils/data_transformers/global_transformers.py:43-60 | the merge raises KeyError exactly when the CSV or the vaccination frame has no rows (no `date` column), and otherwise returns rows sorted by date |
| GlobalTransformers.MergeAllMembers | app/apps/etl/utils/data_transformers/global_transformers.py:52-58 | the merged rows are exactly the rows of the left join of the spliced series with the vaccinations (sorting only reorders) |
| GlobalTransformers.MergeAllKeepsCsv | app/apps/etl/utils/data_transformers/global_transformers.py:44-57 | every CSV row appears in the merge |
| GlobalTransformers.MergeAllKeepsLaterExternal | app/apps/etl/utils/data_transformers/global_transformers.py:49-57 | every external row dated strictly after the latest CSV date appears in the merge |
| GlobalTransformers.SplicedOrigin | app/apps/etl/utils/data_transformers/global_transformers.py:49-52 | a spliced row is a CSV row or an external row dated strictly after the latest CSV date |
| GlobalTransformers.MergeAllOrigin | app/apps/etl/utils/data_transformers/global_transformers.py:43-60 | every merged row carries a CSV row or a later external row, and its vaccination cells come from a vaccination row of its date or are null |
| GlobalTransformers.WeeklyFormat | app/apps/etl/utils/data_transformers/global_transformers.py:73-92 | there is one weekly row per Monday bucket of the merged series |
| GlobalTransformers.WeeklyFormatSpec | app/apps/etl/utils/data_transformers/global_transformers.py:73-92 | each weekly row ends on a Monday and starts six days earlier, consecutive rows are seven days apart, and each renamed weekly column holds the sum of its daily column over the seven days |
| GlobalTransformers.WeeklyFormatConserves | app/apps/etl/utils/data_transformers/global_transformers.py:76-87 | summed over all weeks, each weekly column equals the total of its daily column, with nulls counting as 0 |
| GlobalTransformers.WithSecondComponent | app/apps/etl/utils/data_transformers/global_transformers.py:65-67 | every row gets `weekly_second_component` = weekly vaccinations minus weekly first component, and no other column changes |
| GlobalTransformers.LegacyRun | app/apps/etl/utils/data_transformers/global_transformers.py:17-22 | the legacy run raises KeyError exactly when one of its three sources has no rows |
| GlobalTransformers.Deltas | app/apps/etl/utils/data_transformers/global_transformers.py:126-144 | there is one delta per reading: the change from the previous reading, and for row 0 the change from the stored baseline in latest mode and null otherwise; vaccinations are first plus second |
| GlobalTransformers.DeltasTelescope | app/apps/etl/utils/data_transformers/global_transformers.py:126-144 | the first n deltas of each component add up to reading n-1 minus the baseline (latest mode) or minus reading 0 |
| GlobalTransformers.LastIn | app/apps/etl/utils/data_transformers/global_transformers.py:153 | the week's latest reading is absent exactly when no reading falls in the week, and otherwise is the last reading in the week |
| GlobalTransformers.GogovWeeksMembers | app/apps/etl/utils/data_transformers/global_transformers.py:146-168 | every vaccination week comes from a bulletin week that has readings, and every bulletin week that has readings yields its week |
| GlobalTransformers.WeekVaccinationsSplit | app/apps/etl/utils/data_transformers/global_transformers.py:143-152 | each week's vaccinations equal its first-component sum plus its second-component sum |
| GlobalTransformers.WeekOfSpec | app/apps/etl/utils/data_transformers/global_transformers.py:147-165 | a bulletin week yields no row exactly when no reading has start <= date <= end; otherwise its row carries the bulletin's dates, the split sums, and the components of the week's last reading |
| GlobalTransformers.JoinBulletin | app/apps/etl/utils/data_transformers/global_transformers.py:177-178 | a bulletin joins to at least one row, with the vaccination week of the same start and end, or none when there is no such week |
| GlobalTransformers.JoinWeeks | app/apps/etl/utils/data_transformers/global_transformers.py:177-178 | the left join keeps every bulletin, and every joined vaccination week has the bulletin's start and end |
| GlobalTransformers.MergeWeeks | app/apps/etl/utils/data_transformers/global_transformers.py:176-181 | the merged rows are sorted by start date and are a permutation of the left join |
| GlobalTransformers.Seeded | app/apps/etl/utils/data_transformers/global_transformers.py:189-201 | there is one row per input row and nothing else changes |
| GlobalTransformers.SeededChain | app/apps/etl/utils/data_transformers/global_transformers.py:189-201 | row 0's totals are the baseline plus its weekly values, each later row's totals are the previous row's plus its weekly values, and bulletin and vaccination fields are unchanged |
| GlobalTransformers.SeededMonotone | app/apps/etl/utils/data_transformers/global_transformers.py:189-201 | with non-negative weekly values, the totals never fall below the baseline and never decrease from one row to the next |
| GlobalTransformers.GlobalDataTransformer.constructor | app/apps/etl/utils/data_transformers/global_transformers.py:96-98 | the transformer keeps the latest flag and the stored baseline |
| GlobalTransformers.GlobalDataTransformer.DailyDeltas | app/apps/etl/utils/data_transformers/global_transformers.py:126-144 | the loop computes exactly the delta sequence |
| GlobalTransformers.GlobalDataTransformer.WeekRow | app/apps/etl/utils/data_transformers/global_transformers.py:147-165 | one bulletin week's row, as the week specification gives it |
| GlobalTransformers.GlobalDataTransformer.TransformGogovData | app/apps/etl/utils/data_transformers/global_transformers.py:125-168 | the per-bulletin aggregation, with KeyError for latest mode without readings or for no bulletins, and AttributeError for no readings |
| GlobalTransformers.GlobalDataTransformer.AddCumulativeStats | app/apps/etl/utils/data_transformers/global_transformers.py:189-201 | the frame's rows become the seeded rows; on an empty frame, reading row 0 raises KeyError |
| GlobalTransformers.GlobalDataTransformer.Run | app/apps/etl/utils/data_transformers/global_transformers.py:100-123 | the run returns the specified value (weeks, left join, seeded totals, rate statistics) or raises |
| GlobalTransformers.RunEmpty | app/apps/etl/utils/data_transformers/global_transformers.py:108-109 | with bulletins and readings present, the run returns, and it returns [] when no reading falls in any bulletin week |
| GlobalTransformers.RunErrors | app/apps/etl/utils/data_transformers/global_transformers.py:100-123 | the run raises exactly when the bulletins or the readings are empty, naming IndexError, KeyError or AttributeError as the source would |
| Resample.WeeklySums | app/apps/etl/utils/data_transformers/global_transformers.py:76 | buckets end on consecutive Mondays, from the week of the earliest row to the week of the latest, each with every column |
| Resample.WeeklySumsAt | app/apps/etl/utils/data_transformers/global_transformers.py:76 | bucket k ends 7k days after the first Monday, and its value is the sum of the column over the seven days ending on it |
| Resample.EveryRowInOneBucket | app/apps/etl/utils/data_transformers/global_transformers.py:76 | every daily row falls in exactly one bucket |
| Resample.WeeklySumsConserve | app/apps/etl/utils/data_transformers/global_transformers.py:76 | the buckets of a column add up to the column's total |
| Calendar.WeekEnd | app/apps/etl/utils/data_transformers/global_transformers.py:76 | a day's bucket label is the first Monday on or after it |
| Calendar.WeekEndUnique | app/apps/etl/utils/data_transformers/global_transformers.py:76 | the Monday whose seven-day window holds the day is that label |
| TransformingFunctions.SetCell | app/apps/etl/utils/data_transformers/transforming_functions.py:8-14 | writing one cell sets that column and leaves every other column, the region and the dates unchanged |
| TransformingFunctions.WithCumsum | app/apps/etl/utils/data_transformers/transforming_functions.py:8-10 | one column assignment keeps the row count and sets the total column of each row to its group's running sum |
| TransformingFunctions.CumulativePairs | app/apps/etl/utils/data_transformers/transforming_functions.py:7-14 | the component totals are assigned only without the region flag, and then both of them are |
| TransformingFunctions.Assignments | app/apps/etl/utils/data_transformers/transforming_functions.py:8-14 | the assignments keep the row count, and the only exception they can raise is KeyError for a missing weekly column |
| TransformingFunctions.AssignCumsum | app/apps/etl/utils/data_transformers/transforming_functions.py:8 | a missing weekly column raises KeyError and changes nothing; otherwise the frame gains the total column, set to the grouped running sums |
| TransformingFunctions.AddCumulativeStats | app/apps/etl/utils/data_transformers/transforming_functions.py:6-14 | the frame's new columns and rows, and the exception raised, are those of the assignments in source order |
| TransformingFunctions.AddPer100000Stats | app/apps/etl/utils/data_transformers/transforming_functions.py:16-29 | the computed columns are discarded and None is returned; KeyError is raised exactly when a non-empty frame lacks a column the row function reads |
| TransformingFunctions.AddRatioStats | app/apps/etl/utils/data_transformers/transforming_functions.py:31-46 | the row function runs row by row; nothing is kept and None is returned; what it raises is the ratio outcome |
| TransformingFunctions.RatioRaised | app/apps/etl/utils/data_transformers/transforming_functions.py:33-40 | an empty frame raises nothing; otherwise nothing is raised exactly when every column the ratios read is present and no `weekly_infected` is zero; KeyError means a column is missing, ZeroDivisionError a zero divisor |
| TransformingFunctions.RatioReadsIntended | app/apps/etl/utils/data_transformers/transforming_functions.py:33-42 | the region-aware reads are part of the reads as written, and without the region flag they are all of them |
| TransformingFunctions.ApplyAllTransforms | app/apps/etl/utils/data_transformers/transforming_functions.py:48-52 | the exception and the frame are those of the transforms' outcome: the cumulative assignments, then the first exception of the two statistics, which change nothing |
| TransformingFunctions.WeeklyReads | app/apps/etl/utils/data_transformers/transforming_functions.py:7-14 | every weekly column an assignment reads is among them |
| TransformingFunctions.TotalWrites | app/apps/etl/utils/data_transformers/transforming_functions.py:7-14 | every total column an assignment writes is among them |
| TransformingFunctions.AssignmentsOutcome | app/apps/etl/utils/data_transformers/transforming_functions.py:8-14 | assignments from weekly columns to totals raise exactly when a weekly column is missing, and on success add exactly the totals they write |
| TransformingFunctions.CumulativePairsShape | app/apps/etl/utils/data_transformers/transforming_functions.py:7-14 | the assignments read the weekly columns of the region flag and write its totals, and no weekly column is a total |
| TransformingFunctions.StatsColumns | app/apps/etl/utils/data_transformers/transforming_functions.py:16-46 | once the totals are written the per-100000 reads are present, and the ratio reads are exactly when the vaccination column is, and with the region flag `second_component` too |
| TransformingFunctions.TransformsSucceed | app/apps/etl/utils/data_transformers/transforming_functions.py:48-52 | `apply_all_transforms` succeeds exactly when the weekly columns are present and, on a non-empty frame, the vaccination column (and with the region flag `second_component`) too, with no zero `weekly_infected` |
| TransformingFunctions.TransformsOutcome | app/apps/etl/utils/data_transformers/transforming_functions.py:48-52 | the transform chain raises nothing but KeyError (a missing column) or ZeroDivisionError (a zero divisor) |
| TransformingFunctions.CumsumStep | app/apps/etl/utils/data_transformers/transforming_functions.py:5-14 | a row's running sum is the previous group member's running sum plus its own weekly value |
| TransformingFunctions.CumsumMonotone | app/apps/etl/utils/data_transformers/transforming_functions.py:5-14 | with non-negative weekly values, running sums never decrease within a group |
| TransformingFunctions.CumsumOfDistinctGroups | app/apps/etl/utils/data_transformers/transforming_functions.py:7 | when no two rows share a group key, as with the per-week key `(start_date)`, each running sum is just the row's weekly value |
| TransformingFunctions.AssignmentsKeepOtherCells | app/apps/etl/utils/data_transformers/transforming_functions.py:8-14 | the assignments change no column outside the assigned totals, and no region or start date |
| TransformingFunctions.AssignmentsNoError | app/apps/etl/utils/data_transformers/transforming_functions.py:8-14 | when every weekly column is present, nothing is raised |
| TransformingFunctions.AssignmentsOfDistinctGroups | app/apps/etl/utils/data_transformers/transforming_functions.py:5-14 | with distinct group keys, each assigned total equals its weekly column |
| PopulationTransformer.Kept | app/apps/etl/utils/data_transformers/population_transformer.py:14-20 | each output record comes from an input record with only its name cleaned, and every input record whose cleaned name is known is kept (its region then being known) |
| PopulationTransformer.KeptAppend | app/apps/etl/utils/data_transformers/population_transformer.py:19-20 | the filter works record by record: filtering a concatenation concatenates the filtered parts, so input order is kept |
| PopulationTransformer.CleanNameOfClean | app/apps/etl/utils/data_transformers/population_transformer.py:16-18 | a name with no 'г.', no Latin-p spelling and no surrounding spaces is unchanged by the cleanup |
| PopulationTransformer.LatinSpellingFixed | app/apps/etl/utils/data_transformers/population_transformer.py:17 | the Latin-p spelling of the federation becomes the Cyrillic one |
| PopulationTransformer.CityPrefixRemoved | app/apps/etl/utils/data_transformers/population_transformer.py:16-18 | the 'г.' prefix is removed from an otherwise clean name |
| PopulationTransformer.PopulationTransformer.constructor | app/apps/etl/utils/data_transformers/population_transformer.py:9-11 | the known names are the stored region names plus the federation constant |
| PopulationTransformer.PopulationTransformer.Run | app/apps/etl/utils/data_transformers/population_transformer.py:13-20 | an empty input has no `region` column and raises KeyError; otherwise the result is the kept records |
| RegionalTransformers.InsertRegion | app/apps/etl/utils/data_transformers/regional_transformers.py:28 | inserting a region name into the sorted group keys keeps them strictly sorted and adds exactly that name |
| RegionalTransformers.Regions | app/apps/etl/utils/data_transformers/regional_transformers.py:28 | the group keys are strictly sorted and are exactly the regions of the input rows |
| RegionalTransformers.RegionWindow | app/apps/etl/utils/data_transformers/regional_transformers.py:28 | a region's seven-day window sum over its own daily rows equals the sum over the input rows of that region only |
| RegionalTransformers.RegionWeeks | app/apps/etl/utils/data_transformers/regional_transformers.py:28-38 | a region has one weekly row per Monday bucket of its own daily rows |
| RegionalTransformers.RegionWeeksSpec | app/apps/etl/utils/data_transformers/regional_transformers.py:28-38 | each weekly row of a region carries the region, ends on a Monday, starts six days earlier, holds exactly the three renamed weekly columns, and each of them is that region's sum over the week |
| RegionalTransformers.PerRegionSpec | app/apps/etl/utils/data_transformers/regional_transformers.py:28-38 | every row of the per-region blocks belongs to a listed region and is a weekly row of that region |
| RegionalTransformers.PerRegionDistinct | app/apps/etl/utils/data_transformers/regional_transformers.py:28 | no two per-region weekly rows share region and start date |
| RegionalTransformers.WeeklyByRegionSpec | app/apps/etl/utils/data_transformers/regional_transformers.py:26-38 | every regional weekly row belongs to a region of the input and sums only that region's daily rows |
| RegionalTransformers.TransformExternalData | app/apps/etl/utils/data_transformers/regional_transformers.py:26-40 | as written, the transformation always raises: KeyError on an empty source and AttributeError otherwise |
| RegionalTransformers.TransformExternalDataIntended | app/apps/etl/utils/data_transformers/regional_transformers.py:26-40 | as intended, it raises only on an empty source and otherwise returns one row per regional week |
| RegionalTransformers.TransformExternalDataAxisFixed | app/apps/etl/utils/data_transformers/regional_transformers.py:37-40 | with only the `apply` corrected, a success would return None, since the transforms return nothing |
| RegionalTransformers.AxisFixedStillRaises | app/apps/etl/utils/data_transformers/transforming_functions.py:31-46 | with only the `apply` corrected, every regional frame with a week still raises, KeyError or ZeroDivisionError, from the ratio statistics |
| RegionalTransformers.IntendedFrameHasRatioColumns | app/apps/etl/utils/data_transformers/transforming_functions.py:33-42 | the intended regional frame has every column the region-aware ratios read, but not every column the ratios as written read |
| RegionalTransformers.TransformExternalDataNeverReturns | app/apps/etl/utils/data_transformers/regional_transformers.py:37 | for any non-empty source the written code raises AttributeError where the intended code returns |
| RegionalTransformers.RegionalAssignments | app/apps/etl/utils/data_transformers/regional_transformers.py:40 | with the region flag, the assigned totals are renamed copies of the weekly values and region and start date are kept |
| RegionalTransformers.TransformExternalDataIntendedTotals | app/apps/etl/utils/data_transformers/regional_transformers.py:26-40 | since every (region, start_date) group has one row, each intended output total equals the row's weekly value |
| RegionalTransformers.WithRegionTotals | app/apps/etl/utils/data_transformers/regional_transformers.py:71-84 | only the rows of the region change; each of them gets the stored totals plus the region's weekly values up to and including it |
| RegionalTransformers.RegionTotals | app/apps/etl/utils/data_transformers/regional_transformers.py:71-84 | the chains keep the row count and every bulletin, and the only exception is KeyError for a stored region without rows |
| RegionalTransformers.RegionPositionsSpec | app/apps/etl/utils/data_transformers/regional_transformers.py:75 | the positions are increasing row indices whose region is the key, and every row of the region is among them |
| RegionalTransformers.RegionChainFirst | app/apps/etl/utils/data_transformers/regional_transformers.py:77-79 | a region's first row gets its stored totals plus its own weekly values |
| RegionalTransformers.RegionChain | app/apps/etl/utils/data_transformers/regional_transformers.py:81-84 | each later row of a region gets the previous row's totals plus its own weekly values |
| RegionalTransformers.FindRegionRows | app/apps/etl/utils/data_transformers/regional_transformers.py:75 | the loop returns the positions of the region's rows, empty exactly when the region has none |
| RegionalTransformers.RegionPositionsFound | app/apps/etl/utils/data_transformers/regional_transformers.py:75 | the region's row positions are empty exactly when no row belongs to the region |
| RegionalTransformers.ChainRegion | app/apps/etl/utils/data_transformers/regional_transformers.py:77-84 | the loop over the region's positions gives exactly the region-total frame |
| RegionalTransformers.AddRegionTotals | app/apps/etl/utils/data_transformers/regional_transformers.py:75-84 | a region without rows raises KeyError and changes nothing; otherwise the region's rows get their chain |
| RegionalTransformers.AddCumulativeStats | app/apps/etl/utils/data_transformers/regional_transformers.py:71-84 | the new rows and the exception are those of the chains in stored-map order |
| RegionalTransformers.RegionTotalsAsWritten | app/apps/etl/utils/data_transformers/regional_transformers.py:71-84 | as written, the frame is never changed, and KeyError is raised exactly when some totals are stored |
| RegionalTransformers.RegionTotalsAsWrittenRaises | app/apps/etl/utils/data_transformers/regional_transformers.py:77 | as written the first stored region raises KeyError where the intended chain seeds that region's totals |
| RegionalTransformers.RegionTotalsUntouched | app/apps/etl/utils/data_transformers/regional_transformers.py:72-75 | rows of regions with no stored totals are left untouched |
| RegionalTransformers.RegionRowsMembers | app/apps/etl/utils/data_transformers/regional_transformers.py:75 | the filtered frame holds exactly the rows whose region equals the key |
| RegionalTransformers.RegionPrefixIsFiltered | app/apps/etl/utils/data_transformers/regional_transformers.py:75-84 | a region's running weekly sum equals the sum over the filtered frame, so the chain reads only rows of that region |
| Mappers.Lookup | app/apps/etl/utils/mappers/base.py:49 | `item[key]` finds a value exactly when the item has that field, and the value is the item's |
| Mappers.ItemKey | app/apps/etl/utils/mappers/base.py:47-50 | a dict's key exists exactly when the dict has every key field, and a missing one raises KeyError |
| Mappers.ObjectKey | app/apps/etl/utils/mappers/base.py:47-50 | an object's key exists exactly when the object has every key field, and a missing one raises AttributeError |
| Mappers.ItemKeyOfObject | app/apps/etl/utils/mappers/base.py:47-50 | the key lists the key-field values in key-field order, and is the same for a dict and for the model object built from it |
| Mappers.Overwrite | app/apps/etl/utils/mappers/base.py:52-59 | overwriting keeps the object's field names, and the only exception is AttributeError for a field the object lacks |
| Mappers.OverwriteError | app/apps/etl/utils/mappers/base.py:55 | the overwrite raises exactly when some non-key field of the item is missing from the object |
| Mappers.OverwriteKeeps | app/apps/etl/utils/mappers/base.py:55 | key fields, and fields the item does not name, are never overwritten |
| Mappers.OverwriteAgrees | app/apps/etl/utils/mappers/base.py:54-57 | afterwards the object equals the item, under Python's `==`, on every non-key field |
| Mappers.IntEqualsFloat | app/apps/etl/utils/mappers/base.py:55 | an integer and the float of the same value are different values that Python's `==` calls equal |
| Mappers.OverwriteChanged | app/apps/etl/utils/mappers/base.py:52-59 | the changed flag is false exactly when every non-key field already equals the item's value under Python's `==` (so `100` against `100.0` is no change) |
| Mappers.OverwriteIdempotent | app/apps/etl/utils/mappers/base.py:52-59 | a second overwrite with the same item changes nothing and reports no change |
| Mappers.OverwriteUnchanged | app/apps/etl/utils/mappers/base.py:52-59 | an overwrite that reports no change leaves the object as it was |
| Mappers.ObjectKeyKept | app/apps/etl/utils/mappers/base.py:55 | an overwrite never changes the object's key |
| Mappers.Split | app/apps/etl/utils/mappers/base.py:30-45 | the split keeps the index's keys, only updates stored keys, and queues at most one entry per item |
| Mappers.SplitInsert | app/apps/etl/utils/mappers/base.py:34-43 | without an error, the insert list is exactly the items whose keys are not in the index, in input order |
| Mappers.SplitOne | app/apps/etl/utils/mappers/base.py:34-43 | each item goes to exactly one place: insert if its key is absent, update if some non-key field differs under Python's `==`, neither if all are equal |
| Mappers.SplitStops | app/apps/etl/utils/mappers/base.py:34-43 | an exception stops the loop: the items after it do nothing |
| Mappers.SplitEmptyStore | app/apps/etl/utils/mappers/base.py:34-43 | with nothing stored, every item is queued for insert, in order, and nothing is updated |
| Mappers.SplitKnownKeys | app/apps/etl/utils/mappers/base.py:34-43 | when every key is already stored, nothing is inserted (the rows are overwritten in place) |
| Mappers.SplitKeepsKeys | app/apps/etl/utils/mappers/base.py:55 | after the split every stored object still has its key |
| Mappers.UpdatedRows | app/apps/etl/utils/mappers/base.py:41 | the update list holds the stored objects of the updated keys, in order |
| Mappers.WritesSpec | app/apps/etl/utils/mappers/base.py:19-28 | there is a bulk create exactly when the insert list is non-empty, and a bulk update exactly when the update list is non-empty; the update writes only the update fields with the batch size |
| Mappers.IndexSpec | app/apps/etl/utils/mappers/base.py:16 | every stored object is indexed under its key, and every index entry is a stored object whose key is that entry's |
| Mappers.IndexInjective | app/apps/etl/utils/mappers/base.py:16 | no object sits under two keys of the index |
| Mappers.BuildIndex | app/apps/etl/utils/mappers/base.py:16 | the loop builds exactly the index of the stored objects |
| Mappers.BaseMapper.Snapshot | app/apps/etl/utils/mappers/base.py:16 | the snapshot has exactly the index's keys |
| Mappers.BaseMapper.constructor | app/apps/etl/utils/mappers/base.py:15-17 | the mapper holds its configuration and the index of the stored objects |
| Mappers.BaseMapper.UpdateExisting | app/apps/etl/utils/mappers/base.py:52-59 | the object's fields become the overwrite's fields, and the method returns the changed flag or raises the overwrite's error |
| Mappers.BaseMapper.Place | app/apps/etl/utils/mappers/base.py:35-43 | one loop iteration: the stored objects change as the split step says, the index itself never changes, and the item is queued as the step decides |
| Mappers.BaseMapper.SplitNext | app/apps/etl/utils/mappers/base.py:34-43 | one round of the loop extends the split of the items seen so far by the next item, keeping the changed objects tracked by their keys, or stops with the error the split of the whole input ends with; the index never changes |
| Mappers.BaseMapper.SplitData | app/apps/etl/utils/mappers/base.py:30-45 | the stored objects end as the split says, the index is never extended, the insert list is the split's, and the update list holds the objects of the split's update keys |
| Mappers.BaseMapper.Map | app/apps/etl/utils/mappers/base.py:19-28 | after the split, the writes are those the insert and update lists call for |
| MapperConfigs.ProjectionAvoidsKeys | app/apps/etl/utils/mappers/base.py:27 | with a well-formed configuration, an update never writes a key field |
| MapperConfigs.GlobalConfigured | app/apps/etl/utils/mappers/transformed_data_mappers.py:7-14 | the global key is (start_date, end_date), and no update field is a key field |
| MapperConfigs.RegionConfigured | app/apps/etl/utils/mappers/transformed_data_mappers.py:22-28 | the region key is (start_date, end_date, region), and no update field is a key field |
| MapperConfigs.PopulationConfigured | app/apps/etl/utils/mappers/population_mapper.py:7-9 | the population key is (year, region), only `population` is updated, and the batch size 100 is below the base 500 |
| MapperConfigs.RegionFieldsAreGlobalWithoutVaccinations | app/apps/etl/utils/mappers/transformed_data_mappers.py:8-14 | the region update fields are exactly the global ones without the vaccination and component fields |
| MapperConfigs.NewGlobalMapper | app/apps/etl/utils/mappers/transformed_data_mappers.py:5-14 | the global mapper has the global key, update fields and the base batch size |
| MapperConfigs.NewRegionMapper | app/apps/etl/utils/mappers/transformed_data_mappers.py:20-28 | the region mapper has the region key, update fields and the base batch size |
| MapperConfigs.NewPopulationMapper | app/apps/etl/utils/mappers/population_mapper.py:5-9 | the population mapper has the population key, the one update field and the batch size 100 |
| MapperConfigs.SerializeGlobalKey | app/apps/etl/utils/mappers/transformed_data_mappers.py:16-17 | both dates are formatted as dd-mm-yyyy, text that parses back to the stored date; a missing or non-date field raises AttributeError |
| MapperConfigs.SerializeRegionKey | app/apps/etl/utils/mappers/transformed_data_mappers.py:30-33 | the region is passed through unchanged and both dates are formatted as dd-mm-yyyy |
| MapperConfigs.SerializePopulationKey | app/apps/etl/utils/mappers/population_mapper.py:11-12 | year and region are returned unchanged, forming the same key |
| Calendar.FormatDMYRoundTrip | app/apps/etl/utils/mappers/transformed_data_mappers.py:17 | a date formatted as dd-mm-yyyy parses back, with the same format, to that date |
| StopcoronaParser.MonthOf | app/apps/etl/utils/parsers/stopcorona_parser.py:93 | reading a part's month raises IndexError exactly when the part has no second dot-separated piece, and otherwise is `int()` of that piece, stripped |
| StopcoronaParser.InferDates | app/apps/etl/utils/parsers/stopcorona_parser.py:90-101 | year inference raises only IndexError, and a date pair needs two parts |
| StopcoronaParser.YearRule | app/apps/etl/utils/parsers/stopcorona_parser.py:90-101 | an inferred pair has the current year at the end, and at the start the previous year when the start month is later than the end month, else the current year |
| StopcoronaParser.GetDates | app/apps/etl/utils/parsers/stopcorona_parser.py:74-103 | as written, there are no dates unless the heading has exactly one match and it splits into exactly two parts on '-' or '–'; the errors that escape are ValueError and IndexError |
| StopcoronaParser.AsWrittenDayMonthHeading | app/apps/etl/utils/parsers/stopcorona_parser.py:90-101 | as written, a `dd.mm - dd.mm` heading gets the year rule's dates: the end in the current year, the start in the year before exactly when its month is later |
| StopcoronaParser.AsWrittenFullDateHeading | app/apps/etl/utils/parsers/stopcorona_parser.py:86-88 | as written, a `dd.mm.yyyy–dd.mm.yyyy` heading gives exactly its two dates |
| StopcoronaParser.SpacedFullDatesRaise | app/apps/etl/utils/parsers/stopcorona_parser.py:86-88 | as written, a spaced full-date heading `dd.mm.yyyy – dd.mm.yyyy`, which the pattern accepts, raises ValueError |
| StopcoronaParser.GetDatesIntended | app/apps/etl/utils/parsers/stopcorona_parser.py:74-103 | with the parts trimmed, the same None cases hold, and only IndexError can escape |
| StopcoronaParser.SpacedFullDatesParse | app/apps/etl/utils/parsers/stopcorona_parser.py:86-88 | with trimmed parts, a spaced full-date heading gives its two dates |
| StopcoronaParser.DayMonthInferred | app/apps/etl/utils/parsers/stopcorona_parser.py:90-101 | two `dd.mm` parts give the dates the year rule names |
| StopcoronaParser.TrailingDotHeadingParses | app/apps/etl/utils/parsers/stopcorona_parser.py:16 | with trimmed parts, a `dd.mm. - dd.mm` heading gives the dates the year rule names |
| StopcoronaParser.TrailingDotHeadingRaises | app/apps/etl/utils/parsers/stopcorona_parser.py:86-88 | as written, a `dd.mm. - dd.mm` heading, which the pattern accepts, splits its start into three pieces on '.', takes the full-date branch and raises ValueError |
| Calendar.NoAlternativeMatches | app/apps/etl/utils/parsers/stopcorona_parser.py:87 | a format element with no alternative whose rest matches makes `strptime` fail |
| Calendar.DayMonthDotSpaceFails | app/apps/etl/utils/parsers/stopcorona_parser.py:87 | `strptime` with `%d.%m.%Y` refuses `dd.mm. `, which has no year |
| StopcoronaParser.CleanCell | app/apps/etl/utils/parsers/stopcorona_parser.py:112-117 | a cleaned cell is text or a non-negative integer, never a date |
| StopcoronaParser.NumberCell | app/apps/etl/utils/parsers/stopcorona_parser.py:115-117 | a cell holding a decimal number becomes that integer |
| StopcoronaParser.GroupedNumberCell | app/apps/etl/utils/parsers/stopcorona_parser.py:115-117 | a number written with a space between digit groups becomes the integer of its digits |
| StopcoronaParser.HeaderLength | app/apps/etl/utils/parsers/stopcorona_parser.py:107-110 | the header is 5 cells when the first cell contains 'Наименование субъекта', and 6 otherwise |
| StopcoronaParser.CleanedTable | app/apps/etl/utils/parsers/stopcorona_parser.py:106-119 | an empty table raises IndexError; otherwise the header is dropped and every remaining cell is cleaned, in order |
| StopcoronaParser.CleanTableData | app/apps/etl/utils/parsers/stopcorona_parser.py:106-119 | the loop that overwrites the slots gives the cleaned table |
| StopcoronaParser.Zip | app/apps/etl/utils/parsers/stopcorona_parser.py:124 | zip stops at the shorter list, pairing names with values in order |
| StopcoronaParser.RegionsData | app/apps/etl/utils/parsers/stopcorona_parser.py:121-128 | there are ceil(n/5) records, each zipping the seven field names with the two dates followed by the next (up to) five cells |
| StopcoronaParser.RecordOfChunk | app/apps/etl/utils/parsers/stopcorona_parser.py:123-126 | record k holds the two dates, then chunk k of the table |
| StopcoronaParser.RegionsDataRoundTrip | app/apps/etl/utils/parsers/stopcorona_parser.py:121-128 | every record starts with the two dates, and the records' other values, concatenated, give back the table |
| StopcoronaParser.HeadingDates | app/apps/etl/utils/parsers/stopcorona_parser.py:74-103 | the heading's dates as written raise only IndexError or ValueError, and as intended only IndexError |
| StopcoronaParser.ParsePage | app/apps/etl/utils/parsers/stopcorona_parser.py:54-71 | a page whose dates are missing gives None and a heading's exception escapes unchanged; as written that is IndexError or ValueError, as intended only IndexError |
| StopcoronaParser.TrailingDotPage | app/apps/etl/utils/parsers/stopcorona_parser.py:54-71 | a page headed `dd.mm. - dd.mm` raises ValueError as written, and as intended gives the records of its table under the year rule's dates |
| StopcoronaParser.PageRecords | app/apps/etl/utils/parsers/stopcorona_parser.py:54-71 | under either reading, a page's records carry its dates and, without them, give back the cleaned table |
| StopcoronaParser.UrlListStops | app/apps/etl/utils/parsers/stopcorona_parser.py:41-52 | an exception on one page ends the whole list |
| StopcoronaParser.UrlListPrefix | app/apps/etl/utils/parsers/stopcorona_parser.py:41-52 | the records of the first pages are a prefix of the records of all pages, so the pages are concatenated in URL order |
| StopcoronaParser.StopCoronaParser.constructor | app/apps/etl/utils/parsers/stopcorona_parser.py:19-39 | the URL list is the article links, in page order |
| StopcoronaParser.StopCoronaParser.ParseUrlList | app/apps/etl/utils/parsers/stopcorona_parser.py:41-52 | the loop extends the result page by page, skipping pages without dates, and gives what the list's records give, under the source's reading unless told otherwise |
| StopcoronaParser.StopCoronaParser.GetAll | app/apps/etl/utils/parsers/stopcorona_parser.py:130-131 | every article is parsed in list order, as written by default |
| StopcoronaParser.StopCoronaParser.GetLatest | app/apps/etl/utils/parsers/stopcorona_parser.py:133-134 | only the first article is parsed, as written by default; its records are a prefix of everything, and no articles give no records |
| LegacyStopcoronaParser.LegacyDates | etl/utils/parsers/stopcorona_parser.py:72-92 | a heading with no match raises IndexError (`matches[0]`); the only exception is IndexError; any dates come from a match that splits on '-' into at least two parts |
| LegacyStopcoronaParser.LegacyIgnoresEnDash | etl/utils/parsers/stopcorona_parser.py:77 | a match without an ASCII hyphen never yields dates, since only '-' separates the parts |
| LegacyStopcoronaParser.LegacyHeadingOf | etl/utils/parsers/stopcorona_parser.py:77-92 | a `dd.mm- dd.mm` heading yields the dates inferred from its two parts, always with the year rule |
| LegacyStopcoronaParser.LegacyHyphenHeading | etl/utils/parsers/stopcorona_parser.py:81-87 | the end gets the current year, and the start gets the previous year when its month is later than the end's month |
| LegacyStopcoronaParser.LegacyParsePage | etl/utils/parsers/stopcorona_parser.py:53-70 | a page with no heading match raises IndexError, and IndexError is the only exception |
| LegacyStopcoronaParser.LegacyPageRecords | etl/utils/parsers/stopcorona_parser.py:53-70 | records of a page carry its two dates and, without them, give back the cleaned table (5 or 6 header cells dropped, 5 cells per record) |
| LegacyStopcoronaParser.LegacyUrlListStops | etl/utils/parsers/stopcorona_parser.py:40-51 | an exception on one page ends the whole list |
| LegacyStopcoronaParser.Parser.constructor | etl/utils/parsers/stopcorona_parser.py:18-38 | the URL list is the article links, in page order |
| LegacyStopcoronaParser.Parser.ParseUrlList | etl/utils/parsers/stopcorona_parser.py:40-51 | the loop extends the result page by page, skipping pages without dates |
| LegacyStopcoronaParser.Parser.GetAll | etl/utils/parsers/stopcorona_parser.py:119-120 | every article is parsed, in list order |
| LegacyStopcoronaParser.Parser.GetLatest | etl/utils/parsers/stopcorona_parser.py:122-123 | only the first article is parsed |
| PrototypeParser.RemoveFirst | etl/utils/Parser/main.py:47 | `list.remove` drops exactly one element, the first equal one |
| PrototypeParser.SweepKeepsArticles | etl/utils/Parser/main.py:45-47 | the remove-while-iterating sweep never removes an article link |
| PrototypeParser.AdjacentNonArticleSurvives | etl/utils/Parser/main.py:45-47 | as written, a non-article link right after a removed one is skipped and survives the sweep |
| PrototypeParser.Parser.SetUrlList | etl/utils/Parser/main.py:34-47 | as written, the URL list becomes the sweep of the old list plus the new links, and nothing else changes |
| PrototypeParser.Parser.SetUrlListIntended | etl/utils/Parser/main.py:34-47 | as intended, the URL list becomes exactly the article links of the old list plus the new links, in order |
| PrototypeParser.StripTags | etl/utils/Parser/main.py:55 | removing tags never lengthens a cell |
| PrototypeParser.Scrub | etl/utils/Parser/main.py:55-58 | a cleared cell has no newline, tab or carriage return |
| PrototypeParser.ScrubCell | etl/utils/Parser/main.py:52-58 | a cell written as `<td ...>text</td>` clears to its text |
| PrototypeParser.Scrubbed | etl/utils/Parser/main.py:49-59 | clearing keeps the length and clears each cell |
| PrototypeParser.Clearing | etl/utils/Parser/main.py:49-59 | the array is rewritten in place, slot by slot, to the cleared cells, and is returned |
| PrototypeParser.RowFields | etl/utils/Parser/main.py:63-69 | with distinct header names, a region's entry maps header cells 1-4 to the four cells after the region |
| PrototypeParser.RegionTableKeys | etl/utils/Parser/main.py:68-69 | the dictionary's keys are exactly the cells at 5, 10, ... |
| PrototypeParser.RegionTableLastRow | etl/utils/Parser/main.py:68-69 | a region listed twice keeps the row of its last occurrence |
| PrototypeParser.DictStep | etl/utils/Parser/main.py:61-71 | set_dict succeeds exactly for at least five cells in whole rows of five, appending one dictionary; a trailing partial row raises IndexError and appends nothing |
| PrototypeParser.DataStep | etl/utils/Parser/main.py:73-80 | set_data appends the first match's first '-' piece to the start list and its second to the end list; no match, or no second piece, raises IndexError |
| PrototypeParser.WalkStops | etl/utils/Parser/main.py:19-32 | an exception on one article ends the walk |
| PrototypeParser.WalkLengths | etl/utils/Parser/main.py:19-32 | a walk without exceptions adds one start, one end and one dictionary per article |
| PrototypeParser.Zip3 | etl/utils/Parser/main.py:82-83 | the summary is as long as the shortest of the three lists, and pairs them element by element |
| PrototypeParser.WalkSummary | etl/utils/Parser/main.py:19-32 | a successful walk lengthens the summary by one triple per article |
| PrototypeParser.Parser.constructor | etl/utils/Parser/main.py:8-12 | the class-level lists start empty, as does the dictionary |
| PrototypeParser.Parser.SetDict | etl/utils/Parser/main.py:61-71 | the parser's state becomes the set_dict step's, and the URL list is unchanged |
| PrototypeParser.Parser.SetData | etl/utils/Parser/main.py:73-80 | the parser's state becomes the set_data step's, and the URL list is unchanged |
| PrototypeParser.Parser.ParserUrlList | etl/utils/Parser/main.py:19-32 | the loop over the URL list gives the walk's state and exception |
| PrototypeParser.Parser.Init | etl/utils/Parser/main.py:14-17 | construction sweeps the old list plus the new links as written, keeping every article in order, and walks the resulting list |
| PrototypeParser.Parser.InitIntended | etl/utils/Parser/main.py:14-17 | with the intended sweep, construction lists exactly the article links and walks them |
| PrototypeParser.Parser.GetSummaryAll | etl/utils/Parser/main.py:82-83 | the summary triples are element-wise, with the shortest list's length |
| PrototypeParser.Parser.GetSummaryPast | etl/utils/Parser/main.py:85-86 | the first triple, or IndexError when a list is empty |
| PrototypeParser.Parser.GetAttr | etl/utils/Parser/main.py:88-98 | only the last `__getattr__` is in effect: every missing attribute reads `data_end` |
| GogovParser.ConvertStrToDate | app/apps/etl/utils/parsers/gogov_parser.py:11-12 | a conversion that returns gives a real calendar date; one that fails raises ValueError |
| GogovParser.ConvertShortDate | app/apps/etl/utils/parsers/gogov_parser.py:20 | a date written `dd.mm.yy` converts back to the same date (years 2000-2068) |
| GogovParser.ConvertRejectsNonDate | app/apps/etl/utils/parsers/gogov_parser.py:11-12 | text not starting with a digit or a space is not a `%d.%m.%y` date |
| GogovParser.DigitsAt | app/apps/etl/utils/parsers/gogov_parser.py:50 | `\d{1,2}` greedily takes one or two digits |
| GogovParser.DateMatchAt | app/apps/etl/utils/parsers/gogov_parser.py:50 | a match of the date pattern is 5 to 8 characters long and starts and ends with a digit |
| GogovParser.SearchDate | app/apps/etl/utils/parsers/gogov_parser.py:50 | `re.search` finds the leftmost match, and none exists when it finds nothing |
| GogovParser.SearchFindsShortDate | app/apps/etl/utils/parsers/gogov_parser.py:50 | a `dd.mm.yy` date inside digit-free text is the match found |
| GogovParser.SearchSkips | app/apps/etl/utils/parsers/gogov_parser.py:50 | positions without a match do not change the search's result |
| GogovParser.CleanSpan | app/apps/etl/utils/parsers/gogov_parser.py:19 | the cleaner never lengthens the text |
| GogovParser.CleanSpanNoSpace | app/apps/etl/utils/parsers/gogov_parser.py:19 | the cleaned text holds no space |
| GogovParser.CleanSpanConcat | app/apps/etl/utils/parsers/gogov_parser.py:19 | text without a `ч` cleans independently of what follows it |
| GogovParser.CleanSpanGroups | app/apps/etl/utils/parsers/gogov_parser.py:19 | digit groups separated by spaces clean to their digits |
| GogovParser.ReadCount | app/apps/etl/utils/parsers/gogov_parser.py:55 | a counter that cannot be read raises ValueError |
| GogovParser.CleanGroupsWithUnit | app/apps/etl/utils/parsers/gogov_parser.py:19 | grouped digits followed by ` чел.` clean to their digits |
| GogovParser.SpanCount | app/apps/etl/utils/parsers/gogov_parser.py:55 | a counter written as grouped digits with its unit reads as the number the digits spell |
| GogovParser.ReadEntry | app/apps/etl/utils/parsers/gogov_parser.py:54-55 | one span read succeeds exactly when the span exists and reads, and stores its count under its field name |
| GogovParser.GlobalSpanCounts | app/apps/etl/utils/parsers/gogov_parser.py:54-55 | the four span counters are read from spans 1, 2, 3 and 6, and need at least seven spans |
| GogovParser.GlobalDate | app/apps/etl/utils/parsers/gogov_parser.py:51 | the date conversion fails only with ValueError |
| GogovParser.GlobalDataFields | app/apps/etl/utils/parsers/gogov_parser.py:47-57 | the global section parses exactly when it has a date match that converts, seven spans whose counters read, and a bold counter; the result holds the date and the five counters from their places |
| GogovParser.UndatedSectionFails | app/apps/etl/utils/parsers/gogov_parser.py:50 | a section without digits has no date match, and `.group()` on it raises AttributeError |
| GogovParser.SearchNone | app/apps/etl/utils/parsers/gogov_parser.py:50 | no match anywhere means the search finds nothing |
| GogovParser.ParseGlobalData | app/apps/etl/utils/parsers/gogov_parser.py:47-57 | the step-by-step parse of the global section gives the section's global data or its error |
| GogovParser.ReadGlobalSpans | app/apps/etl/utils/parsers/gogov_parser.py:54-55 | the loop over the configured span positions reads, in order, the counts the span specification gives, or stops with its first error |
| GogovParser.SpanCountsRaise | app/apps/etl/utils/parsers/gogov_parser.py:54-55 | the first span that fails decides the error |
| GogovParser.GetPageHtml | app/apps/etl/utils/parsers/gogov_parser.py:22-35 | the page's text is returned only for a reply with status 200 |
| GogovParser.GetData | app/apps/etl/utils/parsers/gogov_parser.py:59-63 | data is parsed only from a non-empty page of a 200 reply; a page without the data section raises AttributeError |
| LegacyGogovParser.RegionField | etl/utils/parsers/gogov_parser.py:28-37 | only columns 0, 1, 4, 6-10 have a field, each named from the field list |
| LegacyGogovParser.ColumnsAndFields | etl/utils/parsers/gogov_parser.py:28-37 | column numbers and field names correspond one to one |
| LegacyGogovParser.ConvertIntStrToInt | etl/utils/parsers/gogov_parser.py:11-12 | an empty or missing string is 0, and a failed conversion raises ValueError |
| LegacyGogovParser.ConvertIntStrRoundTrip | etl/utils/parsers/gogov_parser.py:11-12 | a number written in decimal reads back as itself |
| LegacyGogovParser.ConvertIntStrRejects | etl/utils/parsers/gogov_parser.py:11-12 | a non-empty string without digits raises ValueError |
| LegacyGogovParser.RegionNameAsWrittenMangles | etl/utils/parsers/gogov_parser.py:29 | as written, the pattern's unescaped dot turns the full word `область` into `областьсть` |
| LegacyGogovParser.RegionNameCleanKeeps | etl/utils/parsers/gogov_parser.py:29 | as intended, a name without the abbreviation is kept |
| LegacyGogovParser.RegionNameCleanKeepsFullWord | etl/utils/parsers/gogov_parser.py:29 | as intended, the full word `область` is kept |
| LegacyGogovParser.RegionNameCleanExpands | etl/utils/parsers/gogov_parser.py:29 | as intended, a trailing `обл.` is written out as `область` |
| LegacyGogovParser.CleanValue | etl/utils/parsers/gogov_parser.py:29-36 | a cleaned region is a name (cleaned by the pattern as written), a cleaned count a number, a cleaned date a real date |
| LegacyGogovParser.CleanValueRegionMangles | etl/utils/parsers/gogov_parser.py:29 | the region column, as written, turns the full word `область` into `областьсть` |
| LegacyGogovParser.CleanValueRoundTrip | etl/utils/parsers/gogov_parser.py:29-36 | counts written in decimal and dates written `yyyy-mm-dd` clean back to themselves; a missing count is 0 and a missing date raises TypeError |
| LegacyGogovParser.AddCell | etl/utils/parsers/gogov_parser.py:88-93 | a column without a field leaves the record alone; otherwise the record gains the cleaned cell, or the cleaning error ends the row |
| LegacyGogovParser.RowRecordFields | etl/utils/parsers/gogov_parser.py:86-93 | a parsed row holds only known fields, holds a column's field exactly when the row reaches that column, and stores the cleaned cell under it |
| LegacyGogovParser.FullRowKeys | etl/utils/parsers/gogov_parser.py:86-93 | a parsed row of more than ten cells holds every field |
| LegacyGogovParser.RegionsData | etl/utils/parsers/gogov_parser.py:83-97 | one record per row, in order, each the row's own record |
| LegacyGogovParser.RegionsDataReturns | etl/utils/parsers/gogov_parser.py:83-97 | the table parses exactly when every row does |
| LegacyGogovParser.GetRegionsData | etl/utils/parsers/gogov_parser.py:83-97 | the loop over rows builds the table's records, or stops at the first row's error |
| LegacyGogovParser.RowRecordRaises | etl/utils/parsers/gogov_parser.py:88-93 | a failing cell ends the row with its error |
| LegacyGogovParser.RegionsDataRaises | etl/utils/parsers/gogov_parser.py:85-95 | the first failing row decides the table's error |
| LegacyGogovParser.RegionsDataPrefixRaises | etl/utils/parsers/gogov_parser.py:85-95 | a failing prefix of the rows fails the whole table the same way |
| LegacyGogovParser.ParsePageParts | etl/utils/parsers/gogov_parser.py:54-66 | a page parses exactly when its global section, its `m-table` body and every row do; a section error is reported whatever the table is, and a missing table is an AttributeError only after the section parsed; the result holds the global data and one record per row |
| LegacyGogovParser.GetData | etl/utils/parsers/gogov_parser.py:99-103 | data is parsed only from a non-empty page of a 200 reply, and the result is the page parse, with the section read before the table |
| RosstatParser.FileUrls | app/apps/etl/utils/parsers/rosstat_parser.py:41-42 | the file links are page links that point into the media bank |
| RosstatParser.YearsDescending | app/apps/etl/utils/parsers/rosstat_parser.py:44-46 | one year for each year from 2019 to the current one |
| RosstatParser.YearsDescendingAt | app/apps/etl/utils/parsers/rosstat_parser.py:45-46 | the k-th year is the current year minus k |
| RosstatParser.YearsDescendingStrictly | app/apps/etl/utils/parsers/rosstat_parser.py:46 | the years run strictly newest first |
| RosstatParser.YearsDescendingRange | app/apps/etl/utils/parsers/rosstat_parser.py:45 | a year is listed exactly when it lies between 2019 and the current year |
| RosstatParser.UrlPairs | app/apps/etl/utils/parsers/rosstat_parser.py:50-52 | a link yields at most one pair per year |
| RosstatParser.UrlPairsExact | app/apps/etl/utils/parsers/rosstat_parser.py:50-52 | a link is paired with a year exactly when the year is listed and its digits occur in the link |
| RosstatParser.UrlPairsDescending | app/apps/etl/utils/parsers/rosstat_parser.py:50-52 | a link's pairs keep the years' order |
| RosstatParser.AllPairsExact | app/apps/etl/utils/parsers/rosstat_parser.py:49-52 | the pairs of several links are exactly the (year, link) pairs whose year occurs in the link |
| RosstatParser.YearUrlPairsSound | app/apps/etl/utils/parsers/rosstat_parser.py:34-54 | every pair has a year from 2019 to now that occurs in a media-bank link of the page, and without `all` only the first such link is used |
| RosstatParser.YearUrlPairsComplete | app/apps/etl/utils/parsers/rosstat_parser.py:34-54 | with `all`, every media-bank link is paired with every year from 2019 to now that it mentions |
| RosstatParser.YearsNewestFirst | app/apps/etl/utils/parsers/rosstat_parser.py:46-52 | a link's pairs run newest year first |
| RosstatParser.GetYearUrlPairs | app/apps/etl/utils/parsers/rosstat_parser.py:34-54 | the nested loops build exactly the year/link pairs |
| RosstatParser.RarTemplate | app/apps/etl/utils/parsers/rosstat_parser.py:70 | the archive entry name to look for starts with `Tabl-01-` |
| RosstatParser.KindOf | app/apps/etl/utils/parsers/rosstat_parser.py:60 | a link is read as an archive exactly when it contains `rar` |
| RosstatParser.RarEntry | app/apps/etl/utils/parsers/rosstat_parser.py:74 | a missing archive entry raises IndexError |
| RosstatParser.RarEntryFirst | app/apps/etl/utils/parsers/rosstat_parser.py:74 | the entry read is the first whose name contains the template, and IndexError means none does |
| RosstatParser.SheetNamed | app/apps/etl/utils/parsers/rosstat_parser.py:84 | a sheet read by name is a sheet of that name in the workbook; a missing one raises ValueError |
| RosstatParser.PickSheet | app/apps/etl/utils/parsers/rosstat_parser.py:78-87 | an archived workbook is read from its first sheet; otherwise the sheet read is one of the two known names, and a failure is ValueError |
| RosstatParser.PickSheetNeedsFirstName | app/apps/etl/utils/parsers/rosstat_parser.py:83-84 | a workbook without the first sheet name raises ValueError before the second is tried |
| RosstatParser.RenameRow | app/apps/etl/utils/parsers/rosstat_parser.py:88-92 | renaming moves a column's value to its new name; a row without the column is unchanged |
| RosstatParser.RegionHeader | app/apps/etl/utils/parsers/rosstat_parser.py:88-92 | tables before 2021 name the region column `Таблица 1.`, later ones `Unnamed: 0` |
| RosstatParser.ToRecord | app/apps/etl/utils/parsers/rosstat_parser.py:96 | a complete row becomes a record with exactly the table's columns and their values |
| RosstatParser.CompleteRecords | app/apps/etl/utils/parsers/rosstat_parser.py:95 | dropping incomplete rows never adds records |
| RosstatParser.CompleteRecordsYear | app/apps/etl/utils/parsers/rosstat_parser.py:94-96 | every record has all the columns, and its year is the file's year |
| RosstatParser.IncompleteRowsDropped | app/apps/etl/utils/parsers/rosstat_parser.py:95 | a table with no complete row yields no records |
| RosstatParser.SheetRecordsColumns | app/apps/etl/utils/parsers/rosstat_parser.py:88-96 | every record carries `year`, `region` and `population`, and no longer the original headers |
| RosstatParser.FirstRowByStyle | app/apps/etl/utils/parsers/rosstat_parser.py:88-92 | the first data row is skipped in old-style tables and kept, when complete, in new ones |
| RosstatParser.OnePairRecords | app/apps/etl/utils/parsers/rosstat_parser.py:58-63 | one pair contributes the records of its file |
| RosstatParser.UrlListSnoc | app/apps/etl/utils/parsers/rosstat_parser.py:58-63 | each pair extends the records so far by its file's records, or stops with its error |
| RosstatParser.UrlListStops | app/apps/etl/utils/parsers/rosstat_parser.py:56-67 | the first file that fails decides the error |
| RosstatParser.Parser.constructor | app/apps/etl/utils/parsers/rosstat_parser.py:31-32 | the pairs are computed once, at construction |
| RosstatParser.Parser.GetParsedData | app/apps/etl/utils/parsers/rosstat_parser.py:56-67 | the loop over the stored pairs concatenates each file's records, in order, or stops at the first error |
| Commands.FieldValue | app/apps/etl/management/commands/import_stopcorona_data.py:32 | reading an item's field gives its value, or KeyError when the item has no such field |
| Commands.ItemKey | app/apps/etl/management/commands/import_stopcorona_data.py:32 | an item's key is its start date, end date and region, or KeyError when one is missing |
| Commands.NewObjects | app/apps/etl/management/commands/import_stopcorona_data.py:29-33 | the queued objects are items of the data whose keys were not stored before, never more than the data |
| Commands.NewObjectsPrefix | app/apps/etl/management/commands/import_stopcorona_data.py:30-33 | the objects of a prefix of the data are a prefix of the objects |
| Commands.NewObjectsComplete | app/apps/etl/management/commands/import_stopcorona_data.py:30-33 | every item whose key was not stored is queued |
| Commands.NewObjectsKeepsDuplicates | app/apps/etl/management/commands/import_stopcorona_data.py:30-33 | two new items with the same key are both queued, since the filter only looks at stored keys |
| Commands.KeysOf | app/apps/etl/models.py:60-61 | the keys of a set of rows are exactly the keys the rows carry |
| Commands.DuplicateKeysRefused | app/apps/etl/management/commands/import_stopcorona_data.py:35-39 | data holding one new key twice makes the insert fail the uniqueness constraint |
| Commands.NewObjectsInsertable | app/apps/etl/management/commands/import_stopcorona_data.py:35-39 | as far as the uniqueness constraint goes, the insert is allowed exactly when the queued keys are distinct |
| Commands.PrepError | app/apps/etl/management/commands/import_stopcorona_data.py:36 | an integer column takes an integer or a text `int()` accepts; another text raises ValueError |
| Commands.ObjectPrepError | app/apps/etl/management/commands/import_stopcorona_data.py:36 | an object prepares exactly when each integer column present holds a value that prepares; the only exceptions are ValueError and TypeError |
| Commands.BatchPrepError | app/apps/etl/management/commands/import_stopcorona_data.py:36 | a batch prepares exactly when each of its objects does |
| Commands.BatchOutcome | app/apps/etl/management/commands/import_stopcorona_data.py:36 | a batch goes in exactly when its objects are storable and insertable, and fails before the database exactly when some value does not prepare |
| Commands.BulkOutcome | app/apps/etl/management/commands/import_stopcorona_data.py:36 | a failure before the database is a ValueError or TypeError |
| Commands.InsertableSplit | app/apps/etl/management/commands/import_stopcorona_data.py:36 | objects in two parts are insertable exactly when the first is, and the second is against the stored keys plus the first's |
| Commands.StorableSplit | app/apps/etl/management/commands/import_stopcorona_data.py:36 | objects in two parts are storable exactly when both parts are |
| Commands.BulkOutcomeInserted | app/apps/etl/management/commands/import_stopcorona_data.py:36 | the batched insert goes in exactly when every object is storable and no key repeats or is stored |
| Commands.PreparedNeverFails | app/apps/etl/management/commands/import_stopcorona_data.py:35-39 | objects whose integer columns prepare are inserted or refused, never raise |
| Commands.FirstPrepError | app/apps/etl/management/commands/import_stopcorona_data.py:36 | the first object of a batch that does not prepare decides its exception |
| Commands.TextPrepError | app/apps/etl/management/commands/import_stopcorona_data.py:36 | an object whose integer columns hold texts, one refused by `int()`, raises ValueError |
| Commands.TextInFirstBatchRaises | app/apps/etl/management/commands/import_stopcorona_data.py:35-39 | a text `int()` refuses in an integer column of the first batch makes the insert raise ValueError, which `except DatabaseError` does not catch |
| Commands.NullColumnRefused | app/apps/etl/management/commands/import_stopcorona_data.py:35-39 | objects that prepare, one without an integer column, are refused (NOT NULL), whatever their keys |
| Commands.ShortTableLastRecordNull | app/apps/etl/management/commands/import_stopcorona_data.py:36 | a bulletin table that does not fill its last group of five gives a last record without `deaths` |
| Commands.UploadAgainQueuesNothing | app/apps/etl/management/commands/import_stopcorona_data.py:29-33 | once the queued keys are stored, a second upload of the same data queues nothing |
| Commands.StopCoronaTable.Keys | app/apps/etl/models.py:60-61 | the table's keys are those of its rows |
| Commands.StopCoronaTable.constructor | app/apps/etl/models.py:50-61 | the table starts empty, which satisfies the uniqueness constraint |
| Commands.StopCoronaTable.BulkCreate | app/apps/etl/management/commands/import_stopcorona_data.py:36 | the insert adds all objects in order exactly when every object is storable and none of their keys repeats or is stored, and otherwise adds nothing; the outcome is the batched one, and the constraint holds either way |
| Commands.ImportStopcoronaCommand.constructor | app/apps/etl/management/commands/import_stopcorona_data.py:8-9 | the command starts with nothing written |
| Commands.ImportStopcoronaCommand.UploadToDb | app/apps/etl/management/commands/import_stopcorona_data.py:28-41 | a missing key field raises KeyError and changes nothing; otherwise the new objects are inserted and "Upload complete" written, or, when the database refuses the insert, nothing is inserted and the exception is written, or, when a value does not prepare, that exception escapes and nothing changes |
| Commands.GetParsedData | etl/management/commands/import_stopcorona_data.py:24-29 | the older command parses every article with `all`, only the first one otherwise, and fails only with IndexError |
| Commands.MissingRegions | app/apps/etl/management/commands/import_regions.py:17-18 | the names to create are names of the list, never more |
| Commands.MissingRegionsCount | app/apps/etl/management/commands/import_regions.py:17-18 | a stored name is never created again, and an unstored name is created as often as the list holds it |
| Commands.RegionTable.constructor | app/apps/etl/management/commands/import_regions.py:8 | the region table starts empty |
| Commands.RegionTable.Create | app/apps/etl/management/commands/import_regions.py:19 | creating a region appends its name |
| Commands.ImportRegions | app/apps/etl/management/commands/import_regions.py:13-19 | the loop appends exactly the list's names that were not stored before, in list order |
| Commands.ImportedRegionsStored | app/apps/etl/management/commands/import_regions.py:13-19 | after the import every name of the list is stored |
| Serializers.UnknownDatasetMessage | app/apps/api/v1/serializers.py:22 | the unknown-dataset message names the requested dataset |
| Serializers.AsSet | app/apps/api/v1/serializers.py:45 | `set(list)` holds exactly the list's elements |
| Serializers.Validate | app/apps/api/v1/serializers.py:33-61 | as written: a field failure names a non-empty set of unknown fields, a region failure is raised only when some requested region is unknown, and accepted parameters keep their regions only when the dataset has a region field (otherwise they become empty) |
| Serializers.ValidateIntended | app/apps/api/v1/serializers.py:33-61 | as intended: a region failure names exactly the unknown regions, none of them stored |
| Serializers.ValidateAccepts | app/apps/api/v1/serializers.py:33-61 | parameters are accepted exactly when the dataset exists, every requested field belongs to its model, and, for a model with a region field, every requested region is stored |
| Serializers.RejectionReasons | app/apps/api/v1/serializers.py:38-57 | a missing dataset, and only that, gives the unknown-dataset failure; a field failure names the requested fields outside the model; a region failure comes after the fields passed and names the requested regions that are not stored |
| Serializers.RegionsIgnoredWithoutRegionField | app/apps/api/v1/serializers.py:51-59 | for a model without a region field, the requested regions make no difference to validation |
| Serializers.RegionFailureNamesKnownRegions | app/apps/api/v1/serializers.py:55-57 | as written, asking for one stored and one unknown region reports both in the failure; as intended, only the unknown one |
| Calendar.StrPTime | app/apps/etl/utils/parsers/stopcorona_parser.py:87-88 | `strptime` returns only real calendar dates |
| Calendar.DottedRoundTrip | app/apps/etl/utils/parsers/stopcorona_parser.py:87-88 | a date written `dd.mm.yyyy` parses back to itself with `%d.%m.%Y` |
| Calendar.DottedThenMore | app/apps/etl/utils/parsers/stopcorona_parser.py:87-88 | `strptime` refuses a `dd.mm.yyyy` date followed by anything, so unconsumed text is an error |
| Calendar.DottedYear | app/apps/etl/utils/parsers/stopcorona_parser.py:94-98 | a day and month completed with `.` and a four-digit year parse, if at all, to that year |
| Calendar.ShortDottedRoundTrip | app/apps/etl/utils/parsers/gogov_parser.py:51 | a date written `dd.mm.yy` parses back to itself with `%d.%m.%y`, for years 2000-2068 |
| Calendar.IsoDateRoundTrip | etl/utils/parsers/gogov_parser.py:36 | a date written `yyyy-mm-dd` parses back to itself with `%Y-%m-%d` |
| PyStr.StripSpec | app/apps/etl/utils/parsers/stopcorona_parser.py:113 | `strip` removes exactly the leading and trailing whitespace, and what it returns neither starts nor ends with whitespace |
| PyStr.StripPadded | app/apps/etl/utils/parsers/stopcorona_parser.py:93-98 | text padded with whitespace strips to the text |
| PyStr.SplitJoin | app/apps/etl/utils/parsers/stopcorona_parser.py:93 | splitting on one separator and joining the pieces back gives the original text |
| PyStr.SplitAt | app/apps/etl/utils/parsers/stopcorona_parser.py:86 | a split yields the text up to the first separator, then the split of the rest |
| StopcoronaParser.UrlListRecords | app/apps/etl/utils/parsers/stopcorona_parser.py:41-52 | parsing a list of pages fails only with IndexError or, as written, ValueError |
| StopcoronaParser.InferredByYearRule | app/apps/etl/utils/parsers/stopcorona_parser.py:90-98 | two day-month parts are completed with the previous year for the start when its month is later than the end's, and the current year otherwise |
| LegacyStopcoronaParser.LegacyUrlListRecords | etl/utils/parsers/stopcorona_parser.py:40-51 | parsing a list of pages fails only with IndexError |
| LegacyStopcoronaParser.SpacedEndInferred | etl/utils/parsers/stopcorona_parser.py:79-87 | the parts of a `dd.mm- dd.mm` heading get the year rule's dates, the space before the end stripped |
| GlobalTransformers.WeeklyTotalIsSumOfBuckets | app/apps/etl/utils/data_transformers/global_transformers.py:76-87 | each counter's weekly column, summed over the first weeks, is the sum of those weeks' buckets |
| GlobalTransformers.WeeklyColumnInjective | app/apps/etl/utils/data_transformers/global_transformers.py:80-87 | distinct counters get distinct weekly columns |
| GlobalTransformers.WeeklyPrefixMonotone | app/apps/etl/utils/data_transformers/global_transformers.py:189-201 | with non-negative weekly values, the running totals never decrease |
| Resample.WeeklySumsEnd | app/apps/etl/utils/data_transformers/global_transformers.py:76 | the k-th bucket ends k weeks after the first Monday on or after the earliest date |
| TransformingFunctions.WithCumsumKeepsGroups | app/apps/etl/utils/data_transformers/transforming_functions.py:5-14 | adding a cumulative column keeps the rows' group/date pairs distinct |
| RegionalTransformers.RegionWeeksDistinct | app/apps/etl/utils/data_transformers/regional_transformers.py:28-38 | a region's weekly rows all carry that region and have distinct dates |
| RegionalTransformers.RegionPositions | app/apps/etl/utils/data_transformers/regional_transformers.py:75 | the positions of a region's rows are exactly the rows of that region, in increasing order |
| GogovParser.ParsePage | app/apps/etl/utils/parsers/gogov_parser.py:38-44 | a page without the `data` paragraph raises AttributeError; otherwise the result is the section's global record alone, with the five counters as its keys |
| GogovParser.GlobalDataOf | app/apps/etl/utils/parsers/gogov_parser.py:46-57 | a section without date-shaped text raises AttributeError before anything else is read; a parsed section has seven or more spans, a bold counter, and exactly the five counters |
| GogovParser.GlobalDataWith | app/apps/etl/utils/parsers/gogov_parser.py:50-56 | the date is searched first (no match: AttributeError), and a dated section without a bold element fails |
| GogovParser.SpanCounts | app/apps/etl/utils/parsers/gogov_parser.py:53-55 | the `_global_spans` loop: each listed span's counter, the first missing span or failed read ending it (its contract is `GlobalSpanCounts`) |
| LegacyGogovParser.ParsePage | etl/utils/parsers/gogov_parser.py:54-66 | the section is parsed before the `m-table` lookup; the page's outcome is stated by `ParsePageParts` |
| LegacyGogovParser.RowRecord | etl/utils/parsers/gogov_parser.py:86-93 | one row's record, cell by cell, the first failing cell ending it (its contract is `RowRecordFields`) |
| LegacyGogovParser.FieldOf | etl/utils/parsers/gogov_parser.py:89-93 | the region comes from the link text (no link: AttributeError), every other field from `data-text`, each through its column's cleaner |
| LegacyGogovParser.RegionNameAsWritten | etl/utils/parsers/gogov_parser.py:29 | `re.sub("обл.", "область")` with the dot as a wildcard (stated by `RegionNameAsWrittenMangles`) |
| LegacyGogovParser.RegionNameClean | etl/utils/parsers/gogov_parser.py:29 | the intended literal replacement of `обл.` (stated by `RegionNameCleanKeeps`, `RegionNameCleanExpands`) |
| PrototypeParser.Sweep | etl/utils/Parser/main.py:45-47 | the remove-while-iterating loop over the URL list (stated by `SweepKeepsArticles`, `AdjacentNonArticleSurvives`) |
| PrototypeParser.Walk | etl/utils/Parser/main.py:19-32 | `parser_url_list`: the articles in list order until one raises (stated by `WalkStops`, `WalkLengths`) |
| PrototypeParser.PageStep | etl/utils/Parser/main.py:30-32 | one article: `set_data`, then `clearing` and `set_dict`, the first exception ending it |
| PrototypeParser.RegionTable | etl/utils/Parser/main.py:68-69 | every region cell at 5, 10, ... up to the n-th row is a key of the dictionary |
| PrototypeParser.RowAt | etl/utils/Parser/main.py:63-69 | one region's row: header cells 1-4 mapped to the four cells after the region (stated by `RowFields`) |
| RosstatParser.UrlListRecords | app/apps/etl/utils/parsers/rosstat_parser.py:56-67 | `_parse_url_list` as a value: each pair's file records in turn, the first failure winning (stated by `UrlListSnoc`, `UrlListStops`) |
| RosstatParser.FileRecords | app/apps/etl/utils/parsers/rosstat_parser.py:60-63 | a link containing `rar` is read as an archive, any other as a workbook (stated by `OnePairRecords`, `KindOf`) |
| RosstatParser.SheetRecords | app/apps/etl/utils/parsers/rosstat_parser.py:88-96 | columns renamed by year style, the first row dropped before 2021, the year added, incomplete rows dropped (stated by `SheetRecordsColumns`, `CompleteRecordsYear`) |
| RosstatParser.YearUrlPairsOf | app/apps/etl/utils/parsers/rosstat_parser.py:41-54 | the chosen media links paired with the years they contain (stated by `YearUrlPairsSound`, `YearUrlPairsComplete`) |
| RosstatParser.RenameColumns | app/apps/etl/utils/parsers/rosstat_parser.py:89 | a present column is replaced by its new name and no other column changes; an absent one leaves the columns as they are |
| GlobalTransformers.TransformGogov | app/apps/etl/utils/data_transformers/global_transformers.py:125-168 | `_transform_gogov_data` as a value: KeyError or AttributeError on empty frames, otherwise the weeks of the deltas (stated by `GogovWeeksMembers`, `RunErrors`) |
| GlobalTransformers.WeekOf | app/apps/etl/utils/data_transformers/global_transformers.py:147-165 | one bulletin week's row, or none without readings (stated by `WeekOfSpec`) |
| GlobalTransformers.GogovWeeks | app/apps/etl/utils/data_transformers/global_transformers.py:146-168 | at most one vaccination row per bulletin week, in bulletin order |
| GlobalTransformers.LeftJoinByDate | app/apps/etl/utils/data_transformers/global_transformers.py:57 | `pd.merge(..., on='date', how='left')` (stated by `LeftJoinKeepsLeft`, `LeftJoinFromLeft`) |
| GlobalTransformers.Merged | app/apps/etl/utils/data_transformers/global_transformers.py:38 | one date's group with a row's counters added (stated by `SummarizeByDateSpec`) |
| GlobalTransformers.Spliced | app/apps/etl/utils/data_transformers/global_transformers.py:44-52 | the CSV rows, then the external rows after the CSV's latest date (stated by `SplicedOrigin`) |
| RegionalTransformers.WeeklyByRegion | app/apps/etl/utils/data_transformers/regional_transformers.py:28-38 | the per-region weekly resample (stated by `WeeklyByRegionSpec`, `PerRegionSpec`) |
| RegionalTransformers.PerRegion | app/apps/etl/utils/data_transformers/regional_transformers.py:28 | one block of weekly rows per listed region, in list order (stated by `PerRegionSpec`, `PerRegionDistinct`) |
| RegionalTransformers.RegionRows | app/apps/etl/utils/data_transformers/regional_transformers.py:75 | the filtered frame of one region, in order (stated by `RegionRowsMembers`) |
| StopcoronaParser.DatePair | app/apps/etl/utils/parsers/stopcorona_parser.py:92-101 | both parts dated by the year rule, or None on ValueError (stated by `YearRule`, `InferredByYearRule`) |
| StopcoronaParser.WithYear | app/apps/etl/utils/parsers/stopcorona_parser.py:94-98 | a stripped `dd.mm` part with `.` and the year appended (stated by `DayMonthInferred`) |
| StopcoronaParser.Chunk | app/apps/etl/utils/parsers/stopcorona_parser.py:124-125 | the k-th slice `[5k:5k+5]` has one to five cells |
| PyStr.PyInt | app/apps/etl/utils/parsers/stopcorona_parser.py:93 | `int()` on text: surrounding whitespace, an optional sign and a digit body, otherwise ValueError (stated by `PyIntOfDigits`, `PyIntRejectsNonDigits`) |
| PyStr.Strip | app/apps/etl/utils/parsers/stopcorona_parser.py:113 | `str.strip()` (stated by `StripSpec`) |
| PyStr.Split | app/apps/etl/utils/parsers/stopcorona_parser.py:81 | at least one piece, and no piece contains a separator |
| PyStr.ReplaceAll | app/apps/etl/utils/data_transformers/population_transformer.py:16-17 | `str.replace`: left-to-right, non-overlapping replacement (stated by `ReplaceAllAbsent`) |
| PyStr.IsDecimal | app/apps/etl/utils/parsers/stopcorona_parser.py:116 | `str.isdecimal()` on ASCII digits, false on the empty string |
| Calendar.FormatDMY | app/apps/etl/utils/mappers/transformed_data_mappers.py:17 | `strftime('%d-%m-%Y')`: ten characters with dashes at 2 and 5 (round trip in `FormatDMYRoundTrip`) |
| Calendar.IsoDate | etl/utils/parsers/gogov_parser.py:26 | `yyyy-mm-dd`: ten characters with dashes at 4 and 7 (round trip in `IsoDateRoundTrip`) |
| Resample.WindowSum | app/apps/etl/utils/data_transformers/global_transformers.py:76 | the sum of a column over the rows of one Monday-ending week (stated by `WeeklySumsAt`) |
| TransformingFunctions.Per100000Raised | app/apps/etl/utils/data_transformers/transforming_functions.py:17-29 | only KeyError, and exactly when a non-empty frame lacks a column the row function reads |
| PopulationTransformer.CleanName | app/apps/etl/utils/data_transformers/population_transformer.py:16-18 | the three rewrites in order (stated by `CleanNameOfClean`, `LatinSpellingFixed`, `CityPrefixRemoved`) |
| Mappers.SplitStep | app/apps/etl/utils/mappers/base.py:34-43 | one item of `_split_data`: insert under an unknown key, overwrite and perhaps queue under a known one (stated by `SplitOne`) |

## Left out

- HTTP and HTML navigation (`requests.get`, BeautifulSoup lookups, `_get_url_list`, `_get_page_html`'s request) are not modelled: the parsers take the fetched reply, the href lists, heading matches, cell strings and span texts as parameters.
- `requests`' own `ConnectionError` is not a subclass of the built-in one the gogov parsers catch; the model's `Response.ConnectionFailed` stands for the reply the handler catches, and an uncaught connection error is not modelled.
- Regular-expression `findall` over stopcorona headings is not modelled: the date parsers take the list of matches. The `re.split`, `re.sub` and `re.search` patterns the code applies to those strings are written out.
- Floating-point statistics (`add_per_100000_stats`, `add_ratio_stats`, `RF_POPULATION`): the values are float arithmetic and are discarded in this snapshot, so they are not modelled; the exceptions these steps raise (KeyError for a missing column, ZeroDivisionError for a zero `weekly_infected`) are.
- TransformingFunctions.RatioRaised: takes the frame's cells to be Python objects (object dtype), so that a zero divisor raises ZeroDivisionError; on a numeric-dtype column pandas would divide element-wise and give `inf` or NaN instead.
- Logging (`_log_parsed_data`, the mapper's log calls, `print` of parse errors) is left out; it changes no data.
- Excel and RAR decoding (`pd.read_excel` with `skiprows`/`usecols`, `RarFile`) is left out beyond the entry-name rule, the sheet choice and the column rule: workbooks are given as sheets of rows.
- `RosstatParser._get_year_url_pairs` sorts years as strings; for the four-digit years it produces this is the numeric order the model uses.
- pandas copy-versus-view and label-versus-position indexing are left out. Frames are sequences of records in row order. As written, `RegionsDataTransformer._add_cumulative_stats` (regional_transformers.py:75-84) writes into the filtered copy `region_data`, by the labels `0` and `i`, through the `infected` column that `run` renamed away; `RegionalTransformers.RegionTotalsAsWritten` models that (KeyError, frame unchanged).
- RegionalTransformers.AddRegionTotals, RegionalTransformers.AddCumulativeStats, RegionalTransformers.ChainRegion, RegionalTransformers.WithRegionTotals, RegionalTransformers.RegionTotals, RegionalTransformers.RegionChainFirst, RegionalTransformers.RegionChain: model the chain as evidently intended, written to the frame itself, by position within the region, into total columns next to the weekly ones; as written the first stored region raises KeyError (see `RegionTotalsAsWrittenRaises`), and a region other than the first would also lack the label `0`.
- RegionsDataTransformer.run and `_get_dataframes` (regional_transformers.py:45-60) are not modelled: `_get_dataframes` calls `StopCoronaData.get_transform_region_data`, which the `StopCoronaData` model (models.py:51-64) does not define, so `run` raises AttributeError before anything else; were it defined, line 46 would unpack one frame into two names (ValueError unless the frame has exactly two columns). The model starts at `_add_cumulative_stats`.
- RegionalTransformers.TransformExternalDataIntended: returns the region-grouped weekly frame, although line 40 returns what `apply_all_transforms` returns (None) and the statistics steps raise on a regional frame; `TransformExternalDataAxisFixed` and `AxisFixedStillRaises` model the code with only the `apply` corrected.
- `RegionsDataTransformer._transform_data` passes on what `add_per_100000_stats` returns (nothing); the model stops at the cumulative totals.
- `pandas.sort_values` uses an unstable sort by default; the model sorts stably (insertion by key), so rows with equal keys keep their input order.
- Storage reads (`get_highest_not_null_values`, `get_latest_data_map`, the stored keys and region names) are parameters; `bulk_create` and `bulk_update` are all-or-nothing writes to a sequence of rows, and the database error text is a parameter.
- The `Region` model is not part of this model; only its `name` column is represented, as the region table's names.
- `import_regions` reads its list with `pickle` from a file; the unpickled list is a parameter.
- The older `upload_to_db` (etl/management/commands/import_stopcorona_data.py:31-44) is the same code as the application's and is modelled once.
- `get_parsed_data` of the application's `import_stopcorona_data` (app/apps/etl/management/commands/import_stopcorona_data.py:24-26) builds the parser with an `all` argument its constructor does not take and calls a `get_parsed_data` it does not define; it is not modelled, and the parser's `get_all`/`get_latest` are modelled instead.
- `datetime.now()` is a parameter (the current year or date).
- Commands.GetParsedData: models the older command as if its import (etl/management/commands/import_stopcorona_data.py:4) named the module's `Parser` class; as written it imports `StopCoronaParser`, which etl/utils/parsers/stopcorona_parser.py does not define, and the command fails with ImportError before it runs.
- Commands.UploadAgainQueuesNothing: the model has one kind of date cell. As written, the full-date branch of `_get_dates` (app/apps/etl/utils/parsers/stopcorona_parser.py:86-88) yields `datetime` values, which never equal the stored `date` keys, so such rows are queued again and the second insert is refused.
- Commands.NewObjects: takes the items to carry only `StopCoronaData`'s fields, as the parser's records do; `StopCoronaData(**item)` with any other name raises TypeError, which is not modelled.
- Commands.BulkOutcome: the date and region columns are taken to hold what the parser gives them (dates and texts); preparing other values for them is not modelled, and `int()`'s acceptance of underscores and non-ASCII digits is not modelled.
- Mappers.SplitOne, Mappers.SplitStep: keys are looked up by structural equality (the key fields never mix integers and floats), and `_model(**item)` with a field the model lacks, which raises TypeError, is not modelled.
- PyStr.IsDecimal, PyStr.IsDigit, PyStr.PyInt: ASCII digits only; `str.isdecimal`, `int()` and the `\d` of the written-out `re.search` patterns (`GogovParser.DigitsAt`, `GogovParser.SearchDate`) also accept other Unicode decimal digits.
- `RegionDataTransformer.rename_regions` is not shown; it is an uninterpreted function parameter, and `г.` is replaced as a literal.
- `global_transformers.py` imports `GenericTransformingFunctions` (line 9), which the shown `transforming_functions.py` does not define, so that import would fail. The model takes its calls (lines 69, 185-186) to return a frame without raising, and passes them as function parameters (`applyAll`, `rateStats`). Were they the shown `TransformingFunctions`, which return None, line 185 would bind None and line 186 would raise AttributeError.
- `TransformingFunctions.add_cumulative_stats` groups the running sums by `start_date` as written (each week its own group, so a total equals its weekly value); the null-ratio and per-100000 expectations in the tests belong to a class that is not shown and are not carried over.
- Calendar.StrPTime: only the directives the code uses (`%d`, `%m`, `%Y`, `%y` and literal characters) are modelled.
- Airflow DAGs, CSV import commands, thin `transform_*`/`import_*` wrappers, Django settings, views, admin and the unused `_excluded_regions` list are outside the modelled core.

## Findings

| source | as written | input that shows it | evidently intended | confidence | as-written member | corrected member |
|---|---|---|---|---|---|---|
| app/apps/etl/utils/parsers/stopcorona_parser.py:86-88 | the full-date branch passes the untrimmed parts to `strptime` | a heading `dd.mm.yyyy – dd.mm.yyyy` with spaces around the en dash: the start keeps its trailing space and `strptime` raises an uncaught ValueError | trim each part first, giving the two dates | not executed | StopcoronaParser.SpacedFullDatesRaise | StopcoronaParser.SpacedFullDatesParse |
| app/apps/etl/utils/data_transformers/regional_transformers.py:37 | `DataFrame.apply` without `axis=1` hands the lambda whole columns, which have no `.date` | any non-empty external frame raises AttributeError; an empty one raises KeyError | `start_date` computed per row and the weekly per-region frame returned | not executed | RegionalTransformers.TransformExternalDataNeverReturns | RegionalTransformers.TransformExternalDataIntended |
| app/apps/etl/utils/data_transformers/transforming_functions.py:33-42 | the ratio statistics read `weekly_vaccinations` and `second_component` whatever the region flag | with `apply` corrected, any regional frame with a week raises KeyError (or ZeroDivisionError when its first week has no infections) | with the region flag, read only the regional columns | not executed | RegionalTransformers.AxisFixedStillRaises | RegionalTransformers.IntendedFrameHasRatioColumns |
| app/apps/etl/utils/parsers/stopcorona_parser.py:86-88 | the branch is chosen by counting the '.'-pieces of the untrimmed start | a heading `23.10. - 29.10`, which the pattern accepts: the start `23.10. ` has three pieces, takes the full-date branch and raises an uncaught ValueError | trim the parts, then infer the year | not executed | StopcoronaParser.TrailingDotHeadingRaises | StopcoronaParser.TrailingDotHeadingParses |
| app/apps/etl/utils/data_transformers/regional_transformers.py:77 | the totals are written through `region_data['infected']`, a column `run` renamed to `weekly_infected` | any stored region with bulletin rows raises KeyError and the frame is unchanged | each region's totals chained from the stored ones in the frame | not executed | RegionalTransformers.RegionTotalsAsWrittenRaises | RegionalTransformers.RegionChain |
| etl/utils/parsers/gogov_parser.py:29 | `re.sub("обл.", ...)` reads the dot as any character | the full name `область` becomes `областьсть` | only the abbreviation `обл.` is written out | not executed | LegacyGogovParser.RegionNameAsWrittenMangles | LegacyGogovParser.RegionNameCleanKeepsFullWord |
| etl/utils/Parser/main.py:45-47 | items are removed from the list while it is iterated | a non-article link directly after a removed one is skipped and survives | every non-article link is dropped | not executed | PrototypeParser.AdjacentNonArticleSurvives | PrototypeParser.Parser.SetUrlListIntended |
| app/apps/api/v1/serializers.py:57 | the unknown-regions failure reports every requested region | asking for `Москва` (stored) and `Марс` (unknown) reports both | report only the unknown regions | not executed | Serializers.RegionFailureNamesKnownRegions | Serializers.ValidateIntended |
