# NYC school capacity dashboard: the data pipeline in Dafny

This project models the tabular pipeline behind the NYC school capacity
dashboard (`utils/data_processing.py`) and proves properties of it. The
pipeline takes the city's enrollment, capacity and utilization report, one
row per organization per building. It turns those rows into:

- **clean_data** (`Cleaning`): parses the `Data As Of` dates (empty, NaT and NaN texts become NaT), keeps the 2023
  rows that have a non-zero utilization, and merges the organizations that
  share a building into one building record. Their names are sorted and
  joined with `", "`.
- **process_data** (`Derivation`): adds an over-capacity flag (utilization
  above 100) and four utilization-range flags (101-110, 111-120, 121-130,
  131 and above).
- **create_plot_df** (`Plot`): builds one row per district. Each row holds
  the count of over-capacity rows and the number of distinct building IDs,
  the percentage over capacity, and a "min" rank by that percentage. It also
  holds the borough (from fixed district ranges), the neighborhood text (from
  the 32-entry `NEIGHBORHOODS` list) and the map-label coordinates (the
  district centroid, overridden for districts 4, 13, 15 and 27).
- **prep_city_data, prep_district_data, create_school_directory and
  create_district_dict** (`Summary`): the citywide and per-district
  statistics, the utilization-bucket breakdown with its zero-count guard,
  the school directory of a district, and the dictionary of every district's
  statistics.

Tables are sequences of row datatypes. Group-bys are folds into maps.
Percentages are integers in hundredths of a percent: the value nearest to
the exact ratio, with ties going to the even neighbour. The steps the source
performs in place are methods over arrays or loops, each proved equal to a
specification function:

- `process_data`'s column additions;
- the five masked borough assignments;
- the label-override loop;
- the dictionary-filling loop of `create_district_dict`.

Helper modules:

- `Common`: Option and Result.
- `Seqs`: boolean masks, counts and ascending sequences.
- `Text`: Python's string order, sorting, `join`, and the one-character split that reads the date fields.
- `Dates`: the `%m/%d/%Y` date format.
- `Rounding`: rounding to hundredths.
- `Records`: the building record.

Where a plain description of the pipeline and its code disagree, the model
follows the code:

- Only a utilization equal to 0 is dropped (`utils/data_processing.py:68`).
  A negative utilization survives, so there is no "utilization > 0"
  invariant. `Cleaning.CleanData` proves `!= 0`.
- The plot table's `Total Bldgs` counts distinct `Bldg ID`s, but its
  `OverCapacity` counts rows (`utils/data_processing.py:124-128`). So if one
  building appears in two rows, a district can have more over-capacity rows
  than buildings, and a percentage above 100. `Plot.RepeatedIdExceeds` shows
  such a case: one building listed under two 2023 as-of dates gives 200%. The bound
  "over-capacity ≤ total" holds only when building IDs do not repeat
  (`Plot.OverAtMostBuildings`, `Plot.UniqueIdsBoundPct`).
- Neighborhoods and centroids are assigned by position, not by district
  number (`utils/data_processing.py:153`, `161-162`).
  - With 1..31 or more than 32 district rows, assigning the 32-entry list
    raises; this is `PlotError` in the model. With no rows at all pandas does
    not raise; that case is listed under "Left out".
  - With exactly 32 rows, the text lines up with the districts only when they
    are 1..32 (`Plot.FullDistrictSet`).
  - The table is not "one row per district 1-32" in general: it has one row
    per district present.
- `pct_overcapacity` has no zero guard (`utils/data_processing.py:212`,
  `265`): with no rows it is NaN, here `None`. Only the bucket percentages
  fall back to 0.
- The city and district `total_bldgs` count rows
  (`utils/data_processing.py:208`, `263`), not distinct building IDs.
- Borough masks are applied in order, and a later mask wins. So any district
  below 1 also gets Manhattan, and a district above 32 gets no borough.

## Model

| member | source | states |
|---|---|---|
| Dates.ParseDate | utils/data_processing.py:58 | a parsed `%m/%d/%Y` date always names a real calendar day with a four-digit year |
| Dates.FormatThenParse | utils/data_processing.py:58 | every valid date written as MM/DD/YYYY parses back to itself |
| Dates.LeapDayRule | utils/data_processing.py:58 | February 29th exists in 2024 and 2000 but not 2023 or 1900; no 30th of February, 31st of April or 32nd of any month |
| Dates.ZeroMonthExample | utils/data_processing.py:58 | month 00 is rejected |
| Dates.TwoDigitYearExample | utils/data_processing.py:58 | a two-digit year is rejected |
| Dates.IsoDateExample | utils/data_processing.py:58 | a `YYYY-MM-DD` date is rejected |
| Cleaning.ParseDates | utils/data_processing.py:58 | the date conversion succeeds iff every row's date is missing, a null text (empty, NaT or NaN) or well formed; on success rows map one to one, on failure it names the first malformed row |
| Cleaning.NullDateDropped | utils/data_processing.py:58-61 | a null date text becomes NaT instead of failing, and the year filter then drops its row |
| Cleaning.Qualifying | utils/data_processing.py:61-68 | a row is kept iff it is dated 2023, has a utilization, and that utilization is not 0; no row is duplicated |
| Text.Insert | utils/data_processing.py:74 | inserting into a sorted list keeps it sorted and adds exactly that element |
| Text.Sort | utils/data_processing.py:74 | `sorted` returns a permutation ordered by Python's code-point string order |
| Text.SplitJoin | utils/data_processing.py:58 | splitting a slash-joined list of slash-free fields gives back the fields |
| Cleaning.GroupOrgs | utils/data_processing.py:73-74 | the group-by's keys are distinct and are exactly the keys of rows with no missing key column |
| Cleaning.GroupOrgsNames | utils/data_processing.py:73-74 | each group holds exactly the organization names of the rows with its key, in row order |
| Cleaning.Consolidate | utils/data_processing.py:73-77 | merged rows have unique key tuples, each comes from some input row, each keyed input row has one, and `Schools In Bldg` is its group's names sorted and joined with ", " |
| Cleaning.CleanData | utils/data_processing.py:52-89 | fails iff some date text is malformed (neither null nor `%m/%d/%Y`); otherwise every row is from 2023 with utilization ≠ 0 and key tuples are unique |
| Cleaning.CleanDataGroups | utils/data_processing.py:58-77 | the cleaned table is exactly the groups of the qualifying rows, so no row is invented |
| Derivation.DeriveFlags | utils/data_processing.py:98-104 | a derived row keeps its record; over capacity iff utilization > 100; exactly one range flag for an over-capacity row, none otherwise |
| Derivation.DeriveAll | utils/data_processing.py:95-106 | `process_data` keeps every row in order and adds the derived flags to each |
| Derivation.ProcessData | utils/data_processing.py:92-106 | the copy-and-add-columns method keeps length and records, flags over capacity iff > 100, and equals `DeriveAll` |
| Derivation.DeriveAllProcessed | utils/data_processing.py:92-106 | every row `process_data` returns carries the flags of its utilization |
| Derivation.RangeCountsSum | utils/data_processing.py:100-104 | over a processed table the four range counts add up to the over-capacity count |
| Rounding.RoundHalfEven | utils/data_processing.py:139 | the result is within half of the exact quotient, and even on a tie |
| Rounding.Hundredths | utils/data_processing.py:139 | the percentage is the nearest hundredth of a percent to the ratio, and lies in 0..100% when the ratio is in 0..1 |
| Rounding.SharesSumNearWhole | utils/data_processing.py:228-231 | four rounded shares of a whole add up to 100% within 0.02 points |
| Plot.GroupByDistrict | utils/data_processing.py:124-128 | the group-by has a key for exactly the districts that occur |
| Plot.GroupByDistrictSums | utils/data_processing.py:124-128 | each district's aggregate is its over-capacity row count and its set of distinct building IDs |
| Plot.SortedDistricts | utils/data_processing.py:124-131 | the group index is strictly ascending and holds exactly the districts present |
| Plot.DistrictCounts | utils/data_processing.py:124-135 | the merged frame has one row per present district, ascending, with over-capacity row count and a positive distinct-ID count |
| Plot.RankMinOrder | utils/data_processing.py:142 | min-ranking descending: ties share a rank, higher value ranks strictly better, the maximum ranks 1, ranks lie in 1..n |
| Plot.RankTieExample | utils/data_processing.py:142 | two values tied at the top rank 1 and the next ranks 3 |
| Plot.BoroughTable | utils/data_processing.py:145-149 | 1-6 Manhattan, 7-12 Bronx, 13-23 and 32 Brooklyn, 24-30 Queens, 31 Staten Island; a borough iff district ≤ 32; below 1 Manhattan |
| Plot.AssignBorough | utils/data_processing.py:145-149 | a masked `.loc` write sets the borough of exactly the selected rows |
| Plot.AssignBoroughs | utils/data_processing.py:145-149 | the five writes in order give each row `BoroughOf` its district, or leave it when no mask matches |
| Plot.ManualLabels | utils/data_processing.py:165-175 | districts 4, 13, 15 and 27 get their hand-placed coordinates, every other district keeps the centroid |
| Plot.OverrideLabels | utils/data_processing.py:173-175 | the override loop sets each row's label to the last matching override, or leaves it |
| Plot.CreatePlotDf | utils/data_processing.py:109-180 | the in-place construction of the table equals `PlotTable` |
| Plot.PlotTableFails | utils/data_processing.py:153 | building the table fails iff the rows do not hold exactly 32 distinct districts |
| Plot.PlotTableRows | utils/data_processing.py:124-135 | a successful table has 32 rows in strictly ascending district order, one per district present |
| Plot.PlotTableCounts | utils/data_processing.py:124-139 | each row holds the district's over-capacity row count, its positive distinct-ID count and the nearest hundredth of their ratio |
| Plot.PlotTableRanks | utils/data_processing.py:142 | each rank is 1 + the number of rows with a strictly higher percentage; ties share it, higher ranks better, top is 1, all in 1..32 |
| Plot.RankColumnOrder | utils/data_processing.py:142 | a column ranked by `RankMin` has the tie, order, range and top properties |
| Plot.PlotTableColumns | utils/data_processing.py:145-175 | each row's borough follows the range table, its neighborhood text is the entry at its position, and the four overridden districts carry their manual labels |
| Plot.FullDistrictSet | utils/data_processing.py:153 | when the districts are exactly 1..32 the table succeeds, row i is district i+1, its neighborhood text is that district's, and it has a borough |
| Plot.OverAtMostBuildings | utils/data_processing.py:124-128 | with no repeated building ID in a district, its over-capacity count is at most its distinct-ID count |
| Plot.UniqueIdsBoundPct | utils/data_processing.py:124-139 | with unique building IDs every district percentage lies in 0..100% |
| Plot.RepeatedIdExceeds | utils/data_processing.py:124-139 | one building in two rows gives 2 over-capacity rows, 1 building and 200% |
| Summary.BucketsOf | utils/data_processing.py:221-231 | bucket counts are the sums of the range flags; with no over-capacity row all bucket percentages are 0, otherwise each is the nearest hundredth to its share |
| Summary.BucketsTotal | utils/data_processing.py:221-241 | on a processed table the bucket counts add up to the over-capacity count, each percentage is in 0..100%, and they add up to 100% within 0.02 points |
| Summary.Share | utils/data_processing.py:212 | the percentage is NaN iff the denominator is 0, else the nearest hundredth, in 0..100% for a part of the whole |
| Summary.PrepCityData | utils/data_processing.py:204-253 | city building count is the row count, over-capacity the flagged-row count, its percentage the nearest hundredth of over-capacity over total (NaN only for no rows, otherwise in 0..100%), and buckets from all rows |
| Summary.SchoolDirectory | utils/data_processing.py:310-333 | one directory row per district row, in order, with name, enrollment, capacity and schools kept, utilization a proportion, and over capacity iff that proportion exceeds 1 |
| Summary.MaxUtil | utils/data_processing.py:279 | the maximum is NaN exactly for an empty district, otherwise a utilization of the district that no other exceeds |
| Summary.PrepDistrictDataFacts | utils/data_processing.py:255-307 | district building count is its row count, over-capacity the plot's per-district count, percentage the nearest hundredth of over-capacity over total, percentage and maximum NaN iff no rows, directory has one row per building row, rank is the plot's rank cells |
| Summary.CountOverInFiltered | utils/data_processing.py:260-264 | summing the over-capacity flag after the district filter equals the per-district group-by sum |
| Summary.DistrictDirectory | utils/data_processing.py:264-302 | in a district's statistics the bucket counts add up to its over-capacity count, and each directory row is over capacity iff its utilization exceeds 1 |
| Summary.RowsAtLeastBuildings | utils/data_processing.py:263 | a district always has at least as many rows as distinct building IDs |
| Summary.RowsEqualBuildings | utils/data_processing.py:263 | with no building ID repeated within the district, the row count equals the distinct-ID count |
| Summary.StatsFor | utils/data_processing.py:338-345 | the statistics map has exactly the given districts as keys |
| Summary.StatsForInsert | utils/data_processing.py:344-345 | adding a district to the key set is one dictionary assignment |
| Summary.DistrictDict | utils/data_processing.py:335-347 | one key per district of the plot table, each mapped to that district's statistics |
| Summary.CreateDistrictDict | utils/data_processing.py:335-347 | the loop builds exactly `DistrictDict` |
| Summary.RanksOfAscending | utils/data_processing.py:283 | in a table with ascending districts a district's rank lookup yields exactly its one row's rank |
| Summary.DistrictDictAgreesWithPlot | utils/data_processing.py:283-292 | for a successful plot table each district entry's rank is the plot rank, its over-capacity count is the plot's, its building count is at least the plot's, and its directory has that many rows |
| Summary.DistrictDictUniqueIds | utils/data_processing.py:263 | with unique building IDs a district entry's building count equals the plot table's |

## Left out

- `load_data`: reading the CSV file and the shapefile is file I/O.
- `clean_geodata`, `format_geojson` and the centroid computation: these are geometry and JSON library calls. The centroid column is an input (`centroids`), aligned by position after `reset_index`.
- `warnings.filterwarnings`: it has no effect on the data.
- The means and medians of `prep_city_data` and `prep_district_data`: they are floating-point statistics. Because of this, `Summary.PrepCityData` takes no plot table; the source uses it only for those statistics.
- Floating-point representation: percentages are exact ratios rounded to the nearest hundredth, ties to even. Binary-float artifacts of `round(…, 2)` and `.round(2)` on values that are not exact are not modelled. The 0.01 scaling of the directory's utilization is exact real arithmetic.
- The integer width of pandas and numpy is not modelled: counts and utilizations are unbounded integers.
- `Bldg ID`, `Bldg Name`, `Geo Dist`, `Organization Name`, `Bldg Enroll` and `Target Bldg Cap` are always present values. A missing value in any of them but the organization name would drop the row from the group-by; a missing organization name would make the name sort or join raise. Neither effect is modelled.
- Plot.PlotTableFails: with no processed rows at all the source does not raise. pandas builds the index from the 32-entry neighborhood list, so the table has 32 rows whose district, counts, percentage, rank and borough are NaN, with the neighborhood texts and centroids by position. The model reports `NeighborhoodsLengthMismatch(0)` for that case instead, and so do `Plot.PlotTable` and `Plot.CreatePlotDf`; a district dictionary keyed by NaN districts is not modelled either.
- Organization names are strings ordered by code point, as Python compares them.
- Cleaning.Consolidate: emits groups in first-appearance order, not in pandas' sorted order of key tuples. The set of rows and their contents are the same, but row order is not modelled.
- Dates.ParseDate: accepts exactly one- or two-digit months and days and four-digit years. It accepts only ASCII digits, where `strptime`'s `\d` in the year and in the day's second digit also accepts other Unicode decimal digits (for example full-width `２０２３`), so such a date fails the model's clean. It does not model `strptime`'s acceptance of a space before a number, or pandas' timestamp range limits.
- A raw date that is not text (a number in the date column) is not modelled: the date column is `Option<string>`.
- The `index += 1` shifts of the cleaned and plot tables, and RangeIndex details: tables are plain sequences.
- Column names and column order of the dictionaries: fields are named record fields.
- `app.py` and `utils/visualizations.py`: the Streamlit layout, caching, and Plotly charts are presentation.
