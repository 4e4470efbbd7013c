/**
 * The summary dictionaries: citywide statistics (`prep_city_data`), the
 * statistics of one district (`prep_district_data`) with its school
 * directory (`create_school_directory`), and the dictionary of every
 * district's statistics (`create_district_dict`).
 */
module Summary {
  import opened Common
  import opened Seqs
  import opened Derivation
  import opened Rounding
  import opened Plot

  /**
   * The utilization-range breakdown of the over-capacity rows: the four
   * bucket counts and their shares of the over-capacity count, in
   * hundredths of a percent.
   */
  datatype Buckets = Buckets(
    num101To110: nat, num111To120: nat, num121To130: nat, num131Plus: nat,
    pct101To110: int, pct111To120: int, pct121To130: int, pct131Plus: int)

  /**
   * The bucket counts and percentages of a table. With no over-capacity row
   * every percentage is 0; otherwise each is the nearest hundredth of a
   * percent to the bucket's share of the over-capacity rows.
   */
  function BucketsOf(rows: seq<DerivedRecord>): (b: Buckets)
    ensures b.num101To110 == Count(rows, InRange101To110)
    ensures b.num111To120 == Count(rows, InRange111To120)
    ensures b.num121To130 == Count(rows, InRange121To130)
    ensures b.num131Plus == Count(rows, InRange131Plus)
    ensures Count(rows, IsOverCapacity) == 0 ==>
              b.pct101To110 == 0 && b.pct111To120 == 0 && b.pct121To130 == 0 && b.pct131Plus == 0
    ensures var over := Count(rows, IsOverCapacity);
            over > 0 ==>
              && 2 * (b.pct101To110 * over - 10000 * b.num101To110) <= over
              && 2 * (10000 * b.num101To110 - b.pct101To110 * over) <= over
              && 2 * (b.pct111To120 * over - 10000 * b.num111To120) <= over
              && 2 * (10000 * b.num111To120 - b.pct111To120 * over) <= over
              && 2 * (b.pct121To130 * over - 10000 * b.num121To130) <= over
              && 2 * (10000 * b.num121To130 - b.pct121To130 * over) <= over
              && 2 * (b.pct131Plus * over - 10000 * b.num131Plus) <= over
              && 2 * (10000 * b.num131Plus - b.pct131Plus * over) <= over
  {
    var over := Count(rows, IsOverCapacity);
    var n1, n2, n3, n4 := Count(rows, InRange101To110), Count(rows, InRange111To120),
                          Count(rows, InRange121To130), Count(rows, InRange131Plus);
    if over == 0 then Buckets(n1, n2, n3, n4, 0, 0, 0, 0)
    else Buckets(n1, n2, n3, n4, Hundredths(n1, over), Hundredths(n2, over), Hundredths(n3, over), Hundredths(n4, over))
  }

  /**
   * On a processed table the four bucket counts add up to the over-capacity
   * count, so each bucket percentage lies in 0..100 and, when there is an
   * over-capacity row, the four percentages add up to 100 within the
   * rounding of four terms.
   */
  lemma BucketsTotal(rows: seq<DerivedRecord>)
    requires Processed(rows)
    ensures var b := BucketsOf(rows);
            && b.num101To110 + b.num111To120 + b.num121To130 + b.num131Plus == Count(rows, IsOverCapacity)
            && 0 <= b.pct101To110 <= 10000 && 0 <= b.pct111To120 <= 10000
            && 0 <= b.pct121To130 <= 10000 && 0 <= b.pct131Plus <= 10000
            && (Count(rows, IsOverCapacity) > 0 ==>
                  10000 - 2 <= b.pct101To110 + b.pct111To120 + b.pct121To130 + b.pct131Plus <= 10000 + 2)
  {
    RangeCountsSum(rows);
    var b := BucketsOf(rows);
    if Count(rows, IsOverCapacity) > 0 {
      SharesSumNearWhole(b.num101To110, b.num111To120, b.num121To130, b.num131Plus, Count(rows, IsOverCapacity));
    }
  }

  /** The share `num / den` in hundredths of a percent; NaN (`None`) when `den` is 0. */
  function Share(num: nat, den: nat): (r: Option<int>)
    ensures r.None? <==> den == 0
    ensures r.Some? ==> 2 * (r.value * den - 10000 * num) <= den && 2 * (10000 * num - r.value * den) <= den
    ensures r.Some? && num <= den ==> 0 <= r.value <= 10000
  {
    if den == 0 then None else Some(Hundredths(num, den))
  }

  // ---------------------------------------------------------------------------
  // Citywide statistics

  /** The citywide panel, without the means and medians. */
  datatype CityStats = CityStats(
    totalBldgs: nat,
    totalOvercapacity: nat,
    pctOvercapacity: Option<int>,
    buckets: Buckets)

  /**
   * `prep_city_data`: the citywide building count is the number of processed
   * rows, the over-capacity count the number of flagged rows, and the
   * percentage their ratio (NaN on an empty table).
   */
  function PrepCityData(processed: seq<DerivedRecord>): (s: CityStats)
    ensures s.totalBldgs == |processed|
    ensures s.totalOvercapacity == Count(processed, IsOverCapacity)
    ensures s.totalOvercapacity <= s.totalBldgs
    ensures s.pctOvercapacity == Share(s.totalOvercapacity, s.totalBldgs)
    ensures s.pctOvercapacity.None? <==> processed == []
    ensures s.pctOvercapacity.Some? ==> 0 <= s.pctOvercapacity.value <= 10000
    ensures s.buckets == BucketsOf(processed)
  {
    var over := Count(processed, IsOverCapacity);
    CityStats(|processed|, over, Share(over, |processed|), BucketsOf(processed))
  }

  // ---------------------------------------------------------------------------
  // The school directory

  /** A row of the directory shown for a district; utilization is a proportion. */
  datatype DirectoryRow = DirectoryRow(
    buildingName: string,
    enrollment: int,
    capacity: int,
    utilization: real,
    schoolsInBuilding: string,
    overCapacity: bool)

  /** One directory row: the internal columns dropped, the rest renamed, utilization scaled by 0.01. */
  function DirectoryRowOf(r: DerivedRecord): DirectoryRow
  {
    DirectoryRow(r.rec.bldgName, r.rec.bldgEnroll, r.rec.targetBldgCap,
                 r.rec.targetBldgUtil as real * 0.01, r.rec.schoolsInBldg, r.overCapacity)
  }

  /**
   * `create_school_directory`: one directory row per input row, in order,
   * keeping the building's name, enrollment, capacity and schools, with the
   * utilization as a proportion. On a processed table a row is marked over
   * capacity exactly when that proportion exceeds 1.
   */
  function SchoolDirectory(rows: seq<DerivedRecord>): (dir: seq<DirectoryRow>)
    ensures |dir| == |rows|
    ensures forall i :: 0 <= i < |rows| ==>
              && dir[i].buildingName == rows[i].rec.bldgName
              && dir[i].enrollment == rows[i].rec.bldgEnroll
              && dir[i].capacity == rows[i].rec.targetBldgCap
              && dir[i].schoolsInBuilding == rows[i].rec.schoolsInBldg
              && dir[i].utilization * 100.0 == rows[i].rec.targetBldgUtil as real
    ensures Processed(rows) ==> forall i :: 0 <= i < |rows| ==> (dir[i].overCapacity <==> dir[i].utilization > 1.0)
  {
    seq(|rows|, i requires 0 <= i < |rows| => DirectoryRowOf(rows[i]))
  }

  // ---------------------------------------------------------------------------
  // District statistics

  /** The rows of district `d`: `processed_df[processed_df['SchoolDist'] == d]`. */
  function InDistrict(rows: seq<DerivedRecord>, d: int): seq<DerivedRecord>
  {
    Filter(rows, (r: DerivedRecord) => r.rec.schoolDist == d)
  }

  /** The largest utilization of a table; NaN (`None`) for an empty one. */
  function MaxUtil(rows: seq<DerivedRecord>): (m: Option<int>)
    ensures m.None? <==> rows == []
    ensures m.Some? ==> forall i :: 0 <= i < |rows| ==> rows[i].rec.targetBldgUtil <= m.value
    ensures m.Some? ==> exists i :: 0 <= i < |rows| && rows[i].rec.targetBldgUtil == m.value
    decreases |rows|
  {
    if rows == [] then None
    else
      var rest := MaxUtil(rows[1..]);
      var u := rows[0].rec.targetBldgUtil;
      if rest.None? || rest.value <= u then Some(u)
      else
        var k :| 0 <= k < |rows[1..]| && rows[1..][k].rec.targetBldgUtil == rest.value;
        assert rows[k + 1].rec.targetBldgUtil == rest.value;
        rest
  }

  /** The rank cells of the plot rows of district `d`, in table order (a Series, not a number). */
  function RanksOf(plot: seq<PlotRow>, d: int): (ranks: seq<nat>)
    ensures |ranks| <= |plot|
  {
    var f := Filter(plot, (r: PlotRow) => r.schoolDist == d);
    seq(|f|, i requires 0 <= i < |f| => f[i].rankByOverCapacity)
  }

  /** The district panel, without the mean and median. */
  datatype DistrictStats = DistrictStats(
    totalBldgs: nat,
    totalOvercapacity: nat,
    pctOvercapacity: Option<int>,
    rank: seq<nat>,
    buckets: Buckets,
    maxBldgUtil: Option<int>,
    directory: seq<DirectoryRow>)

  /** `prep_district_data`: the statistics of the rows of district `d`. */
  function PrepDistrictData(processed: seq<DerivedRecord>, plot: seq<PlotRow>, d: int): DistrictStats
  {
    var f := InDistrict(processed, d);
    var over := Count(f, IsOverCapacity);
    DistrictStats(|f|, over, Share(over, |f|), RanksOf(plot, d), BucketsOf(f), MaxUtil(f), SchoolDirectory(f))
  }

  /**
   * The district statistics: the building count is a row count, the
   * over-capacity count is the one the plot table aggregates for `d`, the
   * directory has one row per building row, and a district without rows
   * gets NaN percentage and maximum.
   */
  lemma PrepDistrictDataFacts(processed: seq<DerivedRecord>, plot: seq<PlotRow>, d: int)
    ensures var s := PrepDistrictData(processed, plot, d);
            && s.totalBldgs == Count(processed, (r: DerivedRecord) => r.rec.schoolDist == d)
            && s.totalOvercapacity == CountOverIn(processed, d)
            && s.totalOvercapacity <= s.totalBldgs
            && s.pctOvercapacity == Share(s.totalOvercapacity, s.totalBldgs)
            && (s.pctOvercapacity.None? <==> s.totalBldgs == 0)
            && (s.pctOvercapacity.Some? ==> 0 <= s.pctOvercapacity.value <= 10000)
            && (s.maxBldgUtil.None? <==> s.totalBldgs == 0)
            && |s.directory| == s.totalBldgs
            && s.buckets == BucketsOf(InDistrict(processed, d))
            && s.rank == RanksOf(plot, d)
  {
    FilterCount(processed, (r: DerivedRecord) => r.rec.schoolDist == d);
    CountOverInFiltered(processed, d);
  }

  /** Counting flagged rows after the district filter is counting them per district. */
  lemma {:induction false} CountOverInFiltered(rows: seq<DerivedRecord>, d: int)
    ensures Count(InDistrict(rows, d), IsOverCapacity) == CountOverIn(rows, d)
    decreases |rows|
  {
    if rows != [] {
      CountOverInFiltered(rows[1..], d);
      var head := if rows[0].rec.schoolDist == d then [rows[0]] else [];
      CountAppend(head, InDistrict(rows[1..], d), IsOverCapacity);
    }
  }

  /** The directory lists exactly the district's rows, so on a processed table their flags agree. */
  lemma DistrictDirectory(processed: seq<DerivedRecord>, plot: seq<PlotRow>, d: int)
    requires Processed(processed)
    ensures var s := PrepDistrictData(processed, plot, d);
            && s.buckets.num101To110 + s.buckets.num111To120 + s.buckets.num121To130 + s.buckets.num131Plus
               == s.totalOvercapacity
            && (forall i :: 0 <= i < |s.directory| ==> (s.directory[i].overCapacity <==> s.directory[i].utilization > 1.0))
  {
    PrepDistrictDataFacts(processed, plot, d);
    var f := InDistrict(processed, d);
    assert Processed(f) by {
      forall i | 0 <= i < |f| ensures f[i] == Derive(f[i].rec) {
        assert f[i] in processed;
      }
    }
    CountOverInFiltered(processed, d);
    BucketsTotal(f);
  }

  /** District rows always outnumber (or equal) the district's distinct building IDs. */
  lemma {:induction false} RowsAtLeastBuildings(rows: seq<DerivedRecord>, d: int)
    ensures |InDistrict(rows, d)| >= |BldgIdsIn(rows, d)|
    decreases |rows|
  {
    if rows != [] {
      PrependSets(rows, d);
      RowsAtLeastBuildings(rows[1..], d);
    }
  }

  /** With building IDs unique in district `d`, its rows and its distinct IDs are as many. */
  lemma {:induction false} RowsEqualBuildings(rows: seq<DerivedRecord>, d: int)
    requires forall i, j :: 0 <= i < j < |rows| && rows[i].rec.schoolDist == d && rows[j].rec.schoolDist == d ==>
               rows[i].rec.bldgId != rows[j].rec.bldgId
    ensures |InDistrict(rows, d)| == |BldgIdsIn(rows, d)|
    decreases |rows|
  {
    if rows != [] {
      PrependSets(rows, d);
      RowsEqualBuildings(rows[1..], d);
    }
  }

  // ---------------------------------------------------------------------------
  // The dictionary of all districts

  /** The districts listed in the plot table. */
  function PlotDistricts(plot: seq<PlotRow>): set<int>
  {
    set r | r in plot :: r.schoolDist
  }

  /** The statistics of each district of `ds`. */
  function StatsFor(processed: seq<DerivedRecord>, plot: seq<PlotRow>, ds: set<int>): (m: map<int, DistrictStats>)
    ensures m.Keys == ds
  {
    map d | d in ds :: PrepDistrictData(processed, plot, d)
  }

  /** `create_district_dict` as a map: one entry per plot district, holding its statistics. */
  function DistrictDict(processed: seq<DerivedRecord>, plot: seq<PlotRow>): (m: map<int, DistrictStats>)
    ensures m.Keys == PlotDistricts(plot)
    ensures forall d :: d in m ==> m[d] == PrepDistrictData(processed, plot, d)
  {
    StatsFor(processed, plot, PlotDistricts(plot))
  }

  /**
   * `create_district_dict`: fills the dictionary district by district in
   * the order of the plot table; a repeated district is overwritten with the
   * same statistics.
   */
  method CreateDistrictDict(processed: seq<DerivedRecord>, plot: seq<PlotRow>) returns (dict: map<int, DistrictStats>)
    ensures dict == DistrictDict(processed, plot)
  {
    dict := map[];
    for k := 0 to |plot|
      invariant dict == StatsFor(processed, plot, PlotDistricts(plot[..k]))
    {
      var d := plot[k].schoolDist;
      var data := PrepDistrictData(processed, plot, d);
      PlotDistrictsPrefix(plot, k);
      StatsForInsert(processed, plot, PlotDistricts(plot[..k]), d);
      dict := dict[d := data];
    }
    assert plot[..|plot|] == plot;
  }

  lemma StatsForInsert(processed: seq<DerivedRecord>, plot: seq<PlotRow>, ds: set<int>, d: int)
    ensures StatsFor(processed, plot, ds + {d}) == StatsFor(processed, plot, ds)[d := PrepDistrictData(processed, plot, d)]
  {
  }

  lemma PlotDistrictsPrefix(plot: seq<PlotRow>, k: nat)
    requires k < |plot|
    ensures PlotDistricts(plot[..k + 1]) == PlotDistricts(plot[..k]) + {plot[k].schoolDist}
  {
    assert plot[..k + 1] == plot[..k] + [plot[k]];
    assert forall r :: r in plot[..k + 1] <==> r in plot[..k] || r == plot[k];
  }

  /** In a table with strictly ascending districts, a district's rank cells are its one row's rank. */
  lemma RanksOfAscending(plot: seq<PlotRow>, i: nat)
    requires forall a, b :: 0 <= a < b < |plot| ==> plot[a].schoolDist < plot[b].schoolDist
    requires i < |plot|
    ensures RanksOf(plot, plot[i].schoolDist) == [plot[i].rankByOverCapacity]
  {
    var d := plot[i].schoolDist;
    FilterSingle(plot, (r: PlotRow) => r.schoolDist == d, i);
  }

  /**
   * The dictionary built from a successful plot table: its keys are the
   * plot's districts, and the entry of the row at position `i` has that
   * row's rank as its only rank cell, the plot row's over-capacity count, at
   * least as many buildings as the plot's distinct-ID count (as many when IDs
   * do not repeat within the district) and a directory of that length.
   */
  lemma DistrictDictAgreesWithPlot(processed: seq<DerivedRecord>, centroids: seq<Coord>, plot: seq<PlotRow>, i: nat)
    requires PlotTable(processed, centroids) == Ok(plot) && i < |plot|
    ensures plot[i].schoolDist in DistrictDict(processed, plot)
    ensures var e := DistrictDict(processed, plot)[plot[i].schoolDist];
            && e.rank == [plot[i].rankByOverCapacity]
            && e.totalOvercapacity == plot[i].overCapacity
            && e.totalBldgs >= plot[i].totalBldgs
            && |e.directory| == e.totalBldgs
  {
    var d := plot[i].schoolDist;
    assert plot[i] in plot;
    var e := DistrictDict(processed, plot)[d];
    assert e == PrepDistrictData(processed, plot, d);
    PrepDistrictDataFacts(processed, plot, d);
    PlotTableRows(processed, centroids, plot);
    RanksOfAscending(plot, i);
    PlotTableCounts(processed, centroids, plot, i);
    RowsAtLeastBuildings(processed, d);
    FilterCount(processed, (r: DerivedRecord) => r.rec.schoolDist == d);
  }

  /** Where building IDs never repeat, the dictionary's building count equals the plot's. */
  lemma DistrictDictUniqueIds(processed: seq<DerivedRecord>, centroids: seq<Coord>, plot: seq<PlotRow>, i: nat)
    requires forall i, j :: 0 <= i < j < |processed| ==> processed[i].rec.bldgId != processed[j].rec.bldgId
    requires PlotTable(processed, centroids) == Ok(plot) && i < |plot|
    ensures plot[i].schoolDist in DistrictDict(processed, plot)
    ensures DistrictDict(processed, plot)[plot[i].schoolDist].totalBldgs == plot[i].totalBldgs
  {
    var d := plot[i].schoolDist;
    assert plot[i] in plot;
    PrepDistrictDataFacts(processed, plot, d);
    PlotTableCounts(processed, centroids, plot, i);
    RowsEqualBuildings(processed, d);
    FilterCount(processed, (r: DerivedRecord) => r.rec.schoolDist == d);
  }
}
