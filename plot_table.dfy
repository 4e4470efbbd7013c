/**
 * `create_plot_df`: the one-row-per-district table behind the map and the
 * bar chart. Rows are grouped by district; each district row carries its
 * over-capacity count, its number of distinct buildings, the percentage of
 * those that are over capacity, its rank by that percentage, its borough, its
 * neighborhoods and the coordinates of its map label.
 */
module Plot {
  import opened Common
  import opened Seqs
  import opened Dates
  import opened Records
  import opened Derivation
  import opened Rounding

  datatype Borough = Manhattan | Bronx | Brooklyn | Queens | StatenIsland

  /** A longitude/latitude pair, used as an opaque value. */
  datatype Coord = Coord(lon: real, lat: real)

  /**
   * A row of the plotting table. `pctOverCapacity` is in hundredths of a
   * percent; `None` in `borough` or `labelPos` is a NaN cell.
   */
  datatype PlotRow = PlotRow(
    schoolDist: int,
    overCapacity: nat,
    totalBldgs: nat,
    pctOverCapacity: int,
    rankByOverCapacity: nat,
    borough: Option<Borough>,
    neighborhoods: string,
    labelPos: Option<Coord>)

  /** Assigning the 32-entry neighborhood list to a table of another length raises. */
  datatype PlotError = NeighborhoodsLengthMismatch(rows: nat)

  /** The neighborhoods served by each district, listed in district order. */
  const NEIGHBORHOODS: seq<string> := [
    "East Village, Lower East Side",
    "Financial District, Tribeca,<br>West Village, Clinton,<br>Midtown, Gramercy,<br>Upper East Side",
    "Lincoln Square, Upper West Side",
    "East Harlem, Randall's Island",
    "Central Harlem, Morningside Heights",
    "Inwood, Washington Heights",
    "Mott Haven, Port Morris",
    "Country Club, Edgewater Park,<br>Soundview, Hunts Point",
    "Morris Heights, Mount Eden",
    "Riverdale, Bedford Park,<br>Norwood",
    "Wakefield, Co-op City,<br>Pelham Parkway",
    "East Tremont, Claremont Village",
    "Brooklyn Heights, Fort Greene,<br>Clinton Hill",
    "Greenpoint, Williamsburg",
    "Sunset Park, Cobble Hill",
    "Bedford Stuyvesant, Weeksville",
    "Prospect Park, Wingate",
    "Canarsie, East Flatbush",
    "Cypress Hills, East New York,<br>Starrett City",
    "Bay Ridge, Fort Hamilton,<br>Dyker Heights",
    "Coney Island, Sheepshead Bay,<br>Gravesend, Ocean Parkway",
    "Marine Park, Georgetown,<br>Flatlands",
    "Brownsville, Ocean Hill",
    "Glendale, Ridgewood,<br>Maspeth, Jackson Heights,<br>Sunnyside",
    "College Point, Whitestone,<br>Hillcrest",
    "Floral Park, Little Neck,<br>Bayside, Fresh Meadows",
    "Richmond Hill, Woodhaven,<br>Howard Beach, South Ozone Park",
    "Rego Park, Forest Hills,<br>Kew Gardens",
    "Rosedale, Saint Albans,<br>Cambria Heights, Queens Village",
    "Hunters Point, Long Island City,<br>Astoria, Steinway",
    "Staten Island",
    "Bushwick"
  ]

  /** Hand-placed label coordinates, in the order the overrides are applied. */
  const MANUAL_COORDS: seq<(int, Coord)> := [
    (4, Coord(-73.938, 40.7925)),
    (13, Coord(-73.969759, 40.687)),
    (15, Coord(-73.991, 40.663772)),
    (27, Coord(-73.797, 40.655))
  ]

  // ---------------------------------------------------------------------------
  // Reference definitions of the per-district aggregates

  /** The districts that occur in the table. */
  function DistrictsOf(rows: seq<DerivedRecord>): set<int>
  {
    set r | r in rows :: r.rec.schoolDist
  }

  /** The number of over-capacity rows in district `d`. */
  function CountOverIn(rows: seq<DerivedRecord>, d: int): nat
    decreases |rows|
  {
    if rows == [] then 0
    else (if rows[0].rec.schoolDist == d && rows[0].overCapacity then 1 else 0) + CountOverIn(rows[1..], d)
  }

  /** The distinct building IDs of district `d`. */
  function BldgIdsIn(rows: seq<DerivedRecord>, d: int): set<string>
  {
    set r | r in rows && r.rec.schoolDist == d :: r.rec.bldgId
  }

  lemma {:induction false} CountOverInAppend(rows: seq<DerivedRecord>, r: DerivedRecord, d: int)
    ensures CountOverIn(rows + [r], d) == CountOverIn(rows, d) + (if r.rec.schoolDist == d && r.overCapacity then 1 else 0)
    decreases |rows|
  {
    if rows == [] {
      assert [r][1..] == [];
    } else {
      assert (rows + [r])[1..] == rows[1..] + [r];
      CountOverInAppend(rows[1..], r, d);
    }
  }

  lemma AppendSets(rows: seq<DerivedRecord>, r: DerivedRecord, d: int)
    ensures DistrictsOf(rows + [r]) == DistrictsOf(rows) + {r.rec.schoolDist}
    ensures BldgIdsIn(rows + [r], d) == BldgIdsIn(rows, d) + (if r.rec.schoolDist == d then {r.rec.bldgId} else {})
  {
    assert forall x :: x in rows + [r] <==> x in rows || x == r;
  }

  // ---------------------------------------------------------------------------
  // The two group-bys, as one fold of the rows into a map

  /** The running aggregate of one district: over-capacity count and building IDs seen. */
  datatype Agg = Agg(overCapacity: nat, bldgIds: set<string>)

  function GroupByDistrict(rows: seq<DerivedRecord>): (m: map<int, Agg>)
    ensures m.Keys == DistrictsOf(rows)
    decreases |rows|
  {
    if rows == [] then map[]
    else
      var init, r := rows[..|rows| - 1], rows[|rows| - 1];
      assert rows == init + [r];
      AppendSets(init, r, r.rec.schoolDist);
      var m := GroupByDistrict(init);
      var d := r.rec.schoolDist;
      var a := if d in m then m[d] else Agg(0, {});
      m[d := Agg(a.overCapacity + (if r.overCapacity then 1 else 0), a.bldgIds + {r.rec.bldgId})]
  }

  /**
   * The fold computes, for every district present, the sum of the
   * over-capacity column and the set whose size is `nunique` of `Bldg ID`.
   */
  lemma {:induction false} GroupByDistrictSums(rows: seq<DerivedRecord>)
    ensures forall d :: d in GroupByDistrict(rows) ==>
              GroupByDistrict(rows)[d] == Agg(CountOverIn(rows, d), BldgIdsIn(rows, d))
    decreases |rows|
  {
    if rows != [] {
      var init, r := rows[..|rows| - 1], rows[|rows| - 1];
      assert rows == init + [r];
      GroupByDistrictSums(init);
      forall d | d in GroupByDistrict(rows)
        ensures GroupByDistrict(rows)[d] == Agg(CountOverIn(rows, d), BldgIdsIn(rows, d))
      {
        CountOverInAppend(init, r, d);
        AppendSets(init, r, d);
        if d !in GroupByDistrict(init) {
          AbsentDistrict(init, d);
        }
      }
    }
  }

  lemma {:induction false} AbsentDistrict(rows: seq<DerivedRecord>, d: int)
    requires d !in DistrictsOf(rows)
    ensures CountOverIn(rows, d) == 0 && BldgIdsIn(rows, d) == {}
    decreases |rows|
  {
    if rows != [] {
      assert rows[0] in rows;
      assert DistrictsOf(rows[1..]) <= DistrictsOf(rows);
      AbsentDistrict(rows[1..], d);
    }
  }

  // ---------------------------------------------------------------------------
  // The group keys in ascending order

  function InsertDistrict(ds: seq<int>, d: int): (r: seq<int>)
    requires Increasing(ds)
    ensures Increasing(r)
    ensures forall x :: x in r <==> x in ds || x == d
    decreases |ds|
  {
    if ds == [] then [d]
    else if d < ds[0] then [d] + ds
    else if d == ds[0] then ds
    else
      var rest := InsertDistrict(ds[1..], d);
      assert forall k :: 0 <= k < |rest| ==> ds[0] < rest[k] by {
        forall k | 0 <= k < |rest| ensures ds[0] < rest[k] {
          assert rest[k] in rest;
        }
      }
      [ds[0]] + rest
  }

  /** The districts of the table in ascending order, each once: the index of the group-by. */
  function SortedDistricts(rows: seq<DerivedRecord>): (ds: seq<int>)
    ensures Increasing(ds)
    ensures forall d :: d in ds <==> d in DistrictsOf(rows)
    decreases |rows|
  {
    if rows == [] then []
    else
      var init, r := rows[..|rows| - 1], rows[|rows| - 1];
      assert rows == init + [r];
      AppendSets(init, r, r.rec.schoolDist);
      InsertDistrict(SortedDistricts(init), r.rec.schoolDist)
  }

  /** A row of the merged group-by result, before the derived columns. */
  datatype DistrictCount = DistrictCount(schoolDist: int, overCapacity: nat, totalBldgs: nat)

  /**
   * The merge of the two group-bys: one row per district present, in
   * ascending district order, with the district's over-capacity row count and
   * its number of distinct building IDs (never zero).
   */
  function DistrictCounts(rows: seq<DerivedRecord>): (cs: seq<DistrictCount>)
    ensures |cs| == |SortedDistricts(rows)|
    ensures forall i :: 0 <= i < |cs| ==>
              && cs[i].schoolDist == SortedDistricts(rows)[i]
              && cs[i].overCapacity == CountOverIn(rows, cs[i].schoolDist)
              && cs[i].totalBldgs == |BldgIdsIn(rows, cs[i].schoolDist)|
              && cs[i].totalBldgs > 0
  {
    var m := GroupByDistrict(rows);
    var ds := SortedDistricts(rows);
    GroupByDistrictSums(rows);
    var cs := seq(|ds|, i requires 0 <= i < |ds| => DistrictCount(ds[i], m[ds[i]].overCapacity, |m[ds[i]].bldgIds|));
    PresentDistrictsHaveBuildings(rows, ds);
    cs
  }

  lemma PresentDistrictsHaveBuildings(rows: seq<DerivedRecord>, ds: seq<int>)
    requires forall d :: d in ds ==> d in DistrictsOf(rows)
    ensures forall i :: 0 <= i < |ds| ==> |BldgIdsIn(rows, ds[i])| > 0
  {
    forall i | 0 <= i < |ds|
      ensures |BldgIdsIn(rows, ds[i])| > 0
    {
      assert ds[i] in ds;
      var r :| r in rows && r.rec.schoolDist == ds[i];
      assert r.rec.bldgId in BldgIdsIn(rows, ds[i]);
    }
  }

  // ---------------------------------------------------------------------------
  // Ranking

  /** The number of values in `s` strictly greater than `x`. */
  function CountGreater(s: seq<int>, x: int): (n: nat)
    ensures n <= |s|
    decreases |s|
  {
    if s == [] then 0 else (if s[0] > x then 1 else 0) + CountGreater(s[1..], x)
  }

  /** `rank(method='min', ascending=False)`: one more than the number of strictly greater values. */
  function RankMin(s: seq<int>, x: int): nat
  {
    1 + CountGreater(s, x)
  }

  lemma {:induction false} CountGreaterMonotone(s: seq<int>, x: int, y: int)
    requires x <= y
    ensures CountGreater(s, y) <= CountGreater(s, x)
    decreases |s|
  {
    if s != [] {
      CountGreaterMonotone(s[1..], x, y);
    }
  }

  lemma {:induction false} CountGreaterStrict(s: seq<int>, x: int, y: int)
    requires x < y && y in s
    ensures CountGreater(s, y) < CountGreater(s, x)
    decreases |s|
  {
    if s[0] == y {
      CountGreaterMonotone(s[1..], x, y);
    } else {
      CountGreaterStrict(s[1..], x, y);
    }
  }

  lemma {:induction false} CountGreaterOfMember(s: seq<int>, x: int)
    requires x in s
    ensures CountGreater(s, x) < |s|
    decreases |s|
  {
    if s[0] != x {
      CountGreaterOfMember(s[1..], x);
    }
  }

  lemma {:induction false} CountGreaterOfMaximum(s: seq<int>, x: int)
    requires forall i :: 0 <= i < |s| ==> s[i] <= x
    ensures CountGreater(s, x) == 0
    decreases |s|
  {
    if s != [] {
      CountGreaterOfMaximum(s[1..], x);
    }
  }

  /**
   * Min-ranking in descending order: equal values share a rank, a strictly
   * greater value has a strictly smaller rank, a maximum ranks 1 and every
   * rank lies in 1..|s|.
   */
  lemma RankMinOrder(s: seq<int>, x: int, y: int)
    requires x in s && y in s
    ensures x == y ==> RankMin(s, x) == RankMin(s, y)
    ensures x > y ==> RankMin(s, x) < RankMin(s, y)
    ensures 1 <= RankMin(s, x) <= |s|
    ensures (forall i :: 0 <= i < |s| ==> s[i] <= x) ==> RankMin(s, x) == 1
  {
    if x > y {
      CountGreaterStrict(s, y, x);
    }
    CountGreaterOfMember(s, x);
    if forall i :: 0 <= i < |s| ==> s[i] <= x {
      CountGreaterOfMaximum(s, x);
    }
  }

  /** Two districts tied at the top both rank 1 and the next one ranks 3. */
  lemma {:induction false} RankTieExample()
    ensures var ps := [5000, 5000, 2500];
            RankMin(ps, 5000) == 1 && RankMin(ps, 2500) == 3
  {
    var ps := [5000, 5000, 2500];
    assert ps[1..][1..][1..] == [];
    assert CountGreater(ps[1..][1..], 2500) == 0;
    assert CountGreater(ps[1..][1..], 5000) == 0;
  }

  // ---------------------------------------------------------------------------
  // Derived columns

  /** The `PctOverCapacity` column, in hundredths of a percent. */
  function Pcts(cs: seq<DistrictCount>): (ps: seq<int>)
    requires forall i :: 0 <= i < |cs| ==> cs[i].totalBldgs > 0
    ensures |ps| == |cs|
  {
    seq(|cs|, i requires 0 <= i < |cs| => Hundredths(cs[i].overCapacity, cs[i].totalBldgs))
  }

  /** The table after the percentage and rank columns are added. */
  function BaseRows(rows: seq<DerivedRecord>): (base: seq<PlotRow>)
    ensures |base| == |SortedDistricts(rows)|
  {
    var cs := DistrictCounts(rows);
    var ps := Pcts(cs);
    seq(|cs|, i requires 0 <= i < |cs| =>
      PlotRow(cs[i].schoolDist, cs[i].overCapacity, cs[i].totalBldgs, ps[i], RankMin(ps, ps[i]), None, "", None))
  }

  /**
   * The borough each district gets from the five masked assignments, applied
   * in the source's order so that a later one wins; a district matched by none
   * keeps NaN.
   */
  function BoroughOf(d: int): Option<Borough>
  {
    if d == 31 then Some(StatenIsland)
    else if 24 <= d <= 30 then Some(Queens)
    else if (13 <= d <= 23) || d == 32 then Some(Brooklyn)
    else if 7 <= d <= 12 then Some(Bronx)
    else if d <= 6 then Some(Manhattan)
    else None
  }

  /**
   * The borough table: 1-6 Manhattan, 7-12 Bronx, 13-23 and 32 Brooklyn,
   * 24-30 Queens, 31 Staten Island, so every district 1..32 gets exactly one
   * borough. Outside 1..32, the first mask still catches every district
   * below 1, and any district above 32 is left NaN.
   */
  lemma BoroughTable(d: int)
    ensures 1 <= d <= 6 ==> BoroughOf(d) == Some(Manhattan)
    ensures 7 <= d <= 12 ==> BoroughOf(d) == Some(Bronx)
    ensures (13 <= d <= 23 || d == 32) ==> BoroughOf(d) == Some(Brooklyn)
    ensures 24 <= d <= 30 ==> BoroughOf(d) == Some(Queens)
    ensures d == 31 ==> BoroughOf(d) == Some(StatenIsland)
    ensures BoroughOf(d).Some? <==> d <= 32
    ensures d < 1 ==> BoroughOf(d) == Some(Manhattan)
  {
  }

  /** The label from the centroid column, aligned on the row position; NaN past its end. */
  function CentroidLabel(i: nat, centroids: seq<Coord>): Option<Coord>
  {
    if i < |centroids| then Some(centroids[i]) else None
  }

  /** A district's label after the overrides in `coords`, applied in order (the last match wins). */
  function OverrideLabel(d: int, current: Option<Coord>, coords: seq<(int, Coord)>): Option<Coord>
    decreases |coords|
  {
    if coords == [] then current
    else if coords[|coords| - 1].0 == d then Some(coords[|coords| - 1].1)
    else OverrideLabel(d, current, coords[..|coords| - 1])
  }

  /** The label position of the row at position `i`, holding district `d`. */
  function LabelFor(d: int, i: nat, centroids: seq<Coord>): Option<Coord>
  {
    OverrideLabel(d, CentroidLabel(i, centroids), MANUAL_COORDS)
  }

  /** Districts 4, 13, 15 and 27 get their hand-placed labels; every other district keeps its centroid. */
  lemma ManualLabels(d: int, i: nat, centroids: seq<Coord>)
    ensures d == 4 ==> LabelFor(d, i, centroids) == Some(Coord(-73.938, 40.7925))
    ensures d == 13 ==> LabelFor(d, i, centroids) == Some(Coord(-73.969759, 40.687))
    ensures d == 15 ==> LabelFor(d, i, centroids) == Some(Coord(-73.991, 40.663772))
    ensures d == 27 ==> LabelFor(d, i, centroids) == Some(Coord(-73.797, 40.655))
    ensures d != 4 && d != 13 && d != 15 && d != 27 ==> LabelFor(d, i, centroids) == CentroidLabel(i, centroids)
  {
    var c, cur := MANUAL_COORDS, CentroidLabel(i, centroids);
    assert c[..1][..0] == [] && c[..1][0] == c[0];
    assert OverrideLabel(d, cur, c[..1]) == if d == 4 then Some(c[0].1) else cur;
    assert c[..2][..1] == c[..1] && c[..2][1] == c[1];
    assert OverrideLabel(d, cur, c[..2]) == if d == 13 then Some(c[1].1) else OverrideLabel(d, cur, c[..1]);
    assert c[..3][..2] == c[..2] && c[..3][2] == c[2];
    assert OverrideLabel(d, cur, c[..3]) == if d == 15 then Some(c[2].1) else OverrideLabel(d, cur, c[..2]);
    assert c[..3] == c[..|c| - 1];
  }

  /**
   * `create_plot_df` as a function of the processed rows and the centroid
   * column of the district shapes.
   */
  function PlotTable(processed: seq<DerivedRecord>, centroids: seq<Coord>): Result<seq<PlotRow>, PlotError>
  {
    var base := BaseRows(processed);
    if |base| != |NEIGHBORHOODS| then Err(NeighborhoodsLengthMismatch(|base|))
    else Ok(seq(|base|, i requires 0 <= i < |base| =>
      base[i].(borough := BoroughOf(base[i].schoolDist),
               neighborhoods := NEIGHBORHOODS[i],
               labelPos := LabelFor(base[i].schoolDist, i, centroids))))
  }

  /**
   * `create_plot_df`: builds the aggregate table, then assigns the borough
   * column through five masked assignments, the neighborhood and centroid
   * columns by position, and finally overrides the labels of the hand-placed
   * districts one by one.
   */
  method CreatePlotDf(processed: seq<DerivedRecord>, centroids: seq<Coord>) returns (res: Result<seq<PlotRow>, PlotError>)
    ensures res == PlotTable(processed, centroids)
  {
    var base := BaseRows(processed);
    var frame := new PlotRow[|base|](i requires 0 <= i < |base| => base[i]);
    AssignBoroughs(frame);
    if frame.Length != |NEIGHBORHOODS| {
      return Err(NeighborhoodsLengthMismatch(frame.Length));
    }
    forall i | 0 <= i < frame.Length {
      frame[i] := frame[i].(neighborhoods := NEIGHBORHOODS[i], labelPos := CentroidLabel(i, centroids));
    }
    OverrideLabels(frame);
    ghost var expected := PlotTable(processed, centroids);
    assert expected.Ok? && |expected.value| == frame.Length;
    forall i | 0 <= i < frame.Length
      ensures frame[i] == expected.value[i]
    {
    }
    assert frame[..] == expected.value;
    res := Ok(frame[..]);
  }

  /** The five masked assignments of the borough column, in the source's order; an unmatched row keeps its cell. */
  method AssignBoroughs(frame: array<PlotRow>)
    modifies frame
    ensures forall i :: 0 <= i < frame.Length ==>
              frame[i] == old(frame[i]).(borough :=
                if BoroughOf(old(frame[i]).schoolDist).Some? then BoroughOf(old(frame[i]).schoolDist)
                else old(frame[i]).borough)
  {
    AssignBorough(frame, d => d <= 6, Manhattan);
    AssignBorough(frame, d => 7 <= d <= 12, Bronx);
    AssignBorough(frame, d => (13 <= d <= 23) || d == 32, Brooklyn);
    AssignBorough(frame, d => 24 <= d <= 30, Queens);
    AssignBorough(frame, d => d == 31, StatenIsland);
  }

  /** `plot_df.loc[mask, 'Borough'] = b`: the rows whose district the mask selects get borough `b`. */
  method AssignBorough(frame: array<PlotRow>, mask: int -> bool, b: Borough)
    modifies frame
    ensures forall i :: 0 <= i < frame.Length ==>
              frame[i] == old(frame[i]).(borough := if mask(old(frame[i]).schoolDist) then Some(b) else old(frame[i]).borough)
  {
    forall i | 0 <= i < frame.Length && mask(frame[i].schoolDist) {
      frame[i] := frame[i].(borough := Some(b));
    }
  }

  /** The hand-placed label overrides, applied one district at a time. */
  method OverrideLabels(frame: array<PlotRow>)
    modifies frame
    ensures forall i :: 0 <= i < frame.Length ==>
              frame[i] == old(frame[i]).(labelPos := OverrideLabel(old(frame[i]).schoolDist, old(frame[i]).labelPos, MANUAL_COORDS))
  {
    for j := 0 to |MANUAL_COORDS|
      invariant forall i :: 0 <= i < frame.Length ==>
                  frame[i] == old(frame[i]).(labelPos := OverrideLabel(old(frame[i]).schoolDist, old(frame[i]).labelPos, MANUAL_COORDS[..j]))
    {
      var district, coord := MANUAL_COORDS[j].0, MANUAL_COORDS[j].1;
      assert MANUAL_COORDS[..j + 1][..j] == MANUAL_COORDS[..j];
      forall i | 0 <= i < frame.Length && frame[i].schoolDist == district {
        frame[i] := frame[i].(labelPos := Some(coord));
      }
    }
    assert MANUAL_COORDS[..|MANUAL_COORDS|] == MANUAL_COORDS;
  }

  // ---------------------------------------------------------------------------
  // Properties of the table

  /** The percentage column of a table. */
  function PctColumn(rows: seq<PlotRow>): (ps: seq<int>)
    ensures |ps| == |rows|
    ensures forall i :: 0 <= i < |rows| ==> ps[i] == rows[i].pctOverCapacity
  {
    seq(|rows|, i requires 0 <= i < |rows| => rows[i].pctOverCapacity)
  }

  lemma PlotRowAt(processed: seq<DerivedRecord>, centroids: seq<Coord>, i: nat)
    requires PlotTable(processed, centroids).Ok? && i < |PlotTable(processed, centroids).value|
    ensures var row, cs := PlotTable(processed, centroids).value[i], DistrictCounts(processed);
            var ps := Pcts(cs);
            && i < |cs|
            && row.schoolDist == cs[i].schoolDist
            && row.overCapacity == cs[i].overCapacity
            && row.totalBldgs == cs[i].totalBldgs
            && row.pctOverCapacity == ps[i]
            && row.rankByOverCapacity == RankMin(ps, ps[i])
            && row.borough == BoroughOf(row.schoolDist)
            && row.neighborhoods == NEIGHBORHOODS[i]
            && row.labelPos == LabelFor(row.schoolDist, i, centroids)
  {
  }

  lemma DistrictCountIsSortedLength(rows: seq<DerivedRecord>)
    ensures |DistrictsOf(rows)| == |SortedDistricts(rows)|
  {
    var ds := SortedDistricts(rows);
    IncreasingCardinality(ds);
    assert (set x | x in ds) == DistrictsOf(rows);
  }

  /**
   * The table fails exactly when the processed rows do not hold 32 distinct
   * districts, reporting the number of rows the merge produced.
   */
  lemma PlotTableFails(processed: seq<DerivedRecord>, centroids: seq<Coord>)
    ensures PlotTable(processed, centroids).Err? <==> |DistrictsOf(processed)| != 32
    ensures PlotTable(processed, centroids).Err? ==>
              PlotTable(processed, centroids).error == NeighborhoodsLengthMismatch(|DistrictsOf(processed)|)
  {
    DistrictCountIsSortedLength(processed);
  }

  /**
   * A successful table has 32 rows, one per district present, in ascending
   * district order.
   */
  lemma PlotTableRows(processed: seq<DerivedRecord>, centroids: seq<Coord>, rows: seq<PlotRow>)
    requires PlotTable(processed, centroids) == Ok(rows)
    ensures |rows| == 32
    ensures forall i, j :: 0 <= i < j < |rows| ==> rows[i].schoolDist < rows[j].schoolDist
    ensures forall d :: d in DistrictsOf(processed) <==> exists i :: 0 <= i < |rows| && rows[i].schoolDist == d
  {
    PlotTableFails(processed, centroids);
    DistrictColumn(processed, centroids, rows);
    DistrictColumnFacts(processed, rows);
  }

  lemma DistrictColumn(processed: seq<DerivedRecord>, centroids: seq<Coord>, rows: seq<PlotRow>)
    requires PlotTable(processed, centroids) == Ok(rows)
    ensures |rows| == |SortedDistricts(processed)|
    ensures forall i :: 0 <= i < |rows| ==> rows[i].schoolDist == SortedDistricts(processed)[i]
  {
    forall i | 0 <= i < |rows|
      ensures rows[i].schoolDist == SortedDistricts(processed)[i]
    {
      PlotRowAt(processed, centroids, i);
    }
  }

  lemma DistrictColumnFacts(processed: seq<DerivedRecord>, rows: seq<PlotRow>)
    requires |rows| == |SortedDistricts(processed)|
    requires forall i :: 0 <= i < |rows| ==> rows[i].schoolDist == SortedDistricts(processed)[i]
    ensures forall i, j :: 0 <= i < j < |rows| ==> rows[i].schoolDist < rows[j].schoolDist
    ensures forall d :: d in DistrictsOf(processed) <==> exists i :: 0 <= i < |rows| && rows[i].schoolDist == d
  {
    var ds := SortedDistricts(processed);
    forall d | d in DistrictsOf(processed)
      ensures exists i :: 0 <= i < |rows| && rows[i].schoolDist == d
    {
      assert d in ds;
      var i :| 0 <= i < |ds| && ds[i] == d;
      assert rows[i].schoolDist == d;
    }
  }

  /**
   * The row at position `i` holds its district's over-capacity row count,
   * its positive number of distinct building IDs, and the hundredth of a
   * percent nearest to their ratio.
   */
  lemma PlotTableCounts(processed: seq<DerivedRecord>, centroids: seq<Coord>, rows: seq<PlotRow>, i: nat)
    requires PlotTable(processed, centroids) == Ok(rows) && i < |rows|
    ensures rows[i].overCapacity == CountOverIn(processed, rows[i].schoolDist)
    ensures rows[i].totalBldgs == |BldgIdsIn(processed, rows[i].schoolDist)|
    ensures rows[i].totalBldgs > 0
    ensures 2 * (rows[i].pctOverCapacity * rows[i].totalBldgs - 10000 * rows[i].overCapacity) <= rows[i].totalBldgs
    ensures 2 * (10000 * rows[i].overCapacity - rows[i].pctOverCapacity * rows[i].totalBldgs) <= rows[i].totalBldgs
  {
    PlotRowAt(processed, centroids, i);
  }

  /**
   * `rank(method='min', ascending=False)` on the percentage column: a row's
   * rank is one more than the number of rows with a strictly higher
   * percentage, so ties share a rank, a higher percentage ranks strictly
   * better, a highest percentage ranks 1 and every rank lies in 1..32.
   */
  lemma PlotTableRanks(processed: seq<DerivedRecord>, centroids: seq<Coord>, rows: seq<PlotRow>)
    requires PlotTable(processed, centroids) == Ok(rows)
    ensures forall i :: 0 <= i < |rows| ==>
              rows[i].rankByOverCapacity == 1 + CountGreater(PctColumn(rows), rows[i].pctOverCapacity)
    ensures forall i, j :: 0 <= i < |rows| && 0 <= j < |rows| ==>
              && (rows[i].pctOverCapacity == rows[j].pctOverCapacity ==> rows[i].rankByOverCapacity == rows[j].rankByOverCapacity)
              && (rows[i].pctOverCapacity > rows[j].pctOverCapacity ==> rows[i].rankByOverCapacity < rows[j].rankByOverCapacity)
    ensures forall i :: 0 <= i < |rows| ==> 1 <= rows[i].rankByOverCapacity <= |rows|
    ensures forall i :: 0 <= i < |rows| && (forall j :: 0 <= j < |rows| ==> rows[j].pctOverCapacity <= rows[i].pctOverCapacity) ==>
              rows[i].rankByOverCapacity == 1
  {
    RankColumn(processed, centroids, rows);
    RankColumnOrder(rows);
  }

  lemma RankColumn(processed: seq<DerivedRecord>, centroids: seq<Coord>, rows: seq<PlotRow>)
    requires PlotTable(processed, centroids) == Ok(rows)
    ensures forall i :: 0 <= i < |rows| ==> rows[i].rankByOverCapacity == RankMin(PctColumn(rows), rows[i].pctOverCapacity)
  {
    var ps := Pcts(DistrictCounts(processed));
    forall k | 0 <= k < |rows|
      ensures rows[k].pctOverCapacity == ps[k]
      ensures rows[k].rankByOverCapacity == RankMin(ps, ps[k])
    {
      PlotRowAt(processed, centroids, k);
    }
    assert PctColumn(rows) == ps;
  }

  lemma RankColumnOrder(rows: seq<PlotRow>)
    requires forall i :: 0 <= i < |rows| ==> rows[i].rankByOverCapacity == RankMin(PctColumn(rows), rows[i].pctOverCapacity)
    ensures forall i, j :: 0 <= i < |rows| && 0 <= j < |rows| ==>
              && (rows[i].pctOverCapacity == rows[j].pctOverCapacity ==> rows[i].rankByOverCapacity == rows[j].rankByOverCapacity)
              && (rows[i].pctOverCapacity > rows[j].pctOverCapacity ==> rows[i].rankByOverCapacity < rows[j].rankByOverCapacity)
    ensures forall i :: 0 <= i < |rows| ==> 1 <= rows[i].rankByOverCapacity <= |rows|
    ensures forall i :: 0 <= i < |rows| && (forall j :: 0 <= j < |rows| ==> rows[j].pctOverCapacity <= rows[i].pctOverCapacity) ==>
              rows[i].rankByOverCapacity == 1
  {
    var ps := PctColumn(rows);
    forall i, j | 0 <= i < |rows| && 0 <= j < |rows|
      ensures rows[i].pctOverCapacity == rows[j].pctOverCapacity ==> rows[i].rankByOverCapacity == rows[j].rankByOverCapacity
      ensures rows[i].pctOverCapacity > rows[j].pctOverCapacity ==> rows[i].rankByOverCapacity < rows[j].rankByOverCapacity
      ensures 1 <= rows[i].rankByOverCapacity <= |rows|
      ensures (forall k :: 0 <= k < |rows| ==> rows[k].pctOverCapacity <= rows[i].pctOverCapacity) ==> rows[i].rankByOverCapacity == 1
    {
      assert ps[i] in ps && ps[j] in ps;
      RankMinOrder(ps, ps[i], ps[j]);
    }
  }

  /**
   * The borough, neighborhood and label columns of the row at position `i`:
   * a district 1..32 gets its borough from the table of `BoroughTable` and a
   * district above 32 none; the neighborhood text is the entry at the row's
   * position; districts 4, 13, 15 and 27 carry their hand-placed labels and
   * every other row the centroid at its position.
   */
  lemma PlotTableColumns(processed: seq<DerivedRecord>, centroids: seq<Coord>, rows: seq<PlotRow>, i: nat)
    requires PlotTable(processed, centroids) == Ok(rows) && i < |rows|
    ensures rows[i].borough.Some? <==> rows[i].schoolDist <= 32
    ensures 1 <= rows[i].schoolDist <= 6 ==> rows[i].borough == Some(Manhattan)
    ensures 7 <= rows[i].schoolDist <= 12 ==> rows[i].borough == Some(Bronx)
    ensures (13 <= rows[i].schoolDist <= 23 || rows[i].schoolDist == 32) ==> rows[i].borough == Some(Brooklyn)
    ensures 24 <= rows[i].schoolDist <= 30 ==> rows[i].borough == Some(Queens)
    ensures rows[i].schoolDist == 31 ==> rows[i].borough == Some(StatenIsland)
    ensures rows[i].neighborhoods == NEIGHBORHOODS[i]
    ensures rows[i].schoolDist == 4 ==> rows[i].labelPos == Some(Coord(-73.938, 40.7925))
    ensures rows[i].schoolDist == 13 ==> rows[i].labelPos == Some(Coord(-73.969759, 40.687))
    ensures rows[i].schoolDist == 15 ==> rows[i].labelPos == Some(Coord(-73.991, 40.663772))
    ensures rows[i].schoolDist == 27 ==> rows[i].labelPos == Some(Coord(-73.797, 40.655))
    ensures rows[i].schoolDist !in {4, 13, 15, 27} ==> rows[i].labelPos == CentroidLabel(i, centroids)
  {
    PlotRowAt(processed, centroids, i);
    BoroughTable(rows[i].schoolDist);
    ManualLabels(rows[i].schoolDist, i, centroids);
  }

  /**
   * When the processed rows cover exactly the districts 1..32, the table
   * succeeds, its row at position i is district i + 1, and so the positional
   * neighborhood list lines up with the districts and every row has a
   * borough.
   */
  lemma FullDistrictSet(processed: seq<DerivedRecord>, centroids: seq<Coord>)
    requires forall d :: d in DistrictsOf(processed) <==> 1 <= d <= 32
    ensures PlotTable(processed, centroids).Ok?
    ensures var rows := PlotTable(processed, centroids).value;
            && |rows| == 32
            && forall i :: 0 <= i < 32 ==>
                 && rows[i].schoolDist == i + 1
                 && rows[i].neighborhoods == NEIGHBORHOODS[rows[i].schoolDist - 1]
                 && rows[i].borough.Some?
  {
    var ds := SortedDistricts(processed);
    IncreasingOneTo(ds, 32);
    PlotTableFails(processed, centroids);
    var rows := PlotTable(processed, centroids).value;
    forall i | 0 <= i < 32
      ensures rows[i].schoolDist == i + 1
      ensures rows[i].neighborhoods == NEIGHBORHOODS[rows[i].schoolDist - 1]
      ensures rows[i].borough.Some?
    {
      PlotRowAt(processed, centroids, i);
      PlotTableColumns(processed, centroids, rows, i);
    }
  }

  lemma PrependSets(rows: seq<DerivedRecord>, d: int)
    requires rows != []
    ensures BldgIdsIn(rows, d) == (if rows[0].rec.schoolDist == d then {rows[0].rec.bldgId} else {}) + BldgIdsIn(rows[1..], d)
  {
    assert forall x :: x in rows <==> x == rows[0] || x in rows[1..];
  }

  /**
   * With no building ID repeated within district `d`, the over-capacity row
   * count cannot exceed the number of distinct buildings.
   */
  lemma {:induction false} OverAtMostBuildings(rows: seq<DerivedRecord>, d: int)
    requires forall i, j :: 0 <= i < j < |rows| && rows[i].rec.schoolDist == d && rows[j].rec.schoolDist == d ==>
               rows[i].rec.bldgId != rows[j].rec.bldgId
    ensures CountOverIn(rows, d) <= |BldgIdsIn(rows, d)|
    decreases |rows|
  {
    if rows != [] {
      PrependSets(rows, d);
      OverAtMostBuildings(rows[1..], d);
    }
  }

  /**
   * With building IDs unique across the processed rows, a district's
   * over-capacity count is at most its building count, so its percentage
   * lies between 0 and 100.
   */
  lemma UniqueIdsBoundPct(processed: seq<DerivedRecord>, centroids: seq<Coord>, rows: seq<PlotRow>, i: nat)
    requires forall i, j :: 0 <= i < j < |processed| ==> processed[i].rec.bldgId != processed[j].rec.bldgId
    requires PlotTable(processed, centroids) == Ok(rows) && i < |rows|
    ensures rows[i].overCapacity <= rows[i].totalBldgs
    ensures 0 <= rows[i].pctOverCapacity <= 10000
  {
    PlotRowAt(processed, centroids, i);
    OverAtMostBuildings(processed, rows[i].schoolDist);
  }

  /**
   * The over-capacity column counts rows while the building column counts
   * distinct IDs: one building listed twice (for instance under two as-of
   * dates) yields a district with 2 over-capacity rows, 1 building and
   * 200%.
   */
  lemma {:induction false} RepeatedIdExceeds()
    ensures var b1 := BuildingRecord("K001", "P.S. 1", 5, 500, 400, 125, Date(2023, 1, 5), "P.S. 1");
            var b2 := b1.(dataAsOf := Date(2023, 6, 5));
            var cs := DistrictCounts([Derive(b1), Derive(b2)]);
            && |cs| == 1
            && cs[0] == DistrictCount(5, 2, 1)
            && Hundredths(cs[0].overCapacity, cs[0].totalBldgs) == 20000
  {
    var b1 := BuildingRecord("K001", "P.S. 1", 5, 500, 400, 125, Date(2023, 1, 5), "P.S. 1");
    var b2 := b1.(dataAsOf := Date(2023, 6, 5));
    var rows := [Derive(b1), Derive(b2)];
    assert Derive(b1).overCapacity && Derive(b2).overCapacity;
    assert rows[..1] == [Derive(b1)] && rows[..1][..0] == [];
    assert SortedDistricts(rows[..1]) == [5];
    assert rows[..|rows| - 1] == rows[..1];
    assert SortedDistricts(rows) == [5];
    assert rows[1..] == [Derive(b2)] && rows[1..][1..] == [];
    assert CountOverIn(rows[1..], 5) == 1;
    assert CountOverIn(rows, 5) == 2;
    assert BldgIdsIn(rows, 5) == {"K001"};
    assert Hundredths(2, 1) == 20000;
  }
}
