/**
 * `clean_data`: parse the as-of dates, keep the 2023 rows that have a
 * non-zero utilization, and merge the rows of organizations that share a
 * building into one row per building.
 */
module Cleaning {
  import opened Common
  import opened Seqs
  import opened Text
  import opened Dates
  import opened Records

  const REPORT_YEAR := 2023

  /** One row of the raw enrollment table: one organization in one building. */
  datatype RawRow = RawRow(
    orgName: string,
    bldgId: string,
    bldgName: string,
    geoDist: int,
    bldgEnroll: int,
    targetBldgCap: int,
    targetBldgUtil: Option<int>,
    dataAsOf: Option<string>)

  /** A raw row once its date column has been converted; `None` is NaT. */
  datatype ParsedRow = ParsedRow(
    orgName: string,
    bldgId: string,
    bldgName: string,
    geoDist: int,
    bldgEnroll: int,
    targetBldgCap: int,
    targetBldgUtil: Option<int>,
    dataAsOf: Option<Date>)

  datatype CleanError = MalformedDate(row: nat)

  /** The texts the date conversion reads as null: the empty string and the spellings of NaT and NaN. */
  predicate NullDateText(text: string)
  {
    text == "" || text == "NaT" || text == "nat" || text == "NAT" || text == "nan" || text == "NaN" || text == "NAN"
  }

  /**
   * Converts one date cell: a missing cell or a null text becomes NaT
   * (`Some(None)`), a well-formed text its date, and a malformed text fails
   * (`None`).
   */
  function ConvertDate(cell: Option<string>): Option<Option<Date>>
  {
    match cell
    case None => Some(None)
    case Some(text) =>
      if NullDateText(text) then Some(None)
      else
        match ParseDate(text)
        case None => None
        case Some(d) => Some(Some(d))
  }

  /** Converts one row's date; the row fails only when its date is malformed. */
  function ParseRow(r: RawRow): Option<ParsedRow>
  {
    match ConvertDate(r.dataAsOf)
    case None => None
    case Some(d) => Some(ParsedRow(r.orgName, r.bldgId, r.bldgName, r.geoDist, r.bldgEnroll, r.targetBldgCap, r.targetBldgUtil, d))
  }

  /** The date conversion of the whole column: it fails at the first malformed date. */
  function ParseDates(raw: seq<RawRow>): (res: Result<seq<ParsedRow>, CleanError>)
    ensures res.Ok? <==> forall i :: 0 <= i < |raw| ==> ParseRow(raw[i]).Some?
    ensures res.Ok? ==> |res.value| == |raw| && forall i :: 0 <= i < |raw| ==> Some(res.value[i]) == ParseRow(raw[i])
    ensures res.Err? ==> res.error.row < |raw| && ParseRow(raw[res.error.row]).None?
                         && forall i :: 0 <= i < res.error.row ==> ParseRow(raw[i]).Some?
    decreases |raw|
  {
    if raw == [] then Ok([])
    else
      match ParseRow(raw[0])
      case None => Err(MalformedDate(0))
      case Some(p) =>
        match ParseDates(raw[1..])
        case Err(MalformedDate(i)) => Err(MalformedDate(i + 1))
        case Ok(rest) => Ok([p] + rest)
  }

  /**
   * A null date text does not fail the conversion: the row is kept with a NaT
   * date, which the year filter then drops, so a table of such rows cleans to
   * an empty table.
   */
  lemma {:induction false} NullDateDropped(r: RawRow)
    requires r.dataAsOf.Some? && NullDateText(r.dataAsOf.value)
    ensures ParseRow(r).Some? && ParseRow(r).value.dataAsOf.None?
    ensures CleanData([r]) == Ok([])
  {
    var p := ParseRow(r).value;
    assert ParseDates([r]) == Ok([p]) by {
      assert [r][0] == r && [r][1..] == [];
      assert ParseDates([]) == Ok([]);
      assert [p] + [] == [p];
    }
    var q := Qualifying([p]);
    assert q == [] by {
      assert !InReportYear(p);
    }
    assert Consolidate([]) == [];
  }

  predicate InReportYear(r: ParsedRow)
  {
    r.dataAsOf.Some? && r.dataAsOf.value.year == REPORT_YEAR
  }

  predicate HasUtil(r: ParsedRow)
  {
    r.targetBldgUtil.Some?
  }

  /** `util != 0`, which a missing value also passes. */
  predicate NonZeroUtil(r: ParsedRow)
  {
    r.targetBldgUtil != Some(0)
  }

  /** The three row filters, applied in the source's order. */
  function Qualifying(rows: seq<ParsedRow>): (q: seq<ParsedRow>)
    ensures forall r :: r in q <==> r in rows && InReportYear(r) && HasUtil(r) && NonZeroUtil(r)
    ensures multiset(q) <= multiset(rows)
  {
    Filter(Filter(Filter(rows, InReportYear), HasUtil), NonZeroUtil)
  }

  /** The grouping key of a row; `None` when a key column is missing, as group-by drops such rows. */
  function KeyOf(r: ParsedRow): Option<BuildingKey>
  {
    if r.targetBldgUtil.None? || r.dataAsOf.None? then None
    else Some(BuildingKey(r.bldgId, r.bldgName, r.geoDist, r.bldgEnroll, r.targetBldgCap, r.targetBldgUtil.value, r.dataAsOf.value))
  }

  /** The organization names of the rows with key `k`, in row order. */
  function NamesWithKey(rows: seq<ParsedRow>, k: BuildingKey): seq<string>
    decreases |rows|
  {
    if rows == [] then []
    else (if KeyOf(rows[0]) == Some(k) then [rows[0].orgName] else []) + NamesWithKey(rows[1..], k)
  }

  lemma {:induction false} NamesWithKeyAppend(rows: seq<ParsedRow>, r: ParsedRow, k: BuildingKey)
    ensures NamesWithKey(rows + [r], k) == NamesWithKey(rows, k) + (if KeyOf(r) == Some(k) then [r.orgName] else [])
    decreases |rows|
  {
    if rows == [] {
      assert [r][1..] == [];
    } else {
      assert (rows + [r])[1..] == rows[1..] + [r];
      NamesWithKeyAppend(rows[1..], r, k);
    }
  }

  /** The state of the group-by: the keys in first-seen order and each key's names so far. */
  datatype Groups = Groups(order: seq<BuildingKey>, names: map<BuildingKey, seq<string>>)

  /** Group-by as a left fold of the rows into a map. */
  function GroupOrgs(rows: seq<ParsedRow>): (g: Groups)
    ensures forall i, j :: 0 <= i < j < |g.order| ==> g.order[i] != g.order[j]
    ensures forall k :: k in g.order <==> k in g.names
    ensures forall k :: k in g.names <==> exists r :: r in rows && KeyOf(r) == Some(k)
    decreases |rows|
  {
    if rows == [] then Groups([], map[])
    else
      var init, r := rows[..|rows| - 1], rows[|rows| - 1];
      assert rows == init + [r];
      var g := GroupOrgs(init);
      match KeyOf(r)
      case None => g
      case Some(k) =>
        if k in g.names then Groups(g.order, g.names[k := g.names[k] + [r.orgName]])
        else Groups(g.order + [k], g.names[k := [r.orgName]])
  }

  /** Each group collects exactly the names of the rows that carry its key. */
  lemma {:induction false} GroupOrgsNames(rows: seq<ParsedRow>)
    ensures forall k :: k in GroupOrgs(rows).names ==> GroupOrgs(rows).names[k] == NamesWithKey(rows, k)
    decreases |rows|
  {
    if rows != [] {
      var init, r := rows[..|rows| - 1], rows[|rows| - 1];
      assert rows == init + [r];
      GroupOrgsNames(init);
      var g, g' := GroupOrgs(init), GroupOrgs(rows);
      forall k | k in g'.names
        ensures g'.names[k] == NamesWithKey(rows, k)
      {
        NamesWithKeyAppend(init, r, k);
        if KeyOf(r) != Some(k) {
          assert g'.names[k] == g.names[k];
        } else if k in g.names {
          assert g'.names[k] == g.names[k] + [r.orgName];
        } else {
          NamesWithKeyEmpty(init, k);
          assert g'.names[k] == [r.orgName];
        }
      }
    }
  }

  lemma {:induction false} NamesWithKeyEmpty(rows: seq<ParsedRow>, k: BuildingKey)
    requires forall r :: r in rows ==> KeyOf(r) != Some(k)
    ensures NamesWithKey(rows, k) == []
    decreases |rows|
  {
    if rows != [] {
      assert rows[0] in rows;
      NamesWithKeyEmpty(rows[1..], k);
    }
  }

  /**
   * The merged table: one row per key, whose `Schools In Bldg` is the sorted
   * names of the group joined with ", ".
   */
  function Consolidate(rows: seq<ParsedRow>): (out: seq<BuildingRecord>)
    ensures forall i, j :: 0 <= i < j < |out| ==> KeyOfRecord(out[i]) != KeyOfRecord(out[j])
    ensures forall b :: b in out ==> exists r :: r in rows && KeyOf(r) == Some(KeyOfRecord(b))
    ensures forall r :: r in rows && KeyOf(r).Some? ==> exists b :: b in out && KeyOfRecord(b) == KeyOf(r).value
    ensures forall b :: b in out ==> b.schoolsInBldg == Join(Sort(NamesWithKey(rows, KeyOfRecord(b))), ", ")
  {
    var g := GroupOrgs(rows);
    var out := seq(|g.order|, i requires 0 <= i < |g.order| => RecordOf(g.order[i], Join(Sort(g.names[g.order[i]]), ", ")));
    ConsolidateCorrect(rows, g, out);
    out
  }

  lemma ConsolidateCorrect(rows: seq<ParsedRow>, g: Groups, out: seq<BuildingRecord>)
    requires g == GroupOrgs(rows)
    requires |out| == |g.order|
    requires forall i :: 0 <= i < |out| ==> out[i] == RecordOf(g.order[i], Join(Sort(g.names[g.order[i]]), ", "))
    ensures forall i, j :: 0 <= i < j < |out| ==> KeyOfRecord(out[i]) != KeyOfRecord(out[j])
    ensures forall b :: b in out ==> exists r :: r in rows && KeyOf(r) == Some(KeyOfRecord(b))
    ensures forall r :: r in rows && KeyOf(r).Some? ==> exists b :: b in out && KeyOfRecord(b) == KeyOf(r).value
    ensures forall b :: b in out ==> b.schoolsInBldg == Join(Sort(NamesWithKey(rows, KeyOfRecord(b))), ", ")
  {
    GroupOrgsNames(rows);
    forall b | b in out
      ensures (exists r :: r in rows && KeyOf(r) == Some(KeyOfRecord(b)))
      ensures b.schoolsInBldg == Join(Sort(NamesWithKey(rows, KeyOfRecord(b))), ", ")
    {
      var i :| 0 <= i < |out| && out[i] == b;
      assert KeyOfRecord(b) == g.order[i];
      assert g.order[i] in g.names;
    }
    forall r | r in rows && KeyOf(r).Some?
      ensures exists b :: b in out && KeyOfRecord(b) == KeyOf(r).value
    {
      var k := KeyOf(r).value;
      assert k in g.names;
      var i :| 0 <= i < |g.order| && g.order[i] == k;
      assert out[i] in out && KeyOfRecord(out[i]) == k;
    }
  }

  /**
   * `clean_data`. Fails when any date is malformed; otherwise every row it
   * returns is from 2023 with a non-zero utilization, and no two rows share
   * the grouping key.
   */
  function CleanData(raw: seq<RawRow>): (res: Result<seq<BuildingRecord>, CleanError>)
    ensures res.Err? <==> exists i :: 0 <= i < |raw| && ParseRow(raw[i]).None?
    ensures res.Ok? ==> forall b :: b in res.value ==> b.dataAsOf.year == REPORT_YEAR && b.targetBldgUtil != 0
    ensures res.Ok? ==> forall i, j :: 0 <= i < j < |res.value| ==> KeyOfRecord(res.value[i]) != KeyOfRecord(res.value[j])
  {
    match ParseDates(raw)
    case Err(e) => Err(e)
    case Ok(parsed) => Ok(Consolidate(Qualifying(parsed)))
  }

  /**
   * The merged rows are exactly the groups of the qualifying rows: each
   * qualifying row's key has an output row, each output row's key is that of
   * a qualifying row, and each output row lists that group's names, sorted.
   */
  lemma CleanDataGroups(raw: seq<RawRow>)
    requires CleanData(raw).Ok?
    ensures var q := Qualifying(ParseDates(raw).value);
            var out := CleanData(raw).value;
            && (forall r :: r in q ==> exists b :: b in out && KeyOfRecord(b) == KeyOf(r).value)
            && (forall b :: b in out ==> exists r :: r in q && KeyOf(r) == Some(KeyOfRecord(b)))
            && (forall b :: b in out ==> b.schoolsInBldg == Join(Sort(NamesWithKey(q, KeyOfRecord(b))), ", "))
  {
  }
}
