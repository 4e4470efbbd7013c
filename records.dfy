/** The cleaned building table: one row per building per reporting date. */
module Records {
  import opened Dates

  /**
   * A row of the cleaned table. Enrollment and capacity are whole numbers of
   * students; utilization is enrollment / capacity as a whole percentage.
   * `schoolsInBldg` is the ", "-joined, sorted list of the organizations
   * housed in the building.
   */
  datatype BuildingRecord = BuildingRecord(
    bldgId: string,
    bldgName: string,
    schoolDist: int,
    bldgEnroll: int,
    targetBldgCap: int,
    targetBldgUtil: int,
    dataAsOf: Date,
    schoolsInBldg: string)

  /** The columns the organization rows are grouped by. */
  datatype BuildingKey = BuildingKey(
    bldgId: string,
    bldgName: string,
    geoDist: int,
    bldgEnroll: int,
    targetBldgCap: int,
    targetBldgUtil: int,
    dataAsOf: Date)

  function KeyOfRecord(b: BuildingRecord): BuildingKey
  {
    BuildingKey(b.bldgId, b.bldgName, b.schoolDist, b.bldgEnroll, b.targetBldgCap, b.targetBldgUtil, b.dataAsOf)
  }

  /** The row for one group, after `reset_index` and the renaming of `Geo Dist`. */
  function RecordOf(k: BuildingKey, schools: string): (b: BuildingRecord)
    ensures KeyOfRecord(b) == k && b.schoolsInBldg == schools
  {
    BuildingRecord(k.bldgId, k.bldgName, k.geoDist, k.bldgEnroll, k.targetBldgCap, k.targetBldgUtil, k.dataAsOf, schools)
  }
}
