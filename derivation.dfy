/**
 * `process_data`: a copy of the cleaned table with an over-capacity flag and
 * four utilization-range flags added to every row.
 */
module Derivation {
  import opened Seqs
  import opened Records

  /** A cleaned row with the five added boolean columns. */
  datatype DerivedRecord = DerivedRecord(
    rec: BuildingRecord,
    overCapacity: bool,
    util101To110: bool,
    util111To120: bool,
    util121To130: bool,
    util131Plus: bool)

  /** The added columns of one row, each computed from its utilization. */
  function Derive(b: BuildingRecord): DerivedRecord
  {
    var u := b.targetBldgUtil;
    DerivedRecord(b, u > 100, 100 < u <= 110, 110 < u <= 120, 120 < u <= 130, u > 130)
  }

  predicate IsOverCapacity(d: DerivedRecord) { d.overCapacity }
  predicate InRange101To110(d: DerivedRecord) { d.util101To110 }
  predicate InRange111To120(d: DerivedRecord) { d.util111To120 }
  predicate InRange121To130(d: DerivedRecord) { d.util121To130 }
  predicate InRange131Plus(d: DerivedRecord) { d.util131Plus }

  /** How many of the four range flags of a row are set. */
  function RangeFlagsSet(d: DerivedRecord): nat
  {
    (if d.util101To110 then 1 else 0) + (if d.util111To120 then 1 else 0)
    + (if d.util121To130 then 1 else 0) + (if d.util131Plus then 1 else 0)
  }

  /**
   * A row is over capacity exactly when its utilization exceeds 100; an
   * over-capacity row has exactly one range flag set and any other row none.
   */
  lemma DeriveFlags(b: BuildingRecord)
    ensures Derive(b).rec == b
    ensures Derive(b).overCapacity <==> b.targetBldgUtil > 100
    ensures RangeFlagsSet(Derive(b)) == if b.targetBldgUtil > 100 then 1 else 0
  {
  }

  /** The table `process_data` returns, as a function of the cleaned table. */
  function DeriveAll(cleaned: seq<BuildingRecord>): (processed: seq<DerivedRecord>)
    ensures |processed| == |cleaned|
    ensures forall i :: 0 <= i < |cleaned| ==> processed[i] == Derive(cleaned[i])
  {
    seq(|cleaned|, i requires 0 <= i < |cleaned| => Derive(cleaned[i]))
  }

  /**
   * `process_data`: copies the table, then adds the five columns one after
   * the other. Every row and every existing column is kept.
   */
  method ProcessData(cleaned: seq<BuildingRecord>) returns (processed: seq<DerivedRecord>)
    ensures |processed| == |cleaned|
    ensures forall i :: 0 <= i < |cleaned| ==> processed[i].rec == cleaned[i]
    ensures forall i :: 0 <= i < |cleaned| ==> (processed[i].overCapacity <==> cleaned[i].targetBldgUtil > 100)
    ensures processed == DeriveAll(cleaned)
  {
    var frame := new DerivedRecord[|cleaned|](i requires 0 <= i < |cleaned| => DerivedRecord(cleaned[i], false, false, false, false, false));
    forall i | 0 <= i < frame.Length {
      frame[i] := frame[i].(overCapacity := frame[i].rec.targetBldgUtil > 100);
    }
    forall i | 0 <= i < frame.Length {
      frame[i] := frame[i].(util101To110 := 100 < frame[i].rec.targetBldgUtil <= 110);
    }
    forall i | 0 <= i < frame.Length {
      frame[i] := frame[i].(util111To120 := 110 < frame[i].rec.targetBldgUtil <= 120);
    }
    forall i | 0 <= i < frame.Length {
      frame[i] := frame[i].(util121To130 := 120 < frame[i].rec.targetBldgUtil <= 130);
    }
    forall i | 0 <= i < frame.Length {
      frame[i] := frame[i].(util131Plus := frame[i].rec.targetBldgUtil > 130);
    }
    processed := frame[..];
  }

  /** Every row carries the flags `Derive` computes from its utilization, as in a table `process_data` returned. */
  predicate Processed(rows: seq<DerivedRecord>)
  {
    forall i :: 0 <= i < |rows| ==> rows[i] == Derive(rows[i].rec)
  }

  /** The table `process_data` returns satisfies `Processed`. */
  lemma DeriveAllProcessed(cleaned: seq<BuildingRecord>)
    ensures Processed(DeriveAll(cleaned))
  {
    var processed := DeriveAll(cleaned);
    forall i | 0 <= i < |processed| ensures processed[i] == Derive(processed[i].rec) {
      DeriveFlags(cleaned[i]);
    }
  }

  /** Summed over a table, the four range counts add up to the over-capacity count. */
  lemma {:induction false} RangeCountsSum(rows: seq<DerivedRecord>)
    requires Processed(rows)
    ensures Count(rows, InRange101To110) + Count(rows, InRange111To120) + Count(rows, InRange121To130)
            + Count(rows, InRange131Plus) == Count(rows, IsOverCapacity)
    decreases |rows|
  {
    if rows != [] {
      DeriveFlags(rows[0].rec);
      RangeCountsSum(rows[1..]);
    }
  }
}
