/** Consequences of the query models that a caller of helper_functions.py
    relies on: the window edges, the label's meaning, the deceased filter as
    written, and the demographics query working row by row. */
module QueryProperties {
  import opened SqlText
  import opened GroupBy
  import opened HelperFunctions

  // ---------------------------------------------------------------------
  // Feature queries

  /** With feature_start_date == feature_end_date every feature query
      returns no rows. */
  lemma FeatureQueryEmptyWhenDatesEqual(rows: seq<Record>, date: string, width: nat)
    requires WellFormed(rows, width)
    ensures FeatureQuery(rows, date, date, width) == []
  {
    var r := FeatureQuery(rows, date, date, width);
    if r != [] {
      assert HasGroup(r, r[0].patientId);
      var k :| 0 <= k < |rows| && rows[k].patientId == r[0].patientId
               && InFeatureWindow(rows[k].date, date, date);
      FeatureWindowEmptyWhenEqual(rows[k].date, date);
    }
  }

  /** A row dated on feature_start_date is left out of the sums, a row dated
      on feature_end_date is counted. */
  lemma FeatureQueryEdgeRows(rows: seq<Record>, start: string, end: string, x: Record)
    requires x in rows && Before(start, end)
    ensures x.date == start ==> x !in FeatureWindowRows(rows, start, end)
    ensures x.date == end ==> x in FeatureWindowRows(rows, start, end)
  {
    FeatureWindowEdges(start, end);
  }

  /** A window that holds every row's date filters nothing out. */
  lemma {:induction false} FeatureWindowKeepsAll(rows: seq<Record>, start: string, end: string)
    requires forall k :: 0 <= k < |rows| ==> InFeatureWindow(rows[k].date, start, end)
    ensures FeatureWindowRows(rows, start, end) == rows
  {
    if rows != [] {
      FeatureWindowKeepsAll(rows[1..], start, end);
      assert [rows[0]] + rows[1..] == rows;
    }
  }

  /** Three in-window diagnosis rows of one patient with digestive_dia 1, 0
      and 2 give that patient one output row with digestive_dia 3. */
  lemma DigestiveDiagnosesAreSummed(pid: PatientId, d0: string, d1: string, d2: string,
                                    start: string, end: string, rest: seq<int>)
    requires InFeatureWindow(d0, start, end) && InFeatureWindow(d1, start, end) && InFeatureWindow(d2, start, end)
    requires |rest| == 17
    ensures
      var rows := [Record(pid, d0, [1] + rest), Record(pid, d1, [0] + rest), Record(pid, d2, [2] + rest)];
      var r := LoadDiagnosisFeatures(rows, start, end);
      |r| == 1 && r[0].patientId == pid && r[0].sums[0] == 3
  {
    var r0, r1, r2 := Record(pid, d0, [1] + rest), Record(pid, d1, [0] + rest), Record(pid, d2, [2] + rest);
    var rows := [r0, r1, r2];
    assert |DIAGNOSIS_COLUMNS| == 18;
    assert WellFormed(rows, 18);
    FeatureWindowKeepsAll(rows, start, end);
    var r := FeatureQuery(rows, start, end, 18);
    OnlyPatientGroups(r, rows, 18, pid);
    SumOfThree(r0, r1, r2, pid);
  }

  lemma SumOfThree(r0: Record, r1: Record, r2: Record, pid: PatientId)
    requires r0.patientId == r1.patientId == r2.patientId == pid
    requires |r0.counts| > 0 && |r1.counts| > 0 && |r2.counts| > 0
    ensures ColumnSum([r0, r1, r2], pid, 0) == r0.counts[0] + r1.counts[0] + r2.counts[0]
  {
    assert [r0, r1, r2][..2] == [r0, r1] && [r0, r1][..1] == [r0] && [r0][..0] == [];
    calc {
      ColumnSum([r0, r1, r2], pid, 0);
      ColumnSum([r0, r1], pid, 0) + r2.counts[0];
      ColumnSum([r0], pid, 0) + r1.counts[0] + r2.counts[0];
      ColumnSum([], pid, 0) + r0.counts[0] + r1.counts[0] + r2.counts[0];
    }
  }

  /** A correct GROUP BY result over rows of one patient is one row. */
  lemma OnlyPatientGroups(r: seq<Group>, rows: seq<Record>, width: nat, pid: PatientId)
    requires IsGroupedSum(r, rows, width) && rows != []
    requires forall k :: 0 <= k < |rows| ==> rows[k].patientId == pid
    ensures |r| == 1 && r[0].patientId == pid && |r[0].sums| == width
    ensures forall c :: 0 <= c < width ==> r[0].sums[c] == ColumnSum(rows, pid, c)
  {
    assert HasGroup(r, rows[0].patientId);
    forall i | 0 <= i < |r| ensures r[i].patientId == pid {
      assert HasRow(rows, r[i].patientId);
    }
    FirstTwoIdsDiffer(r);
  }

  lemma FirstTwoLabelsDiffer(r: seq<LabelRow>)
    requires DistinctLabelIds(r)
    ensures |r| >= 2 ==> r[0].patientId != r[1].patientId
  {
  }

  lemma FirstTwoIdsDiffer(r: seq<Group>)
    requires DistinctIds(r)
    ensures |r| >= 2 ==> r[0].patientId != r[1].patientId
  {
  }

  // ---------------------------------------------------------------------
  // Label query

  /** With no negative ER_Visits, a label is 1 exactly when the patient has
      an ER visit in [as_of_date, as_of_end_date). */
  lemma LabelIsOneIffErVisitInWindow(utilization: seq<Record>, demographics: seq<Demographic>,
                                     asOf: string, asOfEnd: string, i: nat)
    requires WellFormed(utilization, |UTILIZATION_COLUMNS|)
    requires forall k :: 0 <= k < |utilization| ==> utilization[k].counts[ER_VISITS] >= 0
    requires i < |LoadLabelData(utilization, demographics, asOf, asOfEnd)|
    ensures var row := LoadLabelData(utilization, demographics, asOf, asOfEnd)[i];
      row.erVisit == 1 <==>
        exists k :: 0 <= k < |utilization| && utilization[k].patientId == row.patientId
                    && InLabelWindow(utilization[k].date, asOf, asOfEnd) && utilization[k].counts[ER_VISITS] > 0
  {
    var row := LoadLabelData(utilization, demographics, asOf, asOfEnd)[i];
    var kept := LabelWindowRows(utilization, asOf, asOfEnd);
    WellFormedSubset(kept, utilization, |UTILIZATION_COLUMNS|);
    forall k | 0 <= k < |kept| && ER_VISITS < |kept[k].counts|
      ensures kept[k].counts[ER_VISITS] >= 0
    {
      assert kept[k] in utilization;
    }
    ColumnSumNonZero(kept, row.patientId, ER_VISITS);
    if row.erVisit == 1 {
      var j :| 0 <= j < |kept| && kept[j].patientId == row.patientId && kept[j].counts[ER_VISITS] > 0;
      assert kept[j] in utilization;
      var k :| 0 <= k < |utilization| && utilization[k] == kept[j];
    }
    if exists k :: 0 <= k < |utilization| && utilization[k].patientId == row.patientId
                   && InLabelWindow(utilization[k].date, asOf, asOfEnd) && utilization[k].counts[ER_VISITS] > 0 {
      var k :| 0 <= k < |utilization| && utilization[k].patientId == row.patientId
               && InLabelWindow(utilization[k].date, asOf, asOfEnd) && utilization[k].counts[ER_VISITS] > 0;
      assert utilization[k] in kept;
      var j :| 0 <= j < |kept| && kept[j] == utilization[k];
    }
  }

  /** A window that holds every row's date filters nothing out. */
  lemma {:induction false} LabelWindowKeepsAll(rows: seq<Record>, asOf: string, asOfEnd: string)
    requires forall k :: 0 <= k < |rows| ==> InLabelWindow(rows[k].date, asOf, asOfEnd)
    ensures LabelWindowRows(rows, asOf, asOfEnd) == rows
  {
    if rows != [] {
      LabelWindowKeepsAll(rows[1..], asOf, asOfEnd);
      assert [rows[0]] + rows[1..] == rows;
    }
  }

  /** When every Utilization row belongs to one eligible patient with a row
      in the window, the label table is that patient's single row. */
  lemma SinglePatientLabel(utilization: seq<Record>, demographics: seq<Demographic>,
                           asOf: string, asOfEnd: string, pid: PatientId)
    requires WellFormed(utilization, |UTILIZATION_COLUMNS|)
    requires forall k :: 0 <= k < |utilization| ==> utilization[k].patientId == pid
    requires HasLabelWindowRow(utilization, asOf, asOfEnd, pid) && InDeceasedSubquery(demographics, asOf, pid)
    ensures LoadLabelData(utilization, demographics, asOf, asOfEnd)
            == [LabelRow(pid, ErVisitFlag(ColumnSum(LabelWindowRows(utilization, asOf, asOfEnd), pid, ER_VISITS)))]
  {
    var r := LoadLabelData(utilization, demographics, asOf, asOfEnd);
    assert HasLabel(r, pid);
    forall i | 0 <= i < |r| ensures r[i].patientId == pid {
      assert HasLabel(r, r[i].patientId);
      var k :| 0 <= k < |utilization| && utilization[k].patientId == r[i].patientId
               && InLabelWindow(utilization[k].date, asOf, asOfEnd);
    }
    FirstTwoLabelsDiffer(r);
  }

  /** Two Utilization rows of a living patient with ER_Visits 0 and 2, the
      first dated on as_of_date itself and the second inside the window,
      give the label row er_visit = 1 and no other row. */
  lemma ErVisitsZeroAndTwoGiveOne(pid: PatientId, asOf: string, date: string, asOfEnd: string, birthYear: int)
    requires Before(asOf, date) && Before(date, asOfEnd)
    ensures
      var utilization := [Record(pid, asOf, [3, 0, 0]), Record(pid, date, [1, 2, 1])];
      var demographics := [Demographic(pid, "male", birthYear, None)];
      LoadLabelData(utilization, demographics, asOf, asOfEnd) == [LabelRow(pid, 1)]
  {
    var u0, u1 := Record(pid, asOf, [3, 0, 0]), Record(pid, date, [1, 2, 1]);
    var utilization := [u0, u1];
    var demographics := [Demographic(pid, "male", birthYear, None)];
    BeforeTransitive(asOf, date, asOfEnd);
    assert InLabelWindow(u0.date, asOf, asOfEnd);
    assert InLabelWindow(u1.date, asOf, asOfEnd);
    LabelWindowKeepsAll(utilization, asOf, asOfEnd);
    assert demographics[0].patientId == pid && PassesDeceasedFilter(demographics[0], asOf);
    assert utilization[0].patientId == pid;
    SinglePatientLabel(utilization, demographics, asOf, asOfEnd, pid);
    assert utilization[..1] == [u0] && [u0][..0] == [];
    calc {
      ColumnSum(utilization, pid, ER_VISITS);
      ColumnSum([u0], pid, ER_VISITS) + 2;
      ColumnSum([], pid, ER_VISITS) + 0 + 2;
    }
  }

  /** A patient whose every Demographics row records death on as_of_date
      gets no label, whatever its utilization. */
  lemma DeathOnAsOfDateExcludesLabel(utilization: seq<Record>, demographics: seq<Demographic>,
                                     asOf: string, asOfEnd: string, pid: PatientId)
    requires WellFormed(utilization, |UTILIZATION_COLUMNS|)
    requires forall i :: 0 <= i < |demographics| && demographics[i].patientId == pid ==>
               demographics[i].deceasedDate == Some(asOf)
    ensures !HasLabel(LoadLabelData(utilization, demographics, asOf, asOfEnd), pid)
  {
    BeforeIrreflexive(asOf);
  }

  /** A patient still alive at the as-of date (death recorded after it, and
      no other Demographics row) gets no label either: the filter keeps the
      patients who died BEFORE as_of_date, not those alive on it. */
  lemma DeathAfterAsOfDateExcludesLabel(utilization: seq<Record>, demographics: seq<Demographic>,
                                        asOf: string, asOfEnd: string, pid: PatientId)
    requires WellFormed(utilization, |UTILIZATION_COLUMNS|)
    requires forall i :: 0 <= i < |demographics| && demographics[i].patientId == pid ==>
               demographics[i].deceasedDate.Some? && Before(asOf, demographics[i].deceasedDate.value)
    ensures !HasLabel(LoadLabelData(utilization, demographics, asOf, asOfEnd), pid)
  {
    forall i | 0 <= i < |demographics| && demographics[i].patientId == pid
      ensures !PassesDeceasedFilter(demographics[i], asOf)
    {
      BeforeAsymmetric(asOf, demographics[i].deceasedDate.value);
    }
  }

  // ---------------------------------------------------------------------
  // Deceased filter and demographics query

  /** The deceased filter keeps a Demographics row exactly when no death is
      recorded or the death is strictly before as_of_date; in particular a
      death on as_of_date or later drops the row. */
  lemma DeceasedFilterEdges(d: Demographic, asOf: string)
    ensures d.deceasedDate == Some(asOf) ==> !PassesDeceasedFilter(d, asOf)
    ensures d.deceasedDate.Some? && Before(asOf, d.deceasedDate.value) ==> !PassesDeceasedFilter(d, asOf)
    ensures d.deceasedDate.Some? && Before(d.deceasedDate.value, asOf) ==> PassesDeceasedFilter(d, asOf)
  {
    BeforeIrreflexive(asOf);
    if d.deceasedDate.Some? {
      BeforeAsymmetric(asOf, d.deceasedDate.value);
    }
  }

  /** The demographics query works row by row: it distributes over
      concatenation of the table, so nothing is grouped or merged. */
  lemma {:induction false} DemographicsRowByRow(a: seq<Demographic>, b: seq<Demographic>, asOf: string)
    ensures LoadDemographicsFeatures(a + b, asOf)
            == LoadDemographicsFeatures(a, asOf) + LoadDemographicsFeatures(b, asOf)
  {
    if a != [] {
      assert (a + b)[0] == a[0];
      assert (a + b)[1..] == a[1..] + b;
      DemographicsRowByRow(a[1..], b, asOf);
    } else {
      assert a + b == b;
    }
  }

  /** One Demographics row gives one output row when it passes the deceased
      filter and none otherwise. */
  lemma DemographicsSingleRow(d: Demographic, asOf: string)
    ensures LoadDemographicsFeatures([d], asOf) == if PassesDeceasedFilter(d, asOf) then [Recode(d)] else []
  {
    assert [d][1..] == [];
  }
}
