/** The five query builders of helper_functions.py, each as the relation its
    SQL text defines over in-memory copies of the four tables. The database
    connection, the query text and pandas are not modelled: a table is a
    sequence of rows and a result is a sequence of rows whose order is not
    specified. */
module HelperFunctions {
  import opened SqlText
  import opened GroupBy

  datatype Option<T> = None | Some(value: T)

  /** A Demographics row. Only `Deceased Date` can be NULL. */
  datatype Demographic = Demographic(
    patientId: PatientId, gender: string, birthYear: int, deceasedDate: Option<string>)

  /** A row of the label query: `patient_id, er_visit`. */
  datatype LabelRow = LabelRow(patientId: PatientId, erVisit: int)

  /** A row of the demographics query: `patient_id, female_bool, birth_year`. */
  datatype DemographicFeature = DemographicFeature(patientId: PatientId, femaleBool: int, birthYear: int)

  /** Output names of the summed columns, in SELECT order. A Procedure,
      Diagnosis or Utilization Record carries its counts in this order. */
  const PROCEDURE_COLUMNS: seq<string> := [
    "endocrine_ops", "misc_proc", "ear_proc", "hemic_lymphatic_proc",
    "respiratory_proc", "cardiovascular_proc", "eye_proc", "integumentary_proc",
    "urinary_proc", "nervous_proc", "male_proc", "musculoskeletal_proc",
    "digestive_proc", "obstetrical_proc", "female_proc", "nose_mouth_pharynx_proc"]

  const DIAGNOSIS_COLUMNS: seq<string> := [
    "digestive_dia", "nervous_sense_dia", "musculoskeletal_connective_dia",
    "endocrine_metabolic_immuno_dia", "other_icd_dia", "perinatal_dia",
    "congenital_dia", "neoplasms_dia", "infect_parisitic_dia", "skin_dia",
    "blood_dia", "mental_dia", "inj_poison_dia", "pregnancy_puerperium_dia",
    "ill_defined_dia", "respiratory_dia", "circulatory_dia", "genitourinary_dia"]

  /** Utilization's counts are Office_Visits, ER_Visits, Admits. */
  const UTILIZATION_COLUMNS: seq<string> := ["off_visits_util", "er_visits_util", "admits_util"]

  /** Position of ER_Visits among Utilization's counts. */
  const ER_VISITS: nat := 1

  // ---------------------------------------------------------------------
  // WHERE clauses

  /** `WHERE Date >= as_of_date AND Date < as_of_end_date`. */
  function LabelWindowRows(rows: seq<Record>, asOf: string, asOfEnd: string): (r: seq<Record>)
    ensures |r| <= |rows|
    ensures forall x :: x in r <==> x in rows && InLabelWindow(x.date, asOf, asOfEnd)
    ensures forall x :: multiset(r)[x] == if InLabelWindow(x.date, asOf, asOfEnd) then multiset(rows)[x] else 0
  {
    if rows == [] then []
    else
      var head := if InLabelWindow(rows[0].date, asOf, asOfEnd) then [rows[0]] else [];
      var tail := LabelWindowRows(rows[1..], asOf, asOfEnd);
      assert rows == [rows[0]] + rows[1..];
      assert multiset(rows) == multiset{rows[0]} + multiset(rows[1..]);
      assert multiset(head + tail) == multiset(head) + multiset(tail);
      head + tail
  }

  /** `WHERE Date > feature_start_date AND Date <= feature_end_date`. */
  function FeatureWindowRows(rows: seq<Record>, start: string, end: string): (r: seq<Record>)
    ensures |r| <= |rows|
    ensures forall x :: x in r <==> x in rows && InFeatureWindow(x.date, start, end)
    ensures forall x :: multiset(r)[x] == if InFeatureWindow(x.date, start, end) then multiset(rows)[x] else 0
  {
    if rows == [] then []
    else
      var head := if InFeatureWindow(rows[0].date, start, end) then [rows[0]] else [];
      var tail := FeatureWindowRows(rows[1..], start, end);
      assert rows == [rows[0]] + rows[1..];
      assert multiset(rows) == multiset{rows[0]} + multiset(rows[1..]);
      assert multiset(head + tail) == multiset(head) + multiset(tail);
      head + tail
  }

  /** `Deceased Date IS NULL OR Deceased Date < as_of_date`, as written. */
  predicate PassesDeceasedFilter(d: Demographic, asOf: string)
  {
    d.deceasedDate.None? || Before(d.deceasedDate.value, asOf)
  }

  /** `pid IN (SELECT Patient Id FROM Demographics WHERE <deceased filter>)`. */
  predicate InDeceasedSubquery(demographics: seq<Demographic>, asOf: string, pid: PatientId)
  {
    exists i :: 0 <= i < |demographics| && demographics[i].patientId == pid
                && PassesDeceasedFilter(demographics[i], asOf)
  }

  /** Some row of patient `pid` passes the label window. */
  predicate HasLabelWindowRow(rows: seq<Record>, asOf: string, asOfEnd: string, pid: PatientId)
  {
    exists k :: 0 <= k < |rows| && rows[k].patientId == pid && InLabelWindow(rows[k].date, asOf, asOfEnd)
  }

  /** Some row of patient `pid` passes the feature window. */
  predicate HasFeatureWindowRow(rows: seq<Record>, start: string, end: string, pid: PatientId)
  {
    exists k :: 0 <= k < |rows| && rows[k].patientId == pid && InFeatureWindow(rows[k].date, start, end)
  }

  lemma WellFormedSubset(sub: seq<Record>, rows: seq<Record>, width: nat)
    requires WellFormed(rows, width)
    requires forall x :: x in sub ==> x in rows
    ensures WellFormed(sub, width)
  {
    forall k | 0 <= k < |sub| ensures |sub[k].counts| == width {
      assert sub[k] in rows;
    }
  }

  lemma HasRowOfSubset(sub: seq<Record>, rows: seq<Record>, keep: Record -> bool, pid: PatientId)
    requires forall x :: x in sub <==> x in rows && keep(x)
    ensures HasRow(sub, pid) <==> exists k :: 0 <= k < |rows| && rows[k].patientId == pid && keep(rows[k])
  {
    if HasRow(sub, pid) {
      var j :| 0 <= j < |sub| && sub[j].patientId == pid;
      assert sub[j] in rows;
      var k :| 0 <= k < |rows| && rows[k] == sub[j];
    }
    if exists k :: 0 <= k < |rows| && rows[k].patientId == pid && keep(rows[k]) {
      var k :| 0 <= k < |rows| && rows[k].patientId == pid && keep(rows[k]);
      assert rows[k] in sub;
      var j :| 0 <= j < |sub| && sub[j] == rows[k];
    }
  }

  // ---------------------------------------------------------------------
  // Feature queries: SUM of every count column, GROUP BY patient, over the
  // feature window

  /** The query shared by the procedure, diagnosis and utilization builders. */
  function FeatureQuery(rows: seq<Record>, start: string, end: string, width: nat): (r: seq<Group>)
    requires WellFormed(rows, width)
    ensures IsGroupedSum(r, FeatureWindowRows(rows, start, end), width)
    ensures forall pid :: HasGroup(r, pid) <==> HasFeatureWindowRow(rows, start, end, pid)
  {
    var kept := FeatureWindowRows(rows, start, end);
    WellFormedSubset(kept, rows, width);
    GroupBySumCorrect(kept, width);
    var r := GroupBySum(kept, width);
    assert forall pid :: HasGroup(r, pid) <==> HasFeatureWindowRow(rows, start, end, pid) by {
      forall pid ensures HasGroup(r, pid) <==> HasFeatureWindowRow(rows, start, end, pid) {
        HasRowOfSubset(kept, rows, (x: Record) => InFeatureWindow(x.date, start, end), pid);
        if HasGroup(r, pid) {
          var i :| 0 <= i < |r| && r[i].patientId == pid;
          assert HasRow(kept, r[i].patientId);
        }
        if HasRow(kept, pid) {
          var k :| 0 <= k < |kept| && kept[k].patientId == pid;
          assert HasGroup(r, kept[k].patientId);
        }
      }
    }
    r
  }

  /** `load_procedure_features`: 16 summed procedure categories per patient. */
  function LoadProcedureFeatures(procedures: seq<Record>, start: string, end: string): (r: seq<Group>)
    requires WellFormed(procedures, |PROCEDURE_COLUMNS|)
    ensures IsGroupedSum(r, FeatureWindowRows(procedures, start, end), 16)
    ensures forall pid :: HasGroup(r, pid) <==> HasFeatureWindowRow(procedures, start, end, pid)
  {
    FeatureQuery(procedures, start, end, |PROCEDURE_COLUMNS|)
  }

  /** `load_diagnosis_features`: 18 summed diagnosis categories per patient. */
  function LoadDiagnosisFeatures(diagnoses: seq<Record>, start: string, end: string): (r: seq<Group>)
    requires WellFormed(diagnoses, |DIAGNOSIS_COLUMNS|)
    ensures IsGroupedSum(r, FeatureWindowRows(diagnoses, start, end), 18)
    ensures forall pid :: HasGroup(r, pid) <==> HasFeatureWindowRow(diagnoses, start, end, pid)
  {
    FeatureQuery(diagnoses, start, end, |DIAGNOSIS_COLUMNS|)
  }

  /** `load_utilization_features`: office visits, ER visits and admits summed per patient. */
  function LoadUtilizationFeatures(utilization: seq<Record>, start: string, end: string): (r: seq<Group>)
    requires WellFormed(utilization, |UTILIZATION_COLUMNS|)
    ensures IsGroupedSum(r, FeatureWindowRows(utilization, start, end), 3)
    ensures forall pid :: HasGroup(r, pid) <==> HasFeatureWindowRow(utilization, start, end, pid)
  {
    FeatureQuery(utilization, start, end, |UTILIZATION_COLUMNS|)
  }

  // ---------------------------------------------------------------------
  // Label query

  /** `CASE WHEN er_visits = 0 THEN 0 ELSE 1 END`. */
  function ErVisitFlag(erVisits: int): (flag: int)
    ensures flag == 0 || flag == 1
    ensures flag == 0 <==> erVisits == 0
  {
    if erVisits == 0 then 0 else 1
  }

  /** Some label row belongs to patient `pid`. */
  predicate HasLabel(labels: seq<LabelRow>, pid: PatientId)
  {
    exists i :: 0 <= i < |labels| && labels[i].patientId == pid
  }

  predicate DistinctLabelIds(labels: seq<LabelRow>)
  {
    forall i, j :: 0 <= i < j < |labels| ==> labels[i].patientId != labels[j].patientId
  }

  /** The outer query of the label builder: classify each grouped patient
      and keep those in the Demographics subquery. */
  function KeepInSubquery(groups: seq<Group>, demographics: seq<Demographic>, asOf: string): (r: seq<LabelRow>)
    requires Widths(groups, |UTILIZATION_COLUMNS|)
    ensures |r| <= |groups|
  {
    if groups == [] then []
    else
      var g := groups[0];
      var tail := KeepInSubquery(groups[1..], demographics, asOf);
      if InDeceasedSubquery(demographics, asOf, g.patientId)
      then [LabelRow(g.patientId, ErVisitFlag(g.sums[ER_VISITS]))] + tail
      else tail
  }

  lemma HasGroupCons(groups: seq<Group>, pid: PatientId)
    requires groups != []
    ensures HasGroup(groups, pid) <==> pid == groups[0].patientId || HasGroup(groups[1..], pid)
  {
    if HasGroup(groups[1..], pid) {
      var j :| 0 <= j < |groups| - 1 && groups[1..][j].patientId == pid;
      assert groups[j + 1].patientId == pid;
    }
    if HasGroup(groups, pid) && pid != groups[0].patientId {
      var j :| 0 <= j < |groups| && groups[j].patientId == pid;
      assert groups[1..][j - 1].patientId == pid;
    }
  }

  /** A grouped patient gets a label row exactly when its id is in the
      Demographics subquery. */
  lemma {:induction false} KeepInSubqueryIds(groups: seq<Group>, demographics: seq<Demographic>, asOf: string, pid: PatientId)
    requires Widths(groups, |UTILIZATION_COLUMNS|)
    ensures HasLabel(KeepInSubquery(groups, demographics, asOf), pid)
            <==> HasGroup(groups, pid) && InDeceasedSubquery(demographics, asOf, pid)
  {
    if groups != [] {
      var g := groups[0];
      var tail := KeepInSubquery(groups[1..], demographics, asOf);
      var r := KeepInSubquery(groups, demographics, asOf);
      KeepInSubqueryIds(groups[1..], demographics, asOf, pid);
      HasGroupCons(groups, pid);
      if InDeceasedSubquery(demographics, asOf, g.patientId) {
        assert r == [LabelRow(g.patientId, ErVisitFlag(g.sums[ER_VISITS]))] + tail;
        if HasLabel(r, pid) && pid != g.patientId {
          var i :| 0 <= i < |r| && r[i].patientId == pid;
          assert tail[i - 1].patientId == pid;
        }
        if HasLabel(tail, pid) {
          var i :| 0 <= i < |tail| && tail[i].patientId == pid;
          assert r[i + 1].patientId == pid;
        }
        assert r[0].patientId == g.patientId;
      }
    }
  }

  /** The outer query keeps the grouped ids distinct and flags each kept
      patient by its grouped ER visit sum. */
  lemma {:induction false} KeepInSubqueryRows(groups: seq<Group>, demographics: seq<Demographic>, asOf: string)
    requires Widths(groups, |UTILIZATION_COLUMNS|) && DistinctIds(groups)
    ensures var r := KeepInSubquery(groups, demographics, asOf);
      && DistinctLabelIds(r)
      && forall i :: 0 <= i < |r| ==> r[i].erVisit == ErVisitFlag(GroupSum(groups, r[i].patientId, ER_VISITS))
  {
    if groups != [] {
      var g := groups[0];
      var tail := KeepInSubquery(groups[1..], demographics, asOf);
      KeepInSubqueryRows(groups[1..], demographics, asOf);
      forall i | 0 <= i < |tail|
        ensures tail[i].patientId != g.patientId
      {
        assert HasLabel(tail, tail[i].patientId);
        KeepInSubqueryIds(groups[1..], demographics, asOf, tail[i].patientId);
        var j :| 0 <= j < |groups| - 1 && groups[1..][j].patientId == tail[i].patientId;
        assert groups[j + 1].patientId == tail[i].patientId;
      }
    }
  }

  /** `load_label_data`: for every patient with a Utilization row in
      [as_of_date, as_of_end_date) whose id is in the Demographics subquery,
      whether the patient's ER visits in that window sum to something other
      than 0. */
  function LoadLabelData(utilization: seq<Record>, demographics: seq<Demographic>,
                         asOf: string, asOfEnd: string): (r: seq<LabelRow>)
    requires WellFormed(utilization, |UTILIZATION_COLUMNS|)
    ensures DistinctLabelIds(r)
    ensures forall pid :: HasLabel(r, pid) <==>
              HasLabelWindowRow(utilization, asOf, asOfEnd, pid) && InDeceasedSubquery(demographics, asOf, pid)
    ensures forall i :: 0 <= i < |r| ==>
              r[i].erVisit == ErVisitFlag(ColumnSum(LabelWindowRows(utilization, asOf, asOfEnd), r[i].patientId, ER_VISITS))
  {
    var kept := LabelWindowRows(utilization, asOf, asOfEnd);
    WellFormedSubset(kept, utilization, |UTILIZATION_COLUMNS|);
    var groups := GroupBySum(kept, |UTILIZATION_COLUMNS|);
    LabelQueryCorrect(utilization, demographics, asOf, asOfEnd);
    KeepInSubquery(groups, demographics, asOf)
  }

  lemma LabelQueryCorrect(utilization: seq<Record>, demographics: seq<Demographic>, asOf: string, asOfEnd: string)
    requires WellFormed(utilization, |UTILIZATION_COLUMNS|)
    ensures
      var kept := LabelWindowRows(utilization, asOf, asOfEnd);
      WellFormed(kept, |UTILIZATION_COLUMNS|) &&
      var r := KeepInSubquery(GroupBySum(kept, |UTILIZATION_COLUMNS|), demographics, asOf);
      && DistinctLabelIds(r)
      && (forall pid :: HasLabel(r, pid) <==>
            HasLabelWindowRow(utilization, asOf, asOfEnd, pid) && InDeceasedSubquery(demographics, asOf, pid))
      && (forall i :: 0 <= i < |r| ==> r[i].erVisit == ErVisitFlag(ColumnSum(kept, r[i].patientId, ER_VISITS)))
  {
    var kept := LabelWindowRows(utilization, asOf, asOfEnd);
    WellFormedSubset(kept, utilization, |UTILIZATION_COLUMNS|);
    var groups := GroupBySum(kept, |UTILIZATION_COLUMNS|);
    GroupBySumCorrect(kept, |UTILIZATION_COLUMNS|);
    var r := KeepInSubquery(groups, demographics, asOf);
    KeepInSubqueryRows(groups, demographics, asOf);
    forall pid
      ensures HasLabel(r, pid) <==>
              HasLabelWindowRow(utilization, asOf, asOfEnd, pid) && InDeceasedSubquery(demographics, asOf, pid)
    {
      KeepInSubqueryIds(groups, demographics, asOf, pid);
      HasRowOfSubset(kept, utilization, (x: Record) => InLabelWindow(x.date, asOf, asOfEnd), pid);
      if HasGroup(groups, pid) {
        var i :| 0 <= i < |groups| && groups[i].patientId == pid;
        assert HasRow(kept, groups[i].patientId);
      }
      if HasRow(kept, pid) {
        var k :| 0 <= k < |kept| && kept[k].patientId == pid;
        assert HasGroup(groups, kept[k].patientId);
      }
    }
    forall i | 0 <= i < |r|
      ensures r[i].erVisit == ErVisitFlag(ColumnSum(kept, r[i].patientId, ER_VISITS))
    {
      GroupSumMatches(groups, kept, |UTILIZATION_COLUMNS|, r[i].patientId, ER_VISITS);
    }
  }

  // ---------------------------------------------------------------------
  // Demographics query

  /** One output row of the demographics query for one Demographics row:
      `CASE WHEN Gender = 'female' THEN 1 ELSE 0 END` and the birth year. */
  function Recode(d: Demographic): (f: DemographicFeature)
    ensures f.patientId == d.patientId && f.birthYear == d.birthYear
    ensures f.femaleBool == 1 <==> d.gender == "female"
    ensures f.femaleBool == 0 <==> d.gender != "female"
  {
    DemographicFeature(d.patientId, if d.gender == "female" then 1 else 0, d.birthYear)
  }

  /** `load_demographics_features`: every Demographics row passing the
      deceased filter, recoded, with no grouping. */
  function LoadDemographicsFeatures(demographics: seq<Demographic>, asOf: string): (r: seq<DemographicFeature>)
    ensures |r| <= |demographics|
    ensures forall f :: f in r <==> exists d :: d in demographics && PassesDeceasedFilter(d, asOf) && f == Recode(d)
  {
    if demographics == [] then []
    else
      var d := demographics[0];
      var tail := LoadDemographicsFeatures(demographics[1..], asOf);
      assert forall e :: e in demographics <==> e == d || e in demographics[1..];
      if PassesDeceasedFilter(d, asOf) then [Recode(d)] + tail else tail
  }
}
