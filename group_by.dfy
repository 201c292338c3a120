/** The relational core shared by every feature query:
    `SELECT patient_id, SUM(c1), ..., SUM(cn) FROM t WHERE <window> GROUP BY patient_id`.
    A source row is a patient id, a date and its count columns in SELECT
    order; an output row is a patient id and one sum per count column. The
    order of the output rows is SQLite's business and no lemma speaks of it. */
module GroupBy {

  type PatientId = int

  /** One row of Procedure, Diagnosis or Utilization. */
  datatype Record = Record(patientId: PatientId, date: string, counts: seq<int>)

  /** One row of a grouped result. */
  datatype Group = Group(patientId: PatientId, sums: seq<int>)

  /** Every row carries the table's fixed number of count columns. */
  predicate WellFormed(rows: seq<Record>, width: nat)
  {
    forall k :: 0 <= k < |rows| ==> |rows[k].counts| == width
  }

  // ---------------------------------------------------------------------
  // What a GROUP BY / SUM result must be

  /** Some source row belongs to patient `pid`. */
  predicate HasRow(rows: seq<Record>, pid: PatientId)
  {
    exists k :: 0 <= k < |rows| && rows[k].patientId == pid
  }

  /** Some output row belongs to patient `pid`. */
  predicate HasGroup(groups: seq<Group>, pid: PatientId)
  {
    exists i :: 0 <= i < |groups| && groups[i].patientId == pid
  }

  /** No patient id occurs on two output rows. */
  predicate DistinctIds(groups: seq<Group>)
  {
    forall i, j :: 0 <= i < j < |groups| ==> groups[i].patientId != groups[j].patientId
  }

  predicate Widths(groups: seq<Group>, width: nat)
  {
    forall i :: 0 <= i < |groups| ==> |groups[i].sums| == width
  }

  /** SUM(column c) over the rows of patient `pid` (0 when it has none). */
  function ColumnSum(rows: seq<Record>, pid: PatientId, c: nat): int
  {
    if rows == [] then 0
    else
      var last := rows[|rows| - 1];
      ColumnSum(rows[..|rows| - 1], pid, c)
      + (if last.patientId == pid && c < |last.counts| then last.counts[c] else 0)
  }

  /** `groups` is a correct answer to GROUP BY patient_id with SUM of every
      count column over `rows`: one output row per distinct patient id of the
      input and no other, each holding its patient's column sums. */
  predicate IsGroupedSum(groups: seq<Group>, rows: seq<Record>, width: nat)
  {
    && DistinctIds(groups)
    && Widths(groups, width)
    && (forall i :: 0 <= i < |groups| ==> HasRow(rows, groups[i].patientId))
    && (forall k :: 0 <= k < |rows| ==> HasGroup(groups, rows[k].patientId))
    && (forall i, c :: 0 <= i < |groups| && 0 <= c < width ==>
          groups[i].sums[c] == ColumnSum(rows, groups[i].patientId, c))
  }

  // ---------------------------------------------------------------------
  // An aggregation that computes it, one row at a time

  function AddCounts(a: seq<int>, b: seq<int>): (r: seq<int>)
    requires |a| == |b|
    ensures |r| == |a|
    ensures forall c :: 0 <= c < |a| ==> r[c] == a[c] + b[c]
  {
    seq(|a|, c requires 0 <= c < |a| => a[c] + b[c])
  }

  /** Folds one source row into the running groups: added to its patient's
      group when there is one, otherwise opening a new group at the end. */
  function AddInto(groups: seq<Group>, rec: Record): (r: seq<Group>)
    requires Widths(groups, |rec.counts|)
    ensures Widths(r, |rec.counts|)
    ensures 0 < |r| && |groups| <= |r| <= |groups| + 1
  {
    if groups == [] then
      [Group(rec.patientId, rec.counts)]
    else if groups[0].patientId == rec.patientId then
      [Group(rec.patientId, AddCounts(groups[0].sums, rec.counts))] + groups[1..]
    else
      [groups[0]] + AddInto(groups[1..], rec)
  }

  /** Folding a row in adds its patient's id and no other. */
  lemma {:induction false} AddIntoIds(groups: seq<Group>, rec: Record, pid: PatientId)
    requires Widths(groups, |rec.counts|)
    ensures HasGroup(AddInto(groups, rec), pid) <==> HasGroup(groups, pid) || pid == rec.patientId
  {
    var r := AddInto(groups, rec);
    if groups == [] {
      assert r[0].patientId == rec.patientId;
    } else if groups[0].patientId == rec.patientId {
      assert forall i :: 0 <= i < |r| ==> r[i].patientId == groups[i].patientId;
      if HasGroup(groups, pid) {
        var i :| 0 <= i < |groups| && groups[i].patientId == pid;
        assert r[i].patientId == pid;
      }
      if HasGroup(r, pid) {
        var i :| 0 <= i < |r| && r[i].patientId == pid;
        assert groups[i].patientId == pid;
      }
    } else {
      var tail := AddInto(groups[1..], rec);
      AddIntoIds(groups[1..], rec, pid);
      assert r == [groups[0]] + tail;
      if HasGroup(r, pid) && pid != groups[0].patientId {
        var i :| 0 <= i < |r| && r[i].patientId == pid;
        assert tail[i - 1].patientId == pid;
        if HasGroup(groups[1..], pid) {
          var j :| 0 <= j < |groups[1..]| && groups[1..][j].patientId == pid;
          assert groups[j + 1].patientId == pid;
        }
      }
      if HasGroup(groups, pid) && pid != groups[0].patientId {
        var i :| 0 <= i < |groups| && groups[i].patientId == pid;
        assert groups[1..][i - 1].patientId == pid;
      }
      if HasGroup(tail, pid) {
        var j :| 0 <= j < |tail| && tail[j].patientId == pid;
        assert r[j + 1].patientId == pid;
      }
      assert r[0].patientId == groups[0].patientId;
    }
  }

  /** Folding a row in never gives a patient a second group. */
  lemma {:induction false} AddIntoDistinct(groups: seq<Group>, rec: Record)
    requires Widths(groups, |rec.counts|) && DistinctIds(groups)
    ensures DistinctIds(AddInto(groups, rec))
  {
    if groups != [] && groups[0].patientId != rec.patientId {
      var tail := AddInto(groups[1..], rec);
      AddIntoDistinct(groups[1..], rec);
      forall i | 0 <= i < |tail|
        ensures tail[i].patientId != groups[0].patientId
      {
        AddIntoIds(groups[1..], rec, tail[i].patientId);
        assert HasGroup(tail, tail[i].patientId);
        if HasGroup(groups[1..], tail[i].patientId) {
          var j :| 0 <= j < |groups[1..]| && groups[1..][j].patientId == tail[i].patientId;
          assert groups[j + 1].patientId == tail[i].patientId;
        }
      }
    } else if groups != [] {
      var r := AddInto(groups, rec);
      assert forall i :: 0 <= i < |r| ==> r[i].patientId == groups[i].patientId;
    }
  }

  /** Folding a row in adds its counts to its patient's running sums and
      leaves every other patient's sums as they were. */
  lemma {:induction false} AddIntoSums(groups: seq<Group>, rec: Record, pid: PatientId, c: nat)
    requires Widths(groups, |rec.counts|) && c < |rec.counts|
    ensures GroupSum(AddInto(groups, rec), pid, c)
            == GroupSum(groups, pid, c) + (if pid == rec.patientId then rec.counts[c] else 0)
  {
    if groups != [] && groups[0].patientId != rec.patientId {
      AddIntoSums(groups[1..], rec, pid, c);
      assert AddInto(groups, rec)[1..] == AddInto(groups[1..], rec);
    }
  }

  /** The running sum of column c for patient `pid` held by the groups (0
      when the patient has no group yet). */
  function GroupSum(groups: seq<Group>, pid: PatientId, c: nat): int
  {
    if groups == [] then 0
    else if groups[0].patientId == pid then
      (if c < |groups[0].sums| then groups[0].sums[c] else 0)
    else GroupSum(groups[1..], pid, c)
  }

  lemma {:induction false} GroupSumAt(groups: seq<Group>, i: nat, c: nat)
    requires DistinctIds(groups) && i < |groups| && c < |groups[i].sums|
    ensures GroupSum(groups, groups[i].patientId, c) == groups[i].sums[c]
  {
    if i > 0 {
      assert groups[0].patientId != groups[i].patientId;
      GroupSumAt(groups[1..], i - 1, c);
    }
  }

  /** The aggregation: fold every source row into the groups, in order. */
  function GroupBySum(rows: seq<Record>, width: nat): (r: seq<Group>)
    requires WellFormed(rows, width)
    ensures Widths(r, width)
  {
    if rows == [] then []
    else AddInto(GroupBySum(rows[..|rows| - 1], width), rows[|rows| - 1])
  }

  lemma {:induction false} GroupSumAbsent(groups: seq<Group>, pid: PatientId, c: nat)
    requires !HasGroup(groups, pid)
    ensures GroupSum(groups, pid, c) == 0
  {
    if groups != [] {
      assert groups[0].patientId != pid;
      assert forall j :: 0 <= j < |groups| - 1 ==> groups[1..][j] == groups[j + 1];
      GroupSumAbsent(groups[1..], pid, c);
    }
  }

  lemma {:induction false} ColumnSumAbsent(rows: seq<Record>, pid: PatientId, c: nat)
    requires !HasRow(rows, pid)
    ensures ColumnSum(rows, pid, c) == 0
  {
    if rows != [] {
      var init := rows[..|rows| - 1];
      assert rows[|rows| - 1].patientId != pid;
      assert forall k :: 0 <= k < |init| ==> init[k] == rows[k];
      ColumnSumAbsent(init, pid, c);
    }
  }

  /** Looking a patient up in a correct GROUP BY result gives the patient's
      column sum, also for a patient with no rows at all (0). */
  lemma GroupSumMatches(groups: seq<Group>, rows: seq<Record>, width: nat, pid: PatientId, c: nat)
    requires IsGroupedSum(groups, rows, width) && c < width
    ensures GroupSum(groups, pid, c) == ColumnSum(rows, pid, c)
  {
    if HasGroup(groups, pid) {
      var i :| 0 <= i < |groups| && groups[i].patientId == pid;
      GroupSumAt(groups, i, c);
    } else {
      GroupSumAbsent(groups, pid, c);
      forall k | 0 <= k < |rows|
        ensures rows[k].patientId != pid
      {
        assert HasGroup(groups, rows[k].patientId);
      }
      ColumnSumAbsent(rows, pid, c);
    }
  }

  /** The fold computes a correct GROUP BY patient_id / SUM result. */
  lemma {:induction false} GroupBySumCorrect(rows: seq<Record>, width: nat)
    requires WellFormed(rows, width)
    ensures IsGroupedSum(GroupBySum(rows, width), rows, width)
  {
    if rows != [] {
      var init, last := rows[..|rows| - 1], rows[|rows| - 1];
      assert WellFormed(init, width);
      var g := GroupBySum(init, width);
      GroupBySumCorrect(init, width);
      var r := AddInto(g, last);
      assert r == GroupBySum(rows, width);
      AddIntoDistinct(g, last);
      forall i | 0 <= i < |r|
        ensures HasRow(rows, r[i].patientId)
      {
        var pid := r[i].patientId;
        AddIntoIds(g, last, pid);
        assert HasGroup(r, pid);
        if pid == last.patientId {
          assert rows[|rows| - 1].patientId == pid;
        } else {
          var j :| 0 <= j < |g| && g[j].patientId == pid;
          var k :| 0 <= k < |init| && init[k].patientId == pid;
          assert rows[k].patientId == pid;
        }
      }
      forall k | 0 <= k < |rows|
        ensures HasGroup(r, rows[k].patientId)
      {
        AddIntoIds(g, last, rows[k].patientId);
        if k < |rows| - 1 {
          assert init[k].patientId == rows[k].patientId;
        }
      }
      forall i, c | 0 <= i < |r| && 0 <= c < width
        ensures r[i].sums[c] == ColumnSum(rows, r[i].patientId, c)
      {
        var pid := r[i].patientId;
        GroupSumAt(r, i, c);
        AddIntoSums(g, last, pid, c);
        GroupSumMatches(g, init, width, pid, c);
      }
    }
  }

  /** With no negative counts, a patient's column sum is non-zero exactly
      when one of its rows has a positive count in that column. */
  lemma {:induction false} ColumnSumNonZero(rows: seq<Record>, pid: PatientId, c: nat)
    requires forall k :: 0 <= k < |rows| && c < |rows[k].counts| ==> rows[k].counts[c] >= 0
    ensures ColumnSum(rows, pid, c) >= 0
    ensures ColumnSum(rows, pid, c) != 0 <==>
            exists k :: 0 <= k < |rows| && rows[k].patientId == pid && c < |rows[k].counts| && rows[k].counts[c] > 0
  {
    if rows != [] {
      var init := rows[..|rows| - 1];
      assert forall k :: 0 <= k < |init| ==> init[k] == rows[k];
      ColumnSumNonZero(init, pid, c);
    }
  }

  /** A correct GROUP BY result is unique up to the order of its rows: two
      correct results hold the same rows. */
  lemma GroupedSumUnique(g1: seq<Group>, g2: seq<Group>, rows: seq<Record>, width: nat)
    requires IsGroupedSum(g1, rows, width) && IsGroupedSum(g2, rows, width)
    ensures forall x :: x in g1 <==> x in g2
  {
    forall x | x in g1 ensures x in g2 {
      SameGroupIn(g1, g2, rows, width, x);
    }
    forall x | x in g2 ensures x in g1 {
      SameGroupIn(g2, g1, rows, width, x);
    }
  }

  lemma SameGroupIn(g1: seq<Group>, g2: seq<Group>, rows: seq<Record>, width: nat, x: Group)
    requires IsGroupedSum(g1, rows, width) && IsGroupedSum(g2, rows, width) && x in g1
    ensures x in g2
  {
    var i :| 0 <= i < |g1| && g1[i] == x;
    assert HasRow(rows, x.patientId);
    var k :| 0 <= k < |rows| && rows[k].patientId == x.patientId;
    assert HasGroup(g2, rows[k].patientId);
    var j :| 0 <= j < |g2| && g2[j].patientId == x.patientId;
    assert g2[j].sums == x.sums;
    assert g2[j] == x;
  }
}
