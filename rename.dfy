/** `rename_feature_dfs`: tag every feature column of a result table with
    the length of the window it was computed over, so that tables built over
    different windows can be joined on `patient_id` without name clashes. */
module Rename {
  import opened SqlText

  /** The one column the renamer leaves alone. */
  const ID_COLUMN: string := "patient_id"

  // ---------------------------------------------------------------------
  // Python's str() of an int

  function DigitChar(d: nat): (c: char)
    requires d < 10
    ensures IsDigit(c) && DigitValue(c) == d
  {
    ('0' as int + d) as char
  }

  /** Decimal digits of n, most significant first. */
  function NatToString(n: nat): (s: string)
    ensures |s| >= 1 && AllDigits(s)
  {
    if n < 10 then [DigitChar(n)] else NatToString(n / 10) + [DigitChar(n % 10)]
  }

  /** `str(month_val)`: a minus sign for a negative value, then the digits. */
  function IntToString(n: int): (s: string)
    ensures |s| >= 1 && (s[0] == '-' || IsDigit(s[0]))
    ensures forall i :: 1 <= i < |s| ==> IsDigit(s[i])
    ensures s[0] == '-' <==> n < 0
  {
    if n < 0 then "-" + NatToString(-n) else NatToString(n)
  }

  /** `int(s)` for what str() produces. */
  function ParseInt(s: string): int
    requires |s| >= 1 && (s[0] == '-' || IsDigit(s[0])) && forall i :: 1 <= i < |s| ==> IsDigit(s[i])
  {
    if s[0] == '-' then -(DecimalValue(s[1..]) as int) else DecimalValue(s)
  }

  lemma {:induction false} DecimalValueSnoc(s: string, c: char)
    requires AllDigits(s) && IsDigit(c)
    ensures AllDigits(s + [c])
    ensures DecimalValue(s + [c]) == DecimalValue(s) * 10 + DigitValue(c)
  {
    if s != [] {
      assert (s + [c])[1..] == s[1..] + [c];
      DecimalValueSnoc(s[1..], c);
      var d, p := DigitValue(s[0]), Pow10(|s| - 1);
      calc {
        DecimalValue(s + [c]);
        d * Pow10(|s|) + DecimalValue(s[1..] + [c]);
        d * (p * 10) + DecimalValue(s[1..]) * 10 + DigitValue(c);
        { assert d * (p * 10) == (d * p) * 10; }
        (d * p + DecimalValue(s[1..])) * 10 + DigitValue(c);
      }
    } else {
      assert [c][1..] == [];
    }
  }

  lemma {:induction false} NatToStringRoundTrip(n: nat)
    ensures DecimalValue(NatToString(n)) == n
  {
    if n < 10 {
      assert [DigitChar(n)][1..] == [];
    } else {
      NatToStringRoundTrip(n / 10);
      DecimalValueSnoc(NatToString(n / 10), DigitChar(n % 10));
    }
  }

  /** Reading back what str() wrote gives the number. */
  lemma IntToStringRoundTrip(n: int)
    ensures ParseInt(IntToString(n)) == n
  {
    if n < 0 {
      NatToStringRoundTrip(-n);
      assert IntToString(n)[1..] == NatToString(-n);
    } else {
      NatToStringRoundTrip(n);
    }
  }

  lemma IntToStringInjective(a: int, b: int)
    requires IntToString(a) == IntToString(b)
    ensures a == b
  {
    IntToStringRoundTrip(a);
    IntToStringRoundTrip(b);
  }

  // ---------------------------------------------------------------------
  // The new column names

  /** `str(month_val) + '_month_'`. */
  function Prefix(monthVal: int): (p: string)
    ensures |p| == |IntToString(monthVal)| + 7
  {
    IntToString(monthVal) + "_month_"
  }

  /** What each original column is called after the renamer has run. */
  function RenamedColumns(columns: seq<string>, monthVal: int): seq<string>
  {
    seq(|columns|, k requires 0 <= k < |columns| =>
      if columns[k] == ID_COLUMN then columns[k] else Prefix(monthVal) + columns[k])
  }

  /** No prefixed name is already a column: the renamer's loop then renames
      exactly the original feature columns. */
  predicate PrefixedNamesFresh(columns: seq<string>, monthVal: int)
  {
    forall i, j :: 0 <= i < |columns| && 0 <= j < |columns| && columns[i] != ID_COLUMN ==>
      Prefix(monthVal) + columns[i] != columns[j]
  }

  predicate DistinctNames(columns: seq<string>)
  {
    forall i, j :: 0 <= i < j < |columns| ==> columns[i] != columns[j]
  }

  /** A prefixed name is never the id column (a prefix starts with a digit or
      a minus sign). */
  lemma PrefixedIsNotId(monthVal: int, name: string)
    ensures Prefix(monthVal) + name != ID_COLUMN
  {
    assert (Prefix(monthVal) + name)[0] == IntToString(monthVal)[0];
    assert ID_COLUMN[0] == 'p';
  }

  /** The first underscore of a prefixed name ends the `str(month_val)` part. */
  lemma FirstUnderscore(monthVal: int, name: string)
    ensures var n, s := Prefix(monthVal) + name, IntToString(monthVal);
      && n[..|s|] == s && n[|s|] == '_'
      && forall i :: 0 <= i < |s| ==> n[i] != '_'
  {
  }

  /** A prefixed name tells which window and which column it came from, so
      the feature columns of tables built over different windows never
      clash. */
  lemma PrefixedNameDeterminesOrigin(m1: int, c1: string, m2: int, c2: string)
    requires Prefix(m1) + c1 == Prefix(m2) + c2
    ensures m1 == m2 && c1 == c2
  {
    var s1, s2 := IntToString(m1), IntToString(m2);
    var n := Prefix(m1) + c1;
    FirstUnderscore(m1, c1);
    FirstUnderscore(m2, c2);
    assert !(|s1| < |s2|);
    assert !(|s2| < |s1|);
    assert s1 == n[..|s1|] == s2;
    IntToStringInjective(m1, m2);
    assert c1 == n[|Prefix(m1)|..] == c2;
  }

  /** Renaming keeps distinct column names distinct. */
  lemma RenamedColumnsDistinct(columns: seq<string>, monthVal: int)
    requires DistinctNames(columns)
    ensures DistinctNames(RenamedColumns(columns, monthVal))
  {
    var r := RenamedColumns(columns, monthVal);
    forall i, j | 0 <= i < j < |r| ensures r[i] != r[j] {
      if columns[i] != ID_COLUMN && columns[j] != ID_COLUMN {
        if r[i] == r[j] {
          PrefixedNameDeterminesOrigin(monthVal, columns[i], monthVal, columns[j]);
        }
      } else if columns[i] != ID_COLUMN {
        PrefixedIsNotId(monthVal, columns[i]);
      } else if columns[j] != ID_COLUMN {
        PrefixedIsNotId(monthVal, columns[j]);
      }
    }
  }

  /** Two tables renamed with different window lengths share no column name
      but `patient_id`, the key they are joined on. */
  lemma DifferentWindowsShareOnlyId(cols1: seq<string>, m1: int, cols2: seq<string>, m2: int, i: nat, j: nat)
    requires m1 != m2 && i < |cols1| && j < |cols2|
    requires RenamedColumns(cols1, m1)[i] == RenamedColumns(cols2, m2)[j]
    ensures RenamedColumns(cols1, m1)[i] == ID_COLUMN
  {
    if cols1[i] != ID_COLUMN {
      PrefixedIsNotId(m1, cols1[i]);
      if cols2[j] != ID_COLUMN {
        PrefixedNameDeterminesOrigin(m1, cols1[i], m2, cols2[j]);
      }
    }
  }

  /** Renaming twice with the same month_val prefixes every feature column
      twice: the renamer is not idempotent. */
  lemma RenameTwiceDoublePrefixes(columns: seq<string>, monthVal: int)
    ensures var twice := RenamedColumns(RenamedColumns(columns, monthVal), monthVal);
      && |twice| == |columns|
      && forall k :: 0 <= k < |columns| ==>
           twice[k] == if columns[k] == ID_COLUMN then ID_COLUMN
                       else Prefix(monthVal) + (Prefix(monthVal) + columns[k])
  {
    forall k | 0 <= k < |columns| && columns[k] != ID_COLUMN {
      PrefixedIsNotId(monthVal, columns[k]);
    }
  }

  /** The documented example: over a 3-month window `digestive_dia` becomes
      `3_month_digestive_dia` and `patient_id` keeps its name. */
  lemma ThreeMonthDigestive()
    ensures RenamedColumns([ID_COLUMN, "digestive_dia"], 3) == [ID_COLUMN, "3_month_digestive_dia"]
  {
    var r := RenamedColumns([ID_COLUMN, "digestive_dia"], 3);
    assert IntToString(3) == "3";
    assert "digestive_dia" != ID_COLUMN;
    assert r[0] == ID_COLUMN;
    assert r[1] == Prefix(3) + "digestive_dia" == "3_month_digestive_dia";
  }

  // ---------------------------------------------------------------------
  // The DataFrame and the in-place loop

  /** `pandas.DataFrame.rename(columns={from: to})`: every label equal to
      `from` becomes `to`. */
  function RenameLabel(columns: seq<string>, from: string, to: string): (r: seq<string>)
    ensures |r| == |columns|
  {
    seq(|columns|, k requires 0 <= k < |columns| => if columns[k] == from then to else columns[k])
  }

  /** A result table: its column labels and its cells. The renamer changes
      only the labels. */
  class DataFrame {
    var columns: seq<string>
    var rows: seq<seq<int>>

    constructor (columns: seq<string>, rows: seq<seq<int>>)
      ensures this.columns == columns && this.rows == rows
    {
      this.columns := columns;
      this.rows := rows;
    }

    /** `rename(columns={from: to}, inplace=True)`. */
    method RenameInPlace(from: string, to: string)
      modifies this
      ensures columns == RenameLabel(old(columns), from, to)
      ensures rows == old(rows)
    {
      columns := RenameLabel(columns, from, to);
    }
  }

  /** `rename_feature_dfs`: walks the original column labels and renames each
      one other than `patient_id` in place; returns the same table. */
  method RenameFeatureDfs(featureDf: DataFrame, monthVal: int) returns (result: DataFrame)
    requires PrefixedNamesFresh(featureDf.columns, monthVal)
    modifies featureDf
    ensures result == featureDf
    ensures featureDf.columns == RenamedColumns(old(featureDf.columns), monthVal)
    ensures featureDf.rows == old(featureDf.rows)
  {
    var original := featureDf.columns;
    var prefix := Prefix(monthVal);
    for i := 0 to |original|
      invariant |featureDf.columns| == |original|
      invariant featureDf.rows == old(featureDf.rows)
      invariant forall k :: 0 <= k < |original| ==>
        featureDf.columns[k] == if original[k] != ID_COLUMN && original[k] in original[..i]
                                then prefix + original[k] else original[k]
    {
      var colName := original[i];
      if colName != ID_COLUMN {
        featureDf.RenameInPlace(colName, prefix + colName);
      }
      assert original[..i + 1] == original[..i] + [colName];
    }
    assert original[..|original|] == original;
    result := featureDf;
  }
}
