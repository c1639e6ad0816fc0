/** `filtered_data.groupby(['Month', 'Crime Type English']).size()
    .reset_index(name='Count')`: one row per (month, crime type) pair that
    occurs, with the number of records in that group, rows ordered by the
    group key as pandas sorts group keys by default. */
module Aggregation {
  import opened Records

  /** A group key: (Month, Crime Type English). */
  datatype Key = Key(month: int, crimeType: string)

  /** One aggregated row: (Month, Crime Type English, Count). */
  datatype CountRow = CountRow(month: int, crimeType: string, count: nat)

  function KeyOf(r: Record): Key {
    Key(r.month, r.crimeType)
  }

  function RowKey(row: CountRow): Key {
    Key(row.month, row.crimeType)
  }

  /** Lexicographic order of strings by character code. */
  predicate StrLess(a: string, b: string) {
    |b| > 0 && (|a| == 0 || a[0] < b[0] || (a[0] == b[0] && StrLess(a[1..], b[1..])))
  }

  lemma {:induction false} StrLessIrreflexive(a: string)
    ensures !StrLess(a, a)
  {
    if |a| > 0 {
      StrLessIrreflexive(a[1..]);
    }
  }

  lemma {:induction false} StrLessTransitive(a: string, b: string, c: string)
    requires StrLess(a, b) && StrLess(b, c)
    ensures StrLess(a, c)
  {
    if |a| > 0 && a[0] == b[0] && b[0] == c[0] {
      StrLessTransitive(a[1..], b[1..], c[1..]);
    }
  }

  lemma {:induction false} StrLessTotal(a: string, b: string)
    requires a != b
    ensures StrLess(a, b) || StrLess(b, a)
  {
    if |a| > 0 && |b| > 0 && a[0] == b[0] {
      assert a == [a[0]] + a[1..] && b == [b[0]] + b[1..];
      StrLessTotal(a[1..], b[1..]);
    }
  }

  /** The order of group keys: by month, then by crime type. */
  predicate KeyLess(a: Key, b: Key) {
    a.month < b.month || (a.month == b.month && StrLess(a.crimeType, b.crimeType))
  }

  lemma KeyLessIrreflexive(a: Key)
    ensures !KeyLess(a, a)
  {
    StrLessIrreflexive(a.crimeType);
  }

  lemma KeyLessTransitive(a: Key, b: Key, c: Key)
    requires KeyLess(a, b) && KeyLess(b, c)
    ensures KeyLess(a, c)
  {
    if a.month == b.month == c.month {
      StrLessTransitive(a.crimeType, b.crimeType, c.crimeType);
    }
  }

  lemma KeyLessTotal(a: Key, b: Key)
    requires a != b
    ensures KeyLess(a, b) || KeyLess(b, a)
  {
    if a.month == b.month {
      StrLessTotal(a.crimeType, b.crimeType);
    }
  }

  /** Rows in strictly increasing key order, hence with distinct keys. */
  predicate SortedByKey(rows: seq<CountRow>) {
    forall i, j :: 0 <= i < j < |rows| ==> KeyLess(RowKey(rows[i]), RowKey(rows[j]))
  }

  /** Every row counts at least one record. */
  predicate AllPositive(rows: seq<CountRow>) {
    forall i :: 0 <= i < |rows| ==> rows[i].count >= 1
  }

  /** Sum of the counts. */
  function Total(rows: seq<CountRow>): nat {
    if rows == [] then 0 else rows[0].count + Total(rows[1..])
  }

  /** The count of the first row with key k, or 0 if there is none. */
  function CountFor(rows: seq<CountRow>, k: Key): nat {
    if rows == [] then 0
    else if RowKey(rows[0]) == k then rows[0].count
    else CountFor(rows[1..], k)
  }

  /** Number of records whose group key is k. */
  function Occurrences(records: seq<Record>, k: Key): nat {
    if records == [] then 0
    else (if KeyOf(records[0]) == k then 1 else 0) + Occurrences(records[1..], k)
  }

  /** Adds one record with key k to sorted rows: bumps the count of its row,
      or inserts a new row with count 1 where the key order puts it. */
  function Bump(rows: seq<CountRow>, k: Key): (out: seq<CountRow>)
    ensures Total(out) == Total(rows) + 1
  {
    if rows == [] then [CountRow(k.month, k.crimeType, 1)]
    else if RowKey(rows[0]) == k then [rows[0].(count := rows[0].count + 1)] + rows[1..]
    else if KeyLess(k, RowKey(rows[0])) then [CountRow(k.month, k.crimeType, 1)] + rows
    else [rows[0]] + Bump(rows[1..], k)
  }

  /** The aggregated rows of a sequence of records: sorted by key, each
      counting at least one record, the counts adding up to the number of
      records. */
  function Aggregate(records: seq<Record>): (rows: seq<CountRow>)
    ensures SortedByKey(rows) && AllPositive(rows)
    ensures Total(rows) == |records|
  {
    if records == [] then []
    else
      var rest := Aggregate(records[1..]);
      BumpSorted(rest, KeyOf(records[0]));
      Bump(rest, KeyOf(records[0]))
  }

  /** Every key of sorted rows is at least the first row's key. */
  lemma SortedHead(rows: seq<CountRow>, k: Key)
    requires SortedByKey(rows) && rows != [] && KeyLess(k, RowKey(rows[0]))
    ensures forall j :: 0 <= j < |rows| ==> KeyLess(k, RowKey(rows[j]))
  {
    forall j | 0 < j < |rows| ensures KeyLess(k, RowKey(rows[j])) {
      KeyLessTransitive(k, RowKey(rows[0]), RowKey(rows[j]));
    }
  }

  /** A row whose key is below every key of sorted rows can go in front. */
  lemma PrependSorted(row: CountRow, rows: seq<CountRow>)
    requires SortedByKey(rows)
    requires forall i :: 0 <= i < |rows| ==> KeyLess(RowKey(row), RowKey(rows[i]))
    ensures SortedByKey([row] + rows)
  {
    var out := [row] + rows;
    forall i, j | 0 <= i < j < |out| ensures KeyLess(RowKey(out[i]), RowKey(out[j])) {
      assert out[j] == rows[j - 1];
      if i > 0 {
        assert out[i] == rows[i - 1];
      }
    }
  }

  /** A lower bound of all keys and of k stays a lower bound after Bump. */
  lemma {:induction false} BumpAbove(rows: seq<CountRow>, k: Key, lo: Key)
    requires forall i :: 0 <= i < |rows| ==> KeyLess(lo, RowKey(rows[i]))
    requires KeyLess(lo, k)
    ensures forall i :: 0 <= i < |Bump(rows, k)| ==> KeyLess(lo, RowKey(Bump(rows, k)[i]))
  {
    if rows != [] && RowKey(rows[0]) != k && !KeyLess(k, RowKey(rows[0])) {
      BumpAbove(rows[1..], k, lo);
      var out := Bump(rows, k);
      assert out == [rows[0]] + Bump(rows[1..], k);
      assert forall i :: 1 <= i < |out| ==> out[i] == Bump(rows[1..], k)[i - 1];
    }
  }

  lemma {:induction false} BumpSorted(rows: seq<CountRow>, k: Key)
    requires SortedByKey(rows) && AllPositive(rows)
    ensures SortedByKey(Bump(rows, k)) && AllPositive(Bump(rows, k))
  {
    if rows == [] {
    } else if RowKey(rows[0]) == k {
      var out := Bump(rows, k);
      assert forall i :: 0 <= i < |out| ==> RowKey(out[i]) == RowKey(rows[i]);
    } else if KeyLess(k, RowKey(rows[0])) {
      SortedHead(rows, k);
      PrependSorted(CountRow(k.month, k.crimeType, 1), rows);
    } else {
      var head, rest := rows[0], rows[1..];
      KeyLessTotal(k, RowKey(head));
      assert SortedByKey(rest);
      BumpSorted(rest, k);
      BumpAbove(rest, k, RowKey(head));
      PrependSorted(head, Bump(rest, k));
    }
  }

  /** A key that no row carries has count 0. */
  lemma {:induction false} CountForAbsent(rows: seq<CountRow>, k: Key)
    requires forall j :: 0 <= j < |rows| ==> RowKey(rows[j]) != k
    ensures CountFor(rows, k) == 0
  {
    if rows != [] {
      CountForAbsent(rows[1..], k);
    }
  }

  lemma {:induction false} BumpCount(rows: seq<CountRow>, k: Key, k': Key)
    requires SortedByKey(rows)
    ensures CountFor(Bump(rows, k), k') == CountFor(rows, k') + (if k' == k then 1 else 0)
  {
    if rows == [] {
    } else if RowKey(rows[0]) == k {
    } else if KeyLess(k, RowKey(rows[0])) {
      if k' == k {
        SortedHead(rows, k);
        KeyLessIrreflexive(k);
        assert forall j :: 0 <= j < |rows| ==> RowKey(rows[j]) != k;
        CountForAbsent(rows, k);
      }
    } else {
      BumpCount(rows[1..], k, k');
    }
  }

  /** The count recorded for any key is the number of records with that key. */
  lemma {:induction false} AggregateCounts(records: seq<Record>, k: Key)
    ensures CountFor(Aggregate(records), k) == Occurrences(records, k)
  {
    if records != [] {
      AggregateCounts(records[1..], k);
      BumpCount(Aggregate(records[1..]), KeyOf(records[0]), k);
    }
  }

  /** In sorted rows, looking a row's key up finds that row. */
  lemma {:induction false} CountForAt(rows: seq<CountRow>, i: nat)
    requires SortedByKey(rows) && i < |rows|
    ensures CountFor(rows, RowKey(rows[i])) == rows[i].count
  {
    if i > 0 {
      KeyLessIrreflexive(RowKey(rows[i]));
      assert RowKey(rows[0]) != RowKey(rows[i]);
      assert SortedByKey(rows[1..]);
      CountForAt(rows[1..], i - 1);
    }
  }

  /** A key with a positive count is the key of some row. */
  lemma {:induction false} CountForPresent(rows: seq<CountRow>, k: Key)
    requires CountFor(rows, k) > 0
    ensures exists i :: 0 <= i < |rows| && RowKey(rows[i]) == k
  {
    if RowKey(rows[0]) != k {
      CountForPresent(rows[1..], k);
      var i :| 0 <= i < |rows[1..]| && RowKey(rows[1..][i]) == k;
      assert RowKey(rows[i + 1]) == k;
    }
  }

  /** A record's key occurs at least once among the records. */
  lemma {:induction false} OccursAtLeastOnce(records: seq<Record>, r: Record)
    requires r in records
    ensures Occurrences(records, KeyOf(r)) >= 1
  {
    if records[0] != r {
      OccursAtLeastOnce(records[1..], r);
    }
  }

  /** Exactly one row per (month, crime type) pair present among the
      records, with the number of records of that pair as its count (at
      least 1), rows in key order, and counts summing to the number of
      records. */
  lemma GroupCounts(records: seq<Record>)
    ensures var rows := Aggregate(records);
      SortedByKey(rows) &&
      (forall i :: 0 <= i < |rows| ==>
        rows[i].count == Occurrences(records, RowKey(rows[i])) && rows[i].count >= 1) &&
      (forall r :: r in records ==> exists i :: 0 <= i < |rows| && RowKey(rows[i]) == KeyOf(r)) &&
      Total(rows) == |records|
  {
    var rows := Aggregate(records);
    forall i | 0 <= i < |rows|
      ensures rows[i].count == Occurrences(records, RowKey(rows[i]))
    {
      CountForAt(rows, i);
      AggregateCounts(records, RowKey(rows[i]));
    }
    forall r | r in records
      ensures exists i :: 0 <= i < |rows| && RowKey(rows[i]) == KeyOf(r)
    {
      OccursAtLeastOnce(records, r);
      AggregateCounts(records, KeyOf(r));
      CountForPresent(rows, KeyOf(r));
    }
  }
}
