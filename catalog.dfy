/** The dropdown option lists, computed once from the dataset: a sentinel
    "Select All: ..." entry plus the selectable values of each dimension. */
module Catalog {
  import opened Records
  import opened Tables

  /** One dropdown entry `{'label': ..., 'value': ...}`; `caption` holds
      the `label` key (a reserved word here). `All` in either field stands for the dimension's "Select All: ..." text. */
  datatype DropdownOption<L, V> = DropdownOption(caption: Choice<L>, value: Choice<V>)

  /** Position of the first occurrence of x in s. */
  function FirstIndex<T(==)>(s: seq<T>, x: T): (k: nat)
    requires x in s
    ensures k < |s| && s[k] == x
    ensures forall j :: 0 <= j < k ==> s[j] != x
  {
    if s[0] == x then 0 else 1 + FirstIndex(s[1..], x)
  }

  /** Extending a sequence at the end does not move first occurrences. */
  lemma FirstIndexOfPrefix<T>(s: seq<T>, x: T)
    requires |s| > 0 && x in s[..|s| - 1]
    ensures FirstIndex(s, x) == FirstIndex(s[..|s| - 1], x)
  {
    var k1, k2 := FirstIndex(s, x), FirstIndex(s[..|s| - 1], x);
    assert s[k2] == x;
    assert k1 <= k2;
    assert s[..|s| - 1][k1] == x;
  }

  /** pandas `Series.unique()`: each distinct value once, in the order of
      its first appearance. */
  function Unique<T(==, !new)>(s: seq<T>): (u: seq<T>)
    ensures forall x :: x in u <==> x in s
    ensures forall i, j :: 0 <= i < j < |u| ==> u[i] != u[j]
  {
    if s == [] then []
    else
      var seen := Unique(s[..|s| - 1]);
      var x := s[|s| - 1];
      assert s == s[..|s| - 1] + [x];
      if x in seen then seen else seen + [x]
  }

  lemma {:induction false} UniqueFirstSeen<T(!new)>(s: seq<T>)
    ensures forall i, j :: 0 <= i < j < |Unique(s)| ==>
      FirstIndex(s, Unique(s)[i]) < FirstIndex(s, Unique(s)[j])
  {
    if s != [] {
      var p := s[..|s| - 1];
      var x := s[|s| - 1];
      var seen := Unique(p);
      UniqueFirstSeen(p);
      forall y | y in seen ensures FirstIndex(s, y) == FirstIndex(p, y) && FirstIndex(s, y) < |p| {
        FirstIndexOfPrefix(s, y);
      }
      if x !in seen {
        assert x !in p;
        assert FirstIndex(s, x) == |p|;
        assert Unique(s) == seen + [x];
        forall i, j | 0 <= i < j < |Unique(s)|
          ensures FirstIndex(s, Unique(s)[i]) < FirstIndex(s, Unique(s)[j])
        {
          assert Unique(s)[i] == seen[i];
          if j < |seen| {
            assert Unique(s)[j] == seen[j];
          }
        }
      }
    }
  }

  /** A sequence without repeats has as many elements as its set. */
  lemma {:induction false} DistinctCardinality<T>(u: seq<T>)
    requires forall i, j :: 0 <= i < j < |u| ==> u[i] != u[j]
    ensures |set x | x in u| == |u|
  {
    if u != [] {
      var p := u[..|u| - 1];
      DistinctCardinality(p);
      assert (set x | x in u) == (set x | x in p) + {u[|u| - 1]};
      assert u[|u| - 1] !in p;
    }
  }

  /** The number of distinct values is the size of the set of values. */
  lemma UniqueCardinality<T(!new)>(s: seq<T>)
    ensures |Unique(s)| == |set x | x in s|
  {
    DistinctCardinality(Unique(s));
    assert (set x | x in Unique(s)) == (set x | x in s);
  }

  /** The list-comprehension part of the crime type, location and year
      option lists: one entry per value, label equal to value. */
  function ValueOptions<T>(values: seq<T>): (opts: seq<DropdownOption<T, T>>)
    ensures |opts| == |values|
    ensures forall i :: 0 <= i < |values| ==> opts[i] == DropdownOption(Val(values[i]), Val(values[i]))
  {
    seq(|values|, i requires 0 <= i < |values| => DropdownOption(Val(values[i]), Val(values[i])))
  }

  /** The shape shared by the crime type, location and year lists: the
      sentinel first, then every distinct value of the column once, in
      first-seen order, labelled by itself. */
  function DistinctOptions<T(==, !new)>(column: seq<T>): (opts: seq<DropdownOption<T, T>>)
    ensures |opts| == 1 + |set x | x in column|
    ensures opts[0] == DropdownOption(All, All)
    ensures forall i :: 1 <= i < |opts| ==>
      opts[i].value.Val? && opts[i].caption == opts[i].value && opts[i].value.v in column
    ensures forall x :: x in column ==> DropdownOption(Val(x), Val(x)) in opts
    ensures forall i, j :: 1 <= i < j < |opts| ==>
      FirstIndex(column, opts[i].value.v) < FirstIndex(column, opts[j].value.v)
  {
    var u := Unique(column);
    UniqueCardinality(column);
    UniqueFirstSeen(column);
    var opts := [DropdownOption(All, All)] + ValueOptions(u);
    assert |opts| == 1 + |u|;
    assert forall i :: 1 <= i < |opts| ==> opts[i] == DropdownOption(Val(u[i - 1]), Val(u[i - 1]));
    assert forall x :: x in column ==> DropdownOption(Val(x), Val(x)) in opts by {
      forall x | x in column ensures DropdownOption(Val(x), Val(x)) in opts {
        var i :| 0 <= i < |u| && u[i] == x;
        assert opts[i + 1] == DropdownOption(Val(x), Val(x));
      }
    }
    opts
  }

  /** The column of one field, as the list of its values row by row. */
  function CrimeTypeColumn(data: seq<Record>): (col: seq<string>)
    ensures |col| == |data| && forall i :: 0 <= i < |data| ==> col[i] == data[i].crimeType
    ensures forall r :: r in data ==> r.crimeType in col
    ensures (set x | x in col) == (set r | r in data :: r.crimeType)
  {
    var col := seq(|data|, i requires 0 <= i < |data| => data[i].crimeType);
    assert forall r :: r in data ==> r.crimeType in col by {
      forall r | r in data ensures r.crimeType in col {
        var i :| 0 <= i < |data| && data[i] == r;
        assert col[i] == r.crimeType;
      }
    }
    col
  }

  function LocationColumn(data: seq<Record>): (col: seq<string>)
    ensures |col| == |data| && forall i :: 0 <= i < |data| ==> col[i] == data[i].location
    ensures forall r :: r in data ==> r.location in col
    ensures (set x | x in col) == (set r | r in data :: r.location)
  {
    var col := seq(|data|, i requires 0 <= i < |data| => data[i].location);
    assert forall r :: r in data ==> r.location in col by {
      forall r | r in data ensures r.location in col {
        var i :| 0 <= i < |data| && data[i] == r;
        assert col[i] == r.location;
      }
    }
    col
  }

  function YearColumn(data: seq<Record>): (col: seq<int>)
    ensures |col| == |data| && forall i :: 0 <= i < |data| ==> col[i] == data[i].year
    ensures forall r :: r in data ==> r.year in col
    ensures (set x | x in col) == (set r | r in data :: r.year)
  {
    var col := seq(|data|, i requires 0 <= i < |data| => data[i].year);
    assert forall r :: r in data ==> r.year in col by {
      forall r | r in data ensures r.year in col {
        var i :| 0 <= i < |data| && data[i] == r;
        assert col[i] == r.year;
      }
    }
    col
  }

  /** `options_crime_type`: the sentinel, then one entry per distinct crime type. */
  function CrimeTypeOptions(data: seq<Record>): (opts: seq<DropdownOption<string, string>>)
    ensures |opts| == 1 + |set r | r in data :: r.crimeType|
    ensures opts[0] == DropdownOption(All, All)
    ensures forall r :: r in data ==> DropdownOption(Val(r.crimeType), Val(r.crimeType)) in opts
    ensures forall i :: 1 <= i < |opts| ==>
      opts[i].caption == opts[i].value && exists r :: r in data && opts[i].value == Val(r.crimeType)
  {
    var col := CrimeTypeColumn(data);
    DistinctOptions(col)
  }

  /** `options_location`: the sentinel, then one entry per distinct location. */
  function LocationOptions(data: seq<Record>): (opts: seq<DropdownOption<string, string>>)
    ensures |opts| == 1 + |set r | r in data :: r.location|
    ensures opts[0] == DropdownOption(All, All)
    ensures forall r :: r in data ==> DropdownOption(Val(r.location), Val(r.location)) in opts
    ensures forall i :: 1 <= i < |opts| ==>
      opts[i].caption == opts[i].value && exists r :: r in data && opts[i].value == Val(r.location)
  {
    var col := LocationColumn(data);
    DistinctOptions(col)
  }

  /** `options_year`: the sentinel, then one entry per distinct year. */
  function YearOptions(data: seq<Record>): (opts: seq<DropdownOption<int, int>>)
    ensures |opts| == 1 + |set r | r in data :: r.year|
    ensures opts[0] == DropdownOption(All, All)
    ensures forall r :: r in data ==> DropdownOption(Val(r.year), Val(r.year)) in opts
    ensures forall i :: 1 <= i < |opts| ==>
      opts[i].caption == opts[i].value && exists r :: r in data && opts[i].value == Val(r.year)
  {
    var col := YearColumn(data);
    DistinctOptions(col)
  }

  /** `options_month`: months 1..12 labelled from the month table, in
      order, and the sentinel LAST. */
  function MonthOptions(): (opts: seq<DropdownOption<string, int>>)
    ensures |opts| == 13
    ensures opts[12] == DropdownOption(All, All)
    ensures forall m :: 1 <= m <= 12 ==> opts[m - 1] == DropdownOption(Val(MonthLabel(m)), Val(m))
  {
    seq(12, i requires 0 <= i < 12 => DropdownOption(Val(MonthLabel(i + 1)), Val(i + 1)))
      + [DropdownOption(All, All)]
  }

  /** `options_time_of_day`: the sentinel, then the five labels in code
      order; the value of each entry is its label, not its code. */
  function TimeOfDayOptions(): (opts: seq<DropdownOption<string, string>>)
    ensures |opts| == 1 + TimeOfDayCount
    ensures opts[0] == DropdownOption(All, All)
    ensures forall k :: 0 <= k < TimeOfDayCount ==>
      opts[k + 1] == DropdownOption(Val(TimeOfDayLabel(k)), Val(TimeOfDayLabel(k)))
  {
    [DropdownOption(All, All)]
      + seq(TimeOfDayCount, k requires 0 <= k < TimeOfDayCount =>
              DropdownOption(Val(TimeOfDayLabel(k)), Val(TimeOfDayLabel(k))))
  }

  /** Every month option other than the sentinel names a different month
      under a different label. */
  lemma MonthOptionsDistinct(i: int, j: int)
    requires 0 <= i < 12 && 0 <= j < 12 && i != j
    ensures MonthOptions()[i].value != MonthOptions()[j].value
    ensures MonthOptions()[i].caption != MonthOptions()[j].caption
  {
    MonthLabelsDistinct(i + 1, j + 1);
  }

  /** Choosing exactly the k-th time-of-day option (after the sentinel)
      filters on exactly code k - 1. */
  lemma TimeOfDayOptionSelectsItsCode(k: int)
    requires 1 <= k <= TimeOfDayCount
    ensures CodesOf([TimeOfDayOptions()[k].value]) == [k - 1]
  {
    LabelRoundTrip(k - 1);
  }
}
