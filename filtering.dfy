/** The five conditional narrowings at the start of `update_plot`, and the
    specification they meet: a record survives exactly when it passes the
    test of every dimension, whatever order the tests are applied in. */
module Filtering {
  import opened Records
  import opened Tables

  /** The five filterable dimensions. */
  datatype Dim = CrimeType | Location | Year | Month | TimeOfDay

  /** The order in which `update_plot` applies the filters. */
  const SourceOrder: seq<Dim> := [CrimeType, Location, Year, Month, TimeOfDay]

  /** The dimension's selection holds its "Select All: ..." sentinel, so the
      filter of that dimension is skipped. */
  predicate Skips(sel: Selection, d: Dim) {
    match d
    case CrimeType => All in sel.crimeTypes
    case Location => All in sel.locations
    case Year => All in sel.years
    case Month => All in sel.months
    case TimeOfDay => All in sel.timesOfDay
  }

  /** The arguments of one `isin` call: the column tested and the values it
      is tested against. Time of day is tested against translated codes. */
  datatype Mask =
    | CrimeTypeIn(crimeTypes: seq<Choice<string>>)
    | LocationIn(locations: seq<Choice<string>>)
    | YearIn(years: seq<Choice<int>>)
    | MonthIn(months: seq<Choice<int>>)
    | TimeOfDayIn(codes: seq<int>)

  /** `record[column].isin(values)`. */
  predicate Matches(m: Mask, r: Record) {
    match m
    case CrimeTypeIn(values) => Val(r.crimeType) in values
    case LocationIn(values) => Val(r.location) in values
    case YearIn(values) => Val(r.year) in values
    case MonthIn(values) => Val(r.month) in values
    case TimeOfDayIn(codes) => r.timeOfDay in codes
  }

  /** The `isin` test that dimension d applies when it is not skipped. */
  function MaskOf(sel: Selection, d: Dim): Mask {
    match d
    case CrimeType => CrimeTypeIn(sel.crimeTypes)
    case Location => LocationIn(sel.locations)
    case Year => YearIn(sel.years)
    case Month => MonthIn(sel.months)
    case TimeOfDay => TimeOfDayIn(CodesOf(sel.timesOfDay))
  }

  /** `rows[rows[column].isin(values)]`: the matching rows, in order
      (multiplicities: `NarrowKeepsEveryMatch`). */
  function Narrow(rows: seq<Record>, m: Mask): (kept: seq<Record>)
    ensures forall r :: r in kept <==> r in rows && Matches(m, r)
    ensures |kept| <= |rows|
  {
    if rows == [] then []
    else
      (if Matches(m, rows[0]) then [rows[0]] else []) + Narrow(rows[1..], m)
  }

  /** The test of dimension d: passed by every record when the dimension
      holds its sentinel, otherwise by the records its `isin` accepts. */
  predicate Admits(sel: Selection, d: Dim, r: Record) {
    Skips(sel, d) || Matches(MaskOf(sel, d), r)
  }

  /** r passes the test of every dimension in ds. */
  predicate AdmitsAll(sel: Selection, ds: seq<Dim>, r: Record) {
    forall d :: d in ds ==> Admits(sel, d, r)
  }

  /** Specification of the filtering: the rows that pass the tests of all
      dimensions in ds, in their original order. */
  function Sift(rows: seq<Record>, sel: Selection, ds: seq<Dim>): (kept: seq<Record>)
    ensures forall r :: r in kept <==> r in rows && AdmitsAll(sel, ds, r)
  {
    if rows == [] then []
    else
      (if AdmitsAll(sel, ds, rows[0]) then [rows[0]] else []) + Sift(rows[1..], sel, ds)
  }

  /** The records of `data` that the selection lets through. */
  function Filtered(data: seq<Record>, sel: Selection): (f: seq<Record>)
    ensures forall r :: r in f <==> r in data && AdmitsAll(sel, SourceOrder, r)
  {
    Sift(data, sel, SourceOrder)
  }

  /** One `if 'Select All: ...' not in selected: filtered = filtered[...]`
      statement of `update_plot`, for dimension d. */
  function Step(rows: seq<Record>, sel: Selection, d: Dim): (out: seq<Record>)
    ensures Skips(sel, d) ==> out == rows
  {
    if Skips(sel, d) then rows else Narrow(rows, MaskOf(sel, d))
  }

  /** The filter statements run one after another in the given order. */
  function ApplyInOrder(rows: seq<Record>, sel: Selection, order: seq<Dim>): seq<Record> {
    if order == [] then rows
    else Step(ApplyInOrder(rows, sel, order[..|order| - 1]), sel, order[|order| - 1])
  }

  /** a can be obtained from b by deleting elements (order is kept). */
  ghost predicate IsSubsequence(a: seq<Record>, b: seq<Record>)
    decreases |b|
  {
    if b == [] then a == []
    else IsSubsequence(a, b[1..]) || (a != [] && a[0] == b[0] && IsSubsequence(a[1..], b[1..]))
  }

  /** `isin` drops no copy of a matching row and keeps no other row: each
      row occurs in the result as often as in the input if it matches and
      not at all otherwise, and the result keeps the input's order. */
  lemma {:induction false} NarrowKeepsEveryMatch(rows: seq<Record>, m: Mask)
    ensures forall r :: multiset(Narrow(rows, m))[r] == if Matches(m, r) then multiset(rows)[r] else 0
    ensures IsSubsequence(Narrow(rows, m), rows)
  {
    if rows != [] {
      NarrowKeepsEveryMatch(rows[1..], m);
      assert rows == [rows[0]] + rows[1..];
      var rest := Narrow(rows[1..], m);
      if Matches(m, rows[0]) {
        assert Narrow(rows, m) == [rows[0]] + rest;
        assert ([rows[0]] + rest)[1..] == rest;
      } else {
        assert Narrow(rows, m) == rest;
      }
    }
  }

  /** The specified survivors keep every copy of an admitted row and no
      copy of any other row. */
  lemma {:induction false} SiftMultiplicity(rows: seq<Record>, sel: Selection, ds: seq<Dim>)
    ensures forall r ::
      multiset(Sift(rows, sel, ds))[r] == if AdmitsAll(sel, ds, r) then multiset(rows)[r] else 0
  {
    if rows != [] {
      SiftMultiplicity(rows[1..], sel, ds);
      assert rows == [rows[0]] + rows[1..];
    }
  }

  /** Running one more filter on the survivors of ds gives the survivors of
      ds followed by that dimension. */
  lemma {:induction false} StepExtendsSift(rows: seq<Record>, sel: Selection, ds: seq<Dim>, d: Dim)
    ensures Step(Sift(rows, sel, ds), sel, d) == Sift(rows, sel, ds + [d])
  {
    var ds' := ds + [d];
    assert forall r :: AdmitsAll(sel, ds', r) <==> AdmitsAll(sel, ds, r) && Admits(sel, d, r);
    if rows != [] {
      StepExtendsSift(rows[1..], sel, ds, d);
      if !Skips(sel, d) {
        var m := MaskOf(sel, d);
        var head := if AdmitsAll(sel, ds, rows[0]) then [rows[0]] else [];
        var tail := Sift(rows[1..], sel, ds);
        assert Sift(rows, sel, ds) == head + tail;
        if head != [] {
          assert (head + tail)[0] == rows[0] && (head + tail)[1..] == tail;
          assert Narrow(head + tail, m) ==
            (if Matches(m, rows[0]) then [rows[0]] else []) + Narrow(tail, m);
        } else {
          assert head + tail == tail;
        }
      }
    }
  }

  /** SourceOrder, built up one dimension at a time. */
  lemma SourceOrderPrefixes(o0: seq<Dim>, o1: seq<Dim>, o2: seq<Dim>, o3: seq<Dim>, o4: seq<Dim>)
    requires o0 == [] && o1 == o0 + [CrimeType] && o2 == o1 + [Location]
    requires o3 == o2 + [Year] && o4 == o3 + [Month]
    ensures o4 + [TimeOfDay] == SourceOrder
  {
  }

  /** The five filter statements of the source, run in the source's
      order, leave exactly the filtered records. */
  lemma SourceOrderFilters(data: seq<Record>, sel: Selection,
                           f1: seq<Record>, f2: seq<Record>, f3: seq<Record>,
                           f4: seq<Record>, f5: seq<Record>)
    requires f1 == Step(data, sel, CrimeType) && f2 == Step(f1, sel, Location)
    requires f3 == Step(f2, sel, Year) && f4 == Step(f3, sel, Month)
    requires f5 == Step(f4, sel, TimeOfDay)
    ensures f5 == Filtered(data, sel)
  {
    var o0: seq<Dim> := [];
    var o1 := o0 + [CrimeType];
    var o2 := o1 + [Location];
    var o3 := o2 + [Year];
    var o4 := o3 + [Month];
    SourceOrderPrefixes(o0, o1, o2, o3, o4);
    SiftKeepsAdmitted(data, sel, o0);
    StepExtendsSift(data, sel, o0, CrimeType);
    StepExtendsSift(data, sel, o1, Location);
    StepExtendsSift(data, sel, o2, Year);
    StepExtendsSift(data, sel, o3, Month);
    StepExtendsSift(data, sel, o4, TimeOfDay);
  }

  /** The survivors depend only on which dimensions are tested, not on the
      order or repetition in which they are listed. */
  lemma {:induction false} SiftDependsOnDimsOnly(rows: seq<Record>, sel: Selection, ds1: seq<Dim>, ds2: seq<Dim>)
    requires forall d :: d in ds1 <==> d in ds2
    ensures Sift(rows, sel, ds1) == Sift(rows, sel, ds2)
  {
    if rows != [] {
      SiftDependsOnDimsOnly(rows[1..], sel, ds1, ds2);
      assert AdmitsAll(sel, ds1, rows[0]) == AdmitsAll(sel, ds2, rows[0]);
    }
  }

  /** When no row passes the tests, nothing survives. */
  lemma {:induction false} SiftDropsRejected(rows: seq<Record>, sel: Selection, ds: seq<Dim>)
    requires forall r :: r in rows ==> !AdmitsAll(sel, ds, r)
    ensures Sift(rows, sel, ds) == []
  {
    if rows != [] {
      SiftDropsRejected(rows[1..], sel, ds);
    }
  }

  /** When every row passes the tests, every row survives; in particular
      when no dimension is tested. */
  lemma {:induction false} SiftKeepsAdmitted(rows: seq<Record>, sel: Selection, ds: seq<Dim>)
    requires forall r :: r in rows ==> AdmitsAll(sel, ds, r)
    ensures Sift(rows, sel, ds) == rows
  {
    if rows != [] {
      SiftKeepsAdmitted(rows[1..], sel, ds);
      assert rows == [rows[0]] + rows[1..];
    }
  }

  /** A non-empty order is its front followed by its last dimension. */
  lemma DropLast(order: seq<Dim>)
    requires order != []
    ensures order[..|order| - 1] + [order[|order| - 1]] == order
  {
  }

  /** Applying the filters one after another narrows to exactly the rows
      that pass all of them. */
  lemma {:induction false} ApplyInOrderSifts(rows: seq<Record>, sel: Selection, order: seq<Dim>)
    ensures ApplyInOrder(rows, sel, order) == Sift(rows, sel, order)
  {
    if order == [] {
      SiftKeepsAdmitted(rows, sel, order);
    } else {
      var init := order[..|order| - 1];
      DropLast(order);
      ApplyInOrderSifts(rows, sel, init);
      StepExtendsSift(rows, sel, init, order[|order| - 1]);
    }
  }

  /** Filter order does not matter: applying the five filters in any order
      that includes every dimension gives the same rows as the source order. */
  lemma AnyOrderFilters(data: seq<Record>, sel: Selection, order: seq<Dim>)
    requires forall d: Dim :: d in order
    ensures ApplyInOrder(data, sel, order) == Filtered(data, sel)
  {
    ApplyInOrderSifts(data, sel, order);
    assert forall d: Dim :: d in SourceOrder by {
      forall d: Dim ensures d in SourceOrder {
        match d {
          case CrimeType =>
          case Location =>
          case Year =>
          case Month =>
          case TimeOfDay =>
        }
      }
    }
    SiftDependsOnDimsOnly(data, sel, order, SourceOrder);
  }

  /** A record survives iff it passes all five tests: for each dimension,
      either the selection holds the sentinel or the record's value is
      selected (for time of day: its code is the code of a selected label). */
  lemma FilteredMembership(data: seq<Record>, sel: Selection, r: Record)
    ensures r in Filtered(data, sel) <==>
      r in data &&
      (All in sel.crimeTypes || Val(r.crimeType) in sel.crimeTypes) &&
      (All in sel.locations || Val(r.location) in sel.locations) &&
      (All in sel.years || Val(r.year) in sel.years) &&
      (All in sel.months || Val(r.month) in sel.months) &&
      (All in sel.timesOfDay ||
        (0 <= r.timeOfDay < TimeOfDayCount && Val(TimeOfDayLabel(r.timeOfDay)) in sel.timesOfDay))
  {
    assert AdmitsAll(sel, SourceOrder, r) <==>
      Admits(sel, CrimeType, r) && Admits(sel, Location, r) && Admits(sel, Year, r) &&
      Admits(sel, Month, r) && Admits(sel, TimeOfDay, r);
  }

  /** The survivors keep their relative order: they are a subsequence of
      the input. */
  lemma {:induction false} SiftIsSubsequence(rows: seq<Record>, sel: Selection, ds: seq<Dim>)
    ensures IsSubsequence(Sift(rows, sel, ds), rows)
  {
    if rows != [] {
      SiftIsSubsequence(rows[1..], sel, ds);
      var tail := Sift(rows[1..], sel, ds);
      if AdmitsAll(sel, ds, rows[0]) {
        assert Sift(rows, sel, ds) == [rows[0]] + tail;
        assert ([rows[0]] + tail)[1..] == tail;
      } else {
        assert Sift(rows, sel, ds) == tail;
      }
    }
  }

  /** Every copy of a record that passes all five tests survives, and no
      copy of any other record. */
  lemma FilteredMultiplicity(data: seq<Record>, sel: Selection)
    ensures forall r ::
      multiset(Filtered(data, sel))[r] == if AdmitsAll(sel, SourceOrder, r) then multiset(data)[r] else 0
  {
    SiftMultiplicity(data, sel, SourceOrder);
  }

  lemma FilteredIsSubsequence(data: seq<Record>, sel: Selection)
    ensures IsSubsequence(Filtered(data, sel), data)
  {
    SiftIsSubsequence(data, sel, SourceOrder);
  }

  /** When every dropdown holds its sentinel, nothing is filtered out. */
  lemma SentinelsKeepEverything(data: seq<Record>, sel: Selection)
    requires All in sel.crimeTypes && All in sel.locations && All in sel.years
    requires All in sel.months && All in sel.timesOfDay
    ensures Filtered(data, sel) == data
  {
    assert forall r :: AdmitsAll(sel, SourceOrder, r);
    SiftKeepsAdmitted(data, sel, SourceOrder);
  }

  /** The dropdown of dimension d was cleared: an empty list, so no sentinel. */
  predicate Cleared(sel: Selection, d: Dim) {
    match d
    case CrimeType => sel.crimeTypes == []
    case Location => sel.locations == []
    case Year => sel.years == []
    case Month => sel.months == []
    case TimeOfDay => sel.timesOfDay == []
  }

  /** A cleared dropdown on any dimension lets no record through. */
  lemma ClearedSelectionFiltersAll(data: seq<Record>, sel: Selection, d: Dim)
    requires Cleared(sel, d)
    ensures Filtered(data, sel) == []
  {
    if d == TimeOfDay {
      NoLabelNoCode(sel.timesOfDay);
    }
    forall r ensures !AdmitsAll(sel, SourceOrder, r) {
      assert d in SourceOrder && !Admits(sel, d, r);
    }
    SiftDropsRejected(data, sel, SourceOrder);
  }
}
