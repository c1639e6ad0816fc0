/** The two fixed label tables of the dashboard (time-of-day codes 0..4 and
    month numbers 1..12) and the inverse lookup that turns selected
    time-of-day labels back into the codes stored in the dataset. */
module Tables {
  import opened Records

  /** `time_of_day_mapping`: code k has label TimeOfDayLabels[k]. */
  const TimeOfDayLabels: seq<string> :=
    ["Midnight", "Early Morning", "Morning", "Afternoon", "Evening"]

  /** `month_labels`: month m (1..12) has label MonthLabels[m - 1]. */
  const MonthLabels: seq<string> :=
    ["Jan", "Feb", "Mar", "Apr", "May", "Jun",
     "Jul", "Aug", "Sep", "Oct", "Nov", "Dec"]

  /** Number of time-of-day codes; the codes are 0 .. TimeOfDayCount - 1. */
  const TimeOfDayCount: nat := 5

  /** The label of a time-of-day code; no other code has it. */
  function TimeOfDayLabel(code: int): (name: string)
    requires 0 <= code < TimeOfDayCount
    ensures forall c :: 0 <= c < TimeOfDayCount && TimeOfDayLabels[c] == name ==> c == code
  {
    var name := TimeOfDayLabels[code];
    assert forall c :: 0 <= c < TimeOfDayCount && c != code ==>
      |TimeOfDayLabels[c]| != |name| || TimeOfDayLabels[c][0] != name[0];
    name
  }

  /** The label of a month; no other month has it. */
  function MonthLabel(month: int): (name: string)
    requires 1 <= month <= 12
    ensures forall i :: 0 <= i < 12 && MonthLabels[i] == name ==> i == month - 1
  {
    var name := MonthLabels[month - 1];
    assert forall i :: 0 <= i < 12 && i != month - 1 ==>
      MonthLabels[i][0] != name[0] || MonthLabels[i][1] != name[1] || MonthLabels[i][2] != name[2];
    name
  }

  /** No two time-of-day codes share a label, so the inverse lookup is
      well defined. */
  lemma TimeOfDayLabelsDistinct(c: int, d: int)
    requires 0 <= c < TimeOfDayCount && 0 <= d < TimeOfDayCount
    ensures TimeOfDayLabel(c) == TimeOfDayLabel(d) <==> c == d
  {
    if c != d {
      // Each label differs from the others in length or in its first letter.
      var a, b := TimeOfDayLabel(c), TimeOfDayLabel(d);
      assert |a| != |b| || a[0] != b[0];
    }
  }

  /** No two months share a label. */
  lemma MonthLabelsDistinct(m: int, n: int)
    requires 1 <= m <= 12 && 1 <= n <= 12
    ensures MonthLabel(m) == MonthLabel(n) <==> m == n
  {
    if m != n {
      var a, b := MonthLabel(m), MonthLabel(n);
      assert a[0] != b[0] || a[1] != b[1] || a[2] != b[2];
    }
  }

  /** The codes from `from` up to 4 whose label is among `labels`, ascending. */
  function CodesFrom(labels: seq<Choice<string>>, from: nat): (codes: seq<int>)
    requires from <= TimeOfDayCount
    ensures forall c :: c in codes <==> from <= c < TimeOfDayCount && Val(TimeOfDayLabel(c)) in labels
    ensures forall i :: 0 <= i < |codes| ==> from <= codes[i]
    ensures forall i, j :: 0 <= i < j < |codes| ==> codes[i] < codes[j]
    decreases TimeOfDayCount - from
  {
    if from == TimeOfDayCount then []
    else if Val(TimeOfDayLabel(from)) in labels then [from] + CodesFrom(labels, from + 1)
    else CodesFrom(labels, from + 1)
  }

  /** The translation of `update_plot`: the keys of `time_of_day_mapping`,
      in key order, whose label is among the selected labels. */
  function CodesOf(labels: seq<Choice<string>>): (codes: seq<int>)
    ensures forall c :: c in codes <==> 0 <= c < TimeOfDayCount && Val(TimeOfDayLabel(c)) in labels
    ensures forall i, j :: 0 <= i < j < |codes| ==> codes[i] < codes[j]
  {
    CodesFrom(labels, 0)
  }

  /** The first translated code is the smallest code whose label is selected. */
  lemma {:induction false} FirstCodeIsSmallest(labels: seq<Choice<string>>)
    requires CodesOf(labels) != []
    ensures 0 <= CodesOf(labels)[0] < TimeOfDayCount
    ensures Val(TimeOfDayLabel(CodesOf(labels)[0])) in labels
    ensures forall c :: 0 <= c < CodesOf(labels)[0] ==> Val(TimeOfDayLabel(c)) !in labels
  {
    var codes := CodesOf(labels);
    assert codes[0] in codes;
    assert forall i :: 0 < i < |codes| ==> codes[0] < codes[i];
    assert forall x :: x in codes ==> codes[0] <= x;
  }

  /** Translating a single selected label yields exactly its own code, and
      looking that code up again gives back the label. */
  lemma {:induction false} LabelRoundTrip(code: int)
    requires 0 <= code < TimeOfDayCount
    ensures CodesOf([Val(TimeOfDayLabel(code))]) == [code]
    ensures TimeOfDayLabel(CodesOf([Val(TimeOfDayLabel(code))])[0]) == TimeOfDayLabel(code)
  {
    var labels := [Val(TimeOfDayLabel(code))];
    var codes := CodesOf(labels);
    forall c | c in codes ensures c == code {
      TimeOfDayLabelsDistinct(c, code);
    }
    assert code in codes;
    assert forall i :: 0 <= i < |codes| ==> codes[i] in codes;
  }

  /** A list of labels that holds none of the table's labels (in particular
      the empty list) translates to no codes at all. */
  lemma NoLabelNoCode(labels: seq<Choice<string>>)
    requires forall c :: 0 <= c < TimeOfDayCount ==> Val(TimeOfDayLabel(c)) !in labels
    ensures CodesOf(labels) == []
  {
    var codes := CodesOf(labels);
    assert forall i :: 0 <= i < |codes| ==> codes[i] in codes;
  }
}
