/** The chart callback `update_plot`: narrow the dataset by the five
    dropdowns, group the survivors by (month, crime type), and choose the
    chart title. The figure is reduced to what the plotting library is
    handed: the aggregated rows and the title. */
module Dashboard {
  import opened Records
  import opened Tables
  import opened Text
  import opened Filtering
  import opened Aggregation

  datatype Option<T> = None | Some(value: T)

  /** The data and title passed to the bar chart. */
  datatype Figure = Figure(counts: seq<CountRow>, title: string)

  /** The callback's outcome: a figure, or the `IndexError` raised when the
      detailed title indexes an empty list. */
  datatype Plot = Drawn(figure: Figure) | IndexError

  /** An element of `selected_time_of_day` when the title is formatted:
      a dropdown entry as passed in, or a code after translation. */
  datatype TimeOfDayEntry = Label(choice: Choice<string>) | Code(code: int)

  const CrimeTypeSentinel: string := "Select All: Crime Type"
  const YearSentinel: string := "Select All: Year"
  const TimeOfDaySentinel: string := "Select All: Time of Day"

  const GenericTitle: string := "Crime Counts by Month and Crime Type"

  /** How an f-string renders each kind of title part. */
  function ShowCrimeType(c: Choice<string>): string {
    match c
    case All => CrimeTypeSentinel
    case Val(s) => s
  }

  /** A concrete year is rendered as decimal text that reads back as that year. */
  function ShowYear(y: Choice<int>): (s: string)
    ensures y.All? ==> s == YearSentinel
    ensures y.Val? ==> IsNumeral(s) && ParseInt(s) == y.v
  {
    match y
    case All => YearSentinel
    case Val(n) => IntRoundTrip(n); IntToString(n)
  }

  /** A translated code is rendered as decimal text that reads back as the
      code; a dropdown entry as its own text. */
  function ShowTimeOfDay(e: TimeOfDayEntry): (s: string)
    ensures e.Code? ==> IsNumeral(s) && ParseInt(s) == e.code
    ensures e == Label(All) ==> s == TimeOfDaySentinel
    ensures e.Label? && e.choice.Val? ==> s == e.choice.v
  {
    match e
    case Label(All) => TimeOfDaySentinel
    case Label(Val(s)) => s
    case Code(c) => IntRoundTrip(c); IntToString(c)
  }

  /** The title of the single-year branch: the constant title, followed by
      the three parts, each appearing verbatim. */
  function DetailedTitle(crimeType: string, year: string, timeOfDay: string): (t: string)
    ensures |t| > |GenericTitle| && t[..|GenericTitle|] == GenericTitle
    ensures Contains(t, crimeType) && Contains(t, year) && Contains(t, timeOfDay)
  {
    var head := GenericTitle + " for ";
    var t := head + crimeType + " in " + year + " during " + timeOfDay;
    var j := |head| + |crimeType| + |" in "|;
    var k := j + |year| + |" during "|;
    assert OccursAt(t, crimeType, |head|);
    assert OccursAt(t, year, j);
    assert OccursAt(t, timeOfDay, k);
    assert t[..|GenericTitle|] == GenericTitle;
    t
  }

  function AsLabels(labels: seq<Choice<string>>): seq<TimeOfDayEntry> {
    seq(|labels|, i requires 0 <= i < |labels| => Label(labels[i]))
  }

  function AsCodes(codes: seq<int>): seq<TimeOfDayEntry> {
    seq(|codes|, i requires 0 <= i < |codes| => Code(codes[i]))
  }

  /** `selected_time_of_day` after the filters: the dropdown's entries when
      it holds the sentinel, otherwise the translated codes. */
  function TimeOfDayForTitle(sel: Selection): (times: seq<TimeOfDayEntry>)
    ensures All in sel.timesOfDay ==>
      |times| == |sel.timesOfDay| &&
      forall i :: 0 <= i < |times| ==> times[i] == Label(sel.timesOfDay[i])
    ensures All !in sel.timesOfDay ==>
      (forall i :: 0 <= i < |times| ==>
        times[i].Code? && 0 <= times[i].code < TimeOfDayCount &&
        Val(TimeOfDayLabel(times[i].code)) in sel.timesOfDay) &&
      (forall c :: 0 <= c < TimeOfDayCount && Val(TimeOfDayLabel(c)) in sel.timesOfDay ==>
        Code(c) in times) &&
      (forall i, j :: 0 <= i < j < |times| ==> times[i].code < times[j].code)
  {
    if All in sel.timesOfDay then AsLabels(sel.timesOfDay)
    else
      var codes := CodesOf(sel.timesOfDay);
      var times := AsCodes(codes);
      assert forall c :: c in codes ==> Code(c) in times by {
        forall c | c in codes ensures Code(c) in times {
          var i :| 0 <= i < |codes| && codes[i] == c;
          assert times[i] == Code(c);
        }
      }
      times
  }

  /** The chart title, or None where formatting it raises `IndexError`.
      Every title starts with the constant title. */
  function ChartTitle(sel: Selection): (title: Option<string>)
    ensures title.Some? ==>
      |title.value| >= |GenericTitle| && title.value[..|GenericTitle|] == GenericTitle
  {
    if |sel.years| == 1 then
      var times := TimeOfDayForTitle(sel);
      if sel.crimeTypes == [] || times == [] then None
      else Some(DetailedTitle(ShowCrimeType(sel.crimeTypes[0]), ShowYear(sel.years[0]),
                              ShowTimeOfDay(times[0])))
    else Some(GenericTitle)
  }

  /** What `update_plot` is specified to produce. */
  function Expected(data: seq<Record>, sel: Selection): (plot: Plot)
    ensures plot.Drawn? ==>
      var rows := plot.figure.counts;
      SortedByKey(rows) && AllPositive(rows) && Total(rows) == |Filtered(data, sel)| &&
      |plot.figure.title| >= |GenericTitle| && plot.figure.title[..|GenericTitle|] == GenericTitle
  {
    match ChartTitle(sel)
    case None => IndexError
    case Some(title) => Drawn(Figure(Aggregate(Filtered(data, sel)), title))
  }

  /** The first half of `update_plot`: narrows a local copy of the dataset
      one dimension at a time, and replaces the time-of-day labels by
      their codes when that dimension is filtered. */
  method FilterData(data: seq<Record>, sel: Selection)
    returns (filtered: seq<Record>, selectedTimeOfDay: seq<TimeOfDayEntry>)
    ensures filtered == Filtered(data, sel)
    ensures selectedTimeOfDay == TimeOfDayForTitle(sel)
  {
    filtered := data;

    if All !in sel.crimeTypes {
      filtered := Narrow(filtered, CrimeTypeIn(sel.crimeTypes));
    }
    ghost var f1 := filtered;
    assert f1 == Step(data, sel, CrimeType);

    if All !in sel.locations {
      filtered := Narrow(filtered, LocationIn(sel.locations));
    }
    ghost var f2 := filtered;
    assert f2 == Step(f1, sel, Location);

    if All !in sel.years {
      filtered := Narrow(filtered, YearIn(sel.years));
    }
    ghost var f3 := filtered;
    assert f3 == Step(f2, sel, Year);

    if All !in sel.months {
      filtered := Narrow(filtered, MonthIn(sel.months));
    }
    ghost var f4 := filtered;
    assert f4 == Step(f3, sel, Month);

    selectedTimeOfDay := AsLabels(sel.timesOfDay);
    if All !in sel.timesOfDay {
      var codes := CodesOf(sel.timesOfDay);
      selectedTimeOfDay := AsCodes(codes);
      filtered := Narrow(filtered, TimeOfDayIn(codes));
    }
    assert filtered == Step(f4, sel, TimeOfDay);
    assert selectedTimeOfDay == TimeOfDayForTitle(sel);
    SourceOrderFilters(data, sel, f1, f2, f3, f4, filtered);
  }

  /** `update_plot`: filters, then aggregates and titles the chart. Both
      title branches group the same filtered rows. */
  method UpdatePlot(data: seq<Record>, sel: Selection) returns (plot: Plot)
    ensures plot == Expected(data, sel)
    ensures plot.Drawn? ==> plot.figure.counts == Aggregate(Filtered(data, sel))
  {
    var filtered, selectedTimeOfDay := FilterData(data, sel);
    if |sel.years| == 1 {
      var counts := Aggregate(filtered);
      if |sel.crimeTypes| == 0 || |selectedTimeOfDay| == 0 {
        plot := IndexError;
      } else {
        var title := DetailedTitle(ShowCrimeType(sel.crimeTypes[0]), ShowYear(sel.years[0]),
                                   ShowTimeOfDay(selectedTimeOfDay[0]));
        plot := Drawn(Figure(counts, title));
      }
    } else {
      var counts := Aggregate(filtered);
      plot := Drawn(Figure(counts, GenericTitle));
    }
  }

  /** Unless exactly one year entry is selected, the title is the constant one. */
  lemma GenericTitleUnlessOneYear(data: seq<Record>, sel: Selection)
    requires |sel.years| != 1
    ensures Expected(data, sel) == Drawn(Figure(Aggregate(Filtered(data, sel)), GenericTitle))
  {
  }

  /** The detailed title fails exactly when the crime type list is empty or
      time of day is filtered by a list that holds none of the five labels
      (for instance an empty list). */
  lemma IndexErrorCases(data: seq<Record>, sel: Selection)
    ensures Expected(data, sel) == IndexError <==>
      |sel.years| == 1 &&
      (sel.crimeTypes == [] ||
        (All !in sel.timesOfDay &&
          forall c :: 0 <= c < TimeOfDayCount ==> Val(TimeOfDayLabel(c)) !in sel.timesOfDay))
  {
    if All !in sel.timesOfDay {
      var codes := CodesOf(sel.timesOfDay);
      if forall c :: 0 <= c < TimeOfDayCount ==> Val(TimeOfDayLabel(c)) !in sel.timesOfDay {
        NoLabelNoCode(sel.timesOfDay);
      } else {
        var c :| 0 <= c < TimeOfDayCount && Val(TimeOfDayLabel(c)) in sel.timesOfDay;
        assert c in codes;
      }
    }
  }

  /** With one year and a filtered time of day, the title names the
      smallest selected time-of-day CODE, not a label. */
  lemma FilteredTitleShowsSmallestCode(sel: Selection, c: int)
    requires |sel.years| == 1 && sel.crimeTypes != [] && All !in sel.timesOfDay
    requires 0 <= c < TimeOfDayCount && Val(TimeOfDayLabel(c)) in sel.timesOfDay
    requires forall c' :: 0 <= c' < c ==> Val(TimeOfDayLabel(c')) !in sel.timesOfDay
    ensures ChartTitle(sel) ==
      Some(DetailedTitle(ShowCrimeType(sel.crimeTypes[0]), ShowYear(sel.years[0]), IntToString(c)))
  {
    var codes := CodesOf(sel.timesOfDay);
    assert c in codes;
    FirstCodeIsSmallest(sel.timesOfDay);
  }

  /** With the time-of-day sentinel among the entries (so time of day is
      not filtered), the title names the first dropdown entry as given. */
  lemma UnfilteredTitleShowsFirstEntry(sel: Selection)
    requires |sel.years| == 1 && sel.crimeTypes != [] && All in sel.timesOfDay
    ensures ChartTitle(sel) ==
      Some(DetailedTitle(ShowCrimeType(sel.crimeTypes[0]), ShowYear(sel.years[0]),
                         ShowTimeOfDay(Label(sel.timesOfDay[0]))))
  {
  }

  /** With a single concrete year, a concrete first crime type and a
      time-of-day list that does not translate to nothing, a title is
      produced and names both verbatim, after the constant title text. */
  lemma TitleNamesYearAndCrimeType(sel: Selection, crimeType: string, year: int)
    requires sel.years == [Val(year)] && sel.crimeTypes != [] && sel.crimeTypes[0] == Val(crimeType)
    requires All in sel.timesOfDay ||
      exists c :: 0 <= c < TimeOfDayCount && Val(TimeOfDayLabel(c)) in sel.timesOfDay
    ensures ChartTitle(sel).Some?
    ensures var t := ChartTitle(sel).value;
      Contains(t, crimeType) && Contains(t, IntToString(year)) &&
      |t| > |GenericTitle| && t[..|GenericTitle|] == GenericTitle
  {
    if All !in sel.timesOfDay {
      var c :| 0 <= c < TimeOfDayCount && Val(TimeOfDayLabel(c)) in sel.timesOfDay;
      assert c in CodesOf(sel.timesOfDay);
    }
  }

  /** Every dropdown holding only its sentinel: nothing is filtered out and
      the counts add up to the whole dataset, yet the year list has length
      one, so the detailed title is used, spelled with the sentinel texts. */
  lemma SentinelOnlySelection(data: seq<Record>)
    ensures var sel := Selection([All], [All], [All], [All], [All]);
      Expected(data, sel) ==
        Drawn(Figure(Aggregate(data), DetailedTitle(CrimeTypeSentinel, YearSentinel, TimeOfDaySentinel))) &&
      Total(Aggregate(data)) == |data|
  {
    var sel := Selection([All], [All], [All], [All], [All]);
    SentinelOnlyTitle(sel);
    SentinelsKeepEverything(data, sel);
  }

  lemma SentinelOnlyTitle(sel: Selection)
    requires sel == Selection([All], [All], [All], [All], [All])
    ensures ChartTitle(sel) == Some(DetailedTitle(CrimeTypeSentinel, YearSentinel, TimeOfDaySentinel))
  {
    assert TimeOfDayForTitle(sel)[0] == Label(All);
  }

  /** Whenever every dropdown contains its sentinel, a figure is drawn
      whose counts add up to the size of the dataset. */
  lemma SentinelsCountEverything(data: seq<Record>, sel: Selection)
    requires All in sel.crimeTypes && All in sel.locations && All in sel.years
    requires All in sel.months && All in sel.timesOfDay
    ensures Expected(data, sel).Drawn?
    ensures Expected(data, sel).figure.counts == Aggregate(data)
    ensures Total(Expected(data, sel).figure.counts) == |data|
  {
    SentinelsKeepEverything(data, sel);
  }

  /** A cleared dropdown on any dimension leaves no rows to draw. */
  lemma ClearedDropdownDrawsNothing(data: seq<Record>, sel: Selection, d: Dim)
    requires Cleared(sel, d)
    ensures Expected(data, sel) == IndexError || Expected(data, sel).figure.counts == []
  {
    ClearedSelectionFiltersAll(data, sel, d);
  }

  /** The drawn rows are the groups of the surviving records: one row per
      (month, crime type) pair among them, each counting the survivors with
      that pair, in key order, adding up to the number of survivors. */
  lemma DrawnRowsCountSurvivors(data: seq<Record>, sel: Selection)
    requires Expected(data, sel).Drawn?
    ensures var rows := Expected(data, sel).figure.counts;
      var kept := Filtered(data, sel);
      SortedByKey(rows) &&
      (forall i :: 0 <= i < |rows| ==>
        rows[i].count == Occurrences(kept, RowKey(rows[i])) && rows[i].count >= 1) &&
      (forall r :: r in kept ==> exists i :: 0 <= i < |rows| && RowKey(rows[i]) == KeyOf(r)) &&
      Total(rows) == |kept|
  {
    GroupCounts(Filtered(data, sel));
  }
}
