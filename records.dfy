/** The data model of the crime dashboard: one crime record per row of the
    dataset, and the five multi-select dropdown values that the chart
    callback receives. */
module Records {

  /** One row of the crime dataset (columns `Crime Type English`,
      `Location English`, `Year`, `Month`, `Time of Day`). */
  datatype Record = Record(
    crimeType: string,
    location: string,
    year: int,
    month: int,
    timeOfDay: int)

  /** One element of a dropdown value list: either that dropdown's
      "Select All: ..." sentinel or a concrete value of the dimension. */
  datatype Choice<V> = All | Val(v: V)

  /** The five dropdown values, in the order the callback takes them.
      Crime types, locations and time-of-day entries are strings (the
      time of day is selected by label), years and months are integers. */
  datatype Selection = Selection(
    crimeTypes: seq<Choice<string>>,
    locations: seq<Choice<string>>,
    years: seq<Choice<int>>,
    months: seq<Choice<int>>,
    timesOfDay: seq<Choice<string>>)
}
