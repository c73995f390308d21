/** `make_request`: the body of the data query sent to the statistics API. */
module Request {
  import opened Calendar
  import opened DateRange
  import opened DateCodec

  /** One filter of the query: a variable code and the values selected. */
  datatype Filter = Filter(code: string, values: seq<string>)

  datatype Request = Request(
    lang: string,
    table: string,
    format: string,
    valuePresentation: string,
    variables: seq<Filter>)

  /** The shape the data endpoint expects: table SMIT4 in English as CSV
      with plain values, filtered on scaling measure, region and time, in
      that order. */
  predicate WellFormed(r: Request)
  {
    && r.lang == "en" && r.table == "SMIT4" && r.format == "CSV" && r.valuePresentation == "Value"
    && |r.variables| == 3
    && r.variables[0].code == "AKTP"
    && r.variables[1].code == "KOMK"
    && r.variables[2].code == "Tid"
  }

  /** `make_request(start_date, end_date, regions, population_scaling,
      available_dates)`. The scaling and region selections go through
      unchanged (an empty region list included), and the time filter lists
      the published days of the range, each once. */
  function MakeRequest(start: Date, end: Date, regions: seq<string>, scaling: seq<string>,
                       available: seq<string>): (r: Request)
    requires Valid(start) && Valid(end)
    ensures WellFormed(r)
    ensures r.variables[0].values == scaling && r.variables[1].values == regions
    ensures forall s :: s in r.variables[2].values ==> s in available
    ensures var tid := r.variables[2].values;
      forall i, j :: 0 <= i < j < |tid| ==> tid[i] != tid[j]
  {
    var tid := GetDates(start, end, available);
    GetDatesSound(start, end, available);
    GetDatesDistinct(start, end, available);
    Request("en", "SMIT4", "CSV", "Value",
      [Filter("AKTP", scaling), Filter("KOMK", regions), Filter("Tid", tid)])
  }

  /** The time filter is the resolved date range: each value encodes a day
      between `start` and `end`, and every published day of the range is
      there. */
  lemma MakeRequestTimeFilter(start: Date, end: Date, regions: seq<string>, scaling: seq<string>,
                              available: seq<string>, d: Date)
    requires Valid(start) && Valid(end) && Valid(d)
    ensures var tid := MakeRequest(start, end, regions, scaling, available).variables[2].values;
      && tid == GetDates(start, end, available)
      && (Le(start, d) && Le(d, end) && DateId(d) in available ==> DateId(d) in tid)
  {
    if Le(start, d) && Le(d, end) && DateId(d) in available {
      GetDatesComplete(start, end, available, d);
    }
  }
}
