/** `update_graph`: from the stored data table to the chart's traces and
    title, for one scaling measure and one display mode. */
module Series {
  import opened Calendar
  import opened Strings

  /** One row of the data table: scaling-measure label (`AKTP`), region
      (`KOMK`), day (`TID`) and value (`INDHOLD`). */
  datatype Row = Row(aktp: string, komk: string, tid: Date, value: int)

  /** One plotted line: its name, x values (days) and y values. */
  datatype Trace = Trace(name: string, xs: seq<Date>, ys: seq<int>)

  /** The figure: its traces and the titles of the chart and its axes. */
  datatype Figure = Figure(traces: seq<Trace>, title: string, xTitle: string, yTitle: string)

  /** The equality queries the dashboard runs on the table:
      `'AKTP == @opt1'` and `'KOMK == @reg'`. */
  datatype Query = AktpIs(aktp: string) | KomkIs(komk: string)

  predicate Matches(q: Query, row: Row)
  {
    match q
    case AktpIs(a) => row.aktp == a
    case KomkIs(k) => row.komk == k
  }

  /** `df.query(q)`: the matching rows, in table order. */
  function Filter(rows: seq<Row>, q: Query): (r: seq<Row>)
    ensures |r| <= |rows|
    ensures forall i :: 0 <= i < |r| ==> Matches(q, r[i])
  {
    if rows == [] then []
    else (if Matches(q, rows[0]) then [rows[0]] else []) + Filter(rows[1..], q)
  }

  /** A query keeps exactly the matching rows. */
  lemma {:induction false} FilterMembers(rows: seq<Row>, q: Query)
    ensures forall row :: row in Filter(rows, q) <==> row in rows && Matches(q, row)
  {
    if rows != [] {
      FilterMembers(rows[1..], q);
      assert rows == [rows[0]] + rows[1..];
    }
  }

  /** Filtering a table split in two filters each part: rows keep their
      table order. */
  lemma {:induction false} FilterAppend(a: seq<Row>, b: seq<Row>, q: Query)
    ensures Filter(a + b, q) == Filter(a, q) + Filter(b, q)
  {
    if a == [] {
      assert a + b == b;
    } else {
      assert (a + b)[0] == a[0];
      assert (a + b)[1..] == a[1..] + b;
      FilterAppend(a[1..], b, q);
    }
  }

  /** A query every row matches keeps the table as it is. */
  lemma {:induction false} FilterKeepsAll(rows: seq<Row>, q: Query)
    requires forall i :: 0 <= i < |rows| ==> Matches(q, rows[i])
    ensures Filter(rows, q) == rows
  {
    if rows != [] {
      FilterKeepsAll(rows[1..], q);
      assert rows == [rows[0]] + rows[1..];
    }
  }

  /** `df['KOMK']`. */
  function Regions(table: seq<Row>): (ks: seq<string>)
    ensures |ks| == |table|
    ensures forall i :: 0 <= i < |table| ==> ks[i] == table[i].komk
  {
    if table == [] then [] else [table[0].komk] + Regions(table[1..])
  }

  /** `pd.unique`: each value once, in order of first appearance. */
  function Unique(xs: seq<string>): (u: seq<string>)
    ensures forall i, j :: 0 <= i < j < |u| ==> u[i] != u[j]
    ensures forall x :: x in u <==> x in xs
    ensures forall i, j, k :: 0 <= i < j < |u| && 0 <= k < |xs| && xs[k] == u[j] ==> u[i] in xs[..k]
  {
    if xs == [] then []
    else
      var init, last := xs[..|xs| - 1], xs[|xs| - 1];
      var u := Unique(init);
      assert xs == init + [last];
      assert forall k :: 0 <= k < |init| ==> xs[..k] == init[..k];
      if last in u then u else u + [last]
  }

  /** `tmp_df.query('KOMK == @reg')` on `df.query('AKTP == @opt1')`: the
      rows of one region under one scaling label. */
  function Selected(table: seq<Row>, scalingLabel: string, region: string): seq<Row>
  {
    Filter(Filter(table, AktpIs(scalingLabel)), KomkIs(region))
  }

  /** `tmp_df2['TID']`. */
  function Tids(rows: seq<Row>): (ds: seq<Date>)
    ensures |ds| == |rows|
    ensures forall i :: 0 <= i < |rows| ==> ds[i] == rows[i].tid
  {
    if rows == [] then [] else [rows[0].tid] + Tids(rows[1..])
  }

  /** `tmp_df2['INDHOLD']`. */
  function Values(rows: seq<Row>): (vs: seq<int>)
    ensures |vs| == |rows|
    ensures forall i :: 0 <= i < |rows| ==> vs[i] == rows[i].value
  {
    if rows == [] then [] else [rows[0].value] + Values(rows[1..])
  }

  /** `.iloc[1:]`. */
  function DropFirst<T>(s: seq<T>): (r: seq<T>)
    ensures |r| == if |s| == 0 then 0 else |s| - 1
    ensures forall i :: 0 <= i < |r| ==> r[i] == s[i + 1]
  {
    if s == [] then [] else s[1..]
  }

  /** `.diff().iloc[1:]` on integer values: the difference of each value
      from its predecessor, the first value having none. */
  function Diff(v: seq<int>): (d: seq<int>)
    ensures |d| == if |v| == 0 then 0 else |v| - 1
    ensures forall i :: 0 <= i < |d| ==> d[i] == v[i + 1] - v[i]
  {
    if |v| < 2 then [] else [v[1] - v[0]] + Diff(v[1..])
  }

  function Sum(s: seq<int>): int
  {
    if s == [] then 0 else Sum(s[..|s| - 1]) + s[|s| - 1]
  }

  /** The differences lose only the first value: adding them up from it
      gives every later value back. */
  lemma {:induction false} DiffPrefixSum(v: seq<int>, k: nat)
    requires k < |v|
    ensures v[0] + Sum(Diff(v)[..k]) == v[k]
  {
    if k > 0 {
      DiffPrefixSum(v, k - 1);
      var d := Diff(v);
      assert d[..k][..k - 1] == d[..k - 1];
    }
  }

  predicate IsMode(mode: string)
  {
    mode == "total" || mode == "new"
  }

  /** The trace drawn for one region: the values as they are for `total`,
      their differences from the second day on for `new`. */
  function RegionTrace(table: seq<Row>, scalingLabel: string, mode: string, region: string): Trace
    requires IsMode(mode)
  {
    var rows := Selected(table, scalingLabel, region);
    if mode == "total" then Trace(region, Tids(rows), Values(rows))
    else Trace(region, DropFirst(Tids(rows)), Diff(Values(rows)))
  }

  /** `update_graph(option1, option2, data, region)`: one trace per region of
      the whole table, in order of first appearance, for the modes `total`
      and `new` (none for any other mode); the title names every region. */
  method UpdateGraph(dataInfoDict: map<string, string>, option1: string, option2: string,
                     table: seq<Row>) returns (fig: Figure)
    requires option1 in dataInfoDict
    ensures var regions := Unique(Regions(table));
      && fig.title == "Cases for:\n" + JoinWith(regions, " - ")
      && fig.xTitle == "Date"
      && fig.yTitle == dataInfoDict[option1]
      && (!IsMode(option2) ==> fig.traces == [])
      && (IsMode(option2) ==> |fig.traces| == |regions|)
      && (IsMode(option2) ==> forall i :: 0 <= i < |fig.traces| ==>
            fig.traces[i] == RegionTrace(table, dataInfoDict[option1], option2, regions[i]))
  {
    var opt1 := dataInfoDict[option1];
    var tmp := Filter(table, AktpIs(opt1));
    var regions := Unique(Regions(table));
    var traces: seq<Trace> := [];
    var i := 0;
    while i < |regions|
      invariant 0 <= i <= |regions|
      invariant |traces| == if IsMode(option2) then i else 0
      invariant IsMode(option2) ==> forall k :: 0 <= k < |traces| ==>
        traces[k] == RegionTrace(table, opt1, option2, regions[k])
    {
      var reg := regions[i];
      var rows := Filter(tmp, KomkIs(reg));
      if option2 == "total" {
        traces := traces + [Trace(reg, Tids(rows), Values(rows))];
      }
      if option2 == "new" {
        traces := traces + [Trace(reg, DropFirst(Tids(rows)), Diff(Values(rows)))];
      }
      i := i + 1;
    }
    var title := JoinWith(regions, " - ");
    fig := Figure(traces, "Cases for:\n" + title, "Date", opt1);
  }

  /** The rows behind a trace are exactly the table's rows of that region
      under that scaling label. */
  lemma SelectedRows(table: seq<Row>, scalingLabel: string, region: string, row: Row)
    ensures row in Selected(table, scalingLabel, region)
        <==> row in table && row.aktp == scalingLabel && row.komk == region
  {
    FilterMembers(table, AktpIs(scalingLabel));
    FilterMembers(Filter(table, AktpIs(scalingLabel)), KomkIs(region));
  }

  /** They come in table order. */
  lemma SelectedAppend(a: seq<Row>, b: seq<Row>, scalingLabel: string, region: string)
    ensures Selected(a + b, scalingLabel, region)
         == Selected(a, scalingLabel, region) + Selected(b, scalingLabel, region)
  {
    FilterAppend(a, b, AktpIs(scalingLabel));
    FilterAppend(Filter(a, AktpIs(scalingLabel)), Filter(b, AktpIs(scalingLabel)), KomkIs(region));
  }

  /** `total` plots each selected row's day against its value. */
  lemma TotalTrace(table: seq<Row>, scalingLabel: string, region: string)
    ensures var rows, t := Selected(table, scalingLabel, region), RegionTrace(table, scalingLabel, "total", region);
      && t.name == region
      && |t.xs| == |t.ys| == |rows|
      && forall i :: 0 <= i < |rows| ==> t.xs[i] == rows[i].tid && t.ys[i] == rows[i].value
  {
  }

  /** `new` plots, from the second selected row on, each row's day against
      its value minus the previous row's value: one point fewer than
      `total`, none for a region with fewer than two rows. */
  lemma NewTrace(table: seq<Row>, scalingLabel: string, region: string)
    ensures var rows, t := Selected(table, scalingLabel, region), RegionTrace(table, scalingLabel, "new", region);
      && t.name == region
      && |t.xs| == |t.ys| == (if |rows| == 0 then 0 else |rows| - 1)
      && forall i :: 0 <= i < |t.ys| ==>
           t.xs[i] == rows[i + 1].tid && t.ys[i] == rows[i + 1].value - rows[i].value
  {
    DiffTrace(Selected(table, scalingLabel, region), region);
  }

  lemma DiffTrace(rows: seq<Row>, region: string)
    ensures var t := Trace(region, DropFirst(Tids(rows)), Diff(Values(rows)));
      && |t.xs| == |t.ys| == (if |rows| == 0 then 0 else |rows| - 1)
      && forall i :: 0 <= i < |t.ys| ==>
           t.xs[i] == rows[i + 1].tid && t.ys[i] == rows[i + 1].value - rows[i].value
  {
    var ds, vs := Tids(rows), Values(rows);
    var xs, ys := DropFirst(ds), Diff(vs);
    assert |xs| == |ys|;
    forall i | 0 <= i < |ys|
      ensures xs[i] == rows[i + 1].tid && ys[i] == rows[i + 1].value - rows[i].value
    {
      assert xs[i] == ds[i + 1];
      assert ys[i] == vs[i + 1] - vs[i];
    }
  }

  /** The `new` trace together with the first value of the `total` trace
      gives back every value of the `total` trace. */
  lemma NewTraceRecoversTotal(table: seq<Row>, scalingLabel: string, region: string, k: nat)
    requires k < |Selected(table, scalingLabel, region)|
    ensures var total, daily := RegionTrace(table, scalingLabel, "total", region),
                                RegionTrace(table, scalingLabel, "new", region);
      k < |total.ys| && total.ys[0] + Sum(daily.ys[..k]) == total.ys[k]
  {
    DiffPrefixSum(Values(Selected(table, scalingLabel, region)), k);
  }

  /** A region of the table with no row under the selected scaling label
      still gets a trace, an empty one. */
  lemma RegionWithoutRowsTrace(table: seq<Row>, scalingLabel: string, mode: string, region: string)
    requires IsMode(mode)
    requires forall row :: row in table ==> row.aktp != scalingLabel || row.komk != region
    ensures RegionTrace(table, scalingLabel, mode, region) == Trace(region, [], [])
  {
    var rows := Selected(table, scalingLabel, region);
    if rows != [] {
      SelectedRows(table, scalingLabel, region, rows[0]);
      assert false;
    }
  }

  /** Region `101` with 10, 12 and 15 on three days: `total` gives
      10, 12, 15 and `new` gives 2 and 3 on the last two days. */
  lemma ThreeDayExample(scalingLabel: string, d1: Date, d2: Date, d3: Date)
    ensures var table := [Row(scalingLabel, "101", d1, 10), Row(scalingLabel, "101", d2, 12),
                          Row(scalingLabel, "101", d3, 15)];
      && RegionTrace(table, scalingLabel, "total", "101") == Trace("101", [d1, d2, d3], [10, 12, 15])
      && RegionTrace(table, scalingLabel, "new", "101") == Trace("101", [d2, d3], [2, 3])
  {
    var table := [Row(scalingLabel, "101", d1, 10), Row(scalingLabel, "101", d2, 12),
                  Row(scalingLabel, "101", d3, 15)];
    FilterKeepsAll(table, AktpIs(scalingLabel));
    FilterKeepsAll(table, KomkIs("101"));
    assert Selected(table, scalingLabel, "101") == table;
    var vs := Values(table);
    assert vs == [10, 12, 15];
    assert Tids(table) == [d1, d2, d3];
    assert vs[1..] == [12, 15] && vs[1..][1..] == [15];
    assert Diff(vs) == [2] + Diff([12, 15]) == [2, 3];
  }
}
