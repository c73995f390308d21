/** `get_dates`: the identifiers of the published days in a date range. */
module DateRange {
  import opened Calendar
  import opened DateCodec
  import opened Strings

  predicate AllValid(ds: seq<Date>)
  {
    forall i :: 0 <= i < |ds| ==> Valid(ds[i])
  }

  /** Strictly increasing in calendar order. */
  predicate Ascending(ds: seq<Date>)
  {
    forall i, j :: 0 <= i < j < |ds| ==> Before(ds[i], ds[j])
  }

  /** `[transform_date(str(ii)[:10]) for ii in drange]`. */
  function EncodeAll(ds: seq<Date>): (ids: seq<string>)
    requires AllValid(ds)
    ensures |ids| == |ds|
    ensures forall i :: 0 <= i < |ds| ==> ids[i] == DateId(ds[i])
  {
    if ds == [] then [] else [DateId(ds[0])] + EncodeAll(ds[1..])
  }

  /** `[d for d in drange if d in available_dates]`: keeps the identifiers
      the table publishes, in their order. */
  function KeepAvailable(ids: seq<string>, available: seq<string>): (r: seq<string>)
    ensures |r| <= |ids|
  {
    if ids == [] then []
    else (if ids[0] in available then [ids[0]] else []) + KeepAvailable(ids[1..], available)
  }

  /** What the filter keeps is exactly what is both listed and published. */
  lemma {:induction false} KeepAvailableMembers(ids: seq<string>, available: seq<string>)
    ensures forall s :: s in KeepAvailable(ids, available) <==> s in ids && s in available
  {
    if ids != [] {
      KeepAvailableMembers(ids[1..], available);
      assert ids == [ids[0]] + ids[1..];
    }
  }

  /** The days whose identifiers the table publishes, in their order. */
  function KeepPublished(ds: seq<Date>, available: seq<string>): (r: seq<Date>)
    requires AllValid(ds)
    ensures AllValid(r)
    ensures forall i :: 0 <= i < |r| ==> r[i] in ds && DateId(r[i]) in available
  {
    if ds == [] then []
    else (if DateId(ds[0]) in available then [ds[0]] else []) + KeepPublished(ds[1..], available)
  }

  /** Filtering keeps the order of what it keeps. */
  lemma {:induction false} KeepPublishedAscending(ds: seq<Date>, available: seq<string>)
    requires AllValid(ds) && Ascending(ds)
    ensures Ascending(KeepPublished(ds, available))
  {
    if ds != [] {
      var tail := ds[1..];
      var rest := KeepPublished(tail, available);
      KeepPublishedAscending(tail, available);
      forall i | 0 <= i < |rest| ensures Before(ds[0], rest[i]) {
        var k :| 0 <= k < |tail| && tail[k] == rest[i];
        assert ds[k + 1] == rest[i];
      }
      if DateId(ds[0]) in available {
        assert KeepPublished(ds, available) == [ds[0]] + rest;
        ConsAscending(ds[0], rest);
      } else {
        assert KeepPublished(ds, available) == rest;
      }
    }
  }

  lemma ConsAscending(d: Date, rest: seq<Date>)
    requires Ascending(rest)
    requires forall i :: 0 <= i < |rest| ==> Before(d, rest[i])
    ensures Ascending([d] + rest)
  {
    var s := [d] + rest;
    forall i, j | 0 <= i < j < |s| ensures Before(s[i], s[j]) {
      assert s[j] == rest[j - 1];
      if i > 0 {
        assert s[i] == rest[i - 1];
      }
    }
  }

  lemma EncodeAllAppend(a: seq<Date>, b: seq<Date>)
    requires AllValid(a) && AllValid(b)
    ensures AllValid(a + b) && EncodeAll(a + b) == EncodeAll(a) + EncodeAll(b)
  {
    assert AllValid(a + b);
  }

  /** Filtering identifiers is the same as filtering days, then encoding. */
  lemma {:induction false} KeepCommutes(ds: seq<Date>, available: seq<string>)
    requires AllValid(ds)
    ensures KeepAvailable(EncodeAll(ds), available) == EncodeAll(KeepPublished(ds, available))
  {
    if ds != [] {
      var ids := EncodeAll(ds);
      assert ids[0] == DateId(ds[0]);
      assert ids[1..] == EncodeAll(ds[1..]);
      KeepCommutes(ds[1..], available);
      var head := if DateId(ds[0]) in available then [ds[0]] else [];
      EncodeAllAppend(head, KeepPublished(ds[1..], available));
      assert EncodeAll(head) == if DateId(ds[0]) in available then [ids[0]] else [];
    }
  }

  /** `get_dates(start, end, available_dates)`. */
  function GetDates(start: Date, end: Date, available: seq<string>): seq<string>
    requires Valid(start) && Valid(end)
  {
    KeepAvailable(EncodeAll(Days(start, end)), available)
  }

  /** The days behind the identifiers `get_dates` returns. */
  function SelectedDays(start: Date, end: Date, available: seq<string>): seq<Date>
    requires Valid(start) && Valid(end)
  {
    KeepPublished(Days(start, end), available)
  }

  /** Every identifier returned is published, and it encodes a day of the
      range; those days are strictly ascending, and none are returned for an
      empty range. */
  lemma GetDatesSound(start: Date, end: Date, available: seq<string>)
    requires Valid(start) && Valid(end)
    ensures var r, days := GetDates(start, end, available), SelectedDays(start, end, available);
      && |r| == |days|
      && (forall i :: 0 <= i < |r| ==> r[i] in available)
      && (forall i :: 0 <= i < |r| ==>
            Valid(days[i]) && r[i] == DateId(days[i]) && Le(start, days[i]) && Le(days[i], end))
      && Ascending(days)
      && (!Le(start, end) ==> r == [])
  {
    KeepCommutes(Days(start, end), available);
    KeepPublishedAscending(Days(start, end), available);
  }

  /** No identifier is returned twice. */
  lemma GetDatesDistinct(start: Date, end: Date, available: seq<string>)
    requires Valid(start) && Valid(end)
    ensures var r := GetDates(start, end, available);
      forall i, j :: 0 <= i < j < |r| ==> r[i] != r[j]
  {
    var r, days := GetDates(start, end, available), SelectedDays(start, end, available);
    GetDatesSound(start, end, available);
    forall i, j | 0 <= i < j < |r| ensures r[i] != r[j] {
      if r[i] == r[j] {
        DateIdInjective(days[i], days[j]);
        assert false;
      }
    }
  }

  /** Every published day of the range is returned. */
  lemma GetDatesComplete(start: Date, end: Date, available: seq<string>, d: Date)
    requires Valid(start) && Valid(end) && Valid(d)
    requires Le(start, d) && Le(d, end)
    requires DateId(d) in available
    ensures DateId(d) in GetDates(start, end, available)
  {
    DaysComplete(start, end, d);
    var ds := Days(start, end);
    var k :| 0 <= k < |ds| && ds[k] == d;
    assert EncodeAll(ds)[k] == DateId(d);
    KeepAvailableMembers(EncodeAll(ds), available);
  }

  /** A table that skips 8 March 2021: the range from the 6th to the 9th
      yields the three published identifiers and skips the gap. */
  lemma GetDatesSkipsGap()
    ensures GetDates(Date(2021, 3, 6), Date(2021, 3, 9), ["2021M03D06", "2021M03D07", "2021M03D09"])
         == ["2021M03D06", "2021M03D07", "2021M03D09"]
  {
    MarchDays();
    MarchGap(6, 7, 8, 9);
  }

  /** The gap scenario for days of March 2021 given as variables, so that
      their identifiers are reached through `MarchDateId`. */
  lemma MarchGap(p: int, q: int, r: int, s: int)
    requires p == 6 && q == 7 && r == 8 && s == 9
    requires Days(Date(2021, 3, p), Date(2021, 3, s))
          == [Date(2021, 3, p), Date(2021, 3, q), Date(2021, 3, r), Date(2021, 3, s)]
    ensures GetDates(Date(2021, 3, p), Date(2021, 3, s), ["2021M03D06", "2021M03D07", "2021M03D09"])
         == ["2021M03D06", "2021M03D07", "2021M03D09"]
  {
    SkipsThirdDay(Date(2021, 3, p), Date(2021, 3, q), Date(2021, 3, r), Date(2021, 3, s));
    MarchIds(p, q, s);
  }

  lemma MarchIds(p: int, q: int, s: int)
    requires p == 6 && q == 7 && s == 9
    ensures [DateId(Date(2021, 3, p)), DateId(Date(2021, 3, q)), DateId(Date(2021, 3, s))]
         == ["2021M03D06", "2021M03D07", "2021M03D09"]
  {
    assert DateId(Date(2021, 3, p)) == "2021M03D06" by { MarchDateId(p); assert DigitChar(p) == '6'; }
    assert DateId(Date(2021, 3, q)) == "2021M03D07" by { MarchDateId(q); assert DigitChar(q) == '7'; }
    assert DateId(Date(2021, 3, s)) == "2021M03D09" by { MarchDateId(s); assert DigitChar(s) == '9'; }
  }

  lemma SkipsThirdDay(a: Date, b: Date, c: Date, d: Date)
    requires Valid(a) && Valid(b) && Valid(c) && Valid(d)
    requires Days(a, d) == [a, b, c, d]
    requires c != a && c != b && c != d
    ensures GetDates(a, d, [DateId(a), DateId(b), DateId(d)]) == [DateId(a), DateId(b), DateId(d)]
  {
    var available := [DateId(a), DateId(b), DateId(d)];
    EncodeFour(a, b, c, d);
    DateIdInjective(c, a);
    DateIdInjective(c, b);
    DateIdInjective(c, d);
    assert available[0] == DateId(a) && available[1] == DateId(b) && available[2] == DateId(d);
    KeepSkipsThird(DateId(a), DateId(b), DateId(c), DateId(d), available);
  }

  /** The identifier of day `day` (1 to 9) of March 2021 is `2021M03D0`
      followed by the day's digit, e.g. `2021M03D06`. */
  lemma MarchDateId(day: int)
    requires 1 <= day <= 9
    ensures DateId(Date(2021, 3, day)) == ['2', '0', '2', '1', 'M', '0', '3', 'D', '0', DigitChar(day)]
  {
    PadYear2021();
    PadSmall(3);
    PadSmall(day);
    assert DigitChar(3) == '3';
  }

  lemma PadYear2021()
    ensures Pad(2021, 4) == "2021"
  {
    assert Pad(0, 0) == "";
    assert Pad(2, 1) == "2";
    assert Pad(20, 2) == "20";
    assert Pad(202, 3) == "202";
  }

  lemma PadSmall(n: nat)
    requires n < 10
    ensures Pad(n, 2) == ['0', DigitChar(n)]
  {
    assert n / 10 == 0 && n % 10 == n;
    assert Pad(0, 1) == Pad(0, 0) + [DigitChar(0)] == "0";
    assert Pad(n, 2) == Pad(0, 1) + [DigitChar(n)];
  }

  lemma KeepAvailableCons(x: string, rest: seq<string>, available: seq<string>)
    ensures KeepAvailable([x] + rest, available)
         == (if x in available then [x] else []) + KeepAvailable(rest, available)
  {
    assert ([x] + rest)[1..] == rest;
  }

  lemma KeepSkipsThird(a: string, b: string, c: string, d: string, available: seq<string>)
    requires a in available && b in available && c !in available && d in available
    ensures KeepAvailable([a, b, c, d], available) == [a, b, d]
  {
    assert KeepAvailable([], available) == [];
    KeepAvailableCons(d, [], available);
    assert [d] + [] == [d];
    var kd := KeepAvailable([d], available);
    assert kd == [d];
    KeepAvailableCons(c, [d], available);
    assert [c] + [d] == [c, d];
    var kc := KeepAvailable([c, d], available);
    assert kc == [d];
    KeepAvailableCons(b, [c, d], available);
    assert [b] + [c, d] == [b, c, d];
    var kb := KeepAvailable([b, c, d], available);
    assert kb == [b] + [d] == [b, d];
    KeepAvailableCons(a, [b, c, d], available);
    assert [a] + [b, c, d] == [a, b, c, d];
    assert KeepAvailable([a, b, c, d], available) == [a] + [b, d];
  }

  lemma MarchDays()
    ensures Days(Date(2021, 3, 6), Date(2021, 3, 9))
         == [Date(2021, 3, 6), Date(2021, 3, 7), Date(2021, 3, 8), Date(2021, 3, 9)]
  {
    var d6, d7, d8, d9 := Date(2021, 3, 6), Date(2021, 3, 7), Date(2021, 3, 8), Date(2021, 3, 9);
    assert Days(d9, d9) == [d9];
    assert Days(d8, d9) == [d8, d9];
    assert Days(d7, d9) == [d7, d8, d9];
  }

  lemma EncodeFour(a: Date, b: Date, c: Date, d: Date)
    requires Valid(a) && Valid(b) && Valid(c) && Valid(d)
    ensures EncodeAll([a, b, c, d]) == [DateId(a), DateId(b), DateId(c), DateId(d)]
  {
  }
}
