/** The upstream table's date identifiers: `transform_date` turns
    `YYYY-MM-DD` into `YYYYMmmDdd`, and `sub_date` turns an identifier back
    into `YYYY-MM-DD` by rewriting characters. */
module DateCodec {
  import opened Results
  import opened Strings
  import opened Calendar

  /** `transform_date`: split on `-`, then format the first three parts as
      `<p0>M<p1>D<p2>`. Further parts are ignored; fewer than three parts is
      the `IndexError` of `part[2]`. */
  function TransformDate(date: string): (r: Result<string>)
    ensures r.Err? <==> CountOf(date, '-') < 2
  {
    var part := Split(date, '-');
    if |part| < 3 then Err(IndexError)
    else Ok(part[0] + "M" + part[1] + "D" + part[2])
  }

  /** The characters the pattern `[M,D]` matches: inside a character class the
      comma is a literal, so it is replaced as well. */
  predicate IsDateMark(c: char)
  {
    c == 'M' || c == ',' || c == 'D'
  }

  /** `sub_date`: `re.sub('[M,D]', '-', date)`. */
  function SubDate(date: string): (r: string)
    ensures |r| == |date|
    ensures forall i :: 0 <= i < |date| ==> r[i] == if IsDateMark(date[i]) then '-' else date[i]
  {
    if date == [] then ""
    else [if IsDateMark(date[0]) then '-' else date[0]] + SubDate(date[1..])
  }

  /** Whatever follows the third `-`-separated part does not reach the
      identifier. */
  lemma TransformDateParts(parts: seq<string>)
    requires |parts| >= 3
    requires forall i :: 0 <= i < |parts| ==> '-' !in parts[i]
    ensures TransformDate(JoinWith(parts, "-")) == Ok(parts[0] + "M" + parts[1] + "D" + parts[2])
  {
    SplitJoin(parts, '-');
  }

  predicate Plain(s: string)
  {
    forall i :: 0 <= i < |s| ==> s[i] != '-' && !IsDateMark(s[i])
  }

  /** `sub_date` inverts `transform_date` on a three-part string whose parts
      hold none of `-`, `M`, `D` and `,`. */
  lemma SubDateInvertsTransformDate(a: string, b: string, c: string)
    requires Plain(a) && Plain(b) && Plain(c)
    ensures TransformDate(a + "-" + b + "-" + c).Ok?
    ensures SubDate(TransformDate(a + "-" + b + "-" + c).value) == a + "-" + b + "-" + c
  {
    JoinThree(a, b, c, "-");
    TransformDateParts([a, b, c]);
    var id := a + "M" + b + "D" + c;
    var iso := a + "-" + b + "-" + c;
    assert SubDate(id) == iso by {
      forall i | 0 <= i < |id| ensures SubDate(id)[i] == iso[i] {
        if i < |a| {
          assert id[i] == a[i] && iso[i] == a[i];
        } else if i == |a| {
        } else if i < |a| + 1 + |b| {
          assert id[i] == b[i - |a| - 1] && iso[i] == b[i - |a| - 1];
        } else if i == |a| + 1 + |b| {
        } else {
          assert id[i] == c[i - |a| - |b| - 2] && iso[i] == c[i - |a| - |b| - 2];
        }
      }
    }
  }

  /** The comma in `[M,D]` is matched too: when any part holds a comma, the
      round trip through `transform_date` and `sub_date` does not give the
      input back (e.g. `2021-0,3-06` comes back as `2021-0-3-06`). */
  lemma CommaBreaksRoundTrip(a: string, b: string, c: string)
    requires '-' !in a && '-' !in b && '-' !in c
    requires ',' in a || ',' in b || ',' in c
    ensures TransformDate(a + "-" + b + "-" + c) == Ok(a + "M" + b + "D" + c)
    ensures SubDate(a + "M" + b + "D" + c) != a + "-" + b + "-" + c
  {
    JoinThree(a, b, c, "-");
    TransformDateParts([a, b, c]);
    var k: nat;
    if ',' in a {
      k :| k < |a| && a[k] == ',';
      PartAt(a, b, c, 'M', 'D', k);
      PartAt(a, b, c, '-', '-', k);
    } else if ',' in b {
      var j :| 0 <= j < |b| && b[j] == ',';
      k := |a| + 1 + j;
      PartAt(a, b, c, 'M', 'D', k);
      PartAt(a, b, c, '-', '-', k);
    } else {
      var j :| 0 <= j < |c| && c[j] == ',';
      k := |a| + 1 + |b| + 1 + j;
      PartAt(a, b, c, 'M', 'D', k);
      PartAt(a, b, c, '-', '-', k);
    }
    SubDateChangesComma(a + "M" + b + "D" + c, a + "-" + b + "-" + c, k);
  }

  /** Where a character of `a x b y c` comes from, for a position that is
      not one of the two separators. */
  lemma PartAt(a: string, b: string, c: string, x: char, y: char, k: nat)
    requires k < |a| + 1 + |b| + 1 + |c| && k != |a| && k != |a| + 1 + |b|
    ensures var s := a + [x] + b + [y] + c;
      && |s| == |a| + 1 + |b| + 1 + |c|
      && s[k] == if k < |a| then a[k]
                 else if k < |a| + 1 + |b| then b[k - |a| - 1]
                 else c[k - |a| - 1 - |b| - 1]
  {
    var ax := a + [x];
    var axb := ax + b;
    var axby := axb + [y];
    if k < |a| {
      assert ax[k] == a[k];
      assert axby[k] == axb[k] == ax[k];
    } else if k < |a| + 1 + |b| {
      assert axb[k] == b[k - |ax|];
      assert axby[k] == axb[k];
    }
  }

  lemma SubDateChangesComma(id: string, iso: string, k: nat)
    requires k < |id| && id[k] == ',' && k < |iso| && iso[k] == ','
    ensures SubDate(id) != iso
  {
    assert SubDate(id)[k] == '-';
  }

  /** The identifier the upstream table uses for a calendar day: what
      `get_dates` computes as `transform_date(str(ts)[:10])`. */
  function DateId(d: Date): (id: string)
    requires Valid(d)
    ensures id == Pad(d.year, 4) + "M" + Pad(d.month, 2) + "D" + Pad(d.day, 2)
  {
    IsoIsThreeParts(d);
    TransformDate(TimestampString(d)[..10]).value
  }

  lemma DigitsArePlain(s: string)
    requires forall i :: 0 <= i < |s| ==> IsDigit(s[i])
    ensures Plain(s)
  {
  }

  lemma IsoIsThreeParts(d: Date)
    requires Valid(d)
    ensures Iso(d) == JoinWith([Pad(d.year, 4), Pad(d.month, 2), Pad(d.day, 2)], "-")
    ensures TransformDate(Iso(d)) == Ok(Pad(d.year, 4) + "M" + Pad(d.month, 2) + "D" + Pad(d.day, 2))
  {
    var y, m, dd := Pad(d.year, 4), Pad(d.month, 2), Pad(d.day, 2);
    DigitsArePlain(y);
    DigitsArePlain(m);
    DigitsArePlain(dd);
    JoinThree(y, m, dd, "-");
    TransformDateParts([y, m, dd]);
  }

  /** Decoding an identifier with `sub_date` gives back the day's
      `YYYY-MM-DD` text (how the date picker's bounds are computed). */
  lemma SubDateOfDateId(d: Date)
    requires Valid(d)
    ensures SubDate(DateId(d)) == Iso(d)
  {
    var y, m, dd := Pad(d.year, 4), Pad(d.month, 2), Pad(d.day, 2);
    DigitsArePlain(y);
    DigitsArePlain(m);
    DigitsArePlain(dd);
    SubDateInvertsTransformDate(y, m, dd);
    IsoIsThreeParts(d);
  }

  /** Two valid days have the same identifier exactly when they are the
      same day. */
  lemma DateIdInjective(a: Date, b: Date)
    requires Valid(a) && Valid(b)
    ensures DateId(a) == DateId(b) <==> a == b
  {
    if DateId(a) == DateId(b) {
      var s := DateId(a);
      assert s[..4] == Pad(a.year, 4) == Pad(b.year, 4);
      assert s[5..7] == Pad(a.month, 2) == Pad(b.month, 2);
      assert s[8..10] == Pad(a.day, 2) == Pad(b.day, 2);
      assert Pow10(4) == 10000 && Pow10(2) == 100;
      PadInjective(a.year, b.year, 4);
      PadInjective(a.month, b.month, 2);
      PadInjective(a.day, b.day, 2);
    }
  }
}
