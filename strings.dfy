/** String helpers the dashboard relies on through Python's standard
    library: `str.split` with a one-character separator, `str.join`, and
    the zero-padded decimal fields that date formatting produces. */
module Strings {

  /** Number of occurrences of `c` in `s`. */
  function CountOf(s: string, c: char): nat
  {
    if s == [] then 0 else (if s[0] == c then 1 else 0) + CountOf(s[1..], c)
  }

  /** `sep.join(parts)`. */
  function JoinWith(parts: seq<string>, sep: string): string
  {
    if |parts| == 0 then ""
    else if |parts| == 1 then parts[0]
    else parts[0] + sep + JoinWith(parts[1..], sep)
  }

  lemma JoinThree(a: string, b: string, c: string, sep: string)
    ensures JoinWith([a, b, c], sep) == a + sep + b + sep + c
  {
    assert [a, b, c][1..] == [b, c];
    assert [b, c][1..] == [c];
    assert JoinWith([c], sep) == c;
    assert JoinWith([b, c], sep) == b + sep + c;
    assert JoinWith([a, b, c], sep) == a + sep + (b + sep + c);
  }

  /** `s.split(sep)` for a one-character separator: the maximal runs between
      separators, so a string with k separators yields k + 1 parts and the
      empty string yields one empty part. */
  function Split(s: string, sep: char): (parts: seq<string>)
    ensures |parts| == CountOf(s, sep) + 1
    ensures forall i :: 0 <= i < |parts| ==> sep !in parts[i]
    ensures JoinWith(parts, [sep]) == s
  {
    if s == [] then [""]
    else
      var rest := Split(s[1..], sep);
      if s[0] == sep then
        assert ([""] + rest)[1..] == rest;
        [""] + rest
      else
        var parts := [[s[0]] + rest[0]] + rest[1..];
        assert parts[1..] == rest[1..];
        assert s == [s[0]] + s[1..];
        parts
  }

  /** In a join of separator-free parts, the first separator (if any) sits
      right after the first part. */
  lemma JoinFirstPart(p: seq<string>, sep: char)
    requires |p| >= 1
    requires forall i :: 0 <= i < |p| ==> sep !in p[i]
    ensures var s := JoinWith(p, [sep]);
      && |p[0]| <= |s|
      && s[..|p[0]|] == p[0]
      && (forall k :: 0 <= k < |p[0]| ==> s[k] != sep)
      && (|p| == 1 ==> |s| == |p[0]|)
      && (|p| > 1 ==> |s| > |p[0]| && s[|p[0]|] == sep && s[|p[0]| + 1..] == JoinWith(p[1..], [sep]))
  {
    var s := JoinWith(p, [sep]);
    if |p| > 1 {
      assert s == p[0] + [sep] + JoinWith(p[1..], [sep]);
    }
    forall k | 0 <= k < |p[0]| ensures s[k] != sep {
      assert s[k] == p[0][k];
    }
  }

  /** Joining parts that do not contain the separator loses nothing: the
      parts are determined by the joined string. */
  lemma {:induction false} JoinInjective(p: seq<string>, q: seq<string>, sep: char)
    requires |p| >= 1 && |q| >= 1
    requires forall i :: 0 <= i < |p| ==> sep !in p[i]
    requires forall i :: 0 <= i < |q| ==> sep !in q[i]
    requires JoinWith(p, [sep]) == JoinWith(q, [sep])
    ensures p == q
    decreases |p|
  {
    JoinFirstPart(p, sep);
    JoinFirstPart(q, sep);
    assert |p[0]| == |q[0]|;
    assert |p| == 1 <==> |q| == 1;
    if |p| == 1 {
      assert p == [p[0]] && q == [q[0]];
    } else {
      JoinInjective(p[1..], q[1..], sep);
      assert p == [p[0]] + p[1..] && q == [q[0]] + q[1..];
    }
  }

  /** `split` undoes `join` when no part contains the separator. */
  lemma SplitJoin(parts: seq<string>, sep: char)
    requires |parts| >= 1
    requires forall i :: 0 <= i < |parts| ==> sep !in parts[i]
    ensures Split(JoinWith(parts, [sep]), sep) == parts
  {
    var s := JoinWith(parts, [sep]);
    JoinInjective(Split(s, sep), parts, sep);
  }

  predicate IsDigit(c: char)
  {
    '0' <= c <= '9'
  }

  function DigitChar(n: nat): (c: char)
    requires n < 10
    ensures IsDigit(c)
  {
    ('0' as int + n) as char
  }

  function Pow10(w: nat): (p: nat)
    ensures p >= 1
  {
    if w == 0 then 1 else 10 * Pow10(w - 1)
  }

  /** The last `w` decimal digits of `n`, zero-padded on the left (the
      `%Y`, `%m`, `%d` fields of a formatted date). */
  function Pad(n: nat, w: nat): (r: string)
    ensures |r| == w
    ensures forall i :: 0 <= i < |r| ==> IsDigit(r[i])
  {
    if w == 0 then "" else Pad(n / 10, w - 1) + [DigitChar(n % 10)]
  }

  /** The value of a string of decimal digits. */
  function DigitsValue(s: string): nat
    requires forall i :: 0 <= i < |s| ==> IsDigit(s[i])
  {
    if s == [] then 0
    else
      assert IsDigit(s[|s| - 1]);
      10 * DigitsValue(s[..|s| - 1]) + (s[|s| - 1] as int - '0' as int)
  }

  /** Reading back a padded field gives the number, when it fits the width. */
  lemma {:induction false} PadValue(n: nat, w: nat)
    requires n < Pow10(w)
    ensures DigitsValue(Pad(n, w)) == n
  {
    if w > 0 {
      PadValue(n / 10, w - 1);
      var r := Pad(n, w);
      assert r[..|r| - 1] == Pad(n / 10, w - 1);
    }
  }

  /** Padded fields of one width are distinct for distinct numbers that fit. */
  lemma PadInjective(m: nat, n: nat, w: nat)
    requires m < Pow10(w) && n < Pow10(w)
    requires Pad(m, w) == Pad(n, w)
    ensures m == n
  {
    PadValue(m, w);
    PadValue(n, w);
  }
}
