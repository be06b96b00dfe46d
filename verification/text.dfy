/** The string handling the back end relies on: the `%02d:00 - %02d:00`
    hour-range label, ASCII lower-casing (`strtolower`), substring search
    (`strpos(...) !== false`) and byte-wise string comparison (`<=>` on two
    non-numeric strings). */
module Text {
  import opened Domain

  const NoOrders: string := "No orders"

  function DigitChar(d: int): char
    requires 0 <= d < 10
  {
    ('0' as int + d) as char
  }

  function DigitValue(c: char): int {
    c as int - '0' as int
  }

  /** `%02d` for a number below 100. */
  function Pad2(n: int): (s: string)
    requires 0 <= n < 100
    ensures |s| == 2
    ensures '0' <= s[0] <= '9' && '0' <= s[1] <= '9'
    ensures DigitValue(s[0]) * 10 + DigitValue(s[1]) == n
  {
    [DigitChar(n / 10), DigitChar(n % 10)]
  }

  /** The label of a one-hour window: hour 9 is "09:00 - 10:00", and the
      upper bound wraps round, so hour 23 is "23:00 - 00:00". */
  function HourLabel(h: Hour): (s: string)
    ensures |s| == 13
    ensures s[2..] == ":00 - " + Pad2((h + 1) % 24) + ":00"
  {
    Pad2(h) + ":00 - " + Pad2((h + 1) % 24) + ":00"
  }

  /** Reads a label back: the hour in its first two digits, provided the whole
      string is that hour's label. */
  function ParseHourLabel(s: string): Option<Hour> {
    if |s| < 2 then None
    else
      var v := DigitValue(s[0]) * 10 + DigitValue(s[1]);
      if 0 <= v < 24 && s == HourLabel(v) then Some(v) else None
  }

  /** Labels round-trip, so two different hours never share a label. */
  lemma HourLabelRoundTrip(h: Hour)
    ensures ParseHourLabel(HourLabel(h)) == Some(h)
  {
    var s := HourLabel(h);
    assert s[0] == Pad2(h)[0] && s[1] == Pad2(h)[1];
  }

  lemma HourLabelInjective(a: Hour, b: Hour)
    ensures HourLabel(a) == HourLabel(b) <==> a == b
  {
    HourLabelRoundTrip(a);
    HourLabelRoundTrip(b);
  }

  lemma ParsedLabelIsLabel(s: string, h: Hour)
    requires ParseHourLabel(s) == Some(h)
    ensures s == HourLabel(h)
  {
  }

  /** The midnight label of the last hour of the day. */
  lemma LastHourWraps()
    ensures HourLabel(23) == "23:00 - 00:00"
  {
    assert Pad2(23) == "23";
    assert Pad2(0) == "00";
  }

  /** "No orders" can never be mistaken for an hour label. */
  lemma NoOrdersIsNotAnHour(h: Hour)
    ensures HourLabel(h) != NoOrders
  {
  }

  // ---- strtolower, restricted to ASCII as in PHP 8 ----

  function LowerChar(c: char): char {
    if 'A' <= c <= 'Z' then (c as int + 32) as char else c
  }

  function ToLower(s: string): (r: string)
    ensures |r| == |s|
    ensures forall i :: 0 <= i < |s| ==> r[i] == LowerChar(s[i])
  {
    if |s| == 0 then [] else [LowerChar(s[0])] + ToLower(s[1..])
  }

  // ---- substring search ----

  predicate IsPrefix(p: string, s: string) {
    |p| <= |s| && s[..|p|] == p
  }

  /** `strpos($hay, $needle) !== false`; in PHP 8 an empty needle is found at 0. */
  predicate Contains(hay: string, needle: string) {
    IsPrefix(needle, hay) || (|hay| > 0 && Contains(hay[1..], needle))
  }

  /** The needle sits in the haystack starting at offset `i`. */
  predicate OccursAt(hay: string, needle: string, i: int) {
    0 <= i && i + |needle| <= |hay| && hay[i..i + |needle|] == needle
  }

  /** The recursive search agrees with "the needle occurs at some offset". */
  lemma {:induction false} ContainsAt(hay: string, needle: string)
    ensures Contains(hay, needle) <==> exists i :: OccursAt(hay, needle, i)
  {
    if IsPrefix(needle, hay) {
      assert OccursAt(hay, needle, 0);
    } else if |hay| == 0 {
    } else {
      ContainsAt(hay[1..], needle);
      if exists i :: OccursAt(hay, needle, i) {
        var i :| OccursAt(hay, needle, i);
        assert i != 0;
        assert OccursAt(hay[1..], needle, i - 1);
      }
      if Contains(hay[1..], needle) {
        var i :| OccursAt(hay[1..], needle, i);
        assert OccursAt(hay, needle, i + 1);
      }
    }
  }

  // ---- byte-wise string order ----

  /** `strcmp(a, b) < 0`: the first differing character decides, and a proper
      prefix comes first. */
  predicate LexLess(a: string, b: string) {
    if |a| == 0 then |b| > 0
    else if |b| == 0 then false
    else if a[0] != b[0] then a[0] < b[0]
    else LexLess(a[1..], b[1..])
  }

  lemma {:induction false} LexLessIrreflexive(a: string)
    ensures !LexLess(a, a)
  {
    if |a| > 0 {
      LexLessIrreflexive(a[1..]);
    }
  }

  lemma {:induction false} LexLessTransitive(a: string, b: string, c: string)
    requires LexLess(a, b) && LexLess(b, c)
    ensures LexLess(a, c)
  {
    if |a| > 0 && |b| > 0 && |c| > 0 && a[0] == b[0] && b[0] == c[0] {
      LexLessTransitive(a[1..], b[1..], c[1..]);
    }
  }

  lemma {:induction false} LexLessTotal(a: string, b: string)
    ensures a == b || LexLess(a, b) || LexLess(b, a)
  {
    if |a| > 0 && |b| > 0 && a[0] == b[0] {
      LexLessTotal(a[1..], b[1..]);
      if a[1..] == b[1..] {
        assert a == [a[0]] + a[1..] && b == [b[0]] + b[1..];
      }
    }
  }

  /** Byte-wise order is a strict total order on strings. */
  lemma LexLessStrictTotal()
    ensures forall a :: !LexLess(a, a)
    ensures forall a, b, c :: LexLess(a, b) && LexLess(b, c) ==> LexLess(a, c)
    ensures forall a, b :: a == b || LexLess(a, b) || LexLess(b, a)
  {
    forall a { LexLessIrreflexive(a); }
    forall a, b, c | LexLess(a, b) && LexLess(b, c) { LexLessTransitive(a, b, c); }
    forall a, b { LexLessTotal(a, b); }
  }
}
