/**
 The partition scanner (`MONTH_PATTERN`, `extract_months_from_table`): a
 table's month partitions are the entries whose name contains
 `extraction_month=` followed by four digits, a dash and two digits. The
 regular expression is searched for, not anchored, and its group is the
 `YYYY-MM` label.
 */
module Partitions {
  import opened Strings
  import opened Sorting
  import opened Listing
  import opened Wrappers

  /** The literal part of the partition-folder pattern. */
  const MonthKey: string := "extraction_month="

  /** Length of a `YYYY-MM` label. */
  const LabelLength: nat := 7

  /** A character `\d` accepts. Only ASCII digits are modelled. */
  predicate IsDigit(c: char)
  {
    '0' <= c <= '9'
  }

  /** The shape `\d{4}-\d{2}`. */
  predicate IsMonthLabel(m: string)
  {
    && |m| == LabelLength
    && IsDigit(m[0]) && IsDigit(m[1]) && IsDigit(m[2]) && IsDigit(m[3])
    && m[4] == '-'
    && IsDigit(m[5]) && IsDigit(m[6])
  }

  /** The pattern matches `name` starting at index `i`. */
  predicate MatchesAt(name: string, i: int)
  {
    && 0 <= i && i + |MonthKey| + LabelLength <= |name|
    && name[i..i + |MonthKey|] == MonthKey
    && IsMonthLabel(name[i + |MonthKey|..i + |MonthKey| + LabelLength])
  }

  /** The group captured by a match at index `i`. */
  function CaptureAt(name: string, i: int): string
    requires MatchesAt(name, i)
  {
    name[i + |MonthKey|..i + |MonthKey| + LabelLength]
  }

  /** Scans `name` for a match from index `from` on and captures the leftmost. */
  function SearchFrom(name: string, from: nat): (r: Option<string>)
    ensures r.None? <==> forall i :: from <= i ==> !MatchesAt(name, i)
    ensures r.Some? ==> exists i :: from <= i && MatchesAt(name, i) && r.value == CaptureAt(name, i)
                                   && forall j :: from <= j < i ==> !MatchesAt(name, j)
    decreases |name| - from
  {
    if from + |MonthKey| + LabelLength > |name| then None
    else if MatchesAt(name, from) then Some(CaptureAt(name, from))
    else SearchFrom(name, from + 1)
  }

  /** `MONTH_PATTERN.search(name)`, reduced to the captured group. */
  function SearchMonth(name: string): (r: Option<string>)
    ensures r.None? <==> forall i :: !MatchesAt(name, i)
    ensures r.Some? ==> IsMonthLabel(r.value)
    ensures r.Some? ==> exists i :: MatchesAt(name, i) && r.value == CaptureAt(name, i)
                                   && forall j :: 0 <= j < i ==> !MatchesAt(name, j)
  {
    SearchFrom(name, 0)
  }

  /** Entry `e` is a partition folder whose leftmost match captures `m`. */
  predicate Yields(e: Entry, m: string)
  {
    SearchMonth(e.name) == Some(m)
  }

  /** The label one entry contributes: its capture, if its name matches. */
  function Capture(e: Entry): (r: seq<string>)
    ensures |r| <= 1
    ensures forall m :: m in r <==> Yields(e, m)
  {
    match SearchMonth(e.name)
    case Some(m) => [m]
    case None => []
  }

  /** The captured labels of every matching entry, in listing order. */
  function Captures(entries: seq<Entry>): (r: seq<string>)
    ensures |r| <= |entries|
    ensures forall m :: m in r <==> exists e :: e in entries && Yields(e, m)
  {
    if entries == [] then []
    else
      assert forall x :: x in entries <==> x == entries[0] || x in entries[1..];
      Capture(entries[0]) + Captures(entries[1..])
  }

  /** Every matching entry contributes its label, in listing order, even when
      an earlier entry gave the same label: nothing is de-duplicated. */
  lemma {:induction false} CapturesAppend(a: seq<Entry>, b: seq<Entry>)
    ensures Captures(a + b) == Captures(a) + Captures(b)
  {
    if a == [] {
      assert a + b == b;
    } else {
      assert (a + b)[0] == a[0] && (a + b)[1..] == a[1..] + b;
      CapturesAppend(a[1..], b);
    }
  }

  /** A single entry contributes exactly its own capture. */
  lemma CapturesOfOne(e: Entry)
    ensures Captures([e]) == Capture(e)
  {}

  /** `extract_months_from_table(table_path)`. */
  function ExtractMonths(volume: Volume, tablePath: string): (r: seq<string>)
    ensures SortedBy(r, Identity)
    ensures tablePath !in volume ==> r == []
    ensures tablePath in volume ==> multiset(r) == multiset(Captures(volume[tablePath]))
    ensures forall m :: m in r ==> IsMonthLabel(m)
    ensures forall m :: m in r <==>
      tablePath in volume && exists e :: e in volume[tablePath] && Yields(e, m)
  {
    if tablePath !in volume then []
    else
      var found := Captures(volume[tablePath]);
      var r := SortBy(found, Identity);
      assert forall m :: m in r <==> m in found by {
        forall m ensures m in r <==> m in found {
          SortByMembers(found, Identity, m);
        }
      }
      r
  }

  /* Ordering month labels as strings is ordering them by date. */

  predicate AllDigits(s: string)
  {
    forall i :: 0 <= i < |s| ==> IsDigit(s[i])
  }

  function DigitValue(c: char): nat
    requires IsDigit(c)
  {
    (c as int) - ('0' as int)
  }

  function Pow10(n: nat): (p: nat)
    ensures p >= 1
  {
    if n == 0 then 1 else 10 * Pow10(n - 1)
  }

  /** The number a string of decimal digits denotes. */
  function DecimalValue(s: string): nat
    requires AllDigits(s)
  {
    if s == [] then 0 else DigitValue(s[0]) * Pow10(|s| - 1) + DecimalValue(s[1..])
  }

  lemma {:induction false} DecimalValueBound(s: string)
    requires AllDigits(s)
    ensures DecimalValue(s) < Pow10(|s|)
  {
    if s != [] {
      DecimalValueBound(s[1..]);
      var p := Pow10(|s| - 1);
      assert DigitValue(s[0]) <= 9;
      assert DigitValue(s[0]) * p <= 9 * p;
    }
  }

  lemma {:induction false} MultipleGap(x: nat, y: nat, p: nat, v: nat, w: nat)
    requires x < y && v < p
    ensures x * p + v < y * p + w
    decreases y
  {
    if x + 1 < y {
      MultipleGap(x, y - 1, p, v, w);
    }
    assert y * p == (y - 1) * p + p;
  }

  /** A smaller leading digit makes a smaller number, whatever follows. */
  lemma LeadingDigitDominates(a: string, b: string)
    requires AllDigits(a) && AllDigits(b) && |a| == |b| > 0 && a[0] < b[0]
    ensures DecimalValue(a) < DecimalValue(b)
  {
    DecimalValueBound(a[1..]);
    MultipleGap(DigitValue(a[0]), DigitValue(b[0]), Pow10(|a| - 1), DecimalValue(a[1..]), DecimalValue(b[1..]));
  }

  /** For digit strings of one length, string order is numeric order. */
  lemma {:induction false} DigitOrderIsNumeric(a: string, b: string)
    requires AllDigits(a) && AllDigits(b) && |a| == |b|
    ensures LexLe(a, b) <==> DecimalValue(a) <= DecimalValue(b)
  {
    if a != [] {
      if a[0] < b[0] {
        LeadingDigitDominates(a, b);
      } else if b[0] < a[0] {
        LeadingDigitDominates(b, a);
      } else {
        DigitOrderIsNumeric(a[1..], b[1..]);
        assert DecimalValue(a) - DecimalValue(b) == DecimalValue(a[1..]) - DecimalValue(b[1..]);
      }
    }
  }

  lemma DigitStringsEqual(a: string, b: string)
    requires AllDigits(a) && AllDigits(b) && |a| == |b|
    ensures a == b <==> DecimalValue(a) == DecimalValue(b)
  {
    DigitOrderIsNumeric(a, b);
    DigitOrderIsNumeric(b, a);
    if DecimalValue(a) == DecimalValue(b) {
      LexLeAntisymmetric(a, b);
    }
  }

  /** Comparing two strings whose first parts have equal length compares the
      first parts, then the rest. */
  lemma {:induction false} LexLeConcat(p1: string, q1: string, p2: string, q2: string)
    requires |p1| == |p2|
    ensures LexLe(p1 + q1, p2 + q2) <==> LexLt(p1, p2) || (p1 == p2 && LexLe(q1, q2))
  {
    if p1 == [] {
      assert p1 + q1 == q1 && p2 + q2 == q2;
    } else {
      assert (p1 + q1)[0] == p1[0] && (p2 + q2)[0] == p2[0];
      assert (p1 + q1)[1..] == p1[1..] + q1 && (p2 + q2)[1..] == p2[1..] + q2;
      LexLeConcat(p1[1..], q1, p2[1..], q2);
      if p1[0] == p2[0] {
        assert p1 == [p1[0]] + p1[1..] && p2 == [p2[0]] + p2[1..];
        assert p1 == p2 <==> p1[1..] == p2[1..];
      } else {
        LexLeTotal(p1, p2);
      }
    }
  }

  /** The year of a `YYYY-MM` label. */
  function Year(m: string): nat
    requires IsMonthLabel(m)
  {
    DecimalValue(m[..4])
  }

  /** The month number of a `YYYY-MM` label. */
  function MonthNumber(m: string): nat
    requires IsMonthLabel(m)
  {
    DecimalValue(m[5..])
  }

  /** Month labels sort as strings exactly as they do by (year, month), so the
      smallest label is the earliest month. */
  lemma MonthOrderIsChronological(a: string, b: string)
    requires IsMonthLabel(a) && IsMonthLabel(b)
    ensures LexLe(a, b) <==> Year(a) < Year(b) || (Year(a) == Year(b) && MonthNumber(a) <= MonthNumber(b))
  {
    assert a == a[..4] + a[4..] && b == b[..4] + b[4..];
    LexLeConcat(a[..4], a[4..], b[..4], b[4..]);
    assert a[4..][1..] == a[5..] && b[4..][1..] == b[5..];
    assert LexLe(a[4..], b[4..]) <==> LexLe(a[5..], b[5..]);
    DigitOrderIsNumeric(a[..4], b[..4]);
    DigitStringsEqual(a[..4], b[..4]);
    DigitOrderIsNumeric(a[5..], b[5..]);
  }
}
