/** The numbers behind the trend chart of `renderTrendChart`: one expense and one savings
    value per day of the month, the top of the value axis and the ticks on both axes. */
module Trend {
  import opened Text
  import opened Numbers
  import opened Txns
  import opened Utils
  import opened Summary

  // ---- the length of the month ----

  /** Gregorian leap years. */
  predicate IsLeap(y: int) {
    y % 4 == 0 && (y % 100 != 0 || y % 400 == 0)
  }

  function MonthLength(y: int, m: int): (d: nat)
    requires 1 <= m <= 12
    ensures 28 <= d <= 31
    ensures d == 29 <==> m == 2 && IsLeap(y)
    ensures d == 28 <==> m == 2 && !IsLeap(y)
  {
    if m == 2 then (if IsLeap(y) then 29 else 28)
    else if m == 4 || m == 6 || m == 9 || m == 11 then 30
    else 31
  }

  /** `new Date(y, m, 0).getDate()`: the last day of month `m` (counted from 1) of year
      `y`. `Date` reads the years 0 to 99 as 1900 to 1999, and a month outside 1..12 runs on
      into the years around. */
  function DaysInMonth(y: int, m: int): (d: nat)
    ensures 28 <= d <= 31
    ensures 1 <= m <= 12 && !(0 <= y <= 99) ==> d == MonthLength(y, m)
    ensures 1 <= m <= 12 && 0 <= y <= 99 ==> d == MonthLength(1900 + y, m)
  {
    var year := if 0 <= y <= 99 then 1900 + y else y;
    MonthLength(year + (m - 1) / 12, (m - 1) % 12 + 1)
  }

  /** The days of the twelve months add up to the days of the year. */
  lemma {:induction false} YearLength(y: int)
    requires y >= 100
    ensures var total := DaysInMonth(y, 1) + DaysInMonth(y, 2) + DaysInMonth(y, 3)
      + DaysInMonth(y, 4) + DaysInMonth(y, 5) + DaysInMonth(y, 6) + DaysInMonth(y, 7)
      + DaysInMonth(y, 8) + DaysInMonth(y, 9) + DaysInMonth(y, 10) + DaysInMonth(y, 11)
      + DaysInMonth(y, 12);
      total == if IsLeap(y) then 366 else 365
  {
  }

  /** Month 13 of a year is January of the next. */
  lemma {:induction false} MonthRollsOver(y: int, m: int)
    requires y >= 100
    ensures DaysInMonth(y, m + 12) == DaysInMonth(y + 1, m)
  {
    assert (m + 12 - 1) / 12 == (m - 1) / 12 + 1;
    assert (m + 12 - 1) % 12 == (m - 1) % 12;
  }

  lemma {:induction false} FebruaryExamples()
    ensures DaysInMonth(2024, 2) == 29 && DaysInMonth(2023, 2) == 28
    ensures DaysInMonth(2000, 2) == 29 && DaysInMonth(2100, 2) == 28
    ensures DaysInMonth(0, 2) == 28 && DaysInMonth(2023, 14) == 29
  {
  }

  /** The `YYYY-MM` value of a month input. */
  predicate IsMonthText(month: string) {
    |month| == 7 && month[4] == '-' && AllDigits(month[..4]) && AllDigits(month[5..])
  }

  /** `month.split('-').map(Number)` on a `YYYY-MM` value. */
  function MonthNumbers(month: string): (r: (int, int))
    requires IsMonthText(month)
    ensures 0 <= r.0 <= 9999 && 0 <= r.1 <= 99
  {
    var parts := Split(month, '-');
    MonthParts(month);
    DigitsBound(month[..4]);
    DigitsBound(month[5..]);
    (NumberOf(parts[0]).units, NumberOf(parts[1]).units)
  }

  /** What `MonthNumbers` reads: the digits before and after the dash. */
  lemma {:induction false} MonthParts(month: string)
    requires IsMonthText(month)
    ensures Split(month, '-') == [month[..4], month[5..]]
    ensures NumberOf(month[..4]) == Dec(DigitsValue(month[..4]), 0)
    ensures NumberOf(month[5..]) == Dec(DigitsValue(month[5..]), 0)
  {
    var a, b := month[..4], month[5..];
    assert month == a + ['-'] + b;
    forall i | 0 <= i < |a| ensures a[i] != '-' { assert IsDigit(a[i]); }
    forall i | 0 <= i < |b| ensures b[i] != '-' { assert IsDigit(b[i]); }
    SplitJoin([a, b], '-');
    assert Join([a, b], '-') == a + ['-'] + b;
    DigitsNumber(a);
    DigitsNumber(b);
  }

  /** The `YYYY-MM` text of month `m` of year `y`, as the month picker holds it:
      four digits spelling the year, a dash, two digits spelling the month. */
  function MonthText(y: nat, m: nat): (r: string)
    requires y < 10000 && m < 100
    ensures IsMonthText(r)
    ensures DigitsValue(r[..4]) == y && DigitsValue(r[5..]) == m
  {
    var a, b := PadDigits(y, 4), PadDigits(m, 2);
    assert Pow10(4) == 10000 && Pow10(2) == 100;
    PadFits(y, 4);
    PadFits(m, 2);
    JoinParts(a, '-', b);
    a + "-" + b
  }

  /** Reading a month back gives the year and month it was written from. */
  lemma {:induction false} MonthRoundTrip(y: nat, m: nat)
    requires y < 10000 && m < 100
    ensures MonthNumbers(MonthText(y, m)) == (y, m)
  {
    MonthNumbersOf(MonthText(y, m), y, m);
  }

  lemma {:induction false} MonthNumbersOf(month: string, y: nat, m: nat)
    requires IsMonthText(month)
    requires DigitsValue(month[..4]) == y && DigitsValue(month[5..]) == m
    ensures MonthNumbers(month) == (y, m)
  {
    MonthParts(month);
  }

  // ---- the daily series ----

  /** `String(date).slice(-2)`. */
  function LastTwo(s: string): (r: string)
    ensures |r| <= 2 && |r| <= |s| && r == s[|s| - |r|..]
    ensures |s| >= 2 ==> |r| == 2
  {
    if |s| <= 2 then s else s[|s| - 2..]
  }

  /** The day of the month a record is drawn on: `Number(String(t.date).slice(-2))` when
      that is a whole number from 1 to `days` (a canonical number is whole exactly when its
      scale is 0). A fraction would not name an element of the series; two characters cannot
      spell one in range anyway. */
  function DayOf(date: string, days: nat): (r: Option<nat>)
    ensures r.Some? ==> 1 <= r.value <= days
  {
    var n := NumberOf(LastTwo(date));
    if n.Dec? && n.scale == 0 && 1 <= n.units <= days then Some(n.units as nat) else None
  }

  datatype Measure = Spending | Saving

  /** On a `YYYY-MM-DD` date the day is the number the last two digits spell, when it
      lies in the month, and no day otherwise. */
  lemma {:induction false} DayOfIso(date: string, days: nat)
    requires IsIsoDate(date)
    ensures var dd := DigitsValue(date[8..]);
      DayOf(date, days) == if 1 <= dd <= days then Some(dd) else None
  {
    var d := date[8..];
    assert LastTwo(date) == d;
    assert AllDigits(d) by {
      assert d[0] == date[8] && d[1] == date[9];
    }
    DigitsNumber(d);
  }

  /** What a record adds to a series: to the expense series its amount when its type is
      exactly "expense", to the savings series its savings when it is income. */
  function Contribution(t: Txn, m: Measure): real {
    match m
    case Spending => if t.kind == Expense then Amount(t) else 0.0
    case Saving => if t.kind == Income then Saved(t) else 0.0
  }

  /** The day each record is drawn on, record by record; every record drawn at all is
      drawn on a day of the month. */
  function Dates(ts: seq<Txn>, days: nat): (r: seq<Option<nat>>)
    ensures |r| == |ts|
    ensures forall i :: 0 <= i < |r| && r[i].Some? ==> 1 <= r[i].value <= days
  {
    seq(|ts|, i requires 0 <= i < |ts| => DayOf(ts[i].date, days))
  }

  /** What day `d` of a series shows: the contributions of the records drawn on it, where
      record `i` is drawn on day `ds[i]`. */
  function DayTotal(ts: seq<Txn>, ds: seq<Option<nat>>, d: nat, m: Measure): real
    requires |ds| == |ts|
  {
    if |ts| == 0 then 0.0
    else
      var n := |ts| - 1;
      DayTotal(ts[..n], ds[..n], d, m) + (if ds[n] == Some(d) then Contribution(ts[n], m) else 0.0)
  }

  /** The series after the first `i` records. */
  ghost predicate SeriesAt(ts: seq<Txn>, ds: seq<Option<nat>>, i: nat, series: seq<real>, m: Measure)
    requires |ds| == |ts| && i <= |ts|
  {
    forall k :: 0 <= k < |series| ==> series[k] == DayTotal(ts[..i], ds[..i], k + 1, m)
  }

  /** The fill loop of `renderTrendChart`: both series start at zero and each record adds
      to the day its date ends in. */
  method DailySeries(ts: seq<Txn>, days: nat) returns (spent: seq<real>, saved: seq<real>)
    ensures |spent| == days && |saved| == days
    ensures forall k :: 0 <= k < days ==> spent[k] == DayTotal(ts, Dates(ts, days), k + 1, Spending)
    ensures forall k :: 0 <= k < days ==> saved[k] == DayTotal(ts, Dates(ts, days), k + 1, Saving)
  {
    var ds := Dates(ts, days);
    spent, saved := Fill(ts, ds, days);
  }

  /** The loop itself, once the day of every record is known. */
  method Fill(ts: seq<Txn>, ds: seq<Option<nat>>, days: nat) returns (spent: seq<real>, saved: seq<real>)
    requires |ds| == |ts|
    requires forall i :: 0 <= i < |ds| && ds[i].Some? ==> 1 <= ds[i].value <= days
    ensures |spent| == days && |saved| == days
    ensures forall k :: 0 <= k < days ==> spent[k] == DayTotal(ts, ds, k + 1, Spending)
    ensures forall k :: 0 <= k < days ==> saved[k] == DayTotal(ts, ds, k + 1, Saving)
  {
    spent := seq(days, _ => 0.0);
    saved := seq(days, _ => 0.0);
    var i := 0;
    while i < |ts|
      invariant 0 <= i <= |ts|
      invariant |spent| == days && |saved| == days
      invariant SeriesAt(ts, ds, i, spent, Spending)
      invariant SeriesAt(ts, ds, i, saved, Saving)
    {
      var t := ts[i];
      var day := ds[i];
      ghost var spent0, saved0 := spent, saved;
      if day.Some? {
        var k := day.value - 1;
        if t.kind == Expense {
          spent := spent[k := spent[k] + Amount(t)];
        }
        if t.kind == Income {
          saved := saved[k := saved[k] + Saved(t)];
        }
      }
      SeriesStep(ts, ds, i, spent0, spent, Spending);
      SeriesStep(ts, ds, i, saved0, saved, Saving);
      i := i + 1;
    }
    assert ts[..i] == ts && ds[..i] == ds;
  }

  /** One record changes only the entry of its own day, and only by its contribution. */
  lemma {:induction false} SeriesStep(ts: seq<Txn>, ds: seq<Option<nat>>, i: nat, series: seq<real>,
                                      next: seq<real>, m: Measure)
    requires |ds| == |ts| && i < |ts| && SeriesAt(ts, ds, i, series, m)
    requires |next| == |series|
    requires forall k :: 0 <= k < |series| ==>
      next[k] == series[k] + (if ds[i] == Some(k + 1) then Contribution(ts[i], m) else 0.0)
    ensures SeriesAt(ts, ds, i + 1, next, m)
  {
    assert ts[..i + 1][..i] == ts[..i] && ds[..i + 1][..i] == ds[..i];
    forall k | 0 <= k < |next|
      ensures next[k] == DayTotal(ts[..i + 1], ds[..i + 1], k + 1, m)
    {
      assert DayTotal(ts[..i + 1], ds[..i + 1], k + 1, m)
        == DayTotal(ts[..i], ds[..i], k + 1, m) + (if ds[i] == Some(k + 1) then Contribution(ts[i], m) else 0.0);
    }
  }

  /** The days `1..n` of a series, added up. */
  function SumDays(ts: seq<Txn>, ds: seq<Option<nat>>, n: nat, m: Measure): real
    requires |ds| == |ts|
  {
    if n == 0 then 0.0 else SumDays(ts, ds, n - 1, m) + DayTotal(ts, ds, n, m)
  }

  /** What the records drawn on one of the days `1..n` contribute, added up. */
  function DatedTotal(ts: seq<Txn>, ds: seq<Option<nat>>, n: nat, m: Measure): real
    requires |ds| == |ts|
  {
    if |ts| == 0 then 0.0
    else
      var k := |ts| - 1;
      DatedTotal(ts[..k], ds[..k], n, m) + (if ds[k].Some? && 1 <= ds[k].value <= n then Contribution(ts[k], m) else 0.0)
  }

  /** The series loses nothing and counts nothing twice: its days add up to the
      contributions of the records dated in the month. */
  lemma {:induction false} SeriesAccounts(ts: seq<Txn>, days: nat, m: Measure)
    ensures SumDays(ts, Dates(ts, days), days, m) == DatedTotal(ts, Dates(ts, days), days, m)
  {
    SumDaysAccounts(ts, Dates(ts, days), days, m);
  }

  lemma {:induction false} SumDaysAccounts(ts: seq<Txn>, ds: seq<Option<nat>>, n: nat, m: Measure)
    requires |ds| == |ts|
    ensures SumDays(ts, ds, n, m) == DatedTotal(ts, ds, n, m)
  {
    if |ts| == 0 {
      SumDaysEmpty(ts, ds, n, m);
    } else {
      var k := |ts| - 1;
      SumDaysAccounts(ts[..k], ds[..k], n, m);
      SumDaysStep(ts, ds, n, m);
    }
  }

  lemma {:induction false} SumDaysEmpty(ts: seq<Txn>, ds: seq<Option<nat>>, n: nat, m: Measure)
    requires ts == [] && ds == []
    ensures SumDays(ts, ds, n, m) == 0.0
  {
    if n > 0 {
      SumDaysEmpty(ts, ds, n - 1, m);
    }
  }

  /** The last record adds its contribution to the first `n` days when its day is one of
      them. */
  lemma {:induction false} SumDaysStep(ts: seq<Txn>, ds: seq<Option<nat>>, n: nat, m: Measure)
    requires |ds| == |ts| > 0
    ensures var k := |ts| - 1;
      SumDays(ts, ds, n, m)
        == SumDays(ts[..k], ds[..k], n, m) + (if ds[k].Some? && 1 <= ds[k].value <= n then Contribution(ts[k], m) else 0.0)
  {
    if n > 0 {
      SumDaysStep(ts, ds, n - 1, m);
    }
  }

  // ---- the axes ----

  /** `arr.reduce((mx, v) => Math.max(mx, v), 0)`. */
  function Peak(s: seq<real>): (r: real)
    ensures r >= 0.0
    ensures forall i :: 0 <= i < |s| ==> s[i] <= r
    ensures r == 0.0 || exists i :: 0 <= i < |s| && s[i] == r
  {
    if |s| == 0 then 0.0
    else
      var m := Peak(s[..|s| - 1]);
      assert forall i :: 0 <= i < |s| - 1 ==> s[..|s| - 1][i] == s[i];
      if s[|s| - 1] > m then s[|s| - 1] else m
  }

  /** `maxVal`: the larger peak of the two series. */
  function AxisPeak(spent: seq<real>, saved: seq<real>): real {
    var a, b := Peak(spent), Peak(saved);
    if a > b then a else b
  }

  /** `yMax`, the top of the value axis. */
  function AxisTop(spent: seq<real>, saved: seq<real>): real {
    NiceCeil(AxisPeak(spent, saved))
  }

  /** The top of the axis is at least 10 and no value of either series rises above it. */
  lemma {:induction false} AxisCovers(spent: seq<real>, saved: seq<real>)
    ensures AxisTop(spent, saved) >= 10.0
    ensures forall i :: 0 <= i < |spent| ==> spent[i] <= AxisTop(spent, saved)
    ensures forall i :: 0 <= i < |saved| ==> saved[i] <= AxisTop(spent, saved)
  {
  }

  /** `[0, yMax * .25, yMax * .5, yMax * .75, yMax].map(v => Math.round(v))`. */
  function Ticks(yMax: real): (r: seq<int>)
    ensures |r| == 5
  {
    [Round(0.0), Round(yMax * 0.25), Round(yMax * 0.5), Round(yMax * 0.75), Round(yMax)]
  }

  /** The labels of the value axis climb from 0 to the rounded top. */
  lemma {:induction false} TicksClimb(yMax: real)
    requires yMax >= 0.0
    ensures Ticks(yMax)[0] == 0 && Ticks(yMax)[4] == Round(yMax)
    ensures forall i, j :: 0 <= i <= j < 5 ==> Ticks(yMax)[i] <= Ticks(yMax)[j]
  {
    var t := Ticks(yMax);
    RoundMonotone(0.0, yMax * 0.25);
    RoundMonotone(yMax * 0.25, yMax * 0.5);
    RoundMonotone(yMax * 0.5, yMax * 0.75);
    RoundMonotone(yMax * 0.75, yMax);
    assert t[0] <= t[1] <= t[2] <= t[3] <= t[4];
  }

  function InDays(days: int): int -> bool {
    (i: int) => 0 <= i < days
  }

  /** `Array.from(new Set([0, 9, 19, days - 1].filter(i => i >= 0 && i < days)))`: the
      days labelled under the chart, counted from 0. */
  function DayTicks(days: int): (r: seq<int>)
    ensures Distinct(r)
    ensures forall i :: i in r <==> (i == 0 || i == 9 || i == 19 || i == days - 1) && 0 <= i < days
  {
    var c := [0, 9, 19, days - 1];
    assert forall i :: i in c <==> i == 0 || i == 9 || i == 19 || i == days - 1;
    Dedup(Filter(c, InDays(days)))
  }

  /** In every month the labels are the 1st, 10th, 20th and last day. */
  lemma {:induction false} DayTicksOfMonth(days: int)
    requires 28 <= days <= 31
    ensures DayTicks(days) == [0, 9, 19, days - 1]
  {
    var c := [0, 9, 19, days - 1];
    FilterAll(c, InDays(days));
    DedupDistinct(c);
  }
}
