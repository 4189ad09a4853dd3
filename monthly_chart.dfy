/**
 * The monthly chart: one bar per day of a month, each the total count of the
 * records dated on that day.
 *
 * A month is given by the day number of its first day and its number of
 * days, which the calendar supplies; the instant after its last day is the
 * start of the next month.
 */
module MonthlyChart {
  import opened Records

  datatype Month = Month(firstDay: int, length: nat)

  /** One bar of the chart: the first instant of a day and the total count recited that day. */
  datatype DailyData = DailyData(date: int, totalCount: int)

  function MonthStart(m: Month): int {
    DayStart(m.firstDay)
  }

  function MonthEnd(m: Month): int {
    DayStart(m.firstDay + m.length)
  }

  /** The records dated in the month. */
  function MonthRecords(allRecords: seq<BeadCountRecord>, m: Month): seq<BeadCountRecord> {
    RecordsBetween(allRecords, MonthStart(m), MonthEnd(m))
  }

  /** Total count of the records whose day starts at `dayStart`. */
  function DayTotal(records: seq<BeadCountRecord>, dayStart: int): int {
    if records == [] then 0
    else
      var last := records[|records| - 1];
      DayTotal(records[..|records| - 1], dayStart) + (if StartOfDay(last.date) == dayStart then last.count else 0)
  }

  /** Total count of all the records. */
  function TotalCount(records: seq<BeadCountRecord>): int {
    if records == [] then 0 else TotalCount(records[..|records| - 1]) + records[|records| - 1].count
  }

  /** Sum of the totals of the bars. */
  function SumTotals(data: seq<DailyData>): int {
    if data == [] then 0 else SumTotals(data[..|data| - 1]) + data[|data| - 1].totalCount
  }

  /** What the chart shows: day k of the month, with the total of that day's records. */
  function DailyTotals(allRecords: seq<BeadCountRecord>, m: Month): seq<DailyData> {
    var records := MonthRecords(allRecords, m);
    seq(m.length, k => DailyData(DayStart(m.firstDay + k), DayTotal(records, DayStart(m.firstDay + k))))
  }

  /**
   * Builds the chart data: filters the month's records, adds each record's
   * count into a per-day table keyed by the start of its day, then reads one
   * entry per day of the month out of the table, zero where a day has none.
   */
  method MonthlyData(allRecords: seq<BeadCountRecord>, month: Month) returns (data: seq<DailyData>)
    ensures |data| == month.length
    ensures forall k :: 0 <= k < |data| ==> data[k].date == DayStart(month.firstDay + k)
    ensures forall k :: 0 <= k < |data| ==>
      data[k].totalCount == DayTotal(MonthRecords(allRecords, month), data[k].date)
    ensures data == DailyTotals(allRecords, month)
  {
    var thisMonthRecords := RecordsBetween(allRecords, MonthStart(month), MonthEnd(month));
    var dailySum: map<int, int> := map[];
    var i := 0;
    while i < |thisMonthRecords|
      invariant 0 <= i <= |thisMonthRecords|
      invariant forall day :: day in dailySum ==> dailySum[day] == DayTotal(thisMonthRecords[..i], day)
      invariant forall day :: day !in dailySum ==> DayTotal(thisMonthRecords[..i], day) == 0
    {
      var record := thisMonthRecords[i];
      var dayStart := StartOfDay(record.date);
      var sofar := if dayStart in dailySum then dailySum[dayStart] else 0;
      dailySum := dailySum[dayStart := sofar + record.count];
      assert thisMonthRecords[..i + 1][..i] == thisMonthRecords[..i];
      i := i + 1;
    }
    assert thisMonthRecords[..i] == thisMonthRecords;
    data := seq(month.length, k => DailyData(
      DayStart(month.firstDay + k),
      if DayStart(month.firstDay + k) in dailySum then dailySum[DayStart(month.firstDay + k)] else 0));
  }

  /** The bars add up to the total count of the month's records. */
  lemma MonthlyTotalsAddUp(allRecords: seq<BeadCountRecord>, m: Month)
    ensures SumTotals(DailyTotals(allRecords, m)) == TotalCount(MonthRecords(allRecords, m))
  {
    var records := MonthRecords(allRecords, m);
    var data := DailyTotals(allRecords, m);
    RecordsBetweenKeepsWindow(allRecords, MonthStart(m), MonthEnd(m));
    forall i | 0 <= i < |records|
      ensures m.firstDay <= DayOf(records[i].date) < m.firstDay + m.length
    {
      DayWindow(records[i].date, m.firstDay, m.length);
    }
    SumTotalsPrefix(allRecords, m, m.length);
    assert data[..m.length] == data;
    SumDaysCoversMonth(records, m.firstDay, m.length);
  }

  /** A record dated outside the month changes no bar, wherever it is stored. */
  lemma OutOfMonthRecordIgnored(before: seq<BeadCountRecord>, r: BeadCountRecord, after: seq<BeadCountRecord>, m: Month)
    requires r.date < MonthStart(m) || r.date >= MonthEnd(m)
    ensures DailyTotals(before + [r] + after, m) == DailyTotals(before + after, m)
  {
    RecordsBetweenAppend(before + [r], after, MonthStart(m), MonthEnd(m));
    RecordsBetweenAppend(before, [r], MonthStart(m), MonthEnd(m));
    RecordsBetweenAppend(before, after, MonthStart(m), MonthEnd(m));
    assert RecordsBetween([r], MonthStart(m), MonthEnd(m)) == [];
    assert MonthRecords(before + [r] + after, m) == MonthRecords(before + after, m);
  }

  /** A day of the month on which no record is dated gets a zero bar. */
  lemma EmptyDayIsZero(allRecords: seq<BeadCountRecord>, m: Month, k: int)
    requires 0 <= k < m.length
    requires forall r :: r in allRecords ==> DayOf(r.date) != m.firstDay + k
    ensures DailyTotals(allRecords, m)[k] == DailyData(DayStart(m.firstDay + k), 0)
  {
    var records := MonthRecords(allRecords, m);
    RecordsBetweenKeepsWindow(allRecords, MonthStart(m), MonthEnd(m));
    forall i | 0 <= i < |records| ensures StartOfDay(records[i].date) != DayStart(m.firstDay + k) {
      var r := records[i];
      assert multiset(records)[r] > 0;
      assert r in allRecords;
    }
    DayTotalWithoutRecords(records, DayStart(m.firstDay + k));
  }

  lemma {:induction false} DayTotalWithoutRecords(records: seq<BeadCountRecord>, dayStart: int)
    requires forall i :: 0 <= i < |records| ==> StartOfDay(records[i].date) != dayStart
    ensures DayTotal(records, dayStart) == 0
  {
    if records != [] {
      DayTotalWithoutRecords(records[..|records| - 1], dayStart);
    }
  }

  /** Sum of the day totals of the first k days starting at day number `first`. */
  function SumDays(records: seq<BeadCountRecord>, first: int, k: nat): int {
    if k == 0 then 0 else SumDays(records, first, k - 1) + DayTotal(records, DayStart(first + k - 1))
  }

  lemma {:induction false} SumTotalsPrefix(allRecords: seq<BeadCountRecord>, m: Month, k: nat)
    requires k <= m.length
    ensures SumTotals(DailyTotals(allRecords, m)[..k]) == SumDays(MonthRecords(allRecords, m), m.firstDay, k)
  {
    if k > 0 {
      var data := DailyTotals(allRecords, m);
      assert data[..k][..k - 1] == data[..k - 1];
      SumTotalsPrefix(allRecords, m, k - 1);
    }
  }

  /** Adding a record adds its count to the one day of the window it falls on, if any. */
  lemma {:induction false} SumDaysAppend(records: seq<BeadCountRecord>, r: BeadCountRecord, first: int, k: nat)
    ensures SumDays(records + [r], first, k)
         == SumDays(records, first, k) + (if first <= DayOf(r.date) < first + k then r.count else 0)
  {
    if k > 0 {
      SumDaysAppend(records, r, first, k - 1);
      assert (records + [r])[..|records|] == records;
    }
  }

  lemma {:induction false} SumDaysCoversMonth(records: seq<BeadCountRecord>, first: int, days: nat)
    requires forall i :: 0 <= i < |records| ==> first <= DayOf(records[i].date) < first + days
    ensures SumDays(records, first, days) == TotalCount(records)
  {
    if records != [] {
      var prefix := records[..|records| - 1];
      var last := records[|records| - 1];
      assert records == prefix + [last];
      SumDaysCoversMonth(prefix, first, days);
      SumDaysAppend(prefix, last, first, days);
    } else {
      SumDaysOfNothing(first, days);
    }
  }

  lemma {:induction false} SumDaysOfNothing(first: int, k: nat)
    ensures SumDays([], first, k) == 0
  {
    if k > 0 {
      SumDaysOfNothing(first, k - 1);
    }
  }
}
