/** The record list of the main screen: the records of the selected day. */
module Content {
  import opened Records

  /**
   * The records dated on the day of `selectedDate`: the half-open window from
   * its first instant to the first instant of the next day, order kept.
   */
  function RecordsForSelectedDate(allRecords: seq<BeadCountRecord>, selectedDate: int): (daily: seq<BeadCountRecord>)
    ensures forall i :: 0 <= i < |daily| ==>
      StartOfDay(selectedDate) <= daily[i].date < StartOfDay(selectedDate) + SecondsPerDay
    ensures forall r :: r in daily <==>
      r in allRecords && StartOfDay(selectedDate) <= r.date < StartOfDay(selectedDate) + SecondsPerDay
    ensures forall r :: r in daily ==> multiset(daily)[r] == multiset(allRecords)[r]
    ensures IsSubsequence(daily, allRecords)
  {
    var startOfDay := StartOfDay(selectedDate);
    var endOfDay := startOfDay + SecondsPerDay;
    RecordsBetweenKeepsWindow(allRecords, startOfDay, endOfDay);
    RecordsBetween(allRecords, startOfDay, endOfDay)
  }

  /** A record is listed exactly when it is stored and falls on the same calendar day as the selected date. */
  lemma ListedIffSameDay(allRecords: seq<BeadCountRecord>, selectedDate: int, r: BeadCountRecord)
    ensures r in RecordsForSelectedDate(allRecords, selectedDate) <==>
      r in allRecords && DayOf(r.date) == DayOf(selectedDate)
  {
    DayWindow(r.date, DayOf(selectedDate), 1);
  }
}
