/**
 * The stored session record and the day arithmetic the views apply to it.
 *
 * Instants are whole seconds on the local clock. A day is `SecondsPerDay`
 * seconds long, and day number `d` runs over [d * SecondsPerDay, (d + 1) * SecondsPerDay).
 */
module Records {

  const SecondsPerDay: int := 86400

  /** One counting session as stored: when, how long (seconds), how many, by whom. */
  datatype BeadCountRecord = BeadCountRecord(
    date: int,
    startTime: int,
    duration: int,
    count: int,
    name: string)

  /** The day number an instant falls on (floor division, also before the epoch). */
  function DayOf(t: int): int {
    t / SecondsPerDay
  }

  /** The first instant of day number `day`. */
  function DayStart(day: int): int {
    day * SecondsPerDay
  }

  /** The first instant of the day `t` falls on. */
  function StartOfDay(t: int): (s: int)
    ensures s <= t < s + SecondsPerDay
    ensures s == DayStart(DayOf(t))
  {
    DayStart(DayOf(t))
  }

  /** An instant lies in the window of whole days [first, first + days) exactly when its day number does. */
  lemma DayWindow(t: int, first: int, days: int)
    ensures DayStart(first) <= t < DayStart(first + days) <==> first <= DayOf(t) < first + days
  {
    var d := DayOf(t);
    assert DayStart(d) <= t < DayStart(d) + SecondsPerDay;
    if d < first {
      assert DayStart(d) + SecondsPerDay <= DayStart(first);
    }
    if d >= first + days {
      assert DayStart(first + days) <= DayStart(d);
    }
  }

  /** `a` is `b` with some elements left out, the rest kept in order. */
  ghost predicate IsSubsequence<T>(a: seq<T>, b: seq<T>)
    decreases |b|
  {
    a == [] ||
    (b != [] &&
     ((a[0] == b[0] && IsSubsequence(a[1..], b[1..])) || IsSubsequence(a, b[1..])))
  }

  /** The records dated in [lo, hi), in their original order. */
  function RecordsBetween(records: seq<BeadCountRecord>, lo: int, hi: int): seq<BeadCountRecord>
    decreases |records|
  {
    if records == [] then []
    else if lo <= records[0].date < hi then [records[0]] + RecordsBetween(records[1..], lo, hi)
    else RecordsBetween(records[1..], lo, hi)
  }

  /**
   * The filter keeps exactly the records dated in [lo, hi): each kept record
   * is in the window, each record in the window is kept as often as it
   * occurs, and the order is that of the input.
   */
  lemma {:induction false} RecordsBetweenKeepsWindow(records: seq<BeadCountRecord>, lo: int, hi: int)
    ensures var kept := RecordsBetween(records, lo, hi);
      forall i :: 0 <= i < |kept| ==> lo <= kept[i].date < hi
    ensures var kept := RecordsBetween(records, lo, hi);
      forall r: BeadCountRecord :: lo <= r.date < hi ==> multiset(kept)[r] == multiset(records)[r]
    ensures IsSubsequence(RecordsBetween(records, lo, hi), records)
    decreases |records|
  {
    if records != [] {
      RecordsBetweenKeepsWindow(records[1..], lo, hi);
      var rest := RecordsBetween(records[1..], lo, hi);
      assert records == [records[0]] + records[1..];
      if lo <= records[0].date < hi {
        assert ([records[0]] + rest)[1..] == rest;
      }
    }
  }

  /** Filtering a concatenation filters each part. */
  lemma {:induction false} RecordsBetweenAppend(a: seq<BeadCountRecord>, b: seq<BeadCountRecord>, lo: int, hi: int)
    ensures RecordsBetween(a + b, lo, hi) == RecordsBetween(a, lo, hi) + RecordsBetween(b, lo, hi)
    decreases |a|
  {
    if a == [] {
      assert a + b == b;
    } else {
      assert (a + b)[1..] == a[1..] + b;
      RecordsBetweenAppend(a[1..], b, lo, hi);
    }
  }
}
