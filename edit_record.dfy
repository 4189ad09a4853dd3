/**
 * The record editor: the name and count of a stored record can be changed;
 * its date, start time and duration are only shown.
 */
module EditRecord {
  import opened Wrappers
  import opened Records
  import opened IntText
  import opened Arith

  /** The count typed into the editor, if it is a whole number that is not negative. */
  function ValidatedCount(editedCount: string): (count: Option<int>)
    ensures count.Some? <==> ParseInt(editedCount).Some? && ParseInt(editedCount).value >= 0
    ensures count.Some? ==> count == ParseInt(editedCount)
  {
    match ParseInt(editedCount)
    case Some(c) => if c >= 0 then Some(c) else None
    case None => None
  }

  /** Saving without touching the count field writes back the count the record had. */
  lemma UneditedCountValidates(n: int)
    requires 0 <= n <= IntMax
    ensures ValidatedCount(ShowInt(n)) == Some(n)
  {
    ParseShowRoundTrip(n);
  }

  /** A negative count typed as its decimal text is refused. */
  lemma NegativeCountRefused(n: int)
    requires IntMin <= n < 0
    ensures ValidatedCount(ShowInt(n)).None?
  {
    ParseShowRoundTrip(n);
  }

  /** The editing screen: the record being edited and the two text fields. */
  class RecordEditor {
    var record: BeadCountRecord
    var editedName: string
    var editedCount: string

    /** The fields start out as the record's name and the decimal text of its count. */
    constructor (record: BeadCountRecord)
      ensures this.record == record
      ensures editedName == record.name && editedCount == ShowInt(record.count)
    {
      this.record := record;
      editedName := record.name;
      editedCount := ShowInt(record.count);
    }

    /**
     * Commits the edit when the count field holds a count that is not
     * negative; otherwise leaves the record as it was.
     */
    method SaveChanges()
      modifies this`record
      ensures ValidatedCount(editedCount).Some? ==>
        record == old(record).(name := editedName, count := ValidatedCount(editedCount).value)
      ensures ValidatedCount(editedCount).None? ==> record == old(record)
      ensures record.date == old(record.date)
      ensures record.startTime == old(record.startTime)
      ensures record.duration == old(record.duration)
      ensures (editedName == old(record.name) && editedCount == ShowInt(old(record.count)) &&
               0 <= old(record.count) <= IntMax) ==> record == old(record)
    {
      if 0 <= record.count <= IntMax {
        UneditedCountValidates(record.count);
      }
      var parsed := ParseInt(editedCount);
      if parsed.None? || parsed.value < 0 {
        return;
      }
      var count := parsed.value;
      record := record.(name := editedName);
      record := record.(count := count);
    }
  }

  /** A duration split into hours, minutes and seconds. */
  datatype DurationParts = DurationParts(hours: int, minutes: int, seconds: int)

  /** Integer division rounding toward zero, as the source's `/` does. */
  function Quot(a: int, b: int): int
    requires b > 0
  {
    if a >= 0 then a / b else -((-a) / b)
  }

  /** The remainder that goes with `Quot`: it has the sign of `a`. */
  function Rem(a: int, b: int): (r: int)
    requires b > 0
    ensures a == Quot(a, b) * b + r
    ensures a >= 0 ==> 0 <= r < b
    ensures a < 0 ==> -b < r <= 0
  {
    if a >= 0 then a % b else -((-a) % b)
  }

  /**
   * The hours, minutes and seconds shown for a duration of whole seconds.
   * They always add back up to the duration; for a duration that is not
   * negative the minutes and seconds lie in [0, 60).
   */
  function SplitDuration(duration: int): (parts: DurationParts)
    ensures parts.hours * 3600 + parts.minutes * 60 + parts.seconds == duration
    ensures -60 < parts.minutes < 60 && -60 < parts.seconds < 60
    ensures duration >= 0 ==> parts.hours >= 0 && 0 <= parts.minutes < 60 && 0 <= parts.seconds < 60
  {
    var hours := Quot(duration, 3600);
    var minutes := Quot(Rem(duration, 3600), 60);
    var seconds := Rem(duration, 60);
    RemOfRem(duration);
    DurationParts(hours, minutes, seconds)
  }

  lemma RemOfRem(d: int)
    ensures Rem(Rem(d, 3600), 60) == Rem(d, 60)
  {
    var h := Quot(d, 3600);
    var r := Rem(d, 3600);
    assert d == h * 3600 + r;
    assert d == (h * 60) * 60 + r;
    var m := Quot(r, 60);
    var s := Rem(r, 60);
    assert d == (h * 60 + m) * 60 + s;
    if d >= 0 {
      assert r >= 0 && s >= 0;
      ModUnique(d, h * 60 + m, s, 60);
    } else {
      assert r <= 0 && s <= 0;
      assert -d == (-(h * 60 + m)) * 60 + (-s);
      ModUnique(-d, -(h * 60 + m), -s, 60);
    }
  }
}
