/** The attendance ledger: the rows of `attendance.csv` below its header, in
    the order they were written. An absent file is an empty ledger. */
module Ledger {
  import opened Text
  import opened Clock

  /** One CSV row: First Name, Last Name, Student ID, Timestamp, QR Token. */
  datatype Row = Row(firstName: string, lastName: string, studentId: string, timestamp: string, token: string)

  /** A row's timestamp falls on day `d` in the sense of the duplicate check:
      it starts with `d` printed as "%Y-%m-%d". */
  predicate OnDay(row: Row, d: Date) {
    StartsWith(row.timestamp, FormatDate(d))
  }

  /** `has_today_attendance`: some row carries this student id and a
      timestamp on `today`. */
  predicate HasToday(rows: seq<Row>, studentId: string, today: Date) {
    exists i :: 0 <= i < |rows| && rows[i].studentId == studentId && OnDay(rows[i], today)
  }

  /** The ledger's invariant: no student has two rows on the same day. */
  ghost predicate NoSameDayDuplicates(rows: seq<Row>) {
    forall i, j, d: Date :: 0 <= i < j < |rows| && rows[i].studentId == rows[j].studentId
      ==> !(OnDay(rows[i], d) && OnDay(rows[j], d))
  }

  /** The row `save_attendance` writes for a submission stamped at `stamp`. */
  function NewRow(firstName: string, lastName: string, studentId: string, stamp: DateTime, token: string): (r: Row)
    ensures OnDay(r, stamp.date)
    ensures forall d: Date :: OnDay(r, d) ==> d == stamp.date
  {
    var r := Row(firstName, lastName, studentId, FormatDateTime(stamp), token);
    assert forall d: Date :: OnDay(r, d) ==> d == stamp.date by {
      forall d: Date ensures OnDay(r, d) ==> d == stamp.date {
        StampOnDay(stamp, d);
      }
    }
    r
  }

  /** Appending a row for a student who has none today keeps the invariant,
      because the new row's timestamp falls on today and on no other day. */
  lemma AppendKeepsNoDuplicates(rows: seq<Row>, firstName: string, lastName: string,
                                studentId: string, stamp: DateTime, token: string)
    requires NoSameDayDuplicates(rows)
    requires !HasToday(rows, studentId, stamp.date)
    ensures NoSameDayDuplicates(rows + [NewRow(firstName, lastName, studentId, stamp, token)])
  {
    var row := NewRow(firstName, lastName, studentId, stamp, token);
    var rows' := rows + [row];
    forall i, j, d: Date | 0 <= i < j < |rows'| && rows'[i].studentId == rows'[j].studentId
      ensures !(OnDay(rows'[i], d) && OnDay(rows'[j], d))
    {
      if j == |rows| && OnDay(rows'[i], d) {
        assert rows'[i] == rows[i];
        assert d != stamp.date;
      }
    }
  }

  class AttendanceLedger {
    var rows: seq<Row>

    constructor ()
      ensures rows == []
    {
      rows := [];
    }

    /** `save_attendance`: appends one row stamped with `stamp` formatted as
        "%Y-%m-%d %H:%M:%S"; every earlier row stays as it was. */
    method SaveAttendance(firstName: string, lastName: string, studentId: string, stamp: DateTime, token: string)
      modifies this
      ensures rows == old(rows) + [NewRow(firstName, lastName, studentId, stamp, token)]
    {
      rows := rows + [Row(firstName, lastName, studentId, FormatDateTime(stamp), token)];
    }

    /** `has_today_attendance`: scans the rows in order and stops at the first
        row of this student whose timestamp starts with today's date. */
    method HasTodayAttendance(studentId: string, today: Date) returns (found: bool)
      ensures found == HasToday(rows, studentId, today)
    {
      var todayStr := FormatDate(today);
      var i := 0;
      while i < |rows|
        invariant 0 <= i <= |rows|
        invariant forall k :: 0 <= k < i ==> !(rows[k].studentId == studentId && StartsWith(rows[k].timestamp, todayStr))
      {
        if rows[i].studentId == studentId {
          if StartsWith(rows[i].timestamp, todayStr) {
            return true;
          }
        }
        i := i + 1;
      }
      return false;
    }
  }
}
