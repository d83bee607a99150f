/** The ledger as the CSV file `attendance.csv` that the handler really reads
    and writes: a header record followed by one record per row, read back
    with `csv.DictReader`, which takes the file's FIRST record as the field
    names. */
module CsvLedger {
  import opened Wrappers
  import opened Text
  import opened Clock
  import opened Ledger

  /** One decoded CSV record: its fields in order. */
  type Record = seq<string>

  datatype CsvFile = Absent | Present(records: seq<Record>)

  const Header: Record := ["First Name", "Last Name", "Student ID", "Timestamp", "QR Token"]

  function Encode(row: Row): Record {
    [row.firstName, row.lastName, row.studentId, row.timestamp, row.token]
  }

  function EncodeAll(rows: seq<Row>): (rs: seq<Record>)
    ensures |rs| == |rows| && forall i :: 0 <= i < |rows| ==> rs[i] == Encode(rows[i])
  {
    seq(|rows|, i requires 0 <= i < |rows| => Encode(rows[i]))
  }

  /** `ensure_csv`: a missing or empty file becomes the file of the empty
      ledger, the header alone; a non-empty file is left as it is. */
  function EnsureCsv(f: CsvFile): (r: CsvFile)
    ensures f.Absent? || f.records == [] ==> r == FileOf([])
    ensures f.Present? && f.records != [] ==> r == f
  {
    assert [Header] + EncodeAll([]) == [Header];
    if f.Absent? || f.records == [] then Present([Header]) else f
  }

  /** Opening in mode "a" creates a missing file, then writes one record. */
  function AppendRecord(f: CsvFile, rec: Record): CsvFile {
    Present((if f.Present? then f.records else []) + [rec])
  }

  /** The last position of `name` in the field names, which is the one
      `dict(zip(fieldnames, row))` keeps. */
  function LastIndexOf(names: Record, name: string): (r: Option<nat>)
    ensures r.Some? ==> r.value < |names| && names[r.value] == name
                        && forall k :: r.value < k < |names| ==> names[k] != name
    ensures r.None? ==> forall k :: 0 <= k < |names| ==> names[k] != name
    decreases |names|
  {
    if names == [] then None
    else if names[|names| - 1] == name then Some(|names| - 1)
    else LastIndexOf(names[..|names| - 1], name)
  }

  /** `row.get(name)` on a record read under the given field names: None when
      the name is not a field name or the record is too short to reach it. */
  function Lookup(names: Record, rec: Record, name: string): Option<string> {
    match LastIndexOf(names, name)
    case None => None
    case Some(k) => if k < |rec| then Some(rec[k]) else None
  }

  /** The loop body of `has_today_attendance` on one record read under the
      given field names: its "Student ID" is the id and its "Timestamp"
      starts with today's date. */
  predicate RecordMatches(names: Record, rec: Record, studentId: string, today: Date) {
    && Lookup(names, rec, "Student ID") == Some(studentId)
    && Lookup(names, rec, "Timestamp").Some?
    && StartsWith(Lookup(names, rec, "Timestamp").value, FormatDate(today))
  }

  /** `has_today_attendance` on the file itself: some record after the first
      matches under the field names the first record gives. */
  predicate FileHasToday(f: CsvFile, studentId: string, today: Date) {
    f.Present? && |f.records| > 0 &&
    exists i :: 1 <= i < |f.records| && RecordMatches(f.records[0], f.records[i], studentId, today)
  }

  /** `save_attendance` as written: it appends to whatever file there is, so
      into a missing file it writes a data record where the header belongs. */
  function SaveAsWritten(f: CsvFile, row: Row): CsvFile {
    AppendRecord(f, Encode(row))
  }

  /** `save_attendance` with the header guaranteed first, as when
      `ensure_csv` has run. */
  function SaveWithHeader(f: CsvFile, row: Row): CsvFile {
    AppendRecord(EnsureCsv(f), Encode(row))
  }

  /** The file the in-memory ledger stands for. */
  function FileOf(rows: seq<Row>): CsvFile {
    Present([Header] + EncodeAll(rows))
  }

  /** Under the real header, a record written for a row reads back that row's
      student id and timestamp. */
  lemma LookupUnderHeader(row: Row)
    ensures Lookup(Header, Encode(row), "Student ID") == Some(row.studentId)
    ensures Lookup(Header, Encode(row), "Timestamp") == Some(row.timestamp)
  {
    assert Header[..4] == ["First Name", "Last Name", "Student ID", "Timestamp"];
    assert Header[..3] == ["First Name", "Last Name", "Student ID"];
    assert LastIndexOf(Header, "Student ID") == Some(2);
    assert LastIndexOf(Header, "Timestamp") == Some(3);
  }

  /** Record `i + 1` of the file the ledger stands for is row `i`, read
      under the real header. */
  lemma FileOfRecord(rows: seq<Row>, i: int, studentId: string, today: Date)
    requires 0 <= i < |rows|
    ensures RecordMatches(FileOf(rows).records[0], FileOf(rows).records[i + 1], studentId, today)
            <==> rows[i].studentId == studentId && OnDay(rows[i], today)
  {
    var recs := FileOf(rows).records;
    assert recs[0] == Header && recs[i + 1] == Encode(rows[i]);
    LookupUnderHeader(rows[i]);
  }

  /** Under the real header, the file-level duplicate check is exactly the
      ledger's `HasToday`. */
  lemma FileOfHasToday(rows: seq<Row>, studentId: string, today: Date)
    ensures FileHasToday(FileOf(rows), studentId, today) <==> HasToday(rows, studentId, today)
  {
    var recs := FileOf(rows).records;
    assert |recs| == |rows| + 1;
    forall i | 1 <= i < |recs|
      ensures RecordMatches(recs[0], recs[i], studentId, today)
              <==> rows[i - 1].studentId == studentId && OnDay(rows[i - 1], today)
    {
      FileOfRecord(rows, i - 1, studentId, today);
    }
    if HasToday(rows, studentId, today) {
      var i :| 0 <= i < |rows| && rows[i].studentId == studentId && OnDay(rows[i], today);
      assert RecordMatches(recs[0], recs[i + 1], studentId, today);
    }
  }

  /** Appending a row's record to the file the ledger stands for gives the
      file of the ledger with that row at its end. */
  lemma AppendToLedgerFile(rows: seq<Row>, row: Row)
    ensures AppendRecord(FileOf(rows), Encode(row)) == FileOf(rows + [row])
  {
    assert EncodeAll(rows + [row]) == EncodeAll(rows) + [Encode(row)];
  }

  /** With the header ensured, saving keeps the file equal to the ledger's
      rows plus the new one, starting from a missing or empty file or from
      any file the ledger stands for. */
  lemma SaveWithHeaderAppends(f: CsvFile, rows: seq<Row>, row: Row)
    requires f == Absent || f == Present([]) || f == FileOf(rows)
    ensures SaveWithHeader(f, row) == FileOf(if f == FileOf(rows) then rows + [row] else [row])
  {
    if f == FileOf(rows) {
      AppendToLedgerFile(rows, row);
    } else {
      AppendToLedgerFile([], row);
      assert [] + [row] == [row];
    }
  }

  /** The defect: starting without a file, a student's first row becomes the
      header, so the same student's same-day row is not found and the
      duplicate check lets a second one through; whereas the ledger with a
      header finds it. */
  lemma HeaderlessFileMissesDuplicate(stamp: DateTime)
    ensures var row := Row("Ann", "Lee", "S1", FormatDateTime(stamp), "0a1b2c3d");
      && !FileHasToday(SaveAsWritten(Absent, row), "S1", stamp.date)
      && FileHasToday(SaveWithHeader(Absent, row), "S1", stamp.date)
  {
    var row := Row("Ann", "Lee", "S1", FormatDateTime(stamp), "0a1b2c3d");
    assert OnDay(row, stamp.date);
    assert [row][0] == row;
    assert HasToday([row], "S1", stamp.date);
    SaveWithHeaderAppends(Absent, [], row);
    FileOfHasToday([row], "S1", stamp.date);
  }

  /** And it stays broken: once a data record is the header, no later record
      has a "Student ID" field unless some name in that first record happens
      to be the string "Student ID". */
  lemma HeaderlessFileNeverFinds(first: Row, rest: seq<Row>, studentId: string, today: Date)
    requires "Student ID" !in Encode(first)
    ensures !FileHasToday(Present([Encode(first)] + EncodeAll(rest)), studentId, today)
  {
    assert LastIndexOf(Encode(first), "Student ID") == None;
  }
}
