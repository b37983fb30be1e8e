/** The store itself: the contents of its three files. Every write takes a `succeeds`
    flag standing for whether the file system raised an IOException; after a failed
    write nothing is claimed about the file, which may have been truncated. */
module CsvStore {
  import opened Text
  import opened Model
  import opened CsvFormat

  class CsvStorage {
    var usersFile: FileState
    var objectivesFile: FileState
    var bookingsFile: FileState

    constructor (usersFile: FileState, objectivesFile: FileState, bookingsFile: FileState)
      ensures this.usersFile == usersFile && this.objectivesFile == objectivesFile && this.bookingsFile == bookingsFile
    {
      this.usersFile := usersFile;
      this.objectivesFile := objectivesFile;
      this.bookingsFile := bookingsFile;
    }

    /** `readUsers`: heal the file, then parse every line after the first. */
    method ReadUsers() returns (list: seq<User>, warnings: seq<Warning>)
      modifies this
      ensures usersFile == EnsureFile(old(usersFile), USERS_HEADER)
      ensures objectivesFile == old(objectivesFile) && bookingsFile == old(bookingsFile)
      ensures list == Records(DataLines(usersFile), ParseUserRow)
      ensures warnings == Warnings(DataLines(usersFile), ParseUserRow)
    {
      usersFile := EnsureFile(usersFile, USERS_HEADER);
      var lines := usersFile.lines;
      if |lines| == 0 || IsBlank(lines[0]) {
        usersFile := EnsureFile(usersFile, USERS_HEADER);
        return [], [];
      }
      list, warnings := ReadRecords(lines[1..], ParseUserRow);
    }

    /** `readObjectives`: as `readUsers`, each good row becoming a new Objective object. */
    method ReadObjectives() returns (list: seq<Objective>, warnings: seq<Warning>)
      modifies this
      ensures objectivesFile == EnsureFile(old(objectivesFile), OBJECTIVES_HEADER)
      ensures usersFile == old(usersFile) && bookingsFile == old(bookingsFile)
      ensures RowsOf(list) == Records(DataLines(objectivesFile), ParseObjectiveRow)
      ensures warnings == Warnings(DataLines(objectivesFile), ParseObjectiveRow)
      ensures Distinct(list) && forall i | 0 <= i < |list| :: fresh(list[i])
    {
      objectivesFile := EnsureFile(objectivesFile, OBJECTIVES_HEADER);
      var lines := objectivesFile.lines;
      if |lines| == 0 || IsBlank(lines[0]) {
        objectivesFile := EnsureFile(objectivesFile, OBJECTIVES_HEADER);
        return [], [];
      }
      var rows;
      rows, warnings := ReadRecords(lines[1..], ParseObjectiveRow);
      list := NewObjectives(rows);
    }

    /** `readBookings`: as `readUsers`. */
    method ReadBookings() returns (list: seq<Booking>, warnings: seq<Warning>)
      modifies this
      ensures bookingsFile == EnsureFile(old(bookingsFile), BOOKINGS_HEADER)
      ensures usersFile == old(usersFile) && objectivesFile == old(objectivesFile)
      ensures list == Records(DataLines(bookingsFile), ParseBookingRow)
      ensures warnings == Warnings(DataLines(bookingsFile), ParseBookingRow)
    {
      bookingsFile := EnsureFile(bookingsFile, BOOKINGS_HEADER);
      var lines := bookingsFile.lines;
      if |lines| == 0 || IsBlank(lines[0]) {
        bookingsFile := EnsureFile(bookingsFile, BOOKINGS_HEADER);
        return [], [];
      }
      list, warnings := ReadRecords(lines[1..], ParseBookingRow);
    }

    /** `writeUsers`: the header, then one line per user in list order, replacing the file. */
    method WriteUsers(users: seq<User>, succeeds: bool)
      modifies this
      ensures succeeds ==> usersFile == WrittenFile(USERS_HEADER, users, UserLine)
      ensures objectivesFile == old(objectivesFile) && bookingsFile == old(bookingsFile)
    {
      var out := FormatLines(USERS_HEADER, users, UserLine);
      if succeeds {
        usersFile := Present(out);
      }
    }

    /** `writeObjectives`: availability is written as exactly YES or NO. */
    method WriteObjectives(objectives: seq<Objective>, succeeds: bool)
      modifies this
      ensures succeeds ==> objectivesFile == WrittenFile(OBJECTIVES_HEADER, RowsOf(objectives), ObjectiveLine)
      ensures usersFile == old(usersFile) && bookingsFile == old(bookingsFile)
    {
      var rows := Snapshot(objectives);
      var out := FormatLines(OBJECTIVES_HEADER, rows, ObjectiveLine);
      if succeeds {
        objectivesFile := Present(out);
      }
    }

    /** `writeBookings`: dates in ISO form. */
    method WriteBookings(bookings: seq<Booking>, succeeds: bool)
      modifies this
      ensures succeeds ==> bookingsFile == WrittenFile(BOOKINGS_HEADER, bookings, BookingLine)
      ensures usersFile == old(usersFile) && objectivesFile == old(objectivesFile)
    {
      var out := FormatLines(BOOKINGS_HEADER, bookings, BookingLine);
      if succeeds {
        bookingsFile := Present(out);
      }
    }
  }

  /** The lines a write produces: the header, then one line per record in list order. */
  method FormatLines<T>(header: string, xs: seq<T>, format: T -> string) returns (out: seq<string>)
    ensures out == [header] + FormatAll(xs, format)
  {
    out := [header];
    for i := 0 to |xs|
      invariant out == [header] + FormatAll(xs[..i], format)
    {
      assert xs[..i + 1] == xs[..i] + [xs[i]];
      FormatAllSnoc(xs[..i], xs[i], format);
      out := out + [format(xs[i])];
    }
    assert xs[..|xs|] == xs;
  }

  /** The objects' current fields, in list order; the objects are only read. */
  method Snapshot(objectives: seq<Objective>) returns (rows: seq<ObjectiveRow>)
    ensures rows == RowsOf(objectives)
  {
    rows := [];
    for i := 0 to |objectives|
      invariant rows == RowsOf(objectives[..i])
    {
      assert objectives[..i + 1] == objectives[..i] + [objectives[i]];
      rows := rows + [objectives[i].Row()];
    }
    assert objectives[..|objectives|] == objectives;
  }

  /** One new Objective object per row, each holding that row's fields. */
  method NewObjectives(rows: seq<ObjectiveRow>) returns (list: seq<Objective>)
    ensures RowsOf(list) == rows
    ensures Distinct(list) && forall i | 0 <= i < |list| :: fresh(list[i])
  {
    list := [];
    for i := 0 to |rows|
      invariant |list| == i
      invariant forall j | 0 <= j < i :: fresh(list[j]) && list[j].Row() == rows[j]
      invariant Distinct(list)
    {
      var o := new Objective(rows[i].id, rows[i].title, rows[i].period, rows[i].coins, rows[i].available);
      list := list + [o];
    }
  }

  /** `exportAvailableObjectives`: the export file's lines are its own header and one line
      per available objective, in list order, without the availability column. The
      objectives are only read. */
  method ExportAvailableObjectives(objectives: seq<Objective>) returns (content: seq<string>)
    ensures content == [EXPORT_HEADER] + FormatAll(AvailableRows(RowsOf(objectives)), ExportLine)
  {
    var rows := Snapshot(objectives);
    content := ExportLines(EXPORT_HEADER, rows, ExportLine);
  }

  /** The export file's lines for the given snapshots: the header, then one line per
      available objective, in list order, each written by `format`. */
  method ExportLines(header: string, rows: seq<ObjectiveRow>, format: ObjectiveRow -> string) returns (content: seq<string>)
    ensures content == [header] + FormatAll(AvailableRows(rows), format)
  {
    var lines := [];
    for i := 0 to |rows|
      invariant lines == FormatAll(AvailableRows(rows[..i]), format)
    {
      AvailableStep(rows, i, format);
      if rows[i].available {
        lines := lines + [format(rows[i])];
      }
    }
    assert rows[..|rows|] == rows;
    content := [header] + lines;
  }
}
