/** The flat-file store: one `;`-separated file per record kind, each starting with a
    fixed header line. A file is modelled as the sequence of its lines (`Missing` when it
    does not exist; a zero-byte file has no lines). Reading skips malformed rows one at a
    time; writing replaces the whole file. */
module CsvFormat {
  import opened Wrappers
  import opened Text
  import opened Dates
  import opened Model

  const USERS_HEADER: string := "id;first_name;last_name;email"
  const OBJECTIVES_HEADER: string := "id;title;period;coins;available"
  const BOOKINGS_HEADER: string := "id;user_id;objective_id;date"
  const EXPORT_HEADER: string := "id;title;period;coins"

  datatype FileState = Missing | Present(lines: seq<string>)

  /** `ensureFile`: a missing file, or one of zero bytes, is (re)written as the header
      alone; any other file is left as it is, even one whose first line is blank. */
  function EnsureFile(f: FileState, header: string): (g: FileState)
    ensures g.Present? && |g.lines| >= 1
    ensures f.Present? && f.lines != [] ==> g == f
    ensures f.Missing? || f.lines == [] ==> g.lines == [header]
  {
    if f.Missing? || f.lines == [] then Present([header]) else f
  }

  /** The lines the read loop parses: everything after the first line, which is taken to
      be the header and never parsed; nothing at all when that first line is blank. */
  function DataLines(f: FileState): (data: seq<string>)
    ensures f.Present? && |f.lines| >= 1 && !IsBlank(f.lines[0]) ==> data == f.lines[1..]
    ensures f.Missing? || f.lines == [] || IsBlank(f.lines[0]) ==> data == []
  {
    if f.Missing? || f.lines == [] || IsBlank(f.lines[0]) then [] else f.lines[1..]
  }

  /** A text a line reader can hand back as one line. */
  predicate IsLine(s: string) { '\n' !in s && '\r' !in s }

  /** A string field that survives a write followed by a read unchanged. */
  predicate IsField(s: string) { SEP !in s && IsLine(s) && IsTrimmed(s) }

  // ---------------------------------------------------------------------------
  // Per-row parsing
  // ---------------------------------------------------------------------------

  /** `split(line, expectedCols)`: the `;`-fields of the line, or nothing when there are
      fewer than `expectedCols`; surplus fields are kept (and later ignored). */
  function SplitRow(line: string, expectedCols: nat): (r: Option<seq<string>>)
    ensures r.None? <==> |Split(line)| < expectedCols
    ensures r.Some? ==> |r.value| >= 1 && |r.value| >= expectedCols && Join(r.value) == line
    ensures r.Some? ==> forall i | 0 <= i < |r.value| :: SEP !in r.value[i]
  {
    var parts := Split(line);
    if |parts| < expectedCols then None else Some(parts)
  }

  /** `parseAvailable`: the legacy Italian SI is accepted beside YES and TRUE. */
  function ParseAvailable(raw: string): bool
  {
    var v := Trim(raw);
    if EqualsIgnoreCase(v, "YES") then true
    else if EqualsIgnoreCase(v, "SI") then true
    else if EqualsIgnoreCase(v, "TRUE") then true
    else false
  }

  /** A token means available exactly when, trimmed and upper-cased, it is YES, SI or
      TRUE; every other token (NO, FALSE, the empty token, anything else) means not available. */
  lemma ParseAvailableMeaning(raw: string)
    ensures var u := ToUpperAscii(Trim(raw)); ParseAvailable(raw) <==> u == "YES" || u == "SI" || u == "TRUE"
  {
    var v := Trim(raw);
    assert ParseAvailable(raw) <==> EqualsIgnoreCase(v, "YES") || EqualsIgnoreCase(v, "SI") || EqualsIgnoreCase(v, "TRUE");
    AcceptedWordsAreUpper();
    UpperCaseWord(v, "YES");
    UpperCaseWord(v, "SI");
    UpperCaseWord(v, "TRUE");
  }

  predicate IsUpperWord(w: string) {
    forall i | 0 <= i < |w| :: 'A' <= w[i] <= 'Z'
  }

  lemma AcceptedWordsAreUpper()
    ensures IsUpperWord("YES") && IsUpperWord("SI") && IsUpperWord("TRUE")
  {
  }

  /** Comparing ignoring case with an upper-case word is comparing the upper-cased token with it. */
  lemma UpperCaseWord(v: string, w: string)
    requires IsUpperWord(w)
    ensures EqualsIgnoreCase(v, w) <==> ToUpperAscii(v) == w
  {
    EqualsIgnoreCaseIffUpper(v, w);
    assert ToUpperAscii(w) == w;
  }

  /** Why a row was skipped. */
  datatype Reason = TooFewColumns(expected: nat) | NotAnInteger(token: string) | InvalidDate(token: string)

  datatype RowResult<T> = Parsed(value: T) | Skipped(reason: Reason)

  /** One skipped row: its 1-based line number, counting the header as line 1. */
  datatype Warning = Warning(row: int, reason: Reason)

  lemma {:induction false} SplitKeepsAbsent(s: string, c: char)
    requires c !in s
    ensures forall i | 0 <= i < |Split(s)| :: c !in Split(s)[i]
  {
    if |s| > 0 {
      SplitKeepsAbsent(s[1..], c);
      var rest := Split(s[1..]);
      assert s[0] != c;
      if s[0] != SEP {
        assert c !in [s[0]] + rest[0];
      }
    }
  }

  lemma TrimKeepsAbsent(s: string, c: char)
    requires c !in s
    ensures c !in Trim(s)
  {
    TrimIsInfix(s);
  }

  /** A field as the read loop stores it: trimmed; from a line, it holds no separator and no line break. */
  lemma FieldOfLine(line: string, parts: seq<string>, k: int)
    requires parts == Split(line) && 0 <= k < |parts|
    ensures IsLine(line) ==> IsField(Trim(parts[k]))
  {
    TrimKeepsAbsent(parts[k], SEP);
    if IsLine(line) {
      SplitKeepsAbsent(line, '\n');
      SplitKeepsAbsent(line, '\r');
      TrimKeepsAbsent(parts[k], '\n');
      TrimKeepsAbsent(parts[k], '\r');
    }
  }

  predicate UserFieldsOk(u: User) { IsField(u.firstName) && IsField(u.lastName) && IsField(u.email) }

  predicate ObjectiveFieldsOk(o: ObjectiveRow) { IsField(o.title) && IsField(o.period) }

  /** The body of the `readUsers` loop for one non-blank line. */
  function ParseUserRow(line: string): (r: RowResult<User>)
    ensures r == Skipped(TooFewColumns(4)) <==> |Split(line)| < 4
    ensures r.Parsed? && IsLine(line) ==> UserFieldsOk(r.value)
    ensures r.Parsed? ==> Some(r.value.id) == ParseInt(Trim(Split(line)[0]))
    ensures |Split(line)| >= 4 ==>
      var p := Split(line); r == UserFields(p[0], p[1], p[2], p[3])
  {
    match SplitRow(line, 4)
    case None => Skipped(TooFewColumns(4))
    case Some(p) =>
      FieldOfLine(line, p, 1);
      FieldOfLine(line, p, 2);
      FieldOfLine(line, p, 3);
      UserFields(p[0], p[1], p[2], p[3])
  }

  /** The typed fields of a users row: the id must be an integer; the names and the email are trimmed. */
  function UserFields(id: string, first: string, last: string, email: string): (r: RowResult<User>)
    ensures r.Skipped? ==> !r.reason.TooFewColumns?
    ensures r.Parsed? ==> r.value == User(r.value.id, Trim(first), Trim(last), Trim(email))
    ensures r.Parsed? <==> ParseInt(Trim(id)).Some?
    ensures r.Parsed? ==> Some(r.value.id) == ParseInt(Trim(id))
    ensures r.Skipped? ==> r.reason == NotAnInteger(Trim(id))
  {
    match ParseInt(Trim(id))
    case None => Skipped(NotAnInteger(Trim(id)))
    case Some(n) => Parsed(User(n, Trim(first), Trim(last), Trim(email)))
  }

  /** The body of the `readObjectives` loop for one non-blank line. */
  function ParseObjectiveRow(line: string): (r: RowResult<ObjectiveRow>)
    ensures r == Skipped(TooFewColumns(5)) <==> |Split(line)| < 5
    ensures r.Parsed? && IsLine(line) ==> ObjectiveFieldsOk(r.value)
    ensures r.Parsed? ==> r.value.available == ParseAvailable(Split(line)[4])
    ensures |Split(line)| >= 5 ==>
      var p := Split(line); r == ObjectiveFields(p[0], p[1], p[2], p[3], p[4])
  {
    match SplitRow(line, 5)
    case None => Skipped(TooFewColumns(5))
    case Some(p) =>
      FieldOfLine(line, p, 1);
      FieldOfLine(line, p, 2);
      ObjectiveFields(p[0], p[1], p[2], p[3], p[4])
  }

  /** The typed fields of an objectives row: id and coins must be integers; the flag is read permissively. */
  function ObjectiveFields(id: string, title: string, period: string, coins: string, available: string): (r: RowResult<ObjectiveRow>)
    ensures r.Skipped? ==> !r.reason.TooFewColumns?
    ensures r.Parsed? <==> ParseInt(Trim(id)).Some? && ParseInt(Trim(coins)).Some?
    ensures r.Parsed? ==> r.value.title == Trim(title) && r.value.period == Trim(period)
    ensures r.Parsed? ==> r.value.available == ParseAvailable(available)
    ensures r.Parsed? ==> Some(r.value.id) == ParseInt(Trim(id)) && Some(r.value.coins) == ParseInt(Trim(coins))
    ensures r.Skipped? ==> r.reason == NotAnInteger(if ParseInt(Trim(id)).None? then Trim(id) else Trim(coins))
  {
    match ParseInt(Trim(id))
    case None => Skipped(NotAnInteger(Trim(id)))
    case Some(n) =>
      match ParseInt(Trim(coins))
      case None => Skipped(NotAnInteger(Trim(coins)))
      case Some(c) =>
        TrimIdempotent(available);
        Parsed(ObjectiveRow(n, Trim(title), Trim(period), c, ParseAvailable(Trim(available))))
  }

  /** The body of the `readBookings` loop for one non-blank line. */
  function ParseBookingRow(line: string): (r: RowResult<Booking>)
    ensures r == Skipped(TooFewColumns(4)) <==> |Split(line)| < 4
    ensures |Split(line)| >= 4 ==>
      var p := Split(line); r == BookingFields(p[0], p[1], p[2], p[3])
  {
    match SplitRow(line, 4)
    case None => Skipped(TooFewColumns(4))
    case Some(p) => BookingFields(p[0], p[1], p[2], p[3])
  }

  /** The typed fields of a bookings row: three integers, then a strict ISO date. */
  function BookingFields(id: string, userId: string, objectiveId: string, date: string): (r: RowResult<Booking>)
    ensures r.Skipped? ==> !r.reason.TooFewColumns?
    ensures r.Parsed? ==> Some(r.value.date) == ParseDate(Trim(date))
    ensures r.Skipped? && r.reason.InvalidDate? ==> ParseDate(Trim(date)).None?
    ensures r.Parsed? <==> && ParseInt(Trim(id)).Some? && ParseInt(Trim(userId)).Some?
                           && ParseInt(Trim(objectiveId)).Some? && ParseDate(Trim(date)).Some?
    ensures r.Parsed? ==> && Some(r.value.id) == ParseInt(Trim(id)) && Some(r.value.userId) == ParseInt(Trim(userId))
                          && Some(r.value.objectiveId) == ParseInt(Trim(objectiveId))
    ensures r.Skipped? ==> r.reason == (if ParseInt(Trim(id)).None? then NotAnInteger(Trim(id))
                                        else if ParseInt(Trim(userId)).None? then NotAnInteger(Trim(userId))
                                        else if ParseInt(Trim(objectiveId)).None? then NotAnInteger(Trim(objectiveId))
                                        else InvalidDate(Trim(date)))
  {
    match ParseInt(Trim(id))
    case None => Skipped(NotAnInteger(Trim(id)))
    case Some(n) =>
      match ParseInt(Trim(userId))
      case None => Skipped(NotAnInteger(Trim(userId)))
      case Some(u) =>
        match ParseInt(Trim(objectiveId))
        case None => Skipped(NotAnInteger(Trim(objectiveId)))
        case Some(o) =>
          match ParseDate(Trim(date))
          case None => Skipped(InvalidDate(Trim(date)))
          case Some(d) => Parsed(Booking(n, u, o, d))
  }

  // ---------------------------------------------------------------------------
  // Whole-file parsing: the specification of the read loops
  // ---------------------------------------------------------------------------

  /** The records of the data lines that parse, in file order; blank lines and bad rows contribute nothing. */
  function Records<T>(data: seq<string>, parse: string -> RowResult<T>): seq<T>
  {
    if |data| == 0 then []
    else
      var line := data[|data| - 1];
      Records(data[..|data| - 1], parse)
        + (if !IsBlank(line) && parse(line).Parsed? then [parse(line).value] else [])
  }

  /** One warning per non-blank data line that does not parse, in file order. The data
      line at index i is line i + 2 of the file. */
  function Warnings<T>(data: seq<string>, parse: string -> RowResult<T>): (ws: seq<Warning>)
    ensures forall k | 0 <= k < |ws| :: 2 <= ws[k].row <= |data| + 1
    ensures forall k | 0 <= k < |ws| :: !IsBlank(data[ws[k].row - 2]) && parse(data[ws[k].row - 2]) == Skipped(ws[k].reason)
    ensures forall k, l | 0 <= k < l < |ws| :: ws[k].row < ws[l].row
  {
    if |data| == 0 then []
    else
      var line := data[|data| - 1];
      var prev := Warnings(data[..|data| - 1], parse);
      assert forall k | 0 <= k < |prev| :: data[..|data| - 1][prev[k].row - 2] == data[prev[k].row - 2];
      prev + (if !IsBlank(line) && parse(line).Skipped? then [Warning(|data| + 1, parse(line).reason)] else [])
  }

  function NonBlankCount(data: seq<string>): nat
  {
    if |data| == 0 then 0
    else NonBlankCount(data[..|data| - 1]) + (if IsBlank(data[|data| - 1]) then 0 else 1)
  }

  /** Every non-blank data line yields exactly one record or exactly one warning. */
  lemma {:induction false} EveryRowAccounted<T>(data: seq<string>, parse: string -> RowResult<T>)
    ensures |Records(data, parse)| + |Warnings(data, parse)| == NonBlankCount(data)
  {
    if |data| > 0 {
      EveryRowAccounted(data[..|data| - 1], parse);
    }
  }

  /** The read loop shared by the three `read*` methods: walk the data lines, counting
      line numbers from 2, skip blank lines silently, keep the rows that parse and warn
      once about each row that does not. */
  method ReadRecords<T>(data: seq<string>, parse: string -> RowResult<T>) returns (list: seq<T>, warnings: seq<Warning>)
    ensures list == Records(data, parse)
    ensures warnings == Warnings(data, parse)
  {
    list, warnings := [], [];
    var row := 1;
    var i := 0;
    while i < |data|
      invariant 0 <= i <= |data| && row == i + 1
      invariant list == Records(data[..i], parse)
      invariant warnings == Warnings(data[..i], parse)
    {
      var line := data[i];
      assert data[..i + 1][..i] == data[..i];
      row := row + 1;
      i := i + 1;
      if IsBlank(line) {
        continue;
      }
      match parse(line)
      case Parsed(v) =>
        list := list + [v];
      case Skipped(reason) =>
        warnings := warnings + [Warning(row, reason)];
    }
    assert data[..i] == data;
  }

  // ---------------------------------------------------------------------------
  // Line formats: the specification of the write loops
  // ---------------------------------------------------------------------------

  function YesNo(b: bool): string { if b then "YES" else "NO" }

  function UserLine(u: User): string
  {
    IntToString(u.id) + [SEP] + u.firstName + [SEP] + u.lastName + [SEP] + u.email
  }

  function ObjectiveLine(o: ObjectiveRow): string
  {
    IntToString(o.id) + [SEP] + o.title + [SEP] + o.period + [SEP] + IntToString(o.coins) + [SEP] + YesNo(o.available)
  }

  function BookingLine(b: Booking): string
  {
    IntToString(b.id) + [SEP] + IntToString(b.userId) + [SEP] + IntToString(b.objectiveId) + [SEP] + FormatDate(b.date)
  }

  /** An exported objective: the objective's line without the availability column. */
  function ExportLine(o: ObjectiveRow): string
  {
    IntToString(o.id) + [SEP] + o.title + [SEP] + o.period + [SEP] + IntToString(o.coins)
  }

  /** One line per record, in list order. */
  function FormatAll<T>(xs: seq<T>, format: T -> string): (lines: seq<string>)
    ensures |lines| == |xs|
  {
    if |xs| == 0 then []
    else FormatAll(xs[..|xs| - 1], format) + [format(xs[|xs| - 1])]
  }

  /** Line i is record i's line. */
  lemma {:induction false} FormatAllAt<T>(xs: seq<T>, format: T -> string)
    ensures forall i | 0 <= i < |xs| :: FormatAll(xs, format)[i] == format(xs[i])
  {
    if |xs| > 0 {
      var init := xs[..|xs| - 1];
      FormatAllAt(init, format);
      assert forall i | 0 <= i < |init| :: init[i] == xs[i];
    }
  }

  lemma FormatAllSnoc<T>(xs: seq<T>, x: T, format: T -> string)
    ensures FormatAll(xs + [x], format) == FormatAll(xs, format) + [format(x)]
  {
    assert (xs + [x])[..|xs|] == xs;
  }

  /** The objectives that an export lists: the available ones, in order. */
  function AvailableRows(rows: seq<ObjectiveRow>): (r: seq<ObjectiveRow>)
    ensures |r| <= |rows|
  {
    if |rows| == 0 then []
    else
      var last := rows[|rows| - 1];
      AvailableRows(rows[..|rows| - 1]) + (if last.available then [last] else [])
  }

  /** One more row adds its line exactly when the objective is available. */
  lemma AvailableStep(rows: seq<ObjectiveRow>, i: int, format: ObjectiveRow -> string)
    requires 0 <= i < |rows|
    ensures FormatAll(AvailableRows(rows[..i + 1]), format)
         == FormatAll(AvailableRows(rows[..i]), format) + (if rows[i].available then [format(rows[i])] else [])
  {
    assert rows[..i + 1] == rows[..i] + [rows[i]];
    AvailableRowsSnoc(rows[..i], rows[i]);
    var prev := AvailableRows(rows[..i]);
    if rows[i].available {
      FormatAllSnoc(prev, rows[i], format);
    } else {
      assert AvailableRows(rows[..i + 1]) == prev;
    }
  }

  /** The export lists every available objective and nothing else. */
  lemma {:induction false} AvailableRowsMembers(rows: seq<ObjectiveRow>)
    ensures forall i | 0 <= i < |AvailableRows(rows)| ::
      AvailableRows(rows)[i].available && AvailableRows(rows)[i] in rows
    ensures forall i | 0 <= i < |rows| && rows[i].available :: rows[i] in AvailableRows(rows)
  {
    if |rows| > 0 {
      var init := rows[..|rows| - 1];
      AvailableRowsMembers(init);
      assert forall i | 0 <= i < |init| :: init[i] == rows[i];
      assert rows == init + [rows[|rows| - 1]];
    }
  }

  lemma AvailableRowsSnoc(rows: seq<ObjectiveRow>, r: ObjectiveRow)
    ensures AvailableRows(rows + [r]) == AvailableRows(rows) + (if r.available then [r] else [])
  {
    assert (rows + [r])[..|rows|] == rows;
  }

  // ---------------------------------------------------------------------------
  // Round trips
  // ---------------------------------------------------------------------------

  lemma {:induction false} JoinNotBlank(fields: seq<string>)
    requires |fields| >= 2
    ensures !IsBlank(Join(fields))
  {
    assert Join(fields)[|fields[0]|] == SEP;
  }

  lemma JoinFour(a: string, b: string, c: string, d: string)
    ensures Join([a, b, c, d]) == a + [SEP] + b + [SEP] + c + [SEP] + d
  {
    var s := [SEP];
    assert [a, b, c, d][1..] == [b, c, d];
    assert [b, c, d][1..] == [c, d];
    assert [c, d][1..] == [d];
    assert Join([c, d]) == c + s + d;
    assert Join([b, c, d]) == b + s + (c + s + d);
    assert Join([a, b, c, d]) == a + s + (b + s + (c + s + d));
    assert a + s + (b + s + (c + s + d)) == a + s + b + s + c + s + d;
  }

  lemma JoinFive(a: string, b: string, c: string, d: string, e: string)
    ensures Join([a, b, c, d, e]) == a + [SEP] + b + [SEP] + c + [SEP] + d + [SEP] + e
  {
    var s := [SEP];
    assert [a, b, c, d, e][1..] == [b, c, d, e];
    JoinFour(b, c, d, e);
    assert Join([a, b, c, d, e]) == a + s + (b + s + c + s + d + s + e);
    assert a + s + (b + s + c + s + d + s + e) == a + s + b + s + c + s + d + s + e;
  }

  lemma {:induction false} JoinSnoc(fields: seq<string>, x: string)
    requires |fields| >= 1
    ensures Join(fields + [x]) == Join(fields) + [SEP] + x
  {
    if |fields| == 1 {
    } else {
      assert (fields + [x])[1..] == fields[1..] + [x];
      JoinSnoc(fields[1..], x);
    }
  }

  /** If every record's line is non-blank and parses back to the record, reading the
      lines gives the records back, with no warning. */
  lemma {:induction false} RecordsOfFormatted<T>(xs: seq<T>, format: T -> string, parse: string -> RowResult<T>)
    requires forall i | 0 <= i < |xs| :: !IsBlank(format(xs[i])) && parse(format(xs[i])) == Parsed(xs[i])
    ensures Records(FormatAll(xs, format), parse) == xs
    ensures Warnings(FormatAll(xs, format), parse) == []
  {
    if |xs| > 0 {
      var init := xs[..|xs| - 1];
      assert FormatAll(xs, format)[..|xs| - 1] == FormatAll(init, format);
      RecordsOfFormatted(init, format, parse);
      assert xs == init + [xs[|xs| - 1]];
    }
  }

  lemma IntFieldRoundTrip(n: Int32)
    ensures ParseInt(Trim(IntToString(n))) == Some(n)
  {
    IntToStringIsField(n);
    TrimOfTrimmed(IntToString(n));
    ParseIntToString(n);
  }

  lemma YesNoRoundTrip(b: bool)
    ensures ParseAvailable(Trim(YesNo(b))) == b
  {
    if b {
      TrimOfTrimmed("YES");
      assert EqualsIgnoreCase("YES", "YES");
    } else {
      TrimOfTrimmed("NO");
      assert !EqualsIgnoreCase("NO", "YES") && !EqualsIgnoreCase("NO", "TRUE");
      assert UpperAscii("NO"[0]) != UpperAscii("SI"[0]);
    }
  }

  lemma UserFieldsRoundTrip(u: User)
    requires UserFieldsOk(u)
    ensures UserFields(IntToString(u.id), u.firstName, u.lastName, u.email) == Parsed(u)
  {
    IntFieldRoundTrip(u.id);
    TrimOfTrimmed(u.firstName);
    TrimOfTrimmed(u.lastName);
    TrimOfTrimmed(u.email);
  }

  lemma SplitUserLine(u: User)
    requires UserFieldsOk(u)
    ensures !IsBlank(UserLine(u)) && SplitRow(UserLine(u), 4) == Some([IntToString(u.id), u.firstName, u.lastName, u.email])
  {
    var fields := [IntToString(u.id), u.firstName, u.lastName, u.email];
    IntToStringIsField(u.id);
    JoinFour(IntToString(u.id), u.firstName, u.lastName, u.email);
    SplitJoin(fields);
    JoinNotBlank(fields);
  }

  /** A user's line is not blank and parses back to the user. */
  lemma UserLineRoundTrip(u: User)
    requires UserFieldsOk(u)
    ensures !IsBlank(UserLine(u)) && ParseUserRow(UserLine(u)) == Parsed(u)
  {
    var p := [IntToString(u.id), u.firstName, u.lastName, u.email];
    SplitUserLine(u);
    assert ParseUserRow(UserLine(u)) == UserFields(p[0], p[1], p[2], p[3]);
    UserFieldsRoundTrip(u);
  }

  lemma ObjectiveFieldsRoundTrip(o: ObjectiveRow)
    requires ObjectiveFieldsOk(o)
    ensures ObjectiveFields(IntToString(o.id), o.title, o.period, IntToString(o.coins), YesNo(o.available)) == Parsed(o)
  {
    IntFieldRoundTrip(o.id);
    IntFieldRoundTrip(o.coins);
    YesNoRoundTrip(o.available);
    TrimOfTrimmed(o.title);
    TrimOfTrimmed(o.period);
  }

  lemma SplitObjectiveLine(o: ObjectiveRow)
    requires ObjectiveFieldsOk(o)
    ensures !IsBlank(ObjectiveLine(o))
    ensures SplitRow(ObjectiveLine(o), 5) == Some([IntToString(o.id), o.title, o.period, IntToString(o.coins), YesNo(o.available)])
  {
    var fields := [IntToString(o.id), o.title, o.period, IntToString(o.coins), YesNo(o.available)];
    IntToStringIsField(o.id);
    IntToStringIsField(o.coins);
    assert SEP !in YesNo(o.available);
    JoinFive(IntToString(o.id), o.title, o.period, IntToString(o.coins), YesNo(o.available));
    SplitJoin(fields);
    JoinNotBlank(fields);
  }

  /** An objective's line is not blank and parses back to the same five fields. */
  lemma ObjectiveLineRoundTrip(o: ObjectiveRow)
    requires ObjectiveFieldsOk(o)
    ensures !IsBlank(ObjectiveLine(o)) && ParseObjectiveRow(ObjectiveLine(o)) == Parsed(o)
  {
    var p := [IntToString(o.id), o.title, o.period, IntToString(o.coins), YesNo(o.available)];
    SplitObjectiveLine(o);
    assert ParseObjectiveRow(ObjectiveLine(o)) == ObjectiveFields(p[0], p[1], p[2], p[3], p[4]);
    ObjectiveFieldsRoundTrip(o);
  }

  lemma BookingFieldsRoundTrip(b: Booking)
    ensures BookingFields(IntToString(b.id), IntToString(b.userId), IntToString(b.objectiveId), FormatDate(b.date)) == Parsed(b)
  {
    IntFieldRoundTrip(b.id);
    IntFieldRoundTrip(b.userId);
    IntFieldRoundTrip(b.objectiveId);
    FormatDateIsField(b.date);
    TrimOfTrimmed(FormatDate(b.date));
    ParseFormat(b.date);
  }

  lemma SplitBookingLine(b: Booking)
    ensures !IsBlank(BookingLine(b))
    ensures SplitRow(BookingLine(b), 4) == Some([IntToString(b.id), IntToString(b.userId), IntToString(b.objectiveId), FormatDate(b.date)])
  {
    var fields := [IntToString(b.id), IntToString(b.userId), IntToString(b.objectiveId), FormatDate(b.date)];
    IntToStringIsField(b.id);
    IntToStringIsField(b.userId);
    IntToStringIsField(b.objectiveId);
    FormatDateIsField(b.date);
    JoinFour(IntToString(b.id), IntToString(b.userId), IntToString(b.objectiveId), FormatDate(b.date));
    SplitJoin(fields);
    JoinNotBlank(fields);
  }

  /** A booking's line is not blank and parses back to the booking. */
  lemma BookingLineRoundTrip(b: Booking)
    ensures !IsBlank(BookingLine(b)) && ParseBookingRow(BookingLine(b)) == Parsed(b)
  {
    var p := [IntToString(b.id), IntToString(b.userId), IntToString(b.objectiveId), FormatDate(b.date)];
    SplitBookingLine(b);
    assert ParseBookingRow(BookingLine(b)) == BookingFields(p[0], p[1], p[2], p[3]);
    BookingFieldsRoundTrip(b);
  }

  /** The lines of a written file: the header, then one line per record. */
  function WrittenFile<T>(header: string, xs: seq<T>, format: T -> string): (f: FileState)
    ensures f.Present? && |f.lines| == |xs| + 1 && f.lines[0] == header
  {
    Present([header] + FormatAll(xs, format))
  }

  /** Reading back a users file that was written gives the same list, provided no string
      field holds `;` or a line break or has surrounding whitespace. */
  lemma UsersRoundTrip(us: seq<User>)
    requires forall i | 0 <= i < |us| :: UserFieldsOk(us[i])
    ensures Records(DataLines(EnsureFile(WrittenFile(USERS_HEADER, us, UserLine), USERS_HEADER)), ParseUserRow) == us
    ensures Warnings(DataLines(EnsureFile(WrittenFile(USERS_HEADER, us, UserLine), USERS_HEADER)), ParseUserRow) == []
  {
    var f := WrittenFile(USERS_HEADER, us, UserLine);
    assert USERS_HEADER[0] == 'i' && !IsBlank(USERS_HEADER);
    assert DataLines(EnsureFile(f, USERS_HEADER)) == FormatAll(us, UserLine);
    forall i | 0 <= i < |us| ensures !IsBlank(UserLine(us[i])) && ParseUserRow(UserLine(us[i])) == Parsed(us[i]) {
      UserLineRoundTrip(us[i]);
    }
    RecordsOfFormatted(us, UserLine, ParseUserRow);
  }

  /** Reading back an objectives file that was written gives the same rows (flags
      included, since YES and NO are written), under the same condition on titles and periods. */
  lemma ObjectivesRoundTrip(os: seq<ObjectiveRow>)
    requires forall i | 0 <= i < |os| :: ObjectiveFieldsOk(os[i])
    ensures Records(DataLines(EnsureFile(WrittenFile(OBJECTIVES_HEADER, os, ObjectiveLine), OBJECTIVES_HEADER)), ParseObjectiveRow) == os
    ensures Warnings(DataLines(EnsureFile(WrittenFile(OBJECTIVES_HEADER, os, ObjectiveLine), OBJECTIVES_HEADER)), ParseObjectiveRow) == []
  {
    var f := WrittenFile(OBJECTIVES_HEADER, os, ObjectiveLine);
    assert OBJECTIVES_HEADER[0] == 'i' && !IsBlank(OBJECTIVES_HEADER);
    assert DataLines(EnsureFile(f, OBJECTIVES_HEADER)) == FormatAll(os, ObjectiveLine);
    forall i | 0 <= i < |os| ensures !IsBlank(ObjectiveLine(os[i])) && ParseObjectiveRow(ObjectiveLine(os[i])) == Parsed(os[i]) {
      ObjectiveLineRoundTrip(os[i]);
    }
    RecordsOfFormatted(os, ObjectiveLine, ParseObjectiveRow);
  }

  /** Reading back a bookings file that was written always gives the same list: every
      field of a booking is a number or a date. */
  lemma BookingsRoundTrip(bs: seq<Booking>)
    ensures Records(DataLines(EnsureFile(WrittenFile(BOOKINGS_HEADER, bs, BookingLine), BOOKINGS_HEADER)), ParseBookingRow) == bs
    ensures Warnings(DataLines(EnsureFile(WrittenFile(BOOKINGS_HEADER, bs, BookingLine), BOOKINGS_HEADER)), ParseBookingRow) == []
  {
    var f := WrittenFile(BOOKINGS_HEADER, bs, BookingLine);
    assert BOOKINGS_HEADER[0] == 'i' && !IsBlank(BOOKINGS_HEADER);
    assert DataLines(EnsureFile(f, BOOKINGS_HEADER)) == FormatAll(bs, BookingLine);
    forall i | 0 <= i < |bs| ensures !IsBlank(BookingLine(bs[i])) && ParseBookingRow(BookingLine(bs[i])) == Parsed(bs[i]) {
      BookingLineRoundTrip(bs[i]);
    }
    RecordsOfFormatted(bs, BookingLine, ParseBookingRow);
  }

  /** An export line is the objective's stored line with its `;YES` column cut off. */
  lemma ExportLineIsObjectiveLinePrefix(o: ObjectiveRow)
    requires o.available
    ensures ObjectiveLine(o) == ExportLine(o) + ";YES"
  {
  }
}
