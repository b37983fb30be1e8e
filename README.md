# MindTrack core in Dafny

MindTrack is a console application that keeps three lists in memory: users, objectives
(habits a user can book, each with a title, a period, a number of coins and an
availability flag) and bookings (a user, an objective and a date). Each list is saved
as a `;`-separated flat file with a fixed header line. This project models three parts
of it and proves properties about them:

- **The row codec** of `CsvStorage` (modules `Text`, `Dates`, `CsvFormat`, `CsvStore`).
  A file is a sequence of lines, or `Missing`. Reading heals a missing or zero-byte
  file to the header alone. It skips the header and blank lines, keeps the rows that
  parse and warns once about each row that does not. Writing emits the header and one
  canonical line per record. The export keeps the available objectives and drops the
  availability column. Writing and then reading gives the list back when no string
  field holds `;`, a line break or surrounding whitespace.
- **The repository** `AppContext` (modules `Reconcile`, `Repository`). It covers the
  lookups by id, the email check, and `max + 1` id generation with Java `int`
  wrap-around. It also covers loading, whose normalisation pass clears the flag of
  every objective a booking points to and saves only if a flag moved. Normalisation
  is characterised exactly. Every referenced objective ends up unavailable, no flag
  is ever set, unreferenced flags are kept, and a second pass changes nothing.
- **The workflow** of `MenuController` (module `Workflow`): `createBooking`,
  `cancelBooking` and `addUser`. Each validates, mutates the shared lists and the
  aliased `Objective` objects, saves, and rolls back in memory when a save fails.
  The contracts give the exact new state for every outcome. A committed booking
  keeps "referenced ⇒ unavailable" and keeps each objective booked at most once.
  A failed save restores the flags; for a cancellation, only when the flags were
  consistent with the bookings before. It also restores the lists, except in the cases
  the code cannot undo.

`Objective` is a class whose one mutable field is `available`. `AppContext`,
`MenuController` and `CsvStorage` are classes whose methods update their fields.
`User` and `Booking` are datatypes.

Outside effects become parameters:
- `LocalDate.now()` becomes `today`.
- Each save's success becomes a boolean; an `IOException` is the `false` case.
- The console readers' answers become method arguments, constrained by what the
  readers guarantee:
  - `readInt` gives a value between 1 and `Integer.MAX_VALUE`;
  - `readNonEmptyString` gives a trimmed, non-empty string;
  - `readEmail` gives an untrimmed string containing `@` and `.`;
  - `readDate` gives a valid date.

Two behaviours of the code are proved as they are:

- `Workflow.PaddedEmailEscapesDuplicateCheck`. `addUser` stores the email as typed,
  while `emailExists` trims only its argument. So a second user typed with the same
  padded email is not caught in the same session. It is caught after a reload, because
  reading trims every field.
- `Reconcile.CancelSharedObjectiveBreaksConsistency`. A file may hold two bookings on
  one objective, which normalisation allows. Cancelling one of them then makes the
  objective available although the other booking still holds it.
  `Reconcile.CancelKeepsConsistent` shows this cannot happen when references are unique.
  `createBooking` keeps references unique.

Source paths below are relative to the repository root;
`src/main/java/com/andreatreccani/mindtrack/` is written out in full.

## Model

| member | source | states |
|---|---|---|
| Text.WrapInt32 | src/main/java/com/andreatreccani/mindtrack/core/AppContext.java:100-106 | Java `int` addition: congruent to the exact sum modulo 2^32, equal to it inside the `int` range, and `MAX_VALUE + 1` becomes `MIN_VALUE` |
| Text.Trim | src/main/java/com/andreatreccani/mindtrack/io/CsvStorage.java:64-67 | `String.trim`: the result is a contiguous part of the input, everything cut off before and after it is at or below U+0020, and the result starts and ends with a character above U+0020 (or is empty) |
| Text.IsTrimOfUnique | src/main/java/com/andreatreccani/mindtrack/io/CsvStorage.java:64-67 | only one part of a string has that shape, so the property above determines the trimmed string |
| Text.TrimmedRuns | src/main/java/com/andreatreccani/mindtrack/io/CsvStorage.java:64-67 | read position by position: the cut runs hold only characters at or below U+0020, and a non-empty kept part begins and ends with one above it |
| Text.TrimIsInfix | src/main/java/com/andreatreccani/mindtrack/io/CsvStorage.java:64-67 | what `trim` keeps is one contiguous part of the input |
| Text.TrimIdempotent | src/main/java/com/andreatreccani/mindtrack/core/AppContext.java:93 | trimming twice is trimming once |
| Text.EqualsIgnoreCaseIffUpper | src/main/java/com/andreatreccani/mindtrack/core/AppContext.java:93 | two strings are equal ignoring case exactly when their upper-cased forms are equal |
| Text.Split | src/main/java/com/andreatreccani/mindtrack/io/CsvStorage.java:263 | `split(";", -1)`: at least one field, no field holds `;`, and joining the fields with `;` gives the line back (empty trailing fields kept) |
| Text.SplitJoin | src/main/java/com/andreatreccani/mindtrack/io/CsvStorage.java:263 | splitting fields joined with `;` gives the fields back when none holds `;` |
| Text.ParseInt | src/main/java/com/andreatreccani/mindtrack/io/CsvStorage.java:64 | `Integer.parseInt` succeeds only on ASCII decimal digits with an optional leading `+` or `-`; unsigned and `+` forms give their value when it is at most `Integer.MAX_VALUE`, the `-` form gives the negated value when it is at least `Integer.MIN_VALUE`, and out-of-range values fail |
| Text.NatToString | src/main/java/com/andreatreccani/mindtrack/io/CsvStorage.java:175 | the decimal digits of n, at least one, whose value is n, without a leading zero unless n is 0 |
| Text.ParseIntToString | src/main/java/com/andreatreccani/mindtrack/io/CsvStorage.java:175 | `parseInt(Integer.toString(n)) == n` for every `int` |
| Text.IntToStringIsField | src/main/java/com/andreatreccani/mindtrack/io/CsvStorage.java:175 | a written integer is non-blank, trimmed and free of `;` |
| Dates.DaysInMonth | src/main/java/com/andreatreccani/mindtrack/io/CsvStorage.java:149 | month lengths lie between 28 and 31, and 29 occurs exactly for February of a leap year |
| Dates.IsBeforeTrichotomy | src/main/java/com/andreatreccani/mindtrack/core/MenuController.java:97 | exactly one of before, equal, after holds, and no date is before itself |
| Dates.IsBeforeTransitive | src/main/java/com/andreatreccani/mindtrack/core/MenuController.java:97 | `isBefore` is transitive; with the row above it is a strict total order |
| Dates.FormatDate | src/main/java/com/andreatreccani/mindtrack/io/CsvStorage.java:201 | `LocalDate.toString` writes ten characters |
| Dates.ParseDate | src/main/java/com/andreatreccani/mindtrack/io/CsvStorage.java:149 | strict `LocalDate.parse` accepts only ten-character texts |
| Dates.ParseFormat | src/main/java/com/andreatreccani/mindtrack/io/CsvStorage.java:149 | parsing a written date gives the date back |
| Dates.FormatParse | src/main/java/com/andreatreccani/mindtrack/io/CsvStorage.java:149 | the only text accepted for a date is the one written for it |
| Dates.FormatDateIsField | src/main/java/com/andreatreccani/mindtrack/io/CsvStorage.java:201 | a written date is trimmed and free of `;` |
| Model.Objective.constructor | src/main/java/com/andreatreccani/mindtrack/model/Objective.java:11-17 | the five fields hold the five arguments unchanged |
| Model.Objective.SetAvailable | src/main/java/com/andreatreccani/mindtrack/model/Objective.java:25-27 | afterwards `isAvailable()` is v; it may write only `available`, and the other four fields are final |
| CsvFormat.EnsureFile | src/main/java/com/andreatreccani/mindtrack/io/CsvStorage.java:237-255 | a missing or zero-byte file becomes the header alone; any other file is left as it is, a blank first line included |
| CsvFormat.DataLines | src/main/java/com/andreatreccani/mindtrack/io/CsvStorage.java:44-55 | the first line is the header and is never parsed; a blank or absent first line yields no data lines |
| CsvFormat.SplitRow | src/main/java/com/andreatreccani/mindtrack/io/CsvStorage.java:262-266 | null exactly when the line has fewer than `expectedCols` fields; otherwise all fields, extra ones included, which join back to the line |
| CsvFormat.ParseAvailableMeaning | src/main/java/com/andreatreccani/mindtrack/io/CsvStorage.java:268-276 | available exactly when the trimmed token upper-cases to YES, SI or TRUE; every other token, the empty one included, gives false |
| CsvFormat.UpperCaseWord | src/main/java/com/andreatreccani/mindtrack/io/CsvStorage.java:272-274 | comparing ignoring case with an upper-case word is comparing the upper-cased token with it |
| CsvFormat.FieldOfLine | src/main/java/com/andreatreccani/mindtrack/io/CsvStorage.java:64-67 | a trimmed field of a line read from a file has no `;`, no line break and no surrounding whitespace |
| CsvFormat.ParseUserRow | src/main/java/com/andreatreccani/mindtrack/io/CsvStorage.java:57-72 | skipped for too few columns exactly when the line has fewer than 4 fields; otherwise the result is `UserFields` of the first four fields; a parsed user has the integer value of the first trimmed field as its id, and clean string fields |
| CsvFormat.UserFields | src/main/java/com/andreatreccani/mindtrack/io/CsvStorage.java:63-71 | parses exactly when the trimmed id is an integer, whose value becomes the id; the names and email are stored trimmed; otherwise the row is skipped naming the trimmed id token |
| CsvFormat.ParseObjectiveRow | src/main/java/com/andreatreccani/mindtrack/io/CsvStorage.java:96-112 | skipped for too few columns exactly when the line has fewer than 5 fields; otherwise the result is `ObjectiveFields` of the first five fields; the flag of a parsed row is `parseAvailable` of the fifth field |
| CsvFormat.ObjectiveFields | src/main/java/com/andreatreccani/mindtrack/io/CsvStorage.java:102-111 | parses exactly when the trimmed id and coins are integers, whose values become id and coins; title and period trimmed; the flag read permissively; otherwise skipped naming the first token that is not an integer |
| CsvFormat.ParseBookingRow | src/main/java/com/andreatreccani/mindtrack/io/CsvStorage.java:136-158 | skipped for too few columns exactly when the line has fewer than 4 fields; otherwise the result is `BookingFields` of the first four fields |
| CsvFormat.BookingFields | src/main/java/com/andreatreccani/mindtrack/io/CsvStorage.java:142-157 | parses exactly when the three trimmed numbers are integers and the trimmed date is a strict ISO date; the parsed values become id, user id, objective id and date; otherwise skipped naming the first failing token, as not an integer or as an invalid date |
| CsvFormat.Warnings | src/main/java/com/andreatreccani/mindtrack/io/CsvStorage.java:51-60 | each warning names a non-blank line that fails to parse, by its 1-based line number counting the header, with the failure's reason, in increasing order |
| CsvFormat.EveryRowAccounted | src/main/java/com/andreatreccani/mindtrack/io/CsvStorage.java:51-72 | every non-blank data line gives exactly one record or exactly one warning |
| CsvFormat.ReadRecords | src/main/java/com/andreatreccani/mindtrack/io/CsvStorage.java:51-73 | the read loop returns exactly the records and the warnings of the data lines |
| CsvFormat.FormatAllAt | src/main/java/com/andreatreccani/mindtrack/io/CsvStorage.java:174-177 | written line i is the line of record i |
| CsvFormat.AvailableRowsMembers | src/main/java/com/andreatreccani/mindtrack/io/CsvStorage.java:223-227 | the exported rows are available and come from the list, and every available row is exported |
| CsvFormat.AvailableStep | src/main/java/com/andreatreccani/mindtrack/io/CsvStorage.java:223-227 | one more objective adds its export line exactly when it is available |
| CsvFormat.RecordsOfFormatted | src/main/java/com/andreatreccani/mindtrack/io/CsvStorage.java:53-73 | lines that each parse back to their record read back as the records, with no warning |
| CsvFormat.IntFieldRoundTrip | src/main/java/com/andreatreccani/mindtrack/io/CsvStorage.java:64 | a written integer field is read back as the same integer |
| CsvFormat.YesNoRoundTrip | src/main/java/com/andreatreccani/mindtrack/io/CsvStorage.java:188 | YES reads back as available and NO as not available |
| CsvFormat.UserFieldsRoundTrip | src/main/java/com/andreatreccani/mindtrack/io/CsvStorage.java:63-69 | the written fields of a clean user parse back to it |
| CsvFormat.SplitUserLine | src/main/java/com/andreatreccani/mindtrack/io/CsvStorage.java:175 | a clean user's line is non-blank and splits into its four written fields |
| CsvFormat.UserLineRoundTrip | src/main/java/com/andreatreccani/mindtrack/io/CsvStorage.java:57-69 | a clean user's written line is non-blank and parses back to the user |
| CsvFormat.ObjectiveFieldsRoundTrip | src/main/java/com/andreatreccani/mindtrack/io/CsvStorage.java:102-109 | the written fields of a clean objective parse back to it |
| CsvFormat.SplitObjectiveLine | src/main/java/com/andreatreccani/mindtrack/io/CsvStorage.java:188 | a clean objective's line is non-blank and splits into its five written fields |
| CsvFormat.ObjectiveLineRoundTrip | src/main/java/com/andreatreccani/mindtrack/io/CsvStorage.java:96-109 | a clean objective's written line is non-blank and parses back to the same five fields |
| CsvFormat.BookingFieldsRoundTrip | src/main/java/com/andreatreccani/mindtrack/io/CsvStorage.java:142-155 | the written fields of any booking parse back to it |
| CsvFormat.SplitBookingLine | src/main/java/com/andreatreccani/mindtrack/io/CsvStorage.java:201 | a booking's line is non-blank and splits into its four written fields |
| CsvFormat.BookingLineRoundTrip | src/main/java/com/andreatreccani/mindtrack/io/CsvStorage.java:136-155 | any booking's written line is non-blank and parses back to the booking |
| CsvFormat.WrittenFile | src/main/java/com/andreatreccani/mindtrack/io/CsvStorage.java:169-179 | a written file holds the header first, then one line per record |
| CsvFormat.UsersRoundTrip | src/main/java/com/andreatreccani/mindtrack/io/CsvStorage.java:39-77 | reading a written users file gives the same list, with no warning, when every string field is clean |
| CsvFormat.ObjectivesRoundTrip | src/main/java/com/andreatreccani/mindtrack/io/CsvStorage.java:79-117 | reading a written objectives file gives the same rows, flags included, with no warning, when titles and periods are clean |
| CsvFormat.BookingsRoundTrip | src/main/java/com/andreatreccani/mindtrack/io/CsvStorage.java:119-163 | reading a written bookings file always gives the same list, with no warning |
| CsvFormat.ExportLineIsObjectiveLinePrefix | src/main/java/com/andreatreccani/mindtrack/io/CsvStorage.java:225 | an export line is the stored line of an available objective without its `;YES` column |
| CsvStore.CsvStorage.constructor | src/main/java/com/andreatreccani/mindtrack/io/CsvStorage.java:29-33 | the store starts with the three given files |
| CsvStore.CsvStorage.ReadUsers | src/main/java/com/andreatreccani/mindtrack/io/CsvStorage.java:39-77 | heals the users file, leaves the other files alone, and returns exactly the records and warnings of its data lines |
| CsvStore.CsvStorage.ReadObjectives | src/main/java/com/andreatreccani/mindtrack/io/CsvStorage.java:79-117 | as `ReadUsers`, returning new, distinct Objective objects whose fields are the parsed rows |
| CsvStore.CsvStorage.ReadBookings | src/main/java/com/andreatreccani/mindtrack/io/CsvStorage.java:119-163 | as `ReadUsers` for the bookings file |
| CsvStore.CsvStorage.WriteUsers | src/main/java/com/andreatreccani/mindtrack/io/CsvStorage.java:169-179 | on success the users file is the header plus one line per user in list order; the other files are untouched |
| CsvStore.CsvStorage.WriteObjectives | src/main/java/com/andreatreccani/mindtrack/io/CsvStorage.java:181-193 | on success the objectives file is the header plus one line per objective, flag as YES or NO; the other files are untouched |
| CsvStore.CsvStorage.WriteBookings | src/main/java/com/andreatreccani/mindtrack/io/CsvStorage.java:195-205 | on success the bookings file is the header plus one line per booking; the other files are untouched |
| CsvStore.FormatLines | src/main/java/com/andreatreccani/mindtrack/io/CsvStorage.java:172-177 | the write loop emits the header, then each record's line in list order |
| CsvStore.Snapshot | src/main/java/com/andreatreccani/mindtrack/io/CsvStorage.java:186-189 | the objects' current fields in list order, the objects only read |
| CsvStore.NewObjectives | src/main/java/com/andreatreccani/mindtrack/io/CsvStorage.java:109 | one new, distinct object per parsed row, holding that row's fields |
| CsvStore.ExportAvailableObjectives | src/main/java/com/andreatreccani/mindtrack/io/CsvStorage.java:211-231 | the export holds `id;title;period;coins` then a line per available objective in list order without the flag; the objectives are not modified |
| CsvStore.ExportLines | src/main/java/com/andreatreccani/mindtrack/io/CsvStorage.java:218-228 | the export loop emits the header, then exactly the available rows' lines, in order |
| Reconcile.FirstIndex | src/main/java/com/andreatreccani/mindtrack/core/AppContext.java:83-85 | `findFirst` on an id: -1 exactly when the id is absent, otherwise the position of its first occurrence |
| Reconcile.MaxId | src/main/java/com/andreatreccani/mindtrack/core/AppContext.java:101 | `max().orElse(0)`: 0 for no ids, otherwise an id at least as large as every id |
| Reconcile.NextIdFresh | src/main/java/com/andreatreccani/mindtrack/core/AppContext.java:100-106 | the next id is 1 for an empty list; while the maximum is below `Integer.MAX_VALUE` it is exactly the maximum plus one, so greater than, and distinct from, every id; at the maximum it wraps to `Integer.MIN_VALUE` |
| Reconcile.NormalizedMeaning | src/main/java/com/andreatreccani/mindtrack/core/AppContext.java:54-64 | after the pass, an objective is available exactly when it was and no booking resolves to it |
| Reconcile.NormalizedEffect | src/main/java/com/andreatreccani/mindtrack/core/AppContext.java:42 | the pass never sets a flag, keeps the flags of unreferenced objectives, and leaves every referenced objective unavailable |
| Reconcile.ConsistentIffFixpoint | src/main/java/com/andreatreccani/mindtrack/core/AppContext.java:43-48 | flags are consistent exactly when the pass changes nothing; a second pass over its result changes nothing |
| Reconcile.Orphans | src/main/java/com/andreatreccani/mindtrack/core/AppContext.java:55-59 | the warned-about bookings are exactly those whose objective id is missing |
| Reconcile.NormalizedSnoc | src/main/java/com/andreatreccani/mindtrack/core/AppContext.java:54-63 | one more booking clears the flag of the objective it resolves to, if any, and nothing else |
| Reconcile.NormalizedChangedSnoc | src/main/java/com/andreatreccani/mindtrack/core/AppContext.java:60-63 | the flags differ from the loaded ones after one more booking exactly when they already did or that booking clears a set flag |
| Reconcile.OrphansSnoc | src/main/java/com/andreatreccani/mindtrack/core/AppContext.java:55-59 | one more booking is one more warning exactly when its objective is missing |
| Reconcile.ConsistentSubset | src/main/java/com/andreatreccani/mindtrack/core/MenuController.java:110-114 | dropping bookings keeps consistent flags consistent |
| Reconcile.BookingKeepsConsistent | src/main/java/com/andreatreccani/mindtrack/core/MenuController.java:85-104 | booking an available objective and clearing its flag keeps the flags consistent, and keeps each objective booked at most once |
| Reconcile.Released | src/main/java/com/andreatreccani/mindtrack/core/MenuController.java:134 | only the flag of the booking's objective moves, to v, and nothing moves when that objective is missing |
| Reconcile.UniqueAfterCut | src/main/java/com/andreatreccani/mindtrack/core/MenuController.java:133 | removing one booking keeps references unique |
| Reconcile.ConsistentAfterCut | src/main/java/com/andreatreccani/mindtrack/core/MenuController.java:133-134 | with unique references, removing a booking and freeing its objective keeps the flags consistent |
| Reconcile.CancelKeepsConsistent | src/main/java/com/andreatreccani/mindtrack/core/MenuController.java:131-134 | with unique references, a cancellation keeps the flags consistent and the references unique |
| Reconcile.CancelSharedObjectiveBreaksConsistency | src/main/java/com/andreatreccani/mindtrack/core/MenuController.java:131-134 | with two bookings on one objective, cancelling one frees the objective while the other still holds it |
| Reconcile.CancelRollbackRestores | src/main/java/com/andreatreccani/mindtrack/core/MenuController.java:140-144 | re-appending restores the bookings as a multiset; for consistent flags, clearing the flag again restores the flags exactly |
| Reconcile.ReleaseThenRetake | src/main/java/com/andreatreccani/mindtrack/core/MenuController.java:134-143 | for flags consistent with the bookings, freeing a booking's objective and clearing its flag again gives the flags back |
| Reconcile.RemoveBookingsWithId | src/main/java/com/andreatreccani/mindtrack/core/MenuController.java:112 | `removeIf` keeps exactly the bookings with another id, and is the identity when the id is absent |
| Reconcile.RemoveUsersWithId | src/main/java/com/andreatreccani/mindtrack/core/MenuController.java:165 | `removeIf` keeps exactly the users with another id, and is the identity when the id is absent |
| Reconcile.RemoveBookingsCount | src/main/java/com/andreatreccani/mindtrack/core/MenuController.java:112 | counted with multiplicity, every booking with another id is kept as often as it occurred and every booking with the id is dropped |
| Reconcile.RemoveUsersCount | src/main/java/com/andreatreccani/mindtrack/core/MenuController.java:165 | the same for users |
| Reconcile.RemoveBookingsConcat | src/main/java/com/andreatreccani/mindtrack/core/MenuController.java:112 | removing from a concatenation is removing from each part, parts kept in order; with the single-element case this fixes the surviving order |
| Reconcile.RemoveBookingsSnoc | src/main/java/com/andreatreccani/mindtrack/core/MenuController.java:112 | a booking appended at the end survives exactly when its id differs, after the survivors of the rest |
| Reconcile.RemoveBookingsSingle | src/main/java/com/andreatreccani/mindtrack/core/MenuController.java:112 | a single booking survives exactly when its id differs |
| Reconcile.RemoveUsersConcat | src/main/java/com/andreatreccani/mindtrack/core/MenuController.java:165 | the same as `RemoveBookingsConcat` for users |
| Reconcile.RemoveUsersSnoc | src/main/java/com/andreatreccani/mindtrack/core/MenuController.java:165 | the same as `RemoveBookingsSnoc` for users |
| Reconcile.RemoveUsersSingle | src/main/java/com/andreatreccani/mindtrack/core/MenuController.java:165 | a single user survives exactly when its id differs |
| Reconcile.RemoveAppendedBooking | src/main/java/com/andreatreccani/mindtrack/core/MenuController.java:103-112 | removing the id of a booking appended with a fresh id gives back the list before the append |
| Reconcile.RemoveAppendedIsSubset | src/main/java/com/andreatreccani/mindtrack/core/MenuController.java:112 | what survives the removal was in the list before the append |
| Reconcile.RemoveAppendedUser | src/main/java/com/andreatreccani/mindtrack/core/MenuController.java:158-165 | removing the id of a user appended with a fresh id gives back the list before the append |
| Reconcile.RemoveFirst | src/main/java/com/andreatreccani/mindtrack/core/MenuController.java:133 | `List.remove(b)` leaves the list alone when b is absent and removes one element otherwise |
| Reconcile.RemoveFirstAt | src/main/java/com/andreatreccani/mindtrack/core/MenuController.java:133 | it cuts out exactly the first position equal to b |
| Reconcile.RemoveFirstThenAppend | src/main/java/com/andreatreccani/mindtrack/core/MenuController.java:142 | removing and re-appending a booking keeps the same multiset of bookings |
| Repository.AnyEmailMatches | src/main/java/com/andreatreccani/mindtrack/core/AppContext.java:93 | `anyMatch` on emails: true exactly when some stored email equals the given one ignoring case |
| Repository.AnyBookingFor | src/main/java/com/andreatreccani/mindtrack/core/AppContext.java:97 | `anyMatch` on bookings: true exactly when some booking has that user and that objective |
| Repository.AppContext.constructor | src/main/java/com/andreatreccani/mindtrack/core/AppContext.java:17-24 | the context holds the store and three empty lists |
| Repository.AppContext.FindUserById | src/main/java/com/andreatreccani/mindtrack/core/AppContext.java:79-81 | none exactly when no user has the id, otherwise the first user with it |
| Repository.AppContext.FindObjectiveById | src/main/java/com/andreatreccani/mindtrack/core/AppContext.java:83-85 | null exactly when no objective has the id, otherwise the first object with it |
| Repository.AppContext.FindBookingById | src/main/java/com/andreatreccani/mindtrack/core/AppContext.java:87-89 | none exactly when no booking has the id, otherwise the first booking with it |
| Repository.AppContext.EmailExists | src/main/java/com/andreatreccani/mindtrack/core/AppContext.java:91-94 | false for null; otherwise true exactly when a stored email, untrimmed, equals the trimmed argument ignoring case |
| Repository.AppContext.BookingExistsForUserAndObjective | src/main/java/com/andreatreccani/mindtrack/core/AppContext.java:96-98 | true exactly when some booking has both ids |
| Repository.AppContext.NextBookingId | src/main/java/com/andreatreccani/mindtrack/core/AppContext.java:100-102 | 1 without bookings; the largest booking id plus one, so above every booking id, while that largest id is below `Integer.MAX_VALUE`; `Integer.MIN_VALUE` at it |
| Repository.AppContext.NextUserId | src/main/java/com/andreatreccani/mindtrack/core/AppContext.java:104-106 | the same over user ids |
| Repository.AppContext.NormalizeAvailabilityFromBookings | src/main/java/com/andreatreccani/mindtrack/core/AppContext.java:51-67 | the flags become the normalised loaded flags, so afterwards every booked objective is unavailable; `changed` is true exactly when a flag moved, and the bookings with a missing objective are reported in order |
| Repository.AppContext.SetFlag | src/main/java/com/andreatreccani/mindtrack/core/AppContext.java:61 | setting one objective's flag moves only that position of the flag list |
| Repository.AppContext.SaveUsers | src/main/java/com/andreatreccani/mindtrack/core/AppContext.java:69 | on success the users file is the written users list; the other files are untouched |
| Repository.AppContext.SaveObjectives | src/main/java/com/andreatreccani/mindtrack/core/AppContext.java:70 | on success the objectives file is the written objectives list; the other files are untouched |
| Repository.AppContext.SaveBookings | src/main/java/com/andreatreccani/mindtrack/core/AppContext.java:71 | on success the bookings file is the written bookings list; the other files are untouched |
| Repository.AppContext.ReadAll | src/main/java/com/andreatreccani/mindtrack/core/AppContext.java:33-40 | the files are healed and the three lists become exactly what the store reads, with new, distinct objective objects |
| Repository.AppContext.ReadUsersStep | src/main/java/com/andreatreccani/mindtrack/core/AppContext.java:38 | the users file is healed and the users become what it reads; the other files stay |
| Repository.AppContext.ReadObjectivesStep | src/main/java/com/andreatreccani/mindtrack/core/AppContext.java:39 | the objectives file is healed and the objectives become new, distinct objects holding what it reads; the other files stay |
| Repository.AppContext.ReadBookingsStep | src/main/java/com/andreatreccani/mindtrack/core/AppContext.java:40 | the bookings file is healed and the bookings become what it reads; the objectives and the other files stay |
| Repository.AppContext.NormalizeLoaded | src/main/java/com/andreatreccani/mindtrack/core/AppContext.java:42-43 | the objectives keep every field but the flag, which becomes its normalised value; `changed` is true exactly when that differs from the loaded flags; afterwards the flags are consistent with the bookings |
| Repository.AppContext.NormalizeAndSave | src/main/java/com/andreatreccani/mindtrack/core/AppContext.java:42-48 | as `NormalizeLoaded`, ending with flags consistent with the bookings; the objectives file is written only when a flag moved, and the call fails exactly when that write fails |
| Repository.AppContext.SaveIfChanged | src/main/java/com/andreatreccani/mindtrack/core/AppContext.java:45-47 | the objectives file is written only when a flag moved, failure exactly when that write fails; the objectives and the other files stay |
| Repository.AppContext.LoadAll | src/main/java/com/andreatreccani/mindtrack/core/AppContext.java:33-49 | users and bookings are exactly what the store reads; the objectives are what it reads, with the normalised flags, which are then consistent with the bookings; the objectives file is saved exactly when a flag moved; failure only from that save |
| Workflow.PaddedEmailEscapesDuplicateCheck | src/main/java/com/andreatreccani/mindtrack/core/MenuController.java:150-158 | a user stored with a padded email is not found by a second check of the same email, but is found once the email is trimmed, as a reload does |
| Workflow.MenuController.constructor | src/main/java/com/andreatreccani/mindtrack/core/MenuController.java:15-17 | the controller works on the given context |
| Workflow.MenuController.CreateBooking | src/main/java/com/andreatreccani/mindtrack/core/MenuController.java:64-115 | each rejection holds exactly when its check is the first to fail and changes nothing; a date equal to today passes; a commit appends the booking with the next id and clears the flag; a rollback restores the flags, and the bookings whenever the new id was fresh; consistent flags stay consistent and a commit keeps references unique |
| Workflow.MenuController.Screen | src/main/java/com/andreatreccani/mindtrack/core/MenuController.java:65-100 | the five checks in order, each reported exactly when it is the first to fail; on success the objective found is the first with the id and is available |
| Workflow.MenuController.Book | src/main/java/com/andreatreccani/mindtrack/core/MenuController.java:102-114 | commits exactly when both saves succeed, with both files written; otherwise the booking is removed by id and the flags are restored; consistent flags stay consistent, and a commit keeps references unique |
| Workflow.MenuController.Attach | src/main/java/com/andreatreccani/mindtrack/core/MenuController.java:103-104 | the booking is appended and only the chosen flag is cleared |
| Workflow.MenuController.Detach | src/main/java/com/andreatreccani/mindtrack/core/MenuController.java:112-113 | restores the flags from before the booking, and the bookings when the new id was fresh |
| Workflow.MenuController.Persist | src/main/java/com/andreatreccani/mindtrack/core/MenuController.java:106-108 | the objectives are saved only after the bookings were; succeeds exactly when both saves do, leaving both files written |
| Workflow.MenuController.CancelBooking | src/main/java/com/andreatreccani/mindtrack/core/MenuController.java:117-145 | no bookings or an unknown id changes nothing; otherwise the first equal booking is removed and its objective, if any, freed; a rollback re-appends it, restoring the multiset and, for consistent flags, the flags; with unique references a commit keeps the flags consistent |
| Workflow.MenuController.Unbook | src/main/java/com/andreatreccani/mindtrack/core/MenuController.java:131-144 | the mutating half of the cancellation, with the same commit and rollback states |
| Workflow.MenuController.Release | src/main/java/com/andreatreccani/mindtrack/core/MenuController.java:133-134 | removes the first equal booking and frees its objective, if it exists |
| Workflow.MenuController.Restore | src/main/java/com/andreatreccani/mindtrack/core/MenuController.java:142-143 | re-appends the booking and clears the objective's flag again, restoring the multiset and, for consistent flags, the flags |
| Workflow.MenuController.AddUser | src/main/java/com/andreatreccani/mindtrack/core/MenuController.java:147-167 | a matching email changes nothing; otherwise a user with the next id is appended and saved; a failed save removes that id, giving back the old list whenever the id was fresh |

## Left out

- Reading files: an `IOException` while reading, or the missing directory created by `ensureParentDir`, is not modelled. Reads always succeed, and writes succeed or fail as their flag says.
- Disk state after a failed write: nothing is claimed about a file whose write failed. That includes the objectives file when `saveBookings` succeeds and `saveObjectives` then fails. Only the in-memory rollback is stated.
- `ensureFile` inside the read methods also writes the header back; the model folds this into the healed file state. The second `ensureFile` call for a blank header changes nothing, because the file is not empty.
- `LocalDate` years outside 0000..9999, which `LocalDate.parse` accepts with a sign and more digits, are not modelled.
- Text.ParseInt: only ASCII digits are modelled. `Integer.parseInt` also accepts the other Unicode decimal digits, such as the fullwidth digits U+FF10..U+FF19, through `Character.digit`; a file holding them is read as not an integer here.
- `String.equalsIgnoreCase` is modelled with ASCII case mapping only; full Unicode case folding is not.
- The text of warnings and error messages, the console output, `run`, `printMenu`, `showObjectives` and `exportAvailable` are console work. The export's directory and its file name from `LocalDate.now()` are left out as well.
- Dafny has no null strings: `parseAvailable(null)` is never called by the code, and `emailExists(null)` is modelled with an `Option`.
- A string field that holds `;` or a line break is written as it is, and reading it back splits it differently. The round-trip lemmas require clean fields for that reason.
- `saveAll` is not called by the modelled operations and is not modelled.
- `App.java`, `ConsoleIO.java` and `User.java` are not part of this model. `User` is the four-field record its uses describe.
- Workflow.MenuController.CreateBooking: after a failed save, the bookings are equal to the old list only when the largest booking id is below `Integer.MAX_VALUE`. At that id the new id wraps to `Integer.MIN_VALUE`, and `removeIf` also drops any older booking carrying it.
- Workflow.MenuController.AddUser: the same limit applies to user ids.
- Workflow.MenuController.CancelBooking: a rollback restores the bookings as a multiset. The order is restored only when the cancelled booking was last, which is what re-appending does.
