/** The application context: the three in-memory lists, their queries, and loading
    them from the store with the availability flags reconciled against the bookings. */
module Repository {
  import opened Wrappers
  import opened Text
  import opened Model
  import opened CsvFormat
  import opened CsvStore
  import opened Reconcile

  /** The availability flags of a list of objectives, position by position. */
  function FlagsOf(objectives: seq<Objective>): (flags: seq<bool>)
    reads objectives
    ensures |flags| == |objectives|
    ensures forall i | 0 <= i < |objectives| :: flags[i] == objectives[i].available
  {
    seq(|objectives|, i reads objectives requires 0 <= i < |objectives| => objectives[i].available)
  }

  /** The flags of a list of snapshots. */
  function RowFlags(rows: seq<ObjectiveRow>): (flags: seq<bool>)
    ensures |flags| == |rows| && forall i | 0 <= i < |rows| :: flags[i] == rows[i].available
  {
    seq(|rows|, i requires 0 <= i < |rows| => rows[i].available)
  }

  /** The ids of a list of snapshots. */
  function RowIds(rows: seq<ObjectiveRow>): (ids: seq<int>)
    ensures |ids| == |rows| && forall i | 0 <= i < |rows| :: ids[i] == rows[i].id
  {
    seq(|rows|, i requires 0 <= i < |rows| => rows[i].id as int)
  }

  /** The snapshots with their flags replaced, position by position. */
  function WithFlags(rows: seq<ObjectiveRow>, flags: seq<bool>): (r: seq<ObjectiveRow>)
    requires |flags| == |rows|
    ensures |r| == |rows| && forall i | 0 <= i < |rows| :: r[i] == rows[i].(available := flags[i])
  {
    seq(|rows|, i requires 0 <= i < |rows| => rows[i].(available := flags[i]))
  }

  /** `anyMatch(u -> u.email().equalsIgnoreCase(e))`. */
  function AnyEmailMatches(users: seq<User>, e: string): (r: bool)
    ensures r <==> exists i | 0 <= i < |users| :: EqualsIgnoreCase(users[i].email, e)
  {
    if |users| == 0 then false
    else
      var init := users[..|users| - 1];
      assert forall i | 0 <= i < |init| :: init[i] == users[i];
      AnyEmailMatches(init, e) || EqualsIgnoreCase(users[|users| - 1].email, e)
  }

  /** `anyMatch(b -> b.userId() == userId && b.objectiveId() == objectiveId)`. */
  function AnyBookingFor(bookings: seq<Booking>, userId: int, objectiveId: int): (r: bool)
    ensures r <==> exists i | 0 <= i < |bookings| ::
      bookings[i].userId == userId && bookings[i].objectiveId == objectiveId
  {
    if |bookings| == 0 then false
    else
      var init := bookings[..|bookings| - 1];
      var last := bookings[|bookings| - 1];
      assert forall i | 0 <= i < |init| :: init[i] == bookings[i];
      AnyBookingFor(init, userId, objectiveId) || (last.userId == userId && last.objectiveId == objectiveId)
  }

  class AppContext {
    const storage: CsvStorage
    var users: seq<User>
    var objectives: seq<Objective>
    var bookings: seq<Booking>

    constructor (storage: CsvStorage)
      ensures this.storage == storage
      ensures users == [] && objectives == [] && bookings == []
    {
      this.storage := storage;
      users := [];
      objectives := [];
      bookings := [];
    }

    /** Each objective object sits at one position of the list, as loading creates them. */
    ghost predicate Valid()
      reads this`objectives
    {
      Distinct(objectives)
    }

    function Ids(): (ids: seq<int>)
      reads this`objectives
    {
      ObjectiveIds(objectives)
    }

    function Flags(): (flags: seq<bool>)
      reads this`objectives, objectives
      ensures |flags| == |objectives|
    {
      FlagsOf(objectives)
    }

    /** Every objective a booking resolves to is unavailable. */
    ghost predicate FlagsConsistent()
      reads this`objectives, this`bookings, objectives
    {
      Consistent(Ids(), Flags(), bookings)
    }

    /** No two bookings resolve to the same objective. */
    ghost predicate ReferencesUnique()
      reads this`objectives, this`bookings
    {
      UniqueReferences(Ids(), bookings)
    }

    /** `findUserById`: the first user with the id, or none. */
    function FindUserById(id: int): (r: Option<User>)
      reads this`users
      ensures r.None? <==> forall i | 0 <= i < |users| :: users[i].id != id
      ensures r.Some? ==> exists k | 0 <= k < |users| ::
        users[k] == r.value && r.value.id == id && forall j | 0 <= j < k :: users[j].id != id
    {
      var k := FirstIndex(UserIds(users), id);
      if k == -1 then None else Some(users[k])
    }

    /** `findObjectiveById`: the first objective with the id, or null. */
    function FindObjectiveById(id: int): (o: Objective?)
      reads this`objectives
      ensures o == null <==> forall i | 0 <= i < |objectives| :: objectives[i].id != id
      ensures o != null ==> exists k | 0 <= k < |objectives| ::
        objectives[k] == o && o.id == id && forall j | 0 <= j < k :: objectives[j].id != id
      ensures o == null <==> FirstIndex(Ids(), id) == -1
      ensures o != null ==> o == objectives[FirstIndex(Ids(), id)]
    {
      var k := FirstIndex(Ids(), id);
      if k == -1 then null else objectives[k]
    }

    /** `findBookingById`: the first booking with the id, or none. */
    function FindBookingById(id: int): (r: Option<Booking>)
      reads this`bookings
      ensures r.None? <==> forall i | 0 <= i < |bookings| :: bookings[i].id != id
      ensures r.Some? ==> exists k | 0 <= k < |bookings| ::
        bookings[k] == r.value && r.value.id == id && forall j | 0 <= j < k :: bookings[j].id != id
    {
      var k := FirstIndex(BookingIds(bookings), id);
      if k == -1 then None else Some(bookings[k])
    }

    /** `emailExists`: false for null; otherwise whether some stored email equals the
        trimmed argument ignoring case. The stored email is compared as it is. */
    function EmailExists(email: Option<string>): (r: bool)
      reads this`users
      ensures email.None? ==> !r
      ensures email.Some? ==>
        (r <==> exists i | 0 <= i < |users| :: EqualsIgnoreCase(users[i].email, Trim(email.value)))
    {
      match email
      case None => false
      case Some(e) => AnyEmailMatches(users, Trim(e))
    }

    /** `bookingExistsForUserAndObjective`. */
    function BookingExistsForUserAndObjective(userId: int, objectiveId: int): (r: bool)
      reads this`bookings
      ensures r <==> exists i | 0 <= i < |bookings| ::
        bookings[i].userId == userId && bookings[i].objectiveId == objectiveId
    {
      AnyBookingFor(bookings, userId, objectiveId)
    }

    /** `nextBookingId`: the largest booking id plus one, or 1 without bookings; above
        every booking id unless that largest id is `Integer.MAX_VALUE`. */
    function NextBookingId(): (r: Int32)
      reads this`bookings
      ensures |bookings| == 0 ==> r == 1
      ensures MaxId(BookingIds(bookings)) < INT_MAX ==> forall i | 0 <= i < |bookings| :: bookings[i].id < r
      ensures MaxId(BookingIds(bookings)) < INT_MAX ==> r == MaxId(BookingIds(bookings)) + 1
      ensures MaxId(BookingIds(bookings)) == INT_MAX ==> r == INT_MIN
    {
      NextIdFresh(BookingIds(bookings));
      NextId(BookingIds(bookings))
    }

    /** `nextUserId`: as `nextBookingId`, over the users. */
    function NextUserId(): (r: Int32)
      reads this`users
      ensures |users| == 0 ==> r == 1
      ensures MaxId(UserIds(users)) < INT_MAX ==> forall i | 0 <= i < |users| :: users[i].id < r
      ensures MaxId(UserIds(users)) < INT_MAX ==> r == MaxId(UserIds(users)) + 1
      ensures MaxId(UserIds(users)) == INT_MAX ==> r == INT_MIN
    {
      NextIdFresh(UserIds(users));
      NextId(UserIds(users))
    }

    /** `normalizeAvailabilityFromBookings`: every booking whose objective exists
        clears that objective's flag; the bookings whose objective is missing are
        returned in order, for the warnings. `changed` tells whether a flag moved. */
    method NormalizeAvailabilityFromBookings() returns (changed: bool, orphans: seq<Booking>)
      requires Valid()
      modifies objectives
      ensures Flags() == Normalized(Ids(), old(Flags()), bookings)
      ensures changed <==> Flags() != old(Flags())
      ensures orphans == Orphans(Ids(), bookings)
      ensures FlagsConsistent()
    {
      ghost var ids := Ids();
      ghost var start := Flags();
      changed := false;
      orphans := [];
      for i := 0 to |bookings|
        invariant Flags() == Normalized(ids, start, bookings[..i])
        invariant changed <==> Flags() != start
        invariant orphans == Orphans(ids, bookings[..i])
      {
        var b := bookings[i];
        NormalizedSnoc(ids, start, bookings, i);
        NormalizedChangedSnoc(ids, start, bookings, i);
        OrphansSnoc(ids, bookings, i);
        var o := FindObjectiveById(b.objectiveId);
        if o == null {
          orphans := orphans + [b];
        } else if o.available {
          SetFlag(o, FirstIndex(ids, b.objectiveId), false);
          changed := true;
        }
      }
      assert bookings[..|bookings|] == bookings;
      NormalizedEffect(ids, start, bookings);
    }

    /** `o.setAvailable(v)` for the objective at position k: only its flag moves. */
    method SetFlag(o: Objective, ghost k: int, v: bool)
      requires Valid() && 0 <= k < |objectives| && objectives[k] == o
      modifies o
      ensures Flags() == old(Flags())[k := v]
    {
      ghost var before := Flags();
      o.SetAvailable(v);
      forall j | 0 <= j < |objectives|
        ensures Flags()[j] == before[k := v][j]
      {
        if j != k { assert objectives[j] != o; }
      }
    }

    /** `saveUsers`. */
    method SaveUsers(succeeds: bool)
      modifies storage
      ensures succeeds ==> storage.usersFile == WrittenFile(USERS_HEADER, users, UserLine)
      ensures storage.objectivesFile == old(storage.objectivesFile)
      ensures storage.bookingsFile == old(storage.bookingsFile)
    {
      storage.WriteUsers(users, succeeds);
    }

    /** `saveObjectives`. */
    method SaveObjectives(succeeds: bool)
      modifies storage
      ensures succeeds ==> storage.objectivesFile == WrittenFile(OBJECTIVES_HEADER, RowsOf(objectives), ObjectiveLine)
      ensures storage.usersFile == old(storage.usersFile)
      ensures storage.bookingsFile == old(storage.bookingsFile)
    {
      storage.WriteObjectives(objectives, succeeds);
    }

    /** `saveBookings`. */
    method SaveBookings(succeeds: bool)
      modifies storage
      ensures succeeds ==> storage.bookingsFile == WrittenFile(BOOKINGS_HEADER, bookings, BookingLine)
      ensures storage.usersFile == old(storage.usersFile)
      ensures storage.objectivesFile == old(storage.objectivesFile)
    {
      storage.WriteBookings(bookings, succeeds);
    }

    /** The first half of `loadAll`: each list is replaced by what the store reads. */
    method ReadAll()
      modifies this, storage
      ensures storage.usersFile == EnsureFile(old(storage.usersFile), USERS_HEADER)
      ensures storage.objectivesFile == EnsureFile(old(storage.objectivesFile), OBJECTIVES_HEADER)
      ensures storage.bookingsFile == EnsureFile(old(storage.bookingsFile), BOOKINGS_HEADER)
      ensures users == Records(DataLines(storage.usersFile), ParseUserRow)
      ensures RowsOf(objectives) == Records(DataLines(storage.objectivesFile), ParseObjectiveRow)
      ensures bookings == Records(DataLines(storage.bookingsFile), ParseBookingRow)
      ensures Valid() && forall i | 0 <= i < |objectives| :: fresh(objectives[i])
    {
      ReadUsersStep();
      ReadObjectivesStep();
      ReadBookingsStep();
    }

    /** `users = storage.readUsers()`. */
    method ReadUsersStep()
      modifies this`users, storage
      ensures storage.usersFile == EnsureFile(old(storage.usersFile), USERS_HEADER)
      ensures storage.objectivesFile == old(storage.objectivesFile) && storage.bookingsFile == old(storage.bookingsFile)
      ensures users == Records(DataLines(storage.usersFile), ParseUserRow)
    {
      var warnings;
      users, warnings := storage.ReadUsers();
    }

    /** `objectives = storage.readObjectives()`: every objective is a new object. */
    method ReadObjectivesStep()
      modifies this`objectives, storage
      ensures storage.objectivesFile == EnsureFile(old(storage.objectivesFile), OBJECTIVES_HEADER)
      ensures storage.usersFile == old(storage.usersFile) && storage.bookingsFile == old(storage.bookingsFile)
      ensures RowsOf(objectives) == Records(DataLines(storage.objectivesFile), ParseObjectiveRow)
      ensures Valid() && forall i | 0 <= i < |objectives| :: fresh(objectives[i])
    {
      var warnings;
      objectives, warnings := storage.ReadObjectives();
    }

    /** `bookings = storage.readBookings()`: the objectives stay as they are. */
    method ReadBookingsStep()
      modifies this`bookings, storage
      ensures storage.bookingsFile == EnsureFile(old(storage.bookingsFile), BOOKINGS_HEADER)
      ensures storage.usersFile == old(storage.usersFile) && storage.objectivesFile == old(storage.objectivesFile)
      ensures bookings == Records(DataLines(storage.bookingsFile), ParseBookingRow)
      ensures RowsOf(objectives) == old(RowsOf(objectives))
    {
      var warnings;
      bookings, warnings := storage.ReadBookings();
    }

    /** The normalisation seen on the loaded snapshots: ids, titles, periods and coins
        stay, each flag becomes what `Normalized` makes of the loaded flags. */
    method NormalizeLoaded() returns (changed: bool, orphans: seq<Booking>)
      requires Valid()
      modifies objectives
      ensures var before := old(RowsOf(objectives));
              var flags := Normalized(RowIds(before), RowFlags(before), bookings);
              && RowsOf(objectives) == WithFlags(before, flags)
              && (changed <==> flags != RowFlags(before))
      ensures orphans == Orphans(Ids(), bookings)
      ensures FlagsConsistent()
    {
      ghost var before := RowsOf(objectives);
      assert Ids() == RowIds(before) && Flags() == RowFlags(before) by {
        assert forall i | 0 <= i < |objectives| :: objectives[i].Row() == before[i];
      }
      changed, orphans := NormalizeAvailabilityFromBookings();
      ghost var rows := RowsOf(objectives);
      assert rows == WithFlags(before, Flags()) by {
        assert forall i | 0 <= i < |before| :: rows[i] == before[i].(available := Flags()[i]);
      }
    }

    /** The second half of `loadAll`: normalise the flags against the bookings and save
        the objectives only if a flag moved. `ok` is false exactly when that save fails. */
    method NormalizeAndSave(saveSucceeds: bool) returns (ok: bool, changed: bool, orphans: seq<Booking>)
      requires Valid()
      modifies objectives, storage
      ensures var before := old(RowsOf(objectives));
              var flags := Normalized(RowIds(before), RowFlags(before), bookings);
              && RowsOf(objectives) == WithFlags(before, flags)
              && (changed <==> flags != RowFlags(before))
      ensures orphans == Orphans(Ids(), bookings)
      ensures FlagsConsistent()
      ensures ok <==> !changed || saveSucceeds
      ensures storage.usersFile == old(storage.usersFile)
      ensures storage.bookingsFile == old(storage.bookingsFile)
      ensures !changed ==> storage.objectivesFile == old(storage.objectivesFile)
      ensures changed && saveSucceeds ==>
        storage.objectivesFile == WrittenFile(OBJECTIVES_HEADER, RowsOf(objectives), ObjectiveLine)
    {
      changed, orphans := NormalizeLoaded();
      ok := SaveIfChanged(changed, saveSucceeds);
    }

    /** The objectives are written back only when the normalisation moved a flag;
        `ok` is false exactly when that write fails. */
    method SaveIfChanged(changed: bool, saveSucceeds: bool) returns (ok: bool)
      modifies storage
      ensures RowsOf(objectives) == old(RowsOf(objectives)) && Flags() == old(Flags())
      ensures ok <==> !changed || saveSucceeds
      ensures storage.usersFile == old(storage.usersFile)
      ensures storage.bookingsFile == old(storage.bookingsFile)
      ensures !changed ==> storage.objectivesFile == old(storage.objectivesFile)
      ensures changed && saveSucceeds ==>
        storage.objectivesFile == WrittenFile(OBJECTIVES_HEADER, RowsOf(objectives), ObjectiveLine)
    {
      ok := true;
      if changed {
        SaveObjectives(saveSucceeds);
        ok := saveSucceeds;
      }
    }

    /** `loadAll`: the lists become exactly what the store reads, except for the flags
        the normalisation clears; the objectives file is saved only when a flag moved.
        `ok` is false exactly when that save fails, where `loadAll` throws. */
    method LoadAll(saveSucceeds: bool) returns (ok: bool, changed: bool, orphans: seq<Booking>)
      modifies this, storage
      ensures storage.usersFile == EnsureFile(old(storage.usersFile), USERS_HEADER)
      ensures storage.bookingsFile == EnsureFile(old(storage.bookingsFile), BOOKINGS_HEADER)
      ensures users == Records(DataLines(storage.usersFile), ParseUserRow)
      ensures bookings == Records(DataLines(storage.bookingsFile), ParseBookingRow)
      ensures Valid() && forall i | 0 <= i < |objectives| :: fresh(objectives[i])
      ensures var loaded := Records(DataLines(EnsureFile(old(storage.objectivesFile), OBJECTIVES_HEADER)), ParseObjectiveRow);
              var flags := Normalized(RowIds(loaded), RowFlags(loaded), bookings);
              && RowsOf(objectives) == WithFlags(loaded, flags)
              && (changed <==> flags != RowFlags(loaded))
      ensures orphans == Orphans(Ids(), bookings)
      ensures FlagsConsistent()
      ensures ok <==> !changed || saveSucceeds
      ensures !changed ==> storage.objectivesFile == EnsureFile(old(storage.objectivesFile), OBJECTIVES_HEADER)
      ensures changed && saveSucceeds ==>
        storage.objectivesFile == WrittenFile(OBJECTIVES_HEADER, RowsOf(objectives), ObjectiveLine)
    {
      ReadAll();
      ok, changed, orphans := NormalizeAndSave(saveSucceeds);
    }
  }
}
