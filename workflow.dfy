/** The three menu operations that change data. Each validates its inputs against the
    repository, changes the lists and the objective flags, saves, and undoes its change
    in memory when a save fails. The console answers arrive as parameters, within the
    ranges the console readers guarantee; whether each save succeeds is a parameter too,
    and so is today's date. */
module Workflow {
  import opened Wrappers
  import opened Text
  import opened Dates
  import opened Model
  import opened CsvFormat
  import opened Reconcile
  import opened Repository

  /** Why `createBooking` returns without booking. */
  datatype Rejection = NoObjectiveAvailable | UserNotFound | ObjectiveNotAvailable | DuplicateBooking | DateInPast

  datatype BookingOutcome = Rejected(reason: Rejection) | Created(id: Int32) | RolledBack(id: Int32)

  datatype CancelOutcome = NoBookings | BookingNotFound | Cancelled(booking: Booking) | CancelRolledBack(booking: Booking)

  datatype AddOutcome = EmailTaken | Added(id: Int32) | AddRolledBack(id: Int32)

  /** The objective with this id exists and the first one with it is available. */
  predicate Bookable(ids: seq<int>, flags: seq<bool>, objectiveId: int)
    requires |flags| == |ids|
  {
    var k := FirstIndex(ids, objectiveId);
    k != -1 && flags[k]
  }

  /** `addUser` stores the email as typed, spaces included, while `emailExists` trims
      its argument and not the stored emails. So in the same session a second user with
      the same padded email is not caught; once the file is read back, where every field
      is trimmed, the same email is caught. */
  lemma PaddedEmailEscapesDuplicateCheck()
    ensures var typed := " ada@x.io";
            var added := User(1, "Ada", "Lovelace", typed);
            && !AnyEmailMatches([added], Trim(typed))
            && AnyEmailMatches([added.(email := Trim(typed))], Trim(typed))
  {
    var typed := " ada@x.io";
    assert TrimStart(typed) == typed[1..];
    assert TrimEnd(typed[1..]) == typed[1..];
    assert Trim(typed) == typed[1..];
    assert !EqualsIgnoreCase(typed, typed[1..]);
    assert EqualsIgnoreCase(typed[1..], typed[1..]);
  }

  class MenuController {
    const ctx: AppContext

    constructor (ctx: AppContext)
      ensures this.ctx == ctx
    {
      this.ctx := ctx;
    }

    /** `createBooking`. The checks run in the order of the source and the first that
        fails ends the call with nothing changed: no objective available at all, unknown
        user, objective missing or unavailable, a booking of the same user on the same
        objective, a date strictly before today. Otherwise a booking with the next id is
        appended and the objective made unavailable; if a save fails the booking is
        removed by id and the objective made available again. */
    method CreateBooking(userId: Int32, objectiveId: Int32, date: LocalDate, today: LocalDate,
                         bookingsSaved: bool, objectivesSaved: bool) returns (outcome: BookingOutcome)
      requires 1 <= userId && 1 <= objectiveId
      requires ctx.Valid()
      modifies ctx`bookings, ctx.objectives, ctx.storage
      ensures ctx.storage.usersFile == old(ctx.storage.usersFile)
      ensures var flags := old(ctx.Flags());
              var userKnown := old(ctx.FindUserById(userId)).Some?;
              var bookable := Bookable(ctx.Ids(), flags, objectiveId);
              var duplicate := old(ctx.BookingExistsForUserAndObjective(userId, objectiveId));
              && (outcome == Rejected(NoObjectiveAvailable) <==> true !in flags)
              && (outcome == Rejected(UserNotFound) <==> true in flags && !userKnown)
              && (outcome == Rejected(ObjectiveNotAvailable) <==> true in flags && userKnown && !bookable)
              && (outcome == Rejected(DuplicateBooking) <==> true in flags && userKnown && bookable && duplicate)
              && (outcome == Rejected(DateInPast) <==>
                    true in flags && userKnown && bookable && !duplicate && IsBefore(date, today))
      ensures outcome.Rejected? ==>
        && ctx.bookings == old(ctx.bookings) && ctx.Flags() == old(ctx.Flags())
        && ctx.storage.bookingsFile == old(ctx.storage.bookingsFile)
        && ctx.storage.objectivesFile == old(ctx.storage.objectivesFile)
      ensures !outcome.Rejected? ==> outcome.id == old(ctx.NextBookingId())
      ensures !outcome.Rejected? ==> (outcome.Created? <==> bookingsSaved && objectivesSaved)
      ensures outcome.Created? ==>
        && ctx.bookings == old(ctx.bookings) + [Booking(outcome.id, userId, objectiveId, date)]
        && ctx.Flags() == old(ctx.Flags())[FirstIndex(ctx.Ids(), objectiveId) := false]
        && ctx.storage.bookingsFile == WrittenFile(BOOKINGS_HEADER, ctx.bookings, BookingLine)
        && ctx.storage.objectivesFile == WrittenFile(OBJECTIVES_HEADER, RowsOf(ctx.objectives), ObjectiveLine)
      ensures outcome.RolledBack? ==>
        && ctx.bookings == RemoveBookingsWithId(old(ctx.bookings) + [Booking(outcome.id, userId, objectiveId, date)], outcome.id)
        && ctx.Flags() == old(ctx.Flags())
      ensures outcome.RolledBack? && MaxId(BookingIds(old(ctx.bookings))) < INT_MAX ==>
        ctx.bookings == old(ctx.bookings)
      ensures old(ctx.FlagsConsistent()) ==> ctx.FlagsConsistent()
      ensures outcome.Created? && old(ctx.FlagsConsistent() && ctx.ReferencesUnique()) ==> ctx.ReferencesUnique()
    {
      var rejection, objective := Screen(userId, objectiveId, date, today);
      if rejection.Some? {
        return Rejected(rejection.value);
      }
      var bookingId := ctx.NextBookingId();
      var committed := Book(objective, FirstIndex(ctx.Ids(), objectiveId), Booking(bookingId, userId, objectiveId, date),
                            bookingsSaved, objectivesSaved);
      outcome := if committed then Created(bookingId) else RolledBack(bookingId);
    }

    /** The checks of `createBooking`, in order; the first that fails is reported. When
        none fails, the objective found is the first with the id, and it is available. */
    method Screen(userId: Int32, objectiveId: Int32, date: LocalDate, today: LocalDate)
      returns (rejection: Option<Rejection>, objective: Objective?)
      ensures var flags := ctx.Flags();
              var userKnown := ctx.FindUserById(userId).Some?;
              var bookable := Bookable(ctx.Ids(), flags, objectiveId);
              var duplicate := ctx.BookingExistsForUserAndObjective(userId, objectiveId);
              && (rejection == Some(NoObjectiveAvailable) <==> true !in flags)
              && (rejection == Some(UserNotFound) <==> true in flags && !userKnown)
              && (rejection == Some(ObjectiveNotAvailable) <==> true in flags && userKnown && !bookable)
              && (rejection == Some(DuplicateBooking) <==> true in flags && userKnown && bookable && duplicate)
              && (rejection == Some(DateInPast) <==>
                    true in flags && userKnown && bookable && !duplicate && IsBefore(date, today))
      ensures rejection.None? ==>
        var k := FirstIndex(ctx.Ids(), objectiveId);
        0 <= k < |ctx.objectives| && objective == ctx.objectives[k] && objective.available
    {
      objective := null;
      if true !in ctx.Flags() {
        return Some(NoObjectiveAvailable), objective;
      }
      var user := ctx.FindUserById(userId);
      if user.None? {
        return Some(UserNotFound), objective;
      }
      objective := ctx.FindObjectiveById(objectiveId);
      if objective == null || !objective.available {
        return Some(ObjectiveNotAvailable), objective;
      }
      if ctx.BookingExistsForUserAndObjective(userId, objectiveId) {
        return Some(DuplicateBooking), objective;
      }
      if IsBefore(date, today) {
        return Some(DateInPast), objective;
      }
      rejection := None;
    }

    /** The mutating half of `createBooking`: append the booking, clear the flag, save
        the bookings and then the objectives, and undo both in memory if either save
        fails. */
    method Book(objective: Objective, ghost k: int, b: Booking, bookingsSaved: bool, objectivesSaved: bool)
      returns (committed: bool)
      requires ctx.Valid() && 0 <= k < |ctx.objectives| && ctx.objectives[k] == objective
      requires k == FirstIndex(ctx.Ids(), b.objectiveId) && objective.available
      modifies ctx`bookings, objective, ctx.storage
      ensures committed <==> bookingsSaved && objectivesSaved
      ensures committed ==> ctx.bookings == old(ctx.bookings) + [b] && ctx.Flags() == old(ctx.Flags())[k := false]
      ensures committed ==>
        && ctx.storage.bookingsFile == WrittenFile(BOOKINGS_HEADER, ctx.bookings, BookingLine)
        && ctx.storage.objectivesFile == WrittenFile(OBJECTIVES_HEADER, RowsOf(ctx.objectives), ObjectiveLine)
      ensures !committed ==>
        ctx.bookings == RemoveBookingsWithId(old(ctx.bookings) + [b], b.id) && ctx.Flags() == old(ctx.Flags())
      ensures !committed && b.id !in BookingIds(old(ctx.bookings)) ==> ctx.bookings == old(ctx.bookings)
      ensures ctx.storage.usersFile == old(ctx.storage.usersFile)
      ensures old(ctx.FlagsConsistent()) ==> ctx.FlagsConsistent()
      ensures committed && old(ctx.FlagsConsistent() && ctx.ReferencesUnique()) ==> ctx.ReferencesUnique()
    {
      ghost var bookings := ctx.bookings;
      ghost var flags := ctx.Flags();
      ghost var ids := ctx.Ids();
      if ctx.FlagsConsistent() {
        BookingKeepsConsistent(ids, flags, bookings, b);
      }
      Attach(objective, k, b);
      committed := Persist(bookingsSaved, objectivesSaved);
      if !committed {
        Detach(objective, k, b, bookings, flags);
      }
    }

    /** `bookings().add(b)` followed by `setAvailable(false)` on the chosen objective. */
    method Attach(objective: Objective, ghost k: int, b: Booking)
      requires ctx.Valid() && 0 <= k < |ctx.objectives| && ctx.objectives[k] == objective
      requires k == FirstIndex(ctx.Ids(), b.objectiveId) && objective.available
      modifies ctx`bookings, objective
      ensures ctx.bookings == old(ctx.bookings) + [b] && ctx.Flags() == old(ctx.Flags())[k := false]
    {
      ctx.bookings := ctx.bookings + [b];
      ctx.SetFlag(objective, k, false);
    }

    /** The rollback of `createBooking`: `removeIf` on the new id, then `setAvailable(true)`.
        Starting from the state `Attach` left, this gives back the flags from before it,
        and the bookings too unless an older booking shares the new id. */
    method Detach(objective: Objective, ghost k: int, b: Booking, ghost bookings: seq<Booking>, ghost flags: seq<bool>)
      requires ctx.Valid() && 0 <= k < |ctx.objectives| && ctx.objectives[k] == objective
      requires |flags| == |ctx.objectives| && flags[k]
      requires ctx.bookings == bookings + [b] && ctx.Flags() == flags[k := false]
      modifies ctx`bookings, objective
      ensures ctx.bookings == RemoveBookingsWithId(bookings + [b], b.id) && ctx.Flags() == flags
      ensures b.id !in BookingIds(bookings) ==> ctx.bookings == bookings
      ensures Consistent(ctx.Ids(), flags, bookings) ==> ctx.FlagsConsistent()
    {
      ctx.bookings := RemoveBookingsWithId(ctx.bookings, b.id);
      ctx.SetFlag(objective, k, true);
      assert ctx.Flags() == flags;
      if Consistent(ctx.Ids(), flags, bookings) {
        RemoveAppendedIsSubset(bookings, b);
        ConsistentSubset(ctx.Ids(), flags, bookings, ctx.bookings);
      }
      if b.id !in BookingIds(bookings) {
        RemoveAppendedBooking(bookings, b);
      }
    }

    /** `saveBookings()` then `saveObjectives()` in one `try`: the second save runs only
        when the first one succeeds, and the pair succeeds when both do. */
    method Persist(bookingsSaved: bool, objectivesSaved: bool) returns (saved: bool)
      modifies ctx.storage
      ensures saved <==> bookingsSaved && objectivesSaved
      ensures saved ==>
        && ctx.storage.bookingsFile == WrittenFile(BOOKINGS_HEADER, ctx.bookings, BookingLine)
        && ctx.storage.objectivesFile == WrittenFile(OBJECTIVES_HEADER, RowsOf(ctx.objectives), ObjectiveLine)
      ensures !bookingsSaved ==> ctx.storage.objectivesFile == old(ctx.storage.objectivesFile)
      ensures ctx.storage.usersFile == old(ctx.storage.usersFile)
      ensures ctx.Flags() == old(ctx.Flags())
    {
      ctx.SaveBookings(bookingsSaved);
      if bookingsSaved {
        ctx.SaveObjectives(objectivesSaved);
      }
      saved := bookingsSaved && objectivesSaved;
    }

    /** `cancelBooking`. Without bookings, or with an unknown id, nothing changes.
        Otherwise the first booking equal to the one found is removed and its objective,
        if it still exists, made available; when a save fails the booking is appended
        again and the objective made unavailable, which restores the bookings up to
        order and, for consistent flags, the flags exactly. */
    method CancelBooking(bookingId: Int32, bookingsSaved: bool, objectivesSaved: bool) returns (outcome: CancelOutcome)
      requires 1 <= bookingId
      requires ctx.Valid()
      modifies ctx`bookings, ctx.objectives, ctx.storage
      ensures ctx.storage.usersFile == old(ctx.storage.usersFile)
      ensures outcome == NoBookings <==> |old(ctx.bookings)| == 0
      ensures outcome == BookingNotFound <==> |old(ctx.bookings)| > 0 && old(ctx.FindBookingById(bookingId)).None?
      ensures outcome.NoBookings? || outcome.BookingNotFound? ==>
        && ctx.bookings == old(ctx.bookings) && ctx.Flags() == old(ctx.Flags())
        && ctx.storage.bookingsFile == old(ctx.storage.bookingsFile)
        && ctx.storage.objectivesFile == old(ctx.storage.objectivesFile)
      ensures outcome.Cancelled? || outcome.CancelRolledBack? ==>
        && old(ctx.FindBookingById(bookingId)) == Some(outcome.booking)
        && (outcome.Cancelled? <==> bookingsSaved && objectivesSaved)
      ensures outcome.Cancelled? ==>
        && ctx.bookings == RemoveFirst(old(ctx.bookings), outcome.booking)
        && ctx.Flags() == Released(ctx.Ids(), old(ctx.Flags()), outcome.booking, true)
        && ctx.storage.bookingsFile == WrittenFile(BOOKINGS_HEADER, ctx.bookings, BookingLine)
        && ctx.storage.objectivesFile == WrittenFile(OBJECTIVES_HEADER, RowsOf(ctx.objectives), ObjectiveLine)
      ensures outcome.CancelRolledBack? ==>
        && ctx.bookings == RemoveFirst(old(ctx.bookings), outcome.booking) + [outcome.booking]
        && multiset(ctx.bookings) == multiset(old(ctx.bookings))
        && ctx.Flags() == Released(ctx.Ids(), Released(ctx.Ids(), old(ctx.Flags()), outcome.booking, true), outcome.booking, false)
      ensures outcome.CancelRolledBack? && old(ctx.FlagsConsistent()) ==> ctx.Flags() == old(ctx.Flags())
      ensures outcome.Cancelled? && old(ctx.FlagsConsistent() && ctx.ReferencesUnique()) ==>
        ctx.FlagsConsistent() && ctx.ReferencesUnique()
    {
      if |ctx.bookings| == 0 {
        return NoBookings;
      }
      var found := ctx.FindBookingById(bookingId);
      if found.None? {
        return BookingNotFound;
      }
      var booking := found.value;
      ghost var i := FirstIndex(BookingIds(ctx.bookings), bookingId);
      assert booking !in ctx.bookings[..i] by {
        assert forall j | 0 <= j < i :: ctx.bookings[j].id != bookingId;
      }
      var committed := Unbook(booking, i, bookingsSaved, objectivesSaved);
      outcome := if committed then Cancelled(booking) else CancelRolledBack(booking);
    }

    /** The mutating half of `cancelBooking`, for the booking at position i, the first
        one equal to it. */
    method Unbook(booking: Booking, ghost i: int, bookingsSaved: bool, objectivesSaved: bool) returns (committed: bool)
      requires ctx.Valid()
      requires 0 <= i < |ctx.bookings| && ctx.bookings[i] == booking && booking !in ctx.bookings[..i]
      modifies ctx`bookings, ctx.objectives, ctx.storage
      ensures committed <==> bookingsSaved && objectivesSaved
      ensures committed ==>
        && ctx.bookings == RemoveFirst(old(ctx.bookings), booking)
        && ctx.Flags() == Released(ctx.Ids(), old(ctx.Flags()), booking, true)
        && ctx.storage.bookingsFile == WrittenFile(BOOKINGS_HEADER, ctx.bookings, BookingLine)
        && ctx.storage.objectivesFile == WrittenFile(OBJECTIVES_HEADER, RowsOf(ctx.objectives), ObjectiveLine)
      ensures !committed ==>
        && ctx.bookings == RemoveFirst(old(ctx.bookings), booking) + [booking]
        && multiset(ctx.bookings) == multiset(old(ctx.bookings))
        && ctx.Flags() == Released(ctx.Ids(), Released(ctx.Ids(), old(ctx.Flags()), booking, true), booking, false)
      ensures !committed && old(ctx.FlagsConsistent()) ==> ctx.Flags() == old(ctx.Flags())
      ensures committed && old(ctx.FlagsConsistent() && ctx.ReferencesUnique()) ==>
        ctx.FlagsConsistent() && ctx.ReferencesUnique()
      ensures ctx.storage.usersFile == old(ctx.storage.usersFile)
    {
      ghost var bookings := ctx.bookings;
      ghost var flags := ctx.Flags();
      var objective := ctx.FindObjectiveById(booking.objectiveId);
      ghost var k := FirstIndex(ctx.Ids(), booking.objectiveId);
      Release(objective, k, booking, i);
      committed := Persist(bookingsSaved, objectivesSaved);
      if !committed {
        Restore(objective, k, booking, i, bookings, flags);
      }
    }

    /** `bookings().remove(booking)` followed by `setAvailable(true)` on its objective,
        if that objective exists. */
    method Release(objective: Objective?, ghost k: int, booking: Booking, ghost i: int)
      requires ctx.Valid() && k == FirstIndex(ctx.Ids(), booking.objectiveId)
      requires objective == null <==> k == -1
      requires objective != null ==> ctx.objectives[k] == objective
      requires 0 <= i < |ctx.bookings| && ctx.bookings[i] == booking && booking !in ctx.bookings[..i]
      modifies ctx`bookings, objective
      ensures ctx.bookings == RemoveFirst(old(ctx.bookings), booking)
      ensures ctx.Flags() == Released(ctx.Ids(), old(ctx.Flags()), booking, true)
      ensures old(ctx.FlagsConsistent() && ctx.ReferencesUnique()) ==> ctx.FlagsConsistent() && ctx.ReferencesUnique()
    {
      if ctx.FlagsConsistent() && ctx.ReferencesUnique() {
        CancelKeepsConsistent(ctx.Ids(), ctx.Flags(), ctx.bookings, i);
      }
      ctx.bookings := RemoveFirst(ctx.bookings, booking);
      if objective != null {
        ctx.SetFlag(objective, k, true);
      }
    }

    /** The rollback of `cancelBooking`: `bookings().add(booking)` and, if the objective
        exists, `setAvailable(false)`. */
    method Restore(objective: Objective?, ghost k: int, booking: Booking, ghost i: int,
                   ghost bookings: seq<Booking>, ghost flags: seq<bool>)
      requires ctx.Valid() && k == FirstIndex(ctx.Ids(), booking.objectiveId)
      requires objective == null <==> k == -1
      requires objective != null ==> ctx.objectives[k] == objective
      requires |flags| == |ctx.objectives|
      requires 0 <= i < |bookings| && bookings[i] == booking && booking !in bookings[..i]
      requires ctx.bookings == RemoveFirst(bookings, booking)
      requires ctx.Flags() == Released(ctx.Ids(), flags, booking, true)
      modifies ctx`bookings, objective
      ensures ctx.bookings == RemoveFirst(bookings, booking) + [booking]
      ensures multiset(ctx.bookings) == multiset(bookings)
      ensures ctx.Flags() == Released(ctx.Ids(), Released(ctx.Ids(), flags, booking, true), booking, false)
      ensures Consistent(ctx.Ids(), flags, bookings) ==> ctx.Flags() == flags
    {
      ctx.bookings := ctx.bookings + [booking];
      if objective != null {
        ctx.SetFlag(objective, k, false);
      }
      CancelRollbackRestores(ctx.Ids(), flags, bookings, i);
    }

    /** `addUser`: with an email that matches a stored one nothing changes; otherwise a
        user with the next id is appended and saved, and removed again by id when the
        save fails. The names arrive trimmed and non-empty, the email untrimmed with an
        `@` and a `.`, as the console readers deliver them. */
    method AddUser(firstName: string, lastName: string, email: string, saved: bool) returns (outcome: AddOutcome)
      requires firstName != [] && IsTrimmed(firstName) && lastName != [] && IsTrimmed(lastName)
      requires '@' in email && '.' in email
      modifies ctx`users, ctx.storage
      ensures outcome == EmailTaken <==> old(ctx.EmailExists(Some(email)))
      ensures outcome == EmailTaken ==>
        ctx.users == old(ctx.users) && ctx.storage.usersFile == old(ctx.storage.usersFile)
      ensures !outcome.EmailTaken? ==> outcome.id == old(ctx.NextUserId()) && (outcome.Added? <==> saved)
      ensures outcome.Added? ==>
        && ctx.users == old(ctx.users) + [User(outcome.id, firstName, lastName, email)]
        && ctx.storage.usersFile == WrittenFile(USERS_HEADER, ctx.users, UserLine)
      ensures outcome.AddRolledBack? ==>
        ctx.users == RemoveUsersWithId(old(ctx.users) + [User(outcome.id, firstName, lastName, email)], outcome.id)
      ensures outcome.AddRolledBack? && MaxId(UserIds(old(ctx.users))) < INT_MAX ==> ctx.users == old(ctx.users)
      ensures ctx.storage.objectivesFile == old(ctx.storage.objectivesFile)
      ensures ctx.storage.bookingsFile == old(ctx.storage.bookingsFile)
    {
      if ctx.EmailExists(Some(email)) {
        return EmailTaken;
      }
      var id := ctx.NextUserId();
      var user := User(id, firstName, lastName, email);
      ghost var users := ctx.users;
      ctx.users := ctx.users + [user];
      ctx.SaveUsers(saved);
      if saved {
        outcome := Added(id);
      } else {
        ctx.users := RemoveUsersWithId(ctx.users, id);
        outcome := AddRolledBack(id);
        if MaxId(UserIds(users)) < INT_MAX {
          assert id !in UserIds(users);
          RemoveAppendedUser(users, user);
        }
      }
    }
  }
}
