/** The value-level rules behind the repository: lookup by id, the `max + 1` id
    generator, and the reconciliation of availability flags with bookings. Objectives
    appear here as their list of ids and their list of flags, position by position. */
module Reconcile {
  import opened Text
  import opened Dates
  import opened Model

  // ---------------------------------------------------------------------------
  // Lookup by id
  // ---------------------------------------------------------------------------

  /** The position of the first id equal to `id`, or -1 when there is none: what
      `stream().filter(x -> x.id() == id).findFirst()` picks. */
  function FirstIndex(ids: seq<int>, id: int): (k: int)
    ensures -1 <= k < |ids|
    ensures k == -1 <==> id !in ids
    ensures k >= 0 ==> ids[k] == id && forall j | 0 <= j < k :: ids[j] != id
  {
    if |ids| == 0 then -1
    else if ids[0] == id then 0
    else
      var k := FirstIndex(ids[1..], id);
      if k == -1 then -1 else k + 1
  }

  function UserIds(users: seq<User>): (ids: seq<Int32>)
    ensures |ids| == |users| && forall i | 0 <= i < |users| :: ids[i] == users[i].id
  {
    seq(|users|, i requires 0 <= i < |users| => users[i].id)
  }

  function BookingIds(bookings: seq<Booking>): (ids: seq<Int32>)
    ensures |ids| == |bookings| && forall i | 0 <= i < |bookings| :: ids[i] == bookings[i].id
  {
    seq(|bookings|, i requires 0 <= i < |bookings| => bookings[i].id)
  }

  function ObjectiveIds(objectives: seq<Objective>): (ids: seq<int>)
    ensures |ids| == |objectives| && forall i | 0 <= i < |objectives| :: ids[i] == objectives[i].id
  {
    seq(|objectives|, i requires 0 <= i < |objectives| => objectives[i].id as int)
  }

  // ---------------------------------------------------------------------------
  // Id generation
  // ---------------------------------------------------------------------------

  /** `mapToInt(..).max().orElse(0)`: the largest id, or 0 for an empty list. */
  function MaxId(ids: seq<Int32>): (m: Int32)
    ensures |ids| == 0 ==> m == 0
    ensures |ids| > 0 ==> m in ids && forall i | 0 <= i < |ids| :: ids[i] <= m
  {
    if |ids| == 0 then 0
    else
      var init := ids[..|ids| - 1];
      var last := ids[|ids| - 1];
      if |init| == 0 then last
      else
        var m := MaxId(init);
        assert forall i | 0 <= i < |init| :: init[i] == ids[i];
        if last <= m then m else last
  }

  /** `max + 1` in Java `int` arithmetic. */
  function NextId(ids: seq<Int32>): Int32 {
    WrapInt32(MaxId(ids) + 1)
  }

  /** The next id is 1 for an empty list; it is larger than every id in the list
      unless the largest id is `Integer.MAX_VALUE`, where it wraps around to
      `Integer.MIN_VALUE`. */
  lemma NextIdFresh(ids: seq<Int32>)
    ensures |ids| == 0 ==> NextId(ids) == 1
    ensures MaxId(ids) < INT_MAX ==> forall i | 0 <= i < |ids| :: ids[i] < NextId(ids)
    ensures MaxId(ids) < INT_MAX ==> NextId(ids) !in ids
    ensures MaxId(ids) < INT_MAX ==> NextId(ids) == MaxId(ids) + 1
    ensures MaxId(ids) == INT_MAX ==> NextId(ids) == INT_MIN
  {
    if MaxId(ids) < INT_MAX {
      assert NextId(ids) == MaxId(ids) + 1;
    }
  }

  // ---------------------------------------------------------------------------
  // Reconciliation of flags with bookings
  // ---------------------------------------------------------------------------

  /** The objective at position k is the one some booking resolves to: the first
      objective carrying the booking's objective id. */
  predicate Referenced(ids: seq<int>, bookings: seq<Booking>, k: int) {
    exists i | 0 <= i < |bookings| :: FirstIndex(ids, bookings[i].objectiveId) == k
  }

  /** The flags after the normalisation loop has visited `bookings` in order: each
      booking whose objective exists clears that objective's flag. */
  function Normalized(ids: seq<int>, flags: seq<bool>, bookings: seq<Booking>): (r: seq<bool>)
    requires |flags| == |ids|
    ensures |r| == |ids|
  {
    if |bookings| == 0 then flags
    else
      var prev := Normalized(ids, flags, bookings[..|bookings| - 1]);
      var k := FirstIndex(ids, bookings[|bookings| - 1].objectiveId);
      if k == -1 then prev else prev[k := false]
  }

  lemma ReferencedSnoc(ids: seq<int>, bookings: seq<Booking>, k: int)
    requires |bookings| > 0
    ensures Referenced(ids, bookings, k)
        <==> Referenced(ids, bookings[..|bookings| - 1], k)
             || FirstIndex(ids, bookings[|bookings| - 1].objectiveId) == k
  {
    var init := bookings[..|bookings| - 1];
    if Referenced(ids, init, k) {
      var i :| 0 <= i < |init| && FirstIndex(ids, init[i].objectiveId) == k;
      assert bookings[i] == init[i];
    }
    if Referenced(ids, bookings, k) && FirstIndex(ids, bookings[|bookings| - 1].objectiveId) != k {
      var i :| 0 <= i < |bookings| && FirstIndex(ids, bookings[i].objectiveId) == k;
      assert init[i] == bookings[i];
    }
  }

  /** After normalisation an objective is available exactly when it was available
      before and no booking resolves to it. */
  lemma {:induction false} NormalizedMeaning(ids: seq<int>, flags: seq<bool>, bookings: seq<Booking>)
    requires |flags| == |ids|
    ensures forall k | 0 <= k < |ids| ::
      Normalized(ids, flags, bookings)[k] == (flags[k] && !Referenced(ids, bookings, k))
  {
    if |bookings| > 0 {
      var init := bookings[..|bookings| - 1];
      NormalizedMeaning(ids, flags, init);
      forall k | 0 <= k < |ids|
        ensures Normalized(ids, flags, bookings)[k] == (flags[k] && !Referenced(ids, bookings, k))
      {
        ReferencedSnoc(ids, bookings, k);
      }
    }
  }

  /** Every objective some booking resolves to is unavailable. */
  predicate Consistent(ids: seq<int>, flags: seq<bool>, bookings: seq<Booking>)
    requires |flags| == |ids|
  {
    forall k | 0 <= k < |ids| && Referenced(ids, bookings, k) :: !flags[k]
  }

  /** Normalisation clears flags and never sets one; an objective no booking resolves
      to keeps its flag; and the result is consistent. */
  lemma NormalizedEffect(ids: seq<int>, flags: seq<bool>, bookings: seq<Booking>)
    requires |flags| == |ids|
    ensures forall k | 0 <= k < |ids| :: Normalized(ids, flags, bookings)[k] ==> flags[k]
    ensures forall k | 0 <= k < |ids| && !Referenced(ids, bookings, k) ::
      Normalized(ids, flags, bookings)[k] == flags[k]
    ensures Consistent(ids, Normalized(ids, flags, bookings), bookings)
  {
    NormalizedMeaning(ids, flags, bookings);
  }

  /** Flags are consistent with the bookings exactly when normalising leaves them as
      they are; in particular a second pass over its own result changes nothing. */
  lemma ConsistentIffFixpoint(ids: seq<int>, flags: seq<bool>, bookings: seq<Booking>)
    requires |flags| == |ids|
    ensures Consistent(ids, flags, bookings) <==> Normalized(ids, flags, bookings) == flags
    ensures Normalized(ids, Normalized(ids, flags, bookings), bookings) == Normalized(ids, flags, bookings)
  {
    NormalizedMeaning(ids, flags, bookings);
    NormalizedMeaning(ids, Normalized(ids, flags, bookings), bookings);
    if !Consistent(ids, flags, bookings) {
      var k :| 0 <= k < |ids| && Referenced(ids, bookings, k) && flags[k];
      assert Normalized(ids, flags, bookings)[k] != flags[k];
    }
  }

  /** The bookings that resolve to no objective, in list order: the ones the
      normalisation pass warns about. */
  function Orphans(ids: seq<int>, bookings: seq<Booking>): (r: seq<Booking>)
    ensures forall b | b in r :: b in bookings && b.objectiveId !in ids
    ensures forall b | b in bookings && b.objectiveId !in ids :: b in r
  {
    if |bookings| == 0 then []
    else
      var last := bookings[|bookings| - 1];
      Orphans(ids, bookings[..|bookings| - 1]) + (if last.objectiveId in ids then [] else [last])
  }

  /** One more booking clears the flag of the objective it resolves to, if any. */
  lemma NormalizedSnoc(ids: seq<int>, flags: seq<bool>, bookings: seq<Booking>, i: int)
    requires |flags| == |ids| && 0 <= i < |bookings|
    ensures var k := FirstIndex(ids, bookings[i].objectiveId);
            Normalized(ids, flags, bookings[..i + 1])
            == if k == -1 then Normalized(ids, flags, bookings[..i]) else Normalized(ids, flags, bookings[..i])[k := false]
  {
    assert bookings[..i + 1][..i] == bookings[..i];
  }

  /** The flags differ from the starting ones after one more booking exactly when they
      differed before it, or that booking clears a flag still set. */
  lemma NormalizedChangedSnoc(ids: seq<int>, flags: seq<bool>, bookings: seq<Booking>, i: int)
    requires |flags| == |ids| && 0 <= i < |bookings|
    ensures var k := FirstIndex(ids, bookings[i].objectiveId);
            var prev := Normalized(ids, flags, bookings[..i]);
            Normalized(ids, flags, bookings[..i + 1]) != flags
            <==> prev != flags || (k != -1 && prev[k])
  {
    var k := FirstIndex(ids, bookings[i].objectiveId);
    var prev := Normalized(ids, flags, bookings[..i]);
    var next := Normalized(ids, flags, bookings[..i + 1]);
    NormalizedSnoc(ids, flags, bookings, i);
    NormalizedEffect(ids, flags, bookings[..i]);
    NormalizedEffect(ids, flags, bookings[..i + 1]);
    if prev != flags {
      var j :| 0 <= j < |ids| && prev[j] != flags[j];
      assert !next[j];
    }
    if k != -1 && prev[k] {
      assert next[k] != flags[k];
    }
  }

  /** One more booking is one more orphan exactly when its objective is missing. */
  lemma OrphansSnoc(ids: seq<int>, bookings: seq<Booking>, i: int)
    requires 0 <= i < |bookings|
    ensures Orphans(ids, bookings[..i + 1])
         == Orphans(ids, bookings[..i]) + (if bookings[i].objectiveId in ids then [] else [bookings[i]])
  {
    assert bookings[..i + 1][..i] == bookings[..i];
  }

  /** No two bookings resolve to the same objective. */
  predicate UniqueReferences(ids: seq<int>, bookings: seq<Booking>) {
    forall i, j | 0 <= i < j < |bookings| && FirstIndex(ids, bookings[i].objectiveId) >= 0 ::
      FirstIndex(ids, bookings[i].objectiveId) != FirstIndex(ids, bookings[j].objectiveId)
  }

  /** Dropping bookings keeps the flags consistent: fewer bookings reference fewer objectives. */
  lemma ConsistentSubset(ids: seq<int>, flags: seq<bool>, bookings: seq<Booking>, sub: seq<Booking>)
    requires |flags| == |ids| && Consistent(ids, flags, bookings)
    requires forall b | b in sub :: b in bookings
    ensures Consistent(ids, flags, sub)
  {
    forall k | 0 <= k < |ids| && Referenced(ids, sub, k)
      ensures !flags[k]
    {
      var i :| 0 <= i < |sub| && FirstIndex(ids, sub[i].objectiveId) == k;
      assert sub[i] in bookings;
      var j :| 0 <= j < |bookings| && bookings[j] == sub[i];
    }
  }

  /** Booking an available objective and clearing its flag keeps the flags consistent;
      since an available objective is referenced by no booking, the new booking is the
      only one on it. */
  lemma BookingKeepsConsistent(ids: seq<int>, flags: seq<bool>, bookings: seq<Booking>, b: Booking)
    requires |flags| == |ids| && Consistent(ids, flags, bookings)
    requires var k := FirstIndex(ids, b.objectiveId); 0 <= k && flags[k]
    ensures Consistent(ids, flags[FirstIndex(ids, b.objectiveId) := false], bookings + [b])
    ensures UniqueReferences(ids, bookings) ==> UniqueReferences(ids, bookings + [b])
  {
    var k := FirstIndex(ids, b.objectiveId);
    var next := bookings + [b];
    assert next[..|bookings|] == bookings;
    forall j | 0 <= j < |ids| && Referenced(ids, next, j)
      ensures !flags[k := false][j]
    {
      ReferencedSnoc(ids, next, j);
    }
    assert !Referenced(ids, bookings, k);
    if UniqueReferences(ids, bookings) {
      forall i, j | 0 <= i < j < |next| && FirstIndex(ids, next[i].objectiveId) >= 0
        ensures FirstIndex(ids, next[i].objectiveId) != FirstIndex(ids, next[j].objectiveId)
      {
        if j < |bookings| {
          assert next[i] == bookings[i] && next[j] == bookings[j];
        }
      }
    }
  }

  /** The flags after cancelling a booking: its objective, if it has one, made available. */
  function Released(ids: seq<int>, flags: seq<bool>, b: Booking, v: bool): (r: seq<bool>)
    requires |flags| == |ids|
    ensures |r| == |ids|
    ensures forall j | 0 <= j < |ids| && j != FirstIndex(ids, b.objectiveId) :: r[j] == flags[j]
    ensures b.objectiveId in ids ==> r[FirstIndex(ids, b.objectiveId)] == v
  {
    var k := FirstIndex(ids, b.objectiveId);
    if k == -1 then flags else flags[k := v]
  }

  /** Cutting one booking out keeps the references unique. */
  lemma UniqueAfterCut(ids: seq<int>, bookings: seq<Booking>, i: int)
    requires UniqueReferences(ids, bookings) && 0 <= i < |bookings|
    ensures UniqueReferences(ids, bookings[..i] + bookings[i + 1..])
  {
    var rest := bookings[..i] + bookings[i + 1..];
    forall p, q | 0 <= p < q < |rest| && FirstIndex(ids, rest[p].objectiveId) >= 0
      ensures FirstIndex(ids, rest[p].objectiveId) != FirstIndex(ids, rest[q].objectiveId)
    {
      var p' := if p < i then p else p + 1;
      var q' := if q < i then q else q + 1;
      assert rest[p] == bookings[p'] && rest[q] == bookings[q'];
    }
  }

  /** Cutting one booking out and making its objective available keeps the flags
      consistent when no other booking shares that objective. */
  lemma ConsistentAfterCut(ids: seq<int>, flags: seq<bool>, bookings: seq<Booking>, i: int)
    requires |flags| == |ids| && Consistent(ids, flags, bookings) && UniqueReferences(ids, bookings)
    requires 0 <= i < |bookings|
    ensures Consistent(ids, Released(ids, flags, bookings[i], true), bookings[..i] + bookings[i + 1..])
  {
    var rest := bookings[..i] + bookings[i + 1..];
    var released := Released(ids, flags, bookings[i], true);
    forall j | 0 <= j < |ids| && Referenced(ids, rest, j)
      ensures !released[j]
    {
      var m :| 0 <= m < |rest| && FirstIndex(ids, rest[m].objectiveId) == j;
      var n := if m < i then m else m + 1;
      assert bookings[n] == rest[m] && n != i;
      assert Referenced(ids, bookings, j);
    }
  }

  /** Cancelling the first occurrence of a booking and making its objective available
      keeps the flags consistent, as long as no other booking shares that objective. */
  lemma CancelKeepsConsistent(ids: seq<int>, flags: seq<bool>, bookings: seq<Booking>, i: int)
    requires |flags| == |ids| && Consistent(ids, flags, bookings) && UniqueReferences(ids, bookings)
    requires 0 <= i < |bookings| && bookings[i] !in bookings[..i]
    ensures var rest := RemoveFirst(bookings, bookings[i]);
            Consistent(ids, Released(ids, flags, bookings[i], true), rest) && UniqueReferences(ids, rest)
  {
    RemoveFirstAt(bookings, bookings[i], i);
    UniqueAfterCut(ids, bookings, i);
    ConsistentAfterCut(ids, flags, bookings, i);
  }

  /** Without unique references, a cancellation can make an objective available while
      another booking still holds it. */
  lemma CancelSharedObjectiveBreaksConsistency(d: LocalDate)
    ensures var ids := [7];
            var first := Booking(1, 1, 7, d);
            var second := Booking(2, 2, 7, d);
            && Consistent(ids, [false], [first, second])
            && !UniqueReferences(ids, [first, second])
            && RemoveFirst([first, second], first) == [second]
            && !Consistent(ids, Released(ids, [false], first, true), [second])
  {
    var ids := [7];
    var first := Booking(1, 1, 7, d);
    var second := Booking(2, 2, 7, d);
    assert FirstIndex(ids, 7) == 0;
    assert FirstIndex(ids, [second][0].objectiveId) == 0;
    assert Referenced(ids, [second], 0);
    assert FirstIndex(ids, [first, second][0].objectiveId) == FirstIndex(ids, [first, second][1].objectiveId) == 0;
    assert [first, second][1..] == [second];
    assert Released(ids, [false], first, true) == [true];
  }

  /** Re-appending a cancelled booking and clearing its objective's flag again gives the
      same bookings, counted with multiplicity, and, when the flags were consistent, the
      same flags. */
  lemma CancelRollbackRestores(ids: seq<int>, flags: seq<bool>, bookings: seq<Booking>, i: int)
    requires |flags| == |ids| && 0 <= i < |bookings| && bookings[i] !in bookings[..i]
    ensures multiset(RemoveFirst(bookings, bookings[i]) + [bookings[i]]) == multiset(bookings)
    ensures Consistent(ids, flags, bookings) ==>
      Released(ids, Released(ids, flags, bookings[i], true), bookings[i], false) == flags
  {
    RemoveFirstThenAppend(bookings, bookings[i], i);
    ReleaseThenRetake(ids, flags, bookings, i);
  }

  /** Freeing a booked objective and taking it again restores consistent flags. */
  lemma ReleaseThenRetake(ids: seq<int>, flags: seq<bool>, bookings: seq<Booking>, i: int)
    requires |flags| == |ids| && 0 <= i < |bookings|
    ensures Consistent(ids, flags, bookings) ==>
      Released(ids, Released(ids, flags, bookings[i], true), bookings[i], false) == flags
  {
    var k := FirstIndex(ids, bookings[i].objectiveId);
    if Consistent(ids, flags, bookings) && k != -1 {
      assert Referenced(ids, bookings, k);
      assert flags[k := true][k := false] == flags;
    }
  }

  // ---------------------------------------------------------------------------
  // List removals
  // ---------------------------------------------------------------------------

  /** `removeIf(b -> b.id() == id)`: keeps the other bookings, in order. */
  function RemoveBookingsWithId(bookings: seq<Booking>, id: int): (r: seq<Booking>)
    ensures forall b | b in r :: b in bookings && b.id != id
    ensures forall b | b in bookings && b.id != id :: b in r
    ensures id !in BookingIds(bookings) ==> r == bookings
  {
    if |bookings| == 0 then []
    else
      var init := bookings[..|bookings| - 1];
      var last := bookings[|bookings| - 1];
      assert id !in BookingIds(bookings) ==> id !in BookingIds(init) by {
        if id in BookingIds(init) {
          var i :| 0 <= i < |init| && BookingIds(init)[i] == id;
          assert BookingIds(bookings)[i] == id;
        }
      }
      assert bookings == init + [last];
      RemoveBookingsWithId(init, id) + (if last.id == id then [] else [last])
  }

  /** `removeIf(u -> u.id() == id)` on users. */
  function RemoveUsersWithId(users: seq<User>, id: int): (r: seq<User>)
    ensures forall u | u in r :: u in users && u.id != id
    ensures forall u | u in users && u.id != id :: u in r
    ensures id !in UserIds(users) ==> r == users
  {
    if |users| == 0 then []
    else
      var init := users[..|users| - 1];
      var last := users[|users| - 1];
      assert id !in UserIds(users) ==> id !in UserIds(init) by {
        if id in UserIds(init) {
          var i :| 0 <= i < |init| && UserIds(init)[i] == id;
          assert UserIds(users)[i] == id;
        }
      }
      assert users == init + [last];
      RemoveUsersWithId(init, id) + (if last.id == id then [] else [last])
  }

  /** Removing the ids of the one booking appended last, when no earlier booking
      carries its id, gives back the list before the append. */
  lemma RemoveAppendedBooking(bookings: seq<Booking>, b: Booking)
    requires b.id !in BookingIds(bookings)
    ensures RemoveBookingsWithId(bookings + [b], b.id) == bookings
  {
    assert (bookings + [b])[..|bookings|] == bookings;
  }

  /** Whatever survives removing the appended booking's id was there before the append. */
  lemma RemoveAppendedIsSubset(bookings: seq<Booking>, b: Booking)
    ensures forall x | x in RemoveBookingsWithId(bookings + [b], b.id) :: x in bookings
  {
    forall x | x in RemoveBookingsWithId(bookings + [b], b.id)
      ensures x in bookings
    {
      assert x in bookings + [b] && x != b;
    }
  }

  lemma RemoveAppendedUser(users: seq<User>, u: User)
    requires u.id !in UserIds(users)
    ensures RemoveUsersWithId(users + [u], u.id) == users
  {
    assert (users + [u])[..|users|] == users;
  }

  /** Removal works element by element: removing from a concatenation removes from
      each part and keeps the parts in their order. */
  lemma {:induction false} RemoveBookingsConcat(xs: seq<Booking>, ys: seq<Booking>, id: int)
    ensures RemoveBookingsWithId(xs + ys, id) == RemoveBookingsWithId(xs, id) + RemoveBookingsWithId(ys, id)
  {
    if |ys| == 0 {
      assert xs + ys == xs;
    } else {
      var init := ys[..|ys| - 1];
      var last := ys[|ys| - 1];
      var kept := if last.id == id then [] else [last];
      assert ys == init + [last];
      calc {
        RemoveBookingsWithId(xs + ys, id);
        { assert xs + ys == (xs + init) + [last]; }
        RemoveBookingsWithId((xs + init) + [last], id);
        { RemoveBookingsSnoc(xs + init, last, id); }
        RemoveBookingsWithId(xs + init, id) + kept;
        { RemoveBookingsConcat(xs, init, id); }
        (RemoveBookingsWithId(xs, id) + RemoveBookingsWithId(init, id)) + kept;
        RemoveBookingsWithId(xs, id) + (RemoveBookingsWithId(init, id) + kept);
        { RemoveBookingsSnoc(init, last, id); }
        RemoveBookingsWithId(xs, id) + RemoveBookingsWithId(ys, id);
      }
    }
  }

  /** Removing from a list with one more booking at the end: that booking is kept
      exactly when its id differs. */
  lemma RemoveBookingsSnoc(xs: seq<Booking>, b: Booking, id: int)
    ensures RemoveBookingsWithId(xs + [b], id) == RemoveBookingsWithId(xs, id) + (if b.id == id then [] else [b])
  {
    assert (xs + [b])[..|xs|] == xs;
  }

  /** A single booking is kept exactly when its id differs. */
  lemma RemoveBookingsSingle(b: Booking, id: int)
    ensures RemoveBookingsWithId([b], id) == if b.id == id then [] else [b]
  {
    assert [b][..0] == [];
  }

  /** Counted with multiplicity, removal keeps every booking with another id as often as
      it occurred and drops every booking with the given id. */
  lemma {:induction false} RemoveBookingsCount(bookings: seq<Booking>, id: int)
    ensures forall b: Booking :: multiset(RemoveBookingsWithId(bookings, id))[b] == if b.id == id then 0 else multiset(bookings)[b]
  {
    if |bookings| > 0 {
      var init := bookings[..|bookings| - 1];
      var last := bookings[|bookings| - 1];
      RemoveBookingsCount(init, id);
      assert bookings == init + [last];
      assert multiset(bookings) == multiset(init) + multiset{last};
    }
  }

  /** As `RemoveBookingsConcat`, for users. */
  lemma {:induction false} RemoveUsersConcat(xs: seq<User>, ys: seq<User>, id: int)
    ensures RemoveUsersWithId(xs + ys, id) == RemoveUsersWithId(xs, id) + RemoveUsersWithId(ys, id)
  {
    if |ys| == 0 {
      assert xs + ys == xs;
    } else {
      var init := ys[..|ys| - 1];
      var last := ys[|ys| - 1];
      var kept := if last.id == id then [] else [last];
      assert ys == init + [last];
      calc {
        RemoveUsersWithId(xs + ys, id);
        { assert xs + ys == (xs + init) + [last]; }
        RemoveUsersWithId((xs + init) + [last], id);
        { RemoveUsersSnoc(xs + init, last, id); }
        RemoveUsersWithId(xs + init, id) + kept;
        { RemoveUsersConcat(xs, init, id); }
        (RemoveUsersWithId(xs, id) + RemoveUsersWithId(init, id)) + kept;
        RemoveUsersWithId(xs, id) + (RemoveUsersWithId(init, id) + kept);
        { RemoveUsersSnoc(init, last, id); }
        RemoveUsersWithId(xs, id) + RemoveUsersWithId(ys, id);
      }
    }
  }

  /** Removing from a list with one more user at the end: that user is kept
      exactly when its id differs. */
  lemma RemoveUsersSnoc(xs: seq<User>, u: User, id: int)
    ensures RemoveUsersWithId(xs + [u], id) == RemoveUsersWithId(xs, id) + (if u.id == id then [] else [u])
  {
    assert (xs + [u])[..|xs|] == xs;
  }

  /** A single user is kept exactly when its id differs. */
  lemma RemoveUsersSingle(u: User, id: int)
    ensures RemoveUsersWithId([u], id) == if u.id == id then [] else [u]
  {
    assert [u][..0] == [];
  }

  /** Counted with multiplicity, removal keeps every user with another id as often as
      it occurred and drops every user with the given id. */
  lemma {:induction false} RemoveUsersCount(users: seq<User>, id: int)
    ensures forall u: User :: multiset(RemoveUsersWithId(users, id))[u] == if u.id == id then 0 else multiset(users)[u]
  {
    if |users| > 0 {
      var init := users[..|users| - 1];
      var last := users[|users| - 1];
      RemoveUsersCount(init, id);
      assert users == init + [last];
      assert multiset(users) == multiset(init) + multiset{last};
    }
  }

  /** `List.remove(b)`: drops the first element equal to `b`, if any. */
  function RemoveFirst(bookings: seq<Booking>, b: Booking): (r: seq<Booking>)
    ensures b !in bookings ==> r == bookings
    ensures b in bookings ==> |r| == |bookings| - 1
  {
    if |bookings| == 0 then []
    else if bookings[0] == b then bookings[1..]
    else [bookings[0]] + RemoveFirst(bookings[1..], b)
  }

  /** When the first occurrence of `b` is at position k, removing `b` cuts exactly
      that position out. */
  lemma {:induction false} RemoveFirstAt(bookings: seq<Booking>, b: Booking, k: int)
    requires 0 <= k < |bookings| && bookings[k] == b && b !in bookings[..k]
    ensures RemoveFirst(bookings, b) == bookings[..k] + bookings[k + 1..]
  {
    if k > 0 {
      assert bookings[0] in bookings[..k];
      assert bookings[1..][..k - 1] == bookings[1..k];
      RemoveFirstAt(bookings[1..], b, k - 1);
      assert bookings[..k] == [bookings[0]] + bookings[1..k];
    }
  }

  /** Removing then re-appending a booking keeps the same bookings, with the same
      multiplicities. */
  lemma RemoveFirstThenAppend(bookings: seq<Booking>, b: Booking, k: int)
    requires 0 <= k < |bookings| && bookings[k] == b && b !in bookings[..k]
    ensures multiset(RemoveFirst(bookings, b) + [b]) == multiset(bookings)
  {
    RemoveFirstAt(bookings, b, k);
    assert bookings == bookings[..k] + [b] + bookings[k + 1..];
  }
}
