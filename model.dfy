/** The three entities: users and bookings are values, objectives are objects whose
    availability flag is switched in place. */
module Model {
  import opened Text
  import opened Dates

  /** A user record: id, first name, last name, email. */
  datatype User = User(id: Int32, firstName: string, lastName: string, email: string)

  /** An immutable booking record. Its equality is component-wise, which is what
      `List.remove(booking)` relies on when a booking is cancelled. Construction checks
      nothing: the references and the date are whatever the caller passes. */
  datatype Booking = Booking(id: Int32, userId: Int32, objectiveId: Int32, date: LocalDate)

  /** A snapshot of an objective's five fields. */
  datatype ObjectiveRow = ObjectiveRow(id: Int32, title: string, period: string, coins: Int32, available: bool)

  /** An objective: four final fields and the one mutable availability flag. */
  class Objective {
    const id: Int32
    const title: string
    const period: string
    const coins: Int32
    var available: bool

    constructor (id: Int32, title: string, period: string, coins: Int32, available: bool)
      ensures Row() == ObjectiveRow(id, title, period, coins, available)
    {
      this.id := id;
      this.title := title;
      this.period := period;
      this.coins := coins;
      this.available := available;
    }

    function Row(): ObjectiveRow
      reads this
    {
      ObjectiveRow(id, title, period, coins, available)
    }

    /** `isAvailable` afterwards returns `v`; nothing but the flag is touched. */
    method SetAvailable(v: bool)
      modifies this`available
      ensures available == v
      ensures Row() == old(Row()).(available := v)
    {
      available := v;
    }
  }

  /** The snapshots of a list of objectives, in list order. */
  function RowsOf(objectives: seq<Objective>): (rows: seq<ObjectiveRow>)
    reads objectives
    ensures |rows| == |objectives|
    ensures forall i | 0 <= i < |objectives| :: rows[i] == objectives[i].Row()
  {
    seq(|objectives|, i reads objectives requires 0 <= i < |objectives| => objectives[i].Row())
  }

  /** No object appears twice in the list, so flipping one flag changes one position. */
  predicate Distinct(objectives: seq<Objective>) {
    forall i, j | 0 <= i < j < |objectives| :: objectives[i] != objectives[j]
  }
}
