/** The two availability queries of main.go over an in-memory reservations
    table. Both are a SELECT COUNT(*) whose WHERE clause is modelled by
    Conflicts; a room is available when the count is zero. */
module Availability {
  import opened Schedule

  /** The WHERE clause of isRoomAvailable (main.go:130) for one row: same room,
      same date, and either the stored window holds the requested start
      (start_time <= s AND end_time > s) or it holds the requested end
      (start_time < e AND end_time >= e). */
  predicate Conflicts(row: Reservation, roomId: int, date: Date, s: Minute, e: Minute)
  {
    row.roomId == roomId && row.date == date &&
    ((row.start <= s && row.end > s) || (row.start < e && row.end >= e))
  }

  /** SELECT COUNT(*) ... WHERE Conflicts over the table. */
  function ConflictCount(table: seq<Reservation>, roomId: int, date: Date, s: Minute, e: Minute): (n: nat)
    ensures n <= |table|
    ensures n == 0 <==> forall i :: 0 <= i < |table| ==> !Conflicts(table[i], roomId, date, s, e)
  {
    if table == [] then 0
    else
      var rest := ConflictCount(table[1..], roomId, date, s, e);
      assert forall i :: 1 <= i < |table| ==> table[i] == table[1..][i - 1];
      (if Conflicts(table[0], roomId, date, s, e) then 1 else 0) + rest
  }

  /** isRoomAvailable (main.go:128-135): available exactly when no row of the
      table for this room and date holds the requested start in
      [start, end) or the requested end in (start, end]. */
  function IsRoomAvailable(table: seq<Reservation>, roomId: int, date: Date, s: Minute, e: Minute): (r: bool)
    ensures r <==> forall i :: 0 <= i < |table| && table[i].roomId == roomId && table[i].date == date ==>
                     !(table[i].start <= s < table[i].end) && !(table[i].start < e <= table[i].end)
  {
    ConflictCount(table, roomId, date, s, e) == 0
  }

  /** isRoomAvailableForTimeSlot (main.go:308-325): the same query with the one
      instant t bound to all four time parameters. Available exactly when no
      row for this room and date has t in [start, end) or t in (start, end]. */
  function IsRoomAvailableForTimeSlot(table: seq<Reservation>, roomId: int, date: Date, t: Minute): (r: bool)
    ensures r <==> forall i :: 0 <= i < |table| && table[i].roomId == roomId && table[i].date == date ==>
                     !(table[i].start <= t < table[i].end) && !(table[i].start < t <= table[i].end)
  {
    ConflictCount(table, roomId, date, t, t) == 0
  }

  /** The rows of the table that belong to one room and one date. */
  function RowsFor(table: seq<Reservation>, roomId: int, date: Date): (r: seq<Reservation>)
    ensures |r| <= |table|
    ensures forall row :: row in r <==> row in table && row.roomId == roomId && row.date == date
  {
    if table == [] then []
    else
      var rest := RowsFor(table[1..], roomId, date);
      assert forall row :: row in table <==> row == table[0] || row in table[1..];
      (if table[0].roomId == roomId && table[0].date == date then [table[0]] else []) + rest
  }

  /** The half-open windows [b.start, b.end) and [s, e) share a minute. */
  predicate Overlaps(b: Reservation, s: Minute, e: Minute)
  {
    b.start < e && s < b.end
  }

  // ---------------------------------------------------------------------
  // Which rows matter

  /** Counting over a concatenation adds the counts. */
  lemma {:induction false} ConflictCountAppend(a: seq<Reservation>, b: seq<Reservation>, roomId: int, date: Date, s: Minute, e: Minute)
    ensures ConflictCount(a + b, roomId, date, s, e) == ConflictCount(a, roomId, date, s, e) + ConflictCount(b, roomId, date, s, e)
  {
    if a == [] {
      assert a + b == b;
    } else {
      assert (a + b)[0] == a[0] && (a + b)[1..] == a[1..] + b;
      ConflictCountAppend(a[1..], b, roomId, date, s, e);
    }
  }

  /** Only the rows of the requested room and date are counted: the count over
      the table equals the count over those rows alone. */
  lemma {:induction false} CountSeesOnlyRoomAndDate(table: seq<Reservation>, roomId: int, date: Date, s: Minute, e: Minute)
    ensures ConflictCount(RowsFor(table, roomId, date), roomId, date, s, e) == ConflictCount(table, roomId, date, s, e)
  {
    if table != [] {
      CountSeesOnlyRoomAndDate(table[1..], roomId, date, s, e);
      var head := if table[0].roomId == roomId && table[0].date == date then [table[0]] else [];
      ConflictCountAppend(head, RowsFor(table[1..], roomId, date), roomId, date, s, e);
    }
  }

  /** Reservations for other rooms or other dates never affect either check. */
  lemma OtherRoomsAndDatesIrrelevant(table: seq<Reservation>, roomId: int, date: Date, s: Minute, e: Minute, t: Minute)
    ensures IsRoomAvailable(table, roomId, date, s, e) == IsRoomAvailable(RowsFor(table, roomId, date), roomId, date, s, e)
    ensures IsRoomAvailableForTimeSlot(table, roomId, date, t) == IsRoomAvailableForTimeSlot(RowsFor(table, roomId, date), roomId, date, t)
  {
    CountSeesOnlyRoomAndDate(table, roomId, date, s, e);
    CountSeesOnlyRoomAndDate(table, roomId, date, t, t);
  }

  /** Adding a row for another room or another date leaves both checks as
      they were. */
  lemma UnrelatedRowIrrelevant(table: seq<Reservation>, row: Reservation, roomId: int, date: Date, s: Minute, e: Minute, t: Minute)
    requires row.roomId != roomId || row.date != date
    ensures IsRoomAvailable(table + [row], roomId, date, s, e) == IsRoomAvailable(table, roomId, date, s, e)
    ensures IsRoomAvailableForTimeSlot(table + [row], roomId, date, t) == IsRoomAvailableForTimeSlot(table, roomId, date, t)
  {
    ConflictCountAppend(table, [row], roomId, date, s, e);
    ConflictCountAppend(table, [row], roomId, date, t, t);
  }

  // ---------------------------------------------------------------------
  // The window check against half-open overlap

  /** For a proper window (s < e), a row clashes under the window check exactly
      when it is for the same room and date, its half-open window overlaps
      [s, e), and it does not lie strictly inside [s, e). */
  lemma ConflictIsOverlapUnlessEnclosed(b: Reservation, roomId: int, date: Date, s: Minute, e: Minute)
    requires s < e
    ensures Conflicts(b, roomId, date, s, e) <==>
              b.roomId == roomId && b.date == date && Overlaps(b, s, e) && !(s < b.start && b.end < e)
  {
  }

  /** A request that starts where an existing booking starts is refused. */
  lemma SameStartBlocked(table: seq<Reservation>, i: int, e: Minute)
    requires 0 <= i < |table| && table[i].start < table[i].end
    ensures !IsRoomAvailable(table, table[i].roomId, table[i].date, table[i].start, e)
  {
  }

  /** A request that starts where an existing booking ends, and ends later, is
      not blocked by that booking. */
  lemma StartAtEndNotBlocked(b: Reservation, e: Minute)
    requires e > b.end
    ensures !Conflicts(b, b.roomId, b.date, b.end, e)
  {
  }

  /** A proper window disjoint from every same-room, same-date booking is
      available. */
  lemma DisjointWindowAvailable(table: seq<Reservation>, roomId: int, date: Date, s: Minute, e: Minute)
    requires s < e
    requires forall i :: 0 <= i < |table| && table[i].roomId == roomId && table[i].date == date ==> !Overlaps(table[i], s, e)
    ensures IsRoomAvailable(table, roomId, date, s, e)
  {
  }

  /** A proper window overlapping a same-room, same-date booking that does not
      lie strictly inside it is refused. */
  lemma OverlapNotEnclosedBlocked(table: seq<Reservation>, i: int, s: Minute, e: Minute)
    requires s < e && 0 <= i < |table|
    requires Overlaps(table[i], s, e) && !(s < table[i].start && table[i].end < e)
    ensures !IsRoomAvailable(table, table[i].roomId, table[i].date, s, e)
  {
    ConflictIsOverlapUnlessEnclosed(table[i], table[i].roomId, table[i].date, s, e);
  }

  /** The window check does not see bookings strictly inside the requested
      window: if every same-room, same-date booking lies strictly inside
      [s, e), the room is reported available although each of them overlaps. */
  lemma EnclosedBookingMissed(table: seq<Reservation>, roomId: int, date: Date, s: Minute, e: Minute)
    requires forall i :: 0 <= i < |table| && table[i].roomId == roomId && table[i].date == date ==>
               s < table[i].start < table[i].end < e
    ensures IsRoomAvailable(table, roomId, date, s, e)
    ensures forall i :: 0 <= i < |table| && table[i].roomId == roomId && table[i].date == date ==> Overlaps(table[i], s, e)
  {
  }

  /** Witness: an existing 09:15-09:45 booking does not stop a 09:00-10:00
      request for the same room and day, though the two overlap. */
  lemma EnclosedBookingWitness()
    ensures var booked := Reservation(1, 7, Date(2024, 1, 10), At(9, 15), At(9, 45));
            IsRoomAvailable([booked], 7, Date(2024, 1, 10), At(9, 0), At(10, 0)) &&
            Overlaps(booked, At(9, 0), At(10, 0))
  {
    var booked := Reservation(1, 7, Date(2024, 1, 10), At(9, 15), At(9, 45));
    EnclosedBookingMissed([booked], 7, Date(2024, 1, 10), At(9, 0), At(10, 0));
  }

  // ---------------------------------------------------------------------
  // The point check

  /** The point check is the window check of the empty window [t, t]. */
  lemma SlotIsDegenerateWindow(table: seq<Reservation>, roomId: int, date: Date, t: Minute)
    ensures IsRoomAvailableForTimeSlot(table, roomId, date, t) == IsRoomAvailable(table, roomId, date, t, t)
  {
  }

  /** For well-formed bookings (start < end) the point check blocks t exactly
      when some same-room, same-date booking has start <= t <= end: both
      ends are included. */
  lemma SlotBlockedIffWithinClosed(table: seq<Reservation>, roomId: int, date: Date, t: Minute)
    requires forall i :: 0 <= i < |table| ==> table[i].start < table[i].end
    ensures !IsRoomAvailableForTimeSlot(table, roomId, date, t) <==>
              exists i :: 0 <= i < |table| && table[i].roomId == roomId && table[i].date == date &&
                          table[i].start <= t <= table[i].end
  {
  }

  /** An instant strictly inside a booking is unavailable. */
  lemma InsideInstantBlocked(table: seq<Reservation>, i: int, t: Minute)
    requires 0 <= i < |table| && table[i].start < t < table[i].end
    ensures !IsRoomAvailableForTimeSlot(table, table[i].roomId, table[i].date, t)
  {
  }

  /** The instant at which a well-formed booking ends is reported unavailable
      (the clause start_time < t AND end_time >= t includes it). */
  lemma EndInstantBlocked(table: seq<Reservation>, i: int)
    requires 0 <= i < |table| && table[i].start < table[i].end
    ensures !IsRoomAvailableForTimeSlot(table, table[i].roomId, table[i].date, table[i].end)
  {
  }
}
