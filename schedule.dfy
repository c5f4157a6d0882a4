/** The entities of the reservation manager: rooms, reservations, the values
    the console workflow reads, and the outcome types that replace the
    source's error returns and fatal exits. */
module Schedule {

  /** A time of day as minutes since midnight: what a "15:04" layout parses to
      (hours 0-23, minutes 0-59, seconds always zero). */
  type Minute = m: int | 0 <= m < 1440

  /** Minutes since midnight of hh:mm. */
  function At(hh: int, mm: int): (m: Minute)
    requires 0 <= hh < 24 && 0 <= mm < 60
    ensures m / 60 == hh && m % 60 == mm
  {
    60 * hh + mm
  }

  /** A calendar day as the "2006-01-02" layout parses it. Only the year is
      examined by the reservation manager itself. */
  datatype Date = Date(year: int, month: int, day: int)

  /** A row of the rooms table. */
  datatype Room = Room(id: int, name: string, capacity: int)

  /** A row of the reservations table: the reserved room, the day and the
      stored start and end times. */
  datatype Reservation = Reservation(id: int, roomId: int, date: Date, start: Minute, end: Minute)

  /** What createReservation reads from the console, already parsed. */
  datatype Request = Request(roomName: string, date: Date, start: Minute, end: Minute)

  /** Why a reservation was not created. */
  datatype Rejection =
    | YearOutOfRange(year: int)   // parseDate's range guard
    | NoSuchRoom(name: string)    // getRoomIDByName found no row
    | RoomUnavailable             // isRoomAvailable counted a clash

  datatype Option<+T> = None | Some(value: T)

  datatype Result<+T, +E> = Ok(value: T) | Err(error: E)
}
