/** Worked scenarios: room Alpha (capacity 4) holds a 09:00-10:00 booking on
    2024-01-10; room Beta has none. */
module Scenarios {
  import opened Schedule
  import opened Availability
  import opened Rooms
  import opened Service

  const Day := Date(2024, 1, 10)
  const Alpha := Room(1, "Alpha", 4)
  const Beta := Room(2, "Beta", 6)
  const Booked := Reservation(1, 1, Day, At(9, 0), At(10, 0))

  /** 09:30-10:30 is refused; 10:00-11:00 starts where the booking ends and
      is accepted for Alpha's id. */
  lemma AlphaRequests()
    ensures Decide([Alpha, Beta], [Booked], Request("Alpha", Day, At(9, 30), At(10, 30))) == Err(RoomUnavailable)
    ensures Decide([Alpha, Beta], [Booked], Request("Alpha", Day, At(10, 0), At(11, 0))) == Ok(1)
    ensures Decide([Alpha, Beta], [Booked], Request("Gamma", Day, At(10, 0), At(11, 0))) == Err(NoSuchRoom("Gamma"))
    ensures Decide([Alpha, Beta], [Booked], Request("Alpha", Date(0, 1, 10), At(10, 0), At(11, 0))) == Err(YearOutOfRange(0))
  {
    assert UniqueNames([Alpha, Beta]);
    DecideForNamedRoom([Alpha, Beta], [Booked], Request("Alpha", Day, At(9, 30), At(10, 30)), 0);
    DecideForNamedRoom([Alpha, Beta], [Booked], Request("Alpha", Day, At(10, 0), At(11, 0)), 0);
  }

  /** At 09:30 only Beta is listed; at 10:00, the instant Alpha's booking
      ends, Alpha is still not listed. */
  lemma AlphaListing()
    ensures RoomsFreeAt([Alpha, Beta], [Booked], Day, At(9, 30)) == [Beta]
    ensures RoomsFreeAt([Alpha, Beta], [Booked], Day, At(10, 0)) == [Beta]
  {
    assert [Alpha, Beta][..1] == [Alpha];
  }

  /** The same scenario driven through the service object. */
  method AlphaSession()
  {
    assert UniqueNames([Alpha, Beta]);
    var service := new ReservationService([Alpha, Beta], [Booked]);
    AlphaRequests();
    var first := service.CreateReservation(Request("Alpha", Day, At(9, 30), At(10, 30)));
    assert first == Err(RoomUnavailable) && service.reservations == [Booked];
    var second := service.CreateReservation(Request("Alpha", Day, At(10, 0), At(11, 0)));
    assert second.Ok? && second.value.roomId == 1 && |service.reservations| == 2;
    var free := service.ListAvailableRoomsForTime(Day, At(9, 30));
    assert Alpha !in free && Beta in free;
  }
}
