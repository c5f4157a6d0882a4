/** The reservation workflow over the in-memory tables: createReservation
    (main.go:220-267), listAvailableRoomsForTime (main.go:274-307) and the
    menu loop of main and displayMainMenu (main.go:77-79, 82-127, 326-344).
    The database handle becomes a ReservationService object whose rooms are
    fixed and whose reservations table only grows. */
module Service {
  import opened Schedule
  import opened Availability
  import opened Rooms
  import opened Dates
  import opened Menus

  // ---------------------------------------------------------------------
  // createReservation's gate

  /** The checks of createReservation in their order (main.go:234-257): the
      year guard, the room-name lookup, the availability check. Ok carries the
      room id the new row is inserted with. */
  function Decide(rooms: seq<Room>, table: seq<Reservation>, req: Request): (r: Result<int, Rejection>)
    ensures r == Err(YearOutOfRange(req.date.year)) <==> !(1 <= req.date.year <= 9999)
    ensures r == Err(NoSuchRoom(req.roomName)) <==>
              1 <= req.date.year <= 9999 && forall i :: 0 <= i < |rooms| ==> rooms[i].name != req.roomName
    ensures r.Err? ==> r.error in {YearOutOfRange(req.date.year), NoSuchRoom(req.roomName), RoomUnavailable}
    ensures r.Ok? ==> 1 <= req.date.year <= 9999 &&
                      (exists i :: 0 <= i < |rooms| && rooms[i].name == req.roomName && rooms[i].id == r.value) &&
                      IsRoomAvailable(table, r.value, req.date, req.start, req.end)
  {
    match ParseDate(req.date)
    case Err(why) => Err(why)
    case Ok(date) =>
      match FindRoomId(rooms, req.roomName)
      case None => Err(NoSuchRoom(req.roomName))
      case Some(id) =>
        if IsRoomAvailable(table, id, date, req.start, req.end) then Ok(id) else Err(RoomUnavailable)
  }

  /** With unique room names and an accepted year, a request for an existing
      room is accepted with that room's id exactly when the window check
      passes, and refused as unavailable otherwise. */
  lemma DecideForNamedRoom(rooms: seq<Room>, table: seq<Reservation>, req: Request, i: int)
    requires UniqueNames(rooms) && 0 <= i < |rooms| && rooms[i].name == req.roomName
    requires 1 <= req.date.year <= 9999
    ensures Decide(rooms, table, req) ==
              if IsRoomAvailable(table, rooms[i].id, req.date, req.start, req.end) then Ok(rooms[i].id)
              else Err(RoomUnavailable)
  {
    FindRoomIdOfNamedRoom(rooms, i);
  }

  /** A row that createReservation could have inserted after the rows
      `before`: a year in range, a room that exists, and a window the
      availability check let through. */
  ghost predicate Admitted(rooms: seq<Room>, before: seq<Reservation>, row: Reservation)
  {
    1 <= row.date.year <= 9999 &&
    (exists i :: 0 <= i < |rooms| && rooms[i].id == row.roomId) &&
    IsRoomAvailable(before, row.roomId, row.date, row.start, row.end)
  }

  // ---------------------------------------------------------------------
  // listAvailableRoomsForTime's filter

  /** The rooms, in room-list order, that the point check finds free at
      instant t on the date. */
  function RoomsFreeAt(rooms: seq<Room>, table: seq<Reservation>, date: Date, t: Minute): (r: seq<Room>)
    ensures |r| <= |rooms|
    ensures forall room :: room in r <==> room in rooms && IsRoomAvailableForTimeSlot(table, room.id, date, t)
  {
    if rooms == [] then []
    else
      var last := rooms[|rooms| - 1];
      var rest := RoomsFreeAt(rooms[..|rooms| - 1], table, date, t);
      assert forall room :: room in rooms <==> room in rooms[..|rooms| - 1] || room == last;
      rest + (if IsRoomAvailableForTimeSlot(table, last.id, date, t) then [last] else [])
  }

  /** `a` is `b` with some elements left out: the elements of `a` occur in `b`
      in the same order. */
  predicate IsSubsequence(a: seq<Room>, b: seq<Room>)
    decreases |b|
  {
    if a == [] then true
    else if b == [] then false
    else (a[|a| - 1] == b[|b| - 1] && IsSubsequence(a[..|a| - 1], b[..|b| - 1])) || IsSubsequence(a, b[..|b| - 1])
  }

  /** A subsequence stays one when the longer sequence grows at its end. */
  lemma {:induction false} SubsequenceOfLonger(a: seq<Room>, b: seq<Room>, x: Room)
    requires IsSubsequence(a, b)
    ensures IsSubsequence(a, b + [x])
  {
    assert (b + [x])[..|b|] == b;
  }

  /** The free rooms keep the order of the room list. */
  lemma {:induction false} FreeRoomsKeepOrder(rooms: seq<Room>, table: seq<Reservation>, date: Date, t: Minute)
    ensures IsSubsequence(RoomsFreeAt(rooms, table, date, t), rooms)
  {
    if rooms != [] {
      var init := rooms[..|rooms| - 1];
      var last := rooms[|rooms| - 1];
      var rest := RoomsFreeAt(init, table, date, t);
      FreeRoomsKeepOrder(init, table, date, t);
      assert init + [last] == rooms;
      if IsRoomAvailableForTimeSlot(table, last.id, date, t) {
        var r := rest + [last];
        assert r[..|r| - 1] == rest;
      } else {
        assert RoomsFreeAt(rooms, table, date, t) == rest;
        SubsequenceOfLonger(rest, init, last);
      }
    }
  }

  // ---------------------------------------------------------------------
  // The menu loop's input

  /** One thing the user enters: a menu choice, the date and time asked for
      after choice 1, or the reservation form asked for after choice 2. */
  datatype Entry = MenuChoice(n: int) | SlotQuery(date: Date, time: Minute) | BookingForm(request: Request)

  /** How a session ends: the user quit, a fatal error ended the process, or
      the entries ran out. */
  datatype SessionEnd = Quit | Aborted | InputExhausted

  /** The number fmt.Scanln stores for an entry at a menu prompt: an entry that
      is not a number leaves the choice at its zero value. */
  function ChoiceOf(e: Entry): (n: int)
    ensures e.MenuChoice? ==> n == e.n
  {
    if e.MenuChoice? then e.n else 0
  }

  /** AUTO_INCREMENT: an id above every id in the table. */
  function NextFreeId(table: seq<Reservation>): (n: int)
    ensures forall i :: 0 <= i < |table| ==> table[i].id < n
  {
    if table == [] then 1
    else
      var rest := NextFreeId(table[1..]);
      assert forall i :: 1 <= i < |table| ==> table[i] == table[1..][i - 1];
      if table[0].id + 1 > rest then table[0].id + 1 else rest
  }

  /** No two rows share an id. */
  predicate DistinctIds(table: seq<Reservation>)
  {
    forall i, j :: 0 <= i < j < |table| ==> table[i].id != table[j].id
  }

  /** The database: a fixed rooms table and an append-only reservations
      table. */
  class ReservationService {
    const rooms: seq<Room>
    var reservations: seq<Reservation>
    var nextId: int

    ghost predicate Valid()
      reads this
    {
      UniqueNames(rooms) && DistinctIds(reservations) &&
      forall i :: 0 <= i < |reservations| ==> reservations[i].id < nextId
    }

    constructor (rooms: seq<Room>, reservations: seq<Reservation>)
      requires UniqueNames(rooms) && DistinctIds(reservations)
      ensures Valid()
      ensures this.rooms == rooms && this.reservations == reservations
    {
      this.rooms := rooms;
      this.reservations := reservations;
      nextId := NextFreeId(reservations);
    }

    /** createReservation: check, then insert. On any refusal the table is
        left as it was; on acceptance exactly one row is appended, carrying
        the resolved room id and the requested date and times. */
    method CreateReservation(req: Request) returns (outcome: Result<Reservation, Rejection>)
      requires Valid()
      modifies this
      ensures Valid()
      ensures match Decide(rooms, old(reservations), req)
              case Err(why) =>
                outcome == Err(why) && reservations == old(reservations) && nextId == old(nextId)
              case Ok(id) =>
                outcome == Ok(Reservation(old(nextId), id, req.date, req.start, req.end)) &&
                reservations == old(reservations) + [outcome.value] && nextId == old(nextId) + 1
      ensures outcome.Ok? ==> Admitted(rooms, old(reservations), outcome.value)
    {
      var parsed := ParseDate(req.date);
      if parsed.Err? {
        outcome := Err(parsed.error);
        return;
      }
      var found := FindRoomId(rooms, req.roomName);
      if found.None? {
        outcome := Err(NoSuchRoom(req.roomName));
        return;
      }
      var roomId := found.value;
      if !IsRoomAvailable(reservations, roomId, parsed.value, req.start, req.end) {
        outcome := Err(RoomUnavailable);
        return;
      }
      var row := Reservation(nextId, roomId, parsed.value, req.start, req.end);
      reservations := reservations + [row];
      nextId := nextId + 1;
      outcome := Ok(row);
    }

    /** listAvailableRoomsForTime: the rooms the point check finds free at
        instant t on the date, in room-list order. */
    method ListAvailableRoomsForTime(date: Date, t: Minute) returns (available: seq<Room>)
      ensures available == RoomsFreeAt(rooms, reservations, date, t)
      ensures forall room :: room in available <==> room in rooms && IsRoomAvailableForTimeSlot(reservations, room.id, date, t)
      ensures |available| <= |rooms|
      ensures IsSubsequence(available, rooms)
    {
      available := [];
      var i := 0;
      while i < |rooms|
        invariant 0 <= i <= |rooms|
        invariant available == RoomsFreeAt(rooms[..i], reservations, date, t)
      {
        var room := rooms[i];
        if IsRoomAvailableForTimeSlot(reservations, room.id, date, t) {
          available := available + [room];
        }
        assert rooms[..i + 1][..i] == rooms[..i];
        i := i + 1;
      }
      assert rooms[..i] == rooms;
      FreeRoomsKeepOrder(rooms, reservations, date, t);
    }

    /** The main loop (main.go:77-79) with the navigation menu's retry
        (main.go:340-342) written as a loop over the screen. Entries are
        consumed one per prompt. The reservations table only grows, and every
        row added passed createReservation's checks against the rows before
        it. The session quits only on choice 5 at the main menu or choice 2 at
        the navigation menu. */
    method Run(entries: seq<Entry>) returns (ending: SessionEnd, consumed: nat)
      requires Valid()
      modifies this
      ensures Valid()
      ensures consumed <= |entries|
      ensures ending == InputExhausted ==> consumed == |entries|
      ensures ending == Quit ==> 0 < consumed && ChoiceOf(entries[consumed - 1]) in {2, 5}
      ensures old(reservations) <= reservations
      ensures forall k :: |old(reservations)| <= k < |reservations| ==> Admitted(rooms, reservations[..k], reservations[k])
    {
      var screen := MainMenu;
      var i := 0;
      ending := InputExhausted;
      while i < |entries| && screen != Exited
        invariant 0 <= i <= |entries|
        invariant Valid()
        invariant screen != Exited <==> ending == InputExhausted
        invariant ending == Quit ==> 0 < i && ChoiceOf(entries[i - 1]) in {2, 5}
        invariant old(reservations) <= reservations
        invariant forall k :: |old(reservations)| <= k < |reservations| ==> Admitted(rooms, reservations[..k], reservations[k])
      {
        var choice := ChoiceOf(entries[i]);
        i := i + 1;
        var created := false;
        var fatal := false;
        if screen == MainMenu {
          var action := MainMenuAction(choice);
          if action == Dispatch(Operation.ListRoomsForTime) {
            // an entry that is not a date and time fails time.Parse: log.Fatal
            if i < |entries| && entries[i].SlotQuery? {
              var listed := ListAvailableRoomsForTime(entries[i].date, entries[i].time);
              i := i + 1;
            } else {
              fatal := true;
            }
          } else if action == Dispatch(Operation.CreateReservation) {
            if i < |entries| && entries[i].BookingForm? {
              ghost var before := reservations;
              var outcome := CreateReservation(entries[i].request);
              i := i + 1;
              created := outcome.Ok?;
              // an unknown room name is fatal in createReservation
              fatal := outcome.Err? && outcome.error.NoSuchRoom?;
              if created {
                assert reservations[..|before|] == before;
              }
            } else {
              fatal := true;
            }
          }
          // choices 3 and 4 call the empty cancelReservation and viewReservations
        }
        if fatal {
          screen, ending := Exited, Aborted;
        } else {
          StepExitsOnlyByQuit(screen, choice, created);
          screen := Step(screen, choice, created);
          if screen == Exited {
            ending := Quit;
          }
        }
      }
      consumed := i;
    }
  }
}
