# Planning-Manager reservation core, modelled in Dafny

Planning-Manager is a console room-reservation manager backed by MySQL. Its
logic lives in the reservation-table code of `main.go`. This project models
that code over an in-memory table of reservations:

- the two availability queries: the window check of `isRoomAvailable` and
  the point check of `isRoomAvailableForTimeSlot`, each a `COUNT(*)` whose
  `WHERE` clause is written out row by row;
- the year guard of `parseDate`;
- the room-name lookup of `getRoomIDByName`;
- the check-then-insert of `createReservation`, as a method on a
  `ReservationService` object that holds the rooms table and an append-only
  reservations table;
- the filter of `listAvailableRoomsForTime`, as a loop over the room list;
- the main-menu and navigation-menu switches, and the main loop with the
  navigation retry written as an explicit loop over the current screen.

Times of day are minutes since midnight (`Schedule.Minute`, 0 to 1439).
Dates are already-parsed `(year, month, day)` triples. A `log.Fatal` or an
error return inside an operation becomes a `Rejection` value: the operation
reports it and leaves the table untouched. In the session loop, the fatal
cases end the session with `Aborted`.

Files: `schedule.dfy` (entities), `dates.dfy`, `availability.dfy`,
`rooms.dfy`, `menus.dfy`, `service.dfy` (workflow and the service object),
`scenarios.dfy` (worked examples).

## What the proofs show about the source

- The window check is not a half-open overlap test. For a proper window
  `s < e`, a booking blocks the request exactly when the two half-open
  windows overlap and the booking does not lie strictly inside `[s, e)`
  (`ConflictIsOverlapUnlessEnclosed`). An existing 09:15-09:45 booking
  therefore does not stop a 09:00-10:00 request (`EnclosedBookingWitness`).
- The point check blocks an instant equal to a booking's end, since
  `start_time < t AND end_time >= t` holds there (`EndInstantBlocked`). For
  well-formed bookings it blocks exactly the closed interval
  `[start, end]` (`SlotBlockedIffWithinClosed`). An instant equal to a
  booking's end is therefore not free.
- Neither the window check nor `createReservation` requires `start < end`.
  The model does not require it either.

## Model

| member | source | states |
|---|---|---|
| `Dates.ParseDate` | main.go:183-194 | a parsed date is accepted exactly when its year is in [1, 9999] and is then returned unchanged; otherwise the error names the year |
| `Dates.ParseDateBoundaries` | main.go:189-191 | years 0 and 10000 are refused; 0001-01-01 and 9999-12-31 pass |
| `Availability.ConflictCount` | main.go:130 | the `COUNT(*)` is at most the table size and is zero exactly when no row satisfies the `WHERE` clause |
| `Availability.IsRoomAvailable` | main.go:128-135 | available exactly when no same-room, same-date row holds the requested start in [start, end) or the requested end in (start, end] |
| `Availability.IsRoomAvailableForTimeSlot` | main.go:308-325 | available exactly when no same-room, same-date row has the instant in [start, end) or in (start, end] |
| `Availability.CountSeesOnlyRoomAndDate` | main.go:130 | the count over the whole table equals the count over that room's rows for that date |
| `Availability.OtherRoomsAndDatesIrrelevant` | main.go:130-134 | rows for other rooms or dates never change either check's answer |
| `Availability.UnrelatedRowIrrelevant` | main.go:130-134 | appending a row for another room or date leaves both checks unchanged |
| `Availability.ConflictIsOverlapUnlessEnclosed` | main.go:130 | for s < e a row clashes exactly when it overlaps [s, e) half-open and does not lie strictly inside it |
| `Availability.SameStartBlocked` | main.go:130 | a request starting where a well-formed booking starts is refused |
| `Availability.StartAtEndNotBlocked` | main.go:130 | a request starting where a booking ends, and ending later, does not clash with it |
| `Availability.DisjointWindowAvailable` | main.go:130-134 | a proper window disjoint from every same-room, same-date booking is available |
| `Availability.OverlapNotEnclosedBlocked` | main.go:130-134 | a proper window overlapping a booking that is not strictly inside it is refused |
| `Availability.EnclosedBookingMissed` | main.go:130-134 | if every same-room, same-date booking lies strictly inside [s, e), the room is reported available although all of them overlap |
| `Availability.EnclosedBookingWitness` | main.go:130 | an existing 09:15-09:45 booking does not block a 09:00-10:00 request |
| `Availability.SlotIsDegenerateWindow` | main.go:312-319 | the point check is the window check with the instant bound as both start and end |
| `Availability.SlotBlockedIffWithinClosed` | main.go:312-324 | for well-formed bookings, an instant is blocked exactly when some same-room, same-date booking has start <= t <= end |
| `Availability.InsideInstantBlocked` | main.go:312-324 | an instant strictly inside a booking is unavailable |
| `Availability.EndInstantBlocked` | main.go:314 | the instant at which a well-formed booking ends is unavailable |
| `Rooms.FindRoomId` | main.go:136-143 | the lookup fails exactly when no room has the name; a found id belongs to a room of that name |
| `Rooms.FindRoomIdOfNamedRoom` | main.go:138 | with unique names the lookup returns the id of the one room with that name |
| `Menus.MainMenuAction` | main.go:94-126 | choices 1-4 dispatch to the operation listed under that number, 5 quits, any other value is an invalid option |
| `Menus.MainMenuDispatchesListedOperation` | main.go:84-120 | choosing an operation's printed number dispatches to that operation |
| `Menus.NavigationMenuAction` | main.go:334-343 | 1 returns to the main menu, 2 quits, any other value redisplays the navigation menu |
| `Menus.AfterMainMenu` | main.go:94-127 | only quitting leaves the main loop; only a created reservation leads to the navigation menu |
| `Menus.AfterNavigationMenu` | main.go:334-343 | the navigation menu exits only on quit and returns to the main menu only on choice 1 |
| `Menus.StepExitsOnlyByQuit` | main.go:121-123 | the session exits only on 5 at the main menu or 2 at the navigation menu; an invalid choice stays on the same screen |
| `Service.Decide` | main.go:234-257 | the year guard, then the name lookup, then the window check decide; acceptance carries the id of a room with the requested name whose window check passed |
| `Service.DecideForNamedRoom` | main.go:249-257 | with unique names and a valid year, a request for an existing room is accepted with that room's id exactly when the window check passes |
| `Service.RoomsFreeAt` | main.go:288-298 | the listed rooms are exactly the rooms the point check finds free, and there are no more of them than rooms |
| `Service.FreeRoomsKeepOrder` | main.go:288-298 | the listed rooms are a subsequence of the room list |
| `Service.ReservationService.CreateReservation` | main.go:220-267 | on a bad year, an unknown room or a clash the table and the id counter are unchanged; otherwise exactly one row with the resolved room id, date and times is appended |
| `Service.ReservationService.ListAvailableRoomsForTime` | main.go:274-307 | the loop yields exactly the rooms free at the instant, in room-list order, at most one per room |
| `Service.ReservationService.Run` | main.go:77-79 | the table only grows; every added row passed createReservation's checks against the rows before it; the session quits only on a choice of 5 or 2 |
| `Scenarios.AlphaRequests` | main.go:234-257 | Alpha booked 09:00-10:00: 09:30-10:30 is refused, 10:00-11:00 is accepted, an unknown room and year 0 are refused |
| `Scenarios.AlphaListing` | main.go:288-298 | at 09:30 and at 10:00 only the unbooked room is listed |

## Left out

- Loading the configuration file and opening and pinging the database (main.go:37-64): file and network I/O.
- `time.Parse` with the layouts "2006-01-02" and "15:04": the model takes already-parsed dates and minute values.
- How the MySQL driver compares a formatted string (main.go:130) or a `time.Time` (main.go:319) with the stored times: both are modelled as comparisons of minutes.
- Rooms.FindRoomId: room names are matched by exact string equality, whereas `WHERE name = ?` (main.go:138) compares under the column's collation, which may ignore case, accents or trailing spaces; the table schema is not part of this model. `UniqueNames` accordingly means uniqueness under exact equality.
- Console printing, `fmt.Scanln`, `os.Exit`, and the print-only `listAvailableRooms` and `checkAvailabilityForRoom` (main.go:145-218).
- `cancelReservation` and `viewReservations` have empty bodies; the session loop dispatches to them and nothing happens.
- Database errors from `QueryRow`, `Query`, `Scan` and `Exec`, which end the process with `log.Fatal`: the model's table operations cannot fail.
- The race between the availability check and the insert against other writers: concurrency is outside a sequential model.
- Row order of `SELECT` without `ORDER BY`: the model takes the first room in list order as the lookup result, and lists rooms in list order.
- Reservation ids: the database assigns them; the model counts them up from one above the largest id in the table.
- The recursion of `displayNavigationOptions` into `displayMainMenu` and into itself: the model uses a loop over the current screen, which visits the same menus in the same order without growing a call stack.
- Service.ReservationService.Run: does not state the exact sequence of screens visited. An entry of the wrong kind after choice 1 or 2 ends the session as `Aborted`, standing for an input that `time.Parse` rejects; the source's non-fatal path for a malformed date string inside `createReservation` is covered only for out-of-range years. When the entries run out the model stops, while the source would keep reading zero and printing "invalid option".
