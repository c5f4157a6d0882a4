/** The rooms table as the reservation manager reads it: getRoomIDByName
    (main.go:136-143) as a lookup over the room list. */
module Rooms {
  import opened Schedule

  /** Room names identify rooms: no two rows share a name. */
  predicate UniqueNames(rooms: seq<Room>)
  {
    forall i, j :: 0 <= i < j < |rooms| ==> rooms[i].name != rooms[j].name
  }

  /** SELECT id FROM rooms WHERE name = ?, with the first matching row taken as
      QueryRow does. None stands for the sql.ErrNoRows error. */
  function FindRoomId(rooms: seq<Room>, name: string): (r: Option<int>)
    ensures r.None? <==> forall i :: 0 <= i < |rooms| ==> rooms[i].name != name
    ensures r.Some? ==> exists i :: 0 <= i < |rooms| && rooms[i].name == name && rooms[i].id == r.value
  {
    if rooms == [] then None
    else if rooms[0].name == name then Some(rooms[0].id)
    else
      var rest := FindRoomId(rooms[1..], name);
      assert forall i :: 1 <= i < |rooms| ==> rooms[i] == rooms[1..][i - 1];
      rest
  }

  /** With unique names the lookup yields the id of the one room of that name. */
  lemma {:induction false} FindRoomIdOfNamedRoom(rooms: seq<Room>, i: int)
    requires UniqueNames(rooms) && 0 <= i < |rooms|
    ensures FindRoomId(rooms, rooms[i].name) == Some(rooms[i].id)
  {
    if i > 0 {
      assert rooms[0].name != rooms[i].name;
      assert UniqueNames(rooms[1..]) by {
        forall a, b | 0 <= a < b < |rooms| - 1 ensures rooms[1..][a].name != rooms[1..][b].name {
          assert rooms[1..][a] == rooms[a + 1] && rooms[1..][b] == rooms[b + 1];
        }
      }
      FindRoomIdOfNamedRoom(rooms[1..], i - 1);
    }
  }
}
