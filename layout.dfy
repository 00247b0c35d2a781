/** The two kinds of entity of the bar layout editor and the pure list
    rewrites its handlers apply to them: append a new entity, or replace
    every entity whose id matches and keep the rest. */
module Layout {
  import Decimal

  datatype Option<T> = None | Some(value: T)

  /** A named rectangle on the canvas; (x, y) is its top-left corner in
      canvas coordinates. Sizes and coordinates are whole logical pixels. */
  datatype Room = Room(id: int, name: string, width: int, height: int, x: int, y: int)

  /** A table marker; roomId records the room selected when it was created
      and is never checked against the room list. */
  datatype Table = Table(id: int, x: int, y: int, seats: int, roomId: int)

  /** The seat counts the seat editor offers. */
  predicate IsSeatChoice(s: int) {
    s == 2 || s == 4 || s == 6 || s == 8
  }

  type SeatChoice = s: int | IsSeatChoice(s) witness 4

  /** Every table has one of the offered seat counts. */
  predicate SeatsOffered(tables: seq<Table>) {
    forall i :: 0 <= i < |tables| ==> IsSeatChoice(tables[i].seats)
  }

  /** The room the editor starts with. */
  const MainHall := Room(1, "Основний зал", 300, 200, 50, 50)

  const NewRoomWidth := 250
  const NewRoomHeight := 180
  const NewRoomX := 100
  const NewRoomY := 100
  const NewTableX := 150
  const NewTableY := 150
  const NewTableSeats := 4

  /** The default name of the n-th room. */
  function RoomName(n: nat): string {
    "Кімната " + Decimal.Show(n)
  }

  lemma RoomNameInjective(a: nat, b: nat)
    ensures RoomName(a) == RoomName(b) ==> a == b
  {
    var p := "Кімната ";
    if RoomName(a) == RoomName(b) {
      assert RoomName(a)[|p|..] == Decimal.Show(a);
      assert RoomName(b)[|p|..] == Decimal.Show(b);
      Decimal.ShowInjective(a, b);
    }
  }

  predicate HasRoom(rooms: seq<Room>, id: int) {
    exists i :: 0 <= i < |rooms| && rooms[i].id == id
  }

  predicate HasTable(tables: seq<Table>, id: int) {
    exists i :: 0 <= i < |tables| && tables[i].id == id
  }

  predicate DistinctRoomIds(rooms: seq<Room>) {
    forall i, j :: 0 <= i < j < |rooms| ==> rooms[i].id != rooms[j].id
  }

  predicate DistinctTableIds(tables: seq<Table>) {
    forall i, j :: 0 <= i < j < |tables| ==> tables[i].id != tables[j].id
  }

  // ---------------------------------------------------------------- adding

  /** The room list after "add room" with the new room's id. */
  function AppendRoom(rooms: seq<Room>, id: int): seq<Room> {
    rooms + [Room(id, RoomName(|rooms| + 1), NewRoomWidth, NewRoomHeight, NewRoomX, NewRoomY)]
  }

  lemma AppendRoomSpec(rooms: seq<Room>, id: int)
    ensures var r := AppendRoom(rooms, id);
      && |r| == |rooms| + 1
      && r[..|rooms|] == rooms
      && r[|rooms|].id == id
      && r[|rooms|].name == "Кімната " + Decimal.Show(|rooms| + 1)
      && r[|rooms|].width == 250 && r[|rooms|].height == 180
      && r[|rooms|].x == 100 && r[|rooms|].y == 100
  {
  }

  lemma AppendRoomKeepsDistinct(rooms: seq<Room>, id: int)
    requires DistinctRoomIds(rooms) && !HasRoom(rooms, id)
    ensures DistinctRoomIds(AppendRoom(rooms, id))
  {
    var r := AppendRoom(rooms, id);
    forall i, j | 0 <= i < j < |r| ensures r[i].id != r[j].id {
      if j == |rooms| {
        assert r[i] == rooms[i];
      }
    }
  }

  /** The table list after "add table": nothing happens unless a room is
      selected; the selected room's id is recorded without being checked. */
  function AppendTable(tables: seq<Table>, selectedRoom: Option<int>, id: int): seq<Table> {
    match selectedRoom
    case None => tables
    case Some(roomId) => tables + [Table(id, NewTableX, NewTableY, NewTableSeats, roomId)]
  }

  lemma AppendTableSpec(tables: seq<Table>, selectedRoom: Option<int>, id: int)
    ensures selectedRoom.None? ==> AppendTable(tables, selectedRoom, id) == tables
    ensures selectedRoom.Some? ==>
      var r := AppendTable(tables, selectedRoom, id);
      && |r| == |tables| + 1
      && r[..|tables|] == tables
      && r[|tables|] == Table(id, 150, 150, 4, selectedRoom.value)
  {
  }

  lemma AppendTableKeepsDistinct(tables: seq<Table>, selectedRoom: Option<int>, id: int)
    requires DistinctTableIds(tables) && !HasTable(tables, id)
    ensures DistinctTableIds(AppendTable(tables, selectedRoom, id))
  {
    var r := AppendTable(tables, selectedRoom, id);
    forall i, j | 0 <= i < j < |r| ensures r[i].id != r[j].id {
      if j == |tables| {
        assert r[i] == tables[i];
      }
    }
  }

  // ------------------------------------------------------- moving a room

  /** One room after a position update for id. */
  function PlaceRoom(room: Room, id: int, x: int, y: int): Room {
    if room.id == id then room.(x := x, y := y) else room
  }

  /** Every room whose id is id moves to (x, y); the order is kept. */
  function MoveRoom(rooms: seq<Room>, id: int, x: int, y: int): seq<Room> {
    if rooms == [] then [] else [PlaceRoom(rooms[0], id, x, y)] + MoveRoom(rooms[1..], id, x, y)
  }

  /** MoveRoom rewrites each room on its own. */
  lemma {:induction false} MoveRoomPointwise(rooms: seq<Room>, id: int, x: int, y: int)
    ensures |MoveRoom(rooms, id, x, y)| == |rooms|
    ensures forall i :: 0 <= i < |rooms| ==> MoveRoom(rooms, id, x, y)[i] == PlaceRoom(rooms[i], id, x, y)
  {
    if rooms != [] {
      MoveRoomPointwise(rooms[1..], id, x, y);
      var r := MoveRoom(rooms, id, x, y);
      forall i | 0 <= i < |rooms| ensures r[i] == PlaceRoom(rooms[i], id, x, y) {
        if i > 0 {
          assert r[i] == MoveRoom(rooms[1..], id, x, y)[i - 1];
        }
      }
    }
  }

  /** Matching rooms get exactly (x, y) and keep id, name and size; the
      others are untouched. */
  lemma {:induction false} MoveRoomFrame(rooms: seq<Room>, id: int, x: int, y: int)
    ensures var r := MoveRoom(rooms, id, x, y);
      && |r| == |rooms|
      && forall i :: 0 <= i < |rooms| ==>
        && r[i].id == rooms[i].id && r[i].name == rooms[i].name
        && r[i].width == rooms[i].width && r[i].height == rooms[i].height
        && (rooms[i].id == id ==> r[i].x == x && r[i].y == y)
        && (rooms[i].id != id ==> r[i] == rooms[i])
  {
    MoveRoomPointwise(rooms, id, x, y);
  }

  /** An id no room has leaves the list as it was. */
  lemma {:induction false} MoveRoomAbsent(rooms: seq<Room>, id: int, x: int, y: int)
    requires !HasRoom(rooms, id)
    ensures MoveRoom(rooms, id, x, y) == rooms
  {
    MoveRoomPointwise(rooms, id, x, y);
  }

  lemma {:induction false} MoveRoomIdempotent(rooms: seq<Room>, id: int, x: int, y: int)
    ensures MoveRoom(MoveRoom(rooms, id, x, y), id, x, y) == MoveRoom(rooms, id, x, y)
  {
    var once := MoveRoom(rooms, id, x, y);
    MoveRoomPointwise(rooms, id, x, y);
    MoveRoomPointwise(once, id, x, y);
  }

  lemma {:induction false} MoveRoomKeepsDistinct(rooms: seq<Room>, id: int, x: int, y: int)
    requires DistinctRoomIds(rooms)
    ensures DistinctRoomIds(MoveRoom(rooms, id, x, y))
  {
    MoveRoomPointwise(rooms, id, x, y);
  }

  // ------------------------------------------------------ moving a table

  function PlaceTable(table: Table, id: int, x: int, y: int): Table {
    if table.id == id then table.(x := x, y := y) else table
  }

  /** Every table whose id is id moves to (x, y); the order is kept. */
  function MoveTable(tables: seq<Table>, id: int, x: int, y: int): seq<Table> {
    if tables == [] then [] else [PlaceTable(tables[0], id, x, y)] + MoveTable(tables[1..], id, x, y)
  }

  lemma {:induction false} MoveTablePointwise(tables: seq<Table>, id: int, x: int, y: int)
    ensures |MoveTable(tables, id, x, y)| == |tables|
    ensures forall i :: 0 <= i < |tables| ==> MoveTable(tables, id, x, y)[i] == PlaceTable(tables[i], id, x, y)
  {
    if tables != [] {
      MoveTablePointwise(tables[1..], id, x, y);
      var r := MoveTable(tables, id, x, y);
      forall i | 0 <= i < |tables| ensures r[i] == PlaceTable(tables[i], id, x, y) {
        if i > 0 {
          assert r[i] == MoveTable(tables[1..], id, x, y)[i - 1];
        }
      }
    }
  }

  /** Matching tables get exactly (x, y) and keep id, seats and roomId; the
      others are untouched. */
  lemma {:induction false} MoveTableFrame(tables: seq<Table>, id: int, x: int, y: int)
    ensures var r := MoveTable(tables, id, x, y);
      && |r| == |tables|
      && forall i :: 0 <= i < |tables| ==>
        && r[i].id == tables[i].id && r[i].seats == tables[i].seats && r[i].roomId == tables[i].roomId
        && (tables[i].id == id ==> r[i].x == x && r[i].y == y)
        && (tables[i].id != id ==> r[i] == tables[i])
  {
    MoveTablePointwise(tables, id, x, y);
  }

  lemma {:induction false} MoveTableAbsent(tables: seq<Table>, id: int, x: int, y: int)
    requires !HasTable(tables, id)
    ensures MoveTable(tables, id, x, y) == tables
  {
    MoveTablePointwise(tables, id, x, y);
  }

  lemma {:induction false} MoveTableIdempotent(tables: seq<Table>, id: int, x: int, y: int)
    ensures MoveTable(MoveTable(tables, id, x, y), id, x, y) == MoveTable(tables, id, x, y)
  {
    var once := MoveTable(tables, id, x, y);
    MoveTablePointwise(tables, id, x, y);
    MoveTablePointwise(once, id, x, y);
  }

  lemma {:induction false} MoveTableKeepsDistinct(tables: seq<Table>, id: int, x: int, y: int)
    requires DistinctTableIds(tables)
    ensures DistinctTableIds(MoveTable(tables, id, x, y))
  {
    MoveTablePointwise(tables, id, x, y);
  }

  // ------------------------------------------------------ setting seats

  function SeatTable(table: Table, id: int, seats: int): Table {
    if table.id == id then table.(seats := seats) else table
  }

  /** Every table whose id is id gets the seat count; nothing validates it. */
  function SetSeats(tables: seq<Table>, id: int, seats: int): seq<Table> {
    if tables == [] then [] else [SeatTable(tables[0], id, seats)] + SetSeats(tables[1..], id, seats)
  }

  lemma {:induction false} SetSeatsPointwise(tables: seq<Table>, id: int, seats: int)
    ensures |SetSeats(tables, id, seats)| == |tables|
    ensures forall i :: 0 <= i < |tables| ==> SetSeats(tables, id, seats)[i] == SeatTable(tables[i], id, seats)
  {
    if tables != [] {
      SetSeatsPointwise(tables[1..], id, seats);
      var r := SetSeats(tables, id, seats);
      forall i | 0 <= i < |tables| ensures r[i] == SeatTable(tables[i], id, seats) {
        if i > 0 {
          assert r[i] == SetSeats(tables[1..], id, seats)[i - 1];
        }
      }
    }
  }

  /** Only the seats of matching tables change, to exactly the given count,
      whatever it is. */
  lemma {:induction false} SetSeatsFrame(tables: seq<Table>, id: int, seats: int)
    ensures var r := SetSeats(tables, id, seats);
      && |r| == |tables|
      && forall i :: 0 <= i < |tables| ==>
        && r[i].id == tables[i].id && r[i].x == tables[i].x && r[i].y == tables[i].y
        && r[i].roomId == tables[i].roomId
        && (tables[i].id == id ==> r[i].seats == seats)
        && (tables[i].id != id ==> r[i] == tables[i])
  {
    SetSeatsPointwise(tables, id, seats);
  }

  lemma {:induction false} SetSeatsAbsent(tables: seq<Table>, id: int, seats: int)
    requires !HasTable(tables, id)
    ensures SetSeats(tables, id, seats) == tables
  {
    SetSeatsPointwise(tables, id, seats);
  }

  lemma {:induction false} SetSeatsIdempotent(tables: seq<Table>, id: int, seats: int)
    ensures SetSeats(SetSeats(tables, id, seats), id, seats) == SetSeats(tables, id, seats)
  {
    var once := SetSeats(tables, id, seats);
    SetSeatsPointwise(tables, id, seats);
    SetSeatsPointwise(once, id, seats);
  }

  lemma {:induction false} SetSeatsKeepsDistinct(tables: seq<Table>, id: int, seats: int)
    requires DistinctTableIds(tables)
    ensures DistinctTableIds(SetSeats(tables, id, seats))
  {
    SetSeatsPointwise(tables, id, seats);
  }

  // ------------------------------------------------------ seat counts

  lemma AppendTableKeepsSeats(tables: seq<Table>, selectedRoom: Option<int>, id: int)
    requires SeatsOffered(tables)
    ensures SeatsOffered(AppendTable(tables, selectedRoom, id))
  {
  }

  lemma {:induction false} MoveTableKeepsSeats(tables: seq<Table>, id: int, x: int, y: int)
    requires SeatsOffered(tables)
    ensures SeatsOffered(MoveTable(tables, id, x, y))
  {
    MoveTablePointwise(tables, id, x, y);
  }

  /** A seat update keeps the offered seat counts only when it sets one of
      them: the list itself does not check the count. */
  lemma {:induction false} SetSeatsKeepsSeats(tables: seq<Table>, id: int, seats: int)
    requires SeatsOffered(tables)
    ensures SeatsOffered(SetSeats(tables, id, seats)) <==> IsSeatChoice(seats) || !HasTable(tables, id)
  {
    SetSeatsPointwise(tables, id, seats);
    if !IsSeatChoice(seats) && HasTable(tables, id) {
      var i :| 0 <= i < |tables| && tables[i].id == id;
      assert SetSeats(tables, id, seats)[i].seats == seats;
    }
  }

  // ------------------------------------------------------ looking up

  /** The index of the first table with the given id, as Array.find picks it. */
  function FindTable(tables: seq<Table>, id: int): (r: Option<nat>)
    ensures r.None? <==> !HasTable(tables, id)
    ensures r.Some? ==>
      && r.value < |tables| && tables[r.value].id == id
      && forall j :: 0 <= j < r.value ==> tables[j].id != id
  {
    if tables == [] then None
    else if tables[0].id == id then Some(0)
    else match FindTable(tables[1..], id)
      case None => None
      case Some(k) => Some(k + 1)
  }

  // ------------------------------------------------------ default names

  /** Room 0 carries the main hall's name and room i the name "Кімната i+1":
      what adding rooms one by one to the initial list produces. */
  predicate NamesByPosition(rooms: seq<Room>) {
    && |rooms| >= 1
    && rooms[0].name == MainHall.name
    && forall i :: 1 <= i < |rooms| ==> rooms[i].name == RoomName(i + 1)
  }

  lemma AppendRoomKeepsNames(rooms: seq<Room>, id: int)
    requires NamesByPosition(rooms)
    ensures NamesByPosition(AppendRoom(rooms, id))
  {
  }

  lemma {:induction false} MoveRoomKeepsNames(rooms: seq<Room>, id: int, x: int, y: int)
    requires NamesByPosition(rooms)
    ensures NamesByPosition(MoveRoom(rooms, id, x, y))
  {
    MoveRoomPointwise(rooms, id, x, y);
  }

  /** Default naming never gives two rooms the same name. */
  lemma NamesByPositionDistinct(rooms: seq<Room>)
    requires NamesByPosition(rooms)
    ensures forall i, j :: 0 <= i < j < |rooms| ==> rooms[i].name != rooms[j].name
  {
    forall i, j | 0 <= i < j < |rooms| ensures rooms[i].name != rooms[j].name {
      if i == 0 {
        assert rooms[j].name[0] == 'К';
      } else {
        RoomNameInjective(i + 1, j + 1);
      }
    }
  }
}
