/** Whole interaction sequences run against a fresh editor, from the state
    the page starts in. */
module Scenarios {
  import opened Layout
  import opened BarEditor

  /** The main hall is selected from the start, so "add table" creates a
      table in it straight away. */
  method AddTableAtStart(tableId: int) returns (created: seq<Table>)
    ensures created == [Table(tableId, 150, 150, 4, 1)]
  {
    var e := new Editor();
    e.AddTable(tableId);
    created := e.tables;
  }

  /** Two added rooms are named after their positions. */
  method AddTwoRooms(first: int, second: int) returns (names: seq<string>)
    ensures names == ["Основний зал", "Кімната 2", "Кімната 3"]
  {
    var e := new Editor();
    e.AddRoom(first);
    e.AddRoom(second);
    assert e.rooms[1].name == RoomName(2) == "Кімната 2";
    assert e.rooms[2].name == RoomName(3) == "Кімната 3";
    names := [e.rooms[0].name, e.rooms[1].name, e.rooms[2].name];
  }

  /** Dragging a table to canvas point (200, 220), releasing, then moving
      the pointer to (400, 400) leaves the table at (200, 220). */
  method DragAndRelease(tableId: int, left: int, top: int) returns (t: Table)
    ensures t == Table(tableId, 200, 220, 4, 1)
  {
    var e := new Editor();
    e.AddTable(tableId);
    e.StartTableDrag(tableId);
    e.MouseMove(200 + left, 220 + top, left, top);
    e.MouseUp();
    e.MouseMove(400 + left, 400 + top, left, top);
    t := e.tables[0];
  }

  /** Choosing 6 seats for the selected table changes that table only. */
  method ChooseSixSeats(a: int, b: int) returns (ts: seq<Table>)
    requires a != b
    ensures ts == [Table(a, 150, 150, 6, 1), Table(b, 150, 150, 4, 1)]
  {
    var e := new Editor();
    e.AddTable(a);
    e.AddTable(b);
    e.SelectTable(a);
    e.ChooseSeats(6);
    ts := e.tables;
  }

  /** A mouse-down alone selects nothing: the seat control stays hidden. */
  method MouseDownDoesNotSelect(tableId: int) returns (c: SeatControl)
    ensures c == Hidden
  {
    var e := new Editor();
    e.AddTable(tableId);
    e.StartTableDrag(tableId);
    c := e.SeatEditor();
  }

  /** Mouse-downs on a room and then a table, with no mouse-up between,
      leave both dragged: one move puts both at the same point. */
  method DragRoomAndTable(tableId: int, clientX: int, clientY: int, left: int, top: int)
    returns (room: Room, table: Table)
    ensures room.x == table.x == clientX - left && room.y == table.y == clientY - top
  {
    var e := new Editor();
    e.AddTable(tableId);
    e.StartRoomDrag(1);
    e.StartTableDrag(tableId);
    e.MouseMove(clientX, clientY, left, top);
    room, table := e.rooms[0], e.tables[0];
  }
}
