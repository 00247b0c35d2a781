/** The editor component's state: the six slots the page keeps (rooms,
    tables, the selected room and table, the table and room being dragged)
    and one method per event handler that overwrites them. Each handler is
    one atomic step. */
module BarEditor {
  import opened Layout

  /** What the seat control shows: nothing while no table is selected,
      otherwise the seats of the first table with the selected id, if any. */
  datatype SeatControl = Hidden | Shown(value: Option<int>)

  class Editor {
    var rooms: seq<Room>
    var tables: seq<Table>
    var selectedRoom: Option<int>
    var selectedTable: Option<int>
    var draggingTable: Option<int>
    var draggingRoom: Option<int>

    /** Default room names follow the rooms' positions, and every table has
        one of the seat counts the seat control offers. */
    ghost predicate Valid()
      reads this
    {
      NamesByPosition(rooms) && SeatsOffered(tables)
    }

    /** In a valid editor no two rooms share a name. */
    lemma RoomNamesDistinct()
      requires Valid()
      ensures forall i, j :: 0 <= i < j < |rooms| ==> rooms[i].name != rooms[j].name
    {
      NamesByPositionDistinct(rooms);
    }

    function Selection(): (Option<int>, Option<int>)
      reads this
    {
      (selectedRoom, selectedTable)
    }

    function Dragging(): (Option<int>, Option<int>)
      reads this
    {
      (draggingRoom, draggingTable)
    }

    constructor ()
      ensures Valid()
      ensures rooms == [MainHall] && tables == []
      ensures selectedRoom == Some(1) && selectedTable == None
      ensures draggingTable == None && draggingRoom == None
    {
      rooms := [MainHall];
      tables := [];
      selectedRoom := Some(1);
      selectedTable := None;
      draggingTable := None;
      draggingRoom := None;
    }

    // ------------------------------------------------------ entity store

    /** "Add room"; id stands for the timestamp the page would take. */
    method AddRoom(id: int)
      requires Valid()
      modifies this
      ensures Valid()
      ensures rooms == AppendRoom(old(rooms), id)
      ensures tables == old(tables) && Selection() == old(Selection()) && Dragging() == old(Dragging())
      ensures DistinctRoomIds(old(rooms)) && !HasRoom(old(rooms), id) ==> DistinctRoomIds(rooms)
    {
      AppendRoomKeepsNames(rooms, id);
      if DistinctRoomIds(rooms) && !HasRoom(rooms, id) {
        AppendRoomKeepsDistinct(rooms, id);
      }
      rooms := AppendRoom(rooms, id);
    }

    /** "Add table": a no-op while no room is selected. */
    method AddTable(id: int)
      requires Valid()
      modifies this
      ensures Valid()
      ensures tables == AppendTable(old(tables), old(selectedRoom), id)
      ensures old(selectedRoom).None? ==> tables == old(tables)
      ensures rooms == old(rooms) && Selection() == old(Selection()) && Dragging() == old(Dragging())
      ensures DistinctTableIds(old(tables)) && !HasTable(old(tables), id) ==> DistinctTableIds(tables)
    {
      if DistinctTableIds(tables) && !HasTable(tables, id) {
        AppendTableKeepsDistinct(tables, selectedRoom, id);
      }
      AppendTableKeepsSeats(tables, selectedRoom, id);
      tables := AppendTable(tables, selectedRoom, id);
    }

    method UpdateRoomPosition(id: int, x: int, y: int)
      requires Valid()
      modifies this
      ensures Valid()
      ensures rooms == MoveRoom(old(rooms), id, x, y)
      ensures tables == old(tables) && Selection() == old(Selection()) && Dragging() == old(Dragging())
    {
      MoveRoomKeepsNames(rooms, id, x, y);
      rooms := MoveRoom(rooms, id, x, y);
    }

    method UpdateTablePosition(id: int, x: int, y: int)
      requires Valid()
      modifies this
      ensures Valid()
      ensures tables == MoveTable(old(tables), id, x, y)
      ensures rooms == old(rooms) && Selection() == old(Selection()) && Dragging() == old(Dragging())
    {
      MoveTableKeepsSeats(tables, id, x, y);
      tables := MoveTable(tables, id, x, y);
    }

    /** Sets the seats of the tables with the id to any count; the editor
        stays valid exactly when the count is an offered one or no table has
        the id. */
    method UpdateSeats(id: int, seats: int)
      requires Valid()
      modifies this
      ensures Valid() <==> IsSeatChoice(seats) || !HasTable(old(tables), id)
      ensures tables == SetSeats(old(tables), id, seats)
      ensures rooms == old(rooms) && Selection() == old(Selection()) && Dragging() == old(Dragging())
    {
      SetSeatsKeepsSeats(tables, id, seats);
      tables := SetSeats(tables, id, seats);
    }

    // ------------------------------------------------------ selection

    /** A click on a room. */
    method SelectRoom(id: int)
      requires Valid()
      modifies this
      ensures Valid()
      ensures selectedRoom == Some(id) && selectedTable == old(selectedTable)
      ensures rooms == old(rooms) && tables == old(tables) && Dragging() == old(Dragging())
    {
      selectedRoom := Some(id);
    }

    /** A click on a table. */
    method SelectTable(id: int)
      requires Valid()
      modifies this
      ensures Valid()
      ensures selectedTable == Some(id) && selectedRoom == old(selectedRoom)
      ensures rooms == old(rooms) && tables == old(tables) && Dragging() == old(Dragging())
    {
      selectedTable := Some(id);
    }

    /** What the seat control displays. */
    function SeatEditor(): (c: SeatControl)
      reads this
      ensures c.Hidden? <==> selectedTable.None?
      ensures c == Shown(None) <==> selectedTable.Some? && !HasTable(tables, selectedTable.value)
      ensures c.Shown? && c.value.Some? ==>
        exists i :: 0 <= i < |tables| && tables[i].id == selectedTable.value && tables[i].seats == c.value.value
          && forall j :: 0 <= j < i ==> tables[j].id != selectedTable.value
    {
      if selectedTable.None? then Hidden
      else match FindTable(tables, selectedTable.value)
        case None => Shown(None)
        case Some(k) => Shown(Some(tables[k].seats))
    }

    /** A choice in the seat control, which exists only while a table is
        selected; it sets the seats of the selected table. */
    method ChooseSeats(choice: SeatChoice)
      requires Valid()
      modifies this
      ensures Valid()
      ensures tables == if old(selectedTable).Some? then SetSeats(old(tables), old(selectedTable).value, choice) else old(tables)
      ensures |tables| == |old(tables)|
      ensures old(selectedTable).Some? ==>
        forall i :: 0 <= i < |tables| && old(tables)[i].id == old(selectedTable).value ==> tables[i].seats == choice
      ensures rooms == old(rooms) && Selection() == old(Selection()) && Dragging() == old(Dragging())
    {
      if selectedTable.Some? {
        SetSeatsFrame(tables, selectedTable.value, choice);
        UpdateSeats(selectedTable.value, choice);
      }
    }

    // ------------------------------------------------------ dragging

    /** A mouse-down on a room: only starts the drag, selects nothing. */
    method StartRoomDrag(id: int)
      requires Valid()
      modifies this
      ensures Valid()
      ensures draggingRoom == Some(id) && draggingTable == old(draggingTable)
      ensures rooms == old(rooms) && tables == old(tables) && Selection() == old(Selection())
    {
      draggingRoom := Some(id);
    }

    /** A mouse-down on a table: only starts the drag, selects nothing. */
    method StartTableDrag(id: int)
      requires Valid()
      modifies this
      ensures Valid()
      ensures draggingTable == Some(id) && draggingRoom == old(draggingRoom)
      ensures rooms == old(rooms) && tables == old(tables) && Selection() == old(Selection())
    {
      draggingTable := Some(id);
    }

    /** A mouse-up anywhere on the canvas ends every drag. */
    method MouseUp()
      requires Valid()
      modifies this
      ensures Valid()
      ensures draggingTable == None && draggingRoom == None
      ensures rooms == old(rooms) && tables == old(tables) && Selection() == old(Selection())
    {
      draggingTable := None;
      draggingRoom := None;
    }

    /** A mouse move at viewport point (clientX, clientY) over a canvas whose
        top-left corner is at viewport point (left, top): whatever is being
        dragged, table and room alike, is put at the canvas-relative point. */
    method MouseMove(clientX: int, clientY: int, left: int, top: int)
      requires Valid()
      modifies this
      ensures Valid()
      ensures tables == if draggingTable.Some? then MoveTable(old(tables), draggingTable.value, clientX - left, clientY - top) else old(tables)
      ensures rooms == if draggingRoom.Some? then MoveRoom(old(rooms), draggingRoom.value, clientX - left, clientY - top) else old(rooms)
      ensures |tables| == |old(tables)| && |rooms| == |old(rooms)|
      ensures draggingTable.Some? ==> forall i :: 0 <= i < |tables| && old(tables)[i].id == draggingTable.value ==>
        tables[i].x == clientX - left && tables[i].y == clientY - top
      ensures draggingRoom.Some? ==> forall i :: 0 <= i < |rooms| && old(rooms)[i].id == draggingRoom.value ==>
        rooms[i].x == clientX - left && rooms[i].y == clientY - top
      ensures draggingTable.None? && draggingRoom.None? ==> tables == old(tables) && rooms == old(rooms)
      ensures Selection() == old(Selection()) && Dragging() == old(Dragging())
    {
      var relX, relY := clientX - left, clientY - top;
      if draggingTable.Some? {
        MoveTableFrame(tables, draggingTable.value, relX, relY);
        UpdateTablePosition(draggingTable.value, relX, relY);
      }
      if draggingRoom.Some? {
        MoveRoomFrame(rooms, draggingRoom.value, relX, relY);
        UpdateRoomPosition(draggingRoom.value, relX, relY);
      }
    }
  }

  /** A release followed by any move leaves every entity where it was. */
  method ReleaseThenMove(e: Editor, clientX: int, clientY: int, left: int, top: int)
    requires e.Valid()
    modifies e
    ensures e.Valid()
    ensures e.rooms == old(e.rooms) && e.tables == old(e.tables) && e.Selection() == old(e.Selection())
    ensures e.draggingTable == None && e.draggingRoom == None
  {
    e.MouseUp();
    e.MouseMove(clientX, clientY, left, top);
  }
}
