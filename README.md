# Bar layout editor — verified model

A Dafny model of the editing core of the bar layout editor (`src/App.tsx`):
the page keeps a list of rooms (named rectangles on a canvas) and a list of
tables (seat-count markers recorded against the room that was selected when
they were added), a selected room and a selected table, and the table and the
room currently being dragged. Buttons add rooms and tables, a click selects,
a mouse-down starts a drag, a mouse-move puts whatever is being dragged at the
pointer's canvas-relative position, a mouse-up ends every drag, and a seat
control sets the seats of the selected table.

Files:

- `decimal.dfy` (module `Decimal`): the decimal rendering of the room counter
  used in default room names, and its inverse.
- `layout.dfy` (module `Layout`): the `Room` and `Table` records, the
  defaults, and the pure list rewrites the handlers build (spread-append and
  `map` with a conditional copy), with lemmas: length and order kept, matching
  entities rewritten exactly, every other entity untouched, absent ids change
  nothing, idempotence, id distinctness kept under a fresh-id precondition,
  and default room names that never repeat.
- `editor.dfy` (module `BarEditor`): class `Editor` with the six state slots
  as fields and one method per handler, each stating the whole new state.
  Its invariant `Valid()` says default room names follow position and every
  table has an offered seat count (2, 4, 6 or 8).
- `scenarios.dfy` (module `Scenarios`): interaction sequences from the initial
  state, each with its exact outcome.

Behaviour of the code worth noting:

- A mouse-down on an entity only starts its drag; selection happens on the
  separate click event (`src/App.tsx:186-187`, `234-235`). So `StartTableDrag`
  does not select, and `Scenarios.MouseDownDoesNotSelect` shows it.
- New rooms are named `"Кімната N"`, with N the room count + 1 (`src/App.tsx:36`).
- The main hall (id 1) is selected from the start and nothing clears a
  selection, so "add table with no room selected" cannot arise from the
  initial state; the guard is still modelled (`AppendTable`, case `None`) and
  `Scenarios.AddTableAtStart` shows the table landing in room 1.
- Both drag slots can be set at once, and one move then places both entities
  at the same point (`Scenarios.DragRoomAndTable`).

## Model

| member | source | states |
|---|---|---|
| Decimal.Show | src/App.tsx:36 | the room number's text is a non-empty string of decimal digits with no leading zero |
| Decimal.ValueOfShow | src/App.tsx:36 | reading the printed number back gives the number |
| Decimal.ShowInjective | src/App.tsx:36 | different numbers print differently |
| Layout.RoomNameInjective | src/App.tsx:36 | two default room names are equal only for equal counters |
| Layout.AppendRoomSpec | src/App.tsx:31-43 | adding a room appends exactly one room at the end with the given id, name "Кімната " + (old length + 1), size 250×180 at (100,100); earlier rooms unchanged and in order |
| Layout.AppendRoomKeepsDistinct | src/App.tsx:32-42 | with a fresh id, room ids stay pairwise distinct |
| Layout.AppendTableSpec | src/App.tsx:55-62 | no selected room: tables unchanged; otherwise exactly one table appended at (150,150) with 4 seats and roomId the selected room, earlier tables unchanged |
| Layout.AppendTableKeepsDistinct | src/App.tsx:56-60 | with a fresh id, table ids stay pairwise distinct |
| Layout.MoveRoomPointwise | src/App.tsx:46-52 | the rewrite keeps length and order and treats each room on its own |
| Layout.MoveRoomFrame | src/App.tsx:46-52 | rooms with the id end at exactly (x,y) with id, name, width, height kept; all other rooms untouched |
| Layout.MoveRoomAbsent | src/App.tsx:46-52 | an id no room has leaves the list equal to before |
| Layout.MoveRoomIdempotent | src/App.tsx:46-52 | applying the same position update twice equals applying it once |
| Layout.MoveRoomKeepsDistinct | src/App.tsx:46-52 | a position update keeps room ids distinct |
| Layout.MoveTablePointwise | src/App.tsx:65-71 | the rewrite keeps length and order and treats each table on its own |
| Layout.MoveTableFrame | src/App.tsx:65-71 | tables with the id end at exactly (x,y) with id, seats, roomId kept; all other tables untouched |
| Layout.MoveTableAbsent | src/App.tsx:65-71 | an id no table has leaves the list equal to before |
| Layout.MoveTableIdempotent | src/App.tsx:65-71 | applying the same position update twice equals applying it once |
| Layout.MoveTableKeepsDistinct | src/App.tsx:65-71 | a position update keeps table ids distinct |
| Layout.SetSeatsPointwise | src/App.tsx:74-80 | the rewrite keeps length and order and treats each table on its own |
| Layout.SetSeatsFrame | src/App.tsx:74-80 | only the seats of tables with the id change, to exactly the given count, with no validation; x, y, roomId, id and other tables unchanged |
| Layout.SetSeatsAbsent | src/App.tsx:74-80 | an id no table has leaves the list equal to before |
| Layout.SetSeatsIdempotent | src/App.tsx:74-80 | applying the same seat update twice equals applying it once |
| Layout.SetSeatsKeepsDistinct | src/App.tsx:74-80 | a seat update keeps table ids distinct |
| Layout.AppendTableKeepsSeats | src/App.tsx:59 | a new table's 4 seats keep every seat count among 2, 4, 6, 8 |
| Layout.MoveTableKeepsSeats | src/App.tsx:65-71 | moving tables keeps every seat count among the offered ones |
| Layout.SetSeatsKeepsSeats | src/App.tsx:74-80 | a seat update keeps the counts among the offered ones exactly when it sets an offered count or matches no table; the list itself validates nothing |
| Layout.FindTable | src/App.tsx:92 | finds the first table with the id, and nothing exactly when no table has it |
| Layout.AppendRoomKeepsNames | src/App.tsx:31-43 | adding a room keeps room i named "Кімната i+1" after the main hall |
| Layout.MoveRoomKeepsNames | src/App.tsx:46-52 | moving a room keeps the positional names |
| Layout.NamesByPositionDistinct | src/App.tsx:21-43 | default naming never gives two rooms the same name |
| BarEditor.Editor.constructor | src/App.tsx:21-28 | initial state: the main hall alone, no tables, room 1 selected, no table selected, nothing dragged |
| BarEditor.Editor.RoomNamesDistinct | src/App.tsx:21-43 | in a valid editor no two rooms share a name |
| BarEditor.Editor.AddRoom | src/App.tsx:31-43 | rooms become the appended list; every other slot unchanged; a fresh id keeps room ids distinct |
| BarEditor.Editor.AddTable | src/App.tsx:55-62 | tables become the guarded append for the selected room (unchanged when none); every other slot unchanged |
| BarEditor.Editor.UpdateRoomPosition | src/App.tsx:46-52 | rooms become the position rewrite; every other slot unchanged |
| BarEditor.Editor.UpdateTablePosition | src/App.tsx:65-71 | tables become the position rewrite; every other slot unchanged |
| BarEditor.Editor.UpdateSeats | src/App.tsx:74-80 | tables become the seat rewrite; every other slot unchanged; the seat-count invariant survives exactly when the count is offered or no table has the id |
| BarEditor.Editor.SelectRoom | src/App.tsx:142 | sets the selected room and leaves the selected table, entities and drags unchanged |
| BarEditor.Editor.SelectTable | src/App.tsx:152 | sets the selected table and leaves the selected room, entities and drags unchanged |
| BarEditor.Editor.SeatEditor | src/App.tsx:90-92 | the seat control is hidden exactly when no table is selected; it shows no value exactly when no table has the selected id; a shown value is the seats of the first table with that id |
| BarEditor.Editor.ChooseSeats | src/App.tsx:90-98 | a seat choice from {2,4,6,8} is applied only when a table is selected, to that id, and every table with that id gets exactly that count; selection and drags unchanged |
| BarEditor.Editor.StartRoomDrag | src/App.tsx:141 | sets only the dragged room; selection, entities and the dragged table unchanged |
| BarEditor.Editor.StartTableDrag | src/App.tsx:151 | sets only the dragged table; selection, entities and the dragged room unchanged |
| BarEditor.Editor.MouseUp | src/App.tsx:115-118 | clears both drag slots and nothing else |
| BarEditor.Editor.MouseMove | src/App.tsx:119-135 | every dragged table and room ends at exactly (clientX − left, clientY − top), both when both slots are set; nothing moves when nothing is dragged; selection and drag slots unchanged |
| BarEditor.ReleaseThenMove | src/App.tsx:115-135 | a mouse-up followed by any mouse-move leaves rooms, tables and selection as they were, with both drag slots cleared |
| Scenarios.AddTableAtStart | src/App.tsx:25 | from the initial state, "add table" creates one table at (150,150) with 4 seats in room 1 |
| Scenarios.AddTwoRooms | src/App.tsx:36 | two added rooms are named "Кімната 2" and "Кімната 3" after the main hall |
| Scenarios.DragAndRelease | src/App.tsx:115-135 | a table dragged to (200,220) stays there after release and a further move |
| Scenarios.ChooseSixSeats | src/App.tsx:90-98 | choosing 6 seats for the selected table changes only that table |
| Scenarios.MouseDownDoesNotSelect | src/App.tsx:151 | a mouse-down on a table leaves the seat control hidden |
| Scenarios.DragRoomAndTable | src/App.tsx:121-134 | with a room and a table both being dragged, one move puts both at the same point |

## Left out

- Rendering: the JSX, styles, the SVG canvas and the `Room`/`Table` view components (`src/App.tsx:82-114`, `137-259`), including selection highlighting; the model exposes the state they read.
- `getBoundingClientRect` and the DOM event objects: the pointer's viewport position and the canvas's top-left corner are integer parameters of `MouseMove`.
- `Date.now()` ids: the new entity's id is a parameter of `AddRoom` and `AddTable`. The code does not guarantee distinct ids; the model proves distinctness is kept only when the caller supplies a fresh id.
- `parseInt` on the seat control's option text: the choice is modelled directly as one of the offered values 2, 4, 6, 8 (`SeatChoice`).
- JavaScript `number` semantics: coordinates and sizes are unbounded integers, not floating point.
- React scheduling, batching and stale closures: each handler is one atomic sequential step on the current state.
- The seat control's change event can only fire while the control is shown, that is while a table is selected; `ChooseSeats` models the unreachable case as a no-op rather than as a precondition.
