# Vehicle: a verified model of an arcade side-scroller's core

The Vehicle demo (`Vehicle/vehicle.py`) is a small side-scrolling platformer. A
car drives over a tile map: walls, floors and two kinds of ramp are loaded from
a comma-separated grid. The left and right arrow keys accelerate the car
against drag. A camera scrolls the view so that the car stays inside a dead zone
of the 800×600 window.

This project models four parts of that program in Dafny and proves properties
of each.

- **Reading the map** (`get_map`).
  - Each line is stripped, split on commas and loses one trailing empty field.
  - Each field is converted with Python's `int()`.
  - The first bad field raises `ValueError`.
  - `str.strip`, `str.split` and `int()` are modelled with Python's own rules (modules `PyText`, `PyInt`). `int()` skips a narrower set of blanks than `str.strip()`: the ASCII separators U+001C to U+001F are whitespace to `strip()` but make `int()` raise.
  - The loop is `TileMap.GetMap`, proved equal to the specification `TileMap.ParseMap`.
- **Placing the walls** (`start_new_game`).
  - Every non-zero cell, in row-major order, becomes a wall.
  - Its image is `map_items[code - 1]`, using Python's list indexing, so negative codes wrap.
  - Its right edge is at `col * 70` and its top edge at `(15 - row) * 70`.
  - Codes 3 and 4 get a triangular collision polygon computed with Python's floor division.
  - A code with no image raises `IndexError`. The walls placed before that cell stay in the list.
  - The view is reset after every completed row.
  - The nested loops (`Game.MyAppWindow.StartNewGame`, `PlaceRow`) are proved equal to the specification `Walls.Place(Walls.GridCells(grid))`.
- **The arrow-key flags** (`on_key_press`, `on_key_release`).
- **One frame of `animate`.**
  - Drag, then acceleration with the left arrow taking priority.
  - Then the four scroll checks in the source's order, each seeing the view the previous one left.
  - Velocities are integers in tenths of a pixel per frame: DRAG 0.2, ACCL 0.5 and SPEED_CAP 15 are 2, 5 and 150, so every step is exact.

Two consequences of the code are worth stating outright:

- **The speed cap is soft.** The cap is tested before the push is added, so a
  car accelerating from rest reaches 15.2 pixels per frame at frame 50 and 15.4
  at frame 54 (`Motion.SoftCapExceeded`), but never 15.5
  (`Motion.VelocityBounded`).
- **Ramp directions.** Code 3's collision polygon has its high corner at the
  top-left, and code 4's at the top-right (`Walls.HitboxFor`).

The modules are:

- `Results`: Option, Result, and `ConvertEach`, a convert-every-item loop that stops at the first failure;
- `PyText`: strip, split, join;
- `PyInt`: `int()` and `str()` on integers;
- `TileMap`: `get_map`;
- `Walls`: cells, hit boxes and placement;
- `Motion`: keys, velocity, scrolling;
- `Game`: the `MyAppWindow` class, whose fields the methods update in place.

## Model

| member | source | states |
|---|---|---|
| Results.ConvertEach | Vehicle/vehicle.py:46-47 | converting every item in order, stopping at the first error; a success has one value per item, and `ConvertEachSpec` characterises it fully |
| Results.ConvertEachSpec | Vehicle/vehicle.py:46-47 | converting each field in order succeeds exactly when every field converts, then holds each field's value at its index; otherwise it fails with the error of the first field that does not convert |
| Results.ConvertEachAll | Vehicle/vehicle.py:46-47 | when every item converts, the result is exactly the list of the converted values |
| PyText.Strip | Vehicle/vehicle.py:40 | `str.strip()`: `strip(chars)` over the characters for which `str.isspace()` holds, never longer than the line; `StripSlice` characterises it |
| PyText.StripSlice | Vehicle/vehicle.py:40 | `strip(chars)`, and so `strip()`, returns a contiguous slice of the line: everything removed before and after it is in `chars`, and the result neither starts nor ends with a character of `chars` |
| PyText.StripNoSpace | Vehicle/vehicle.py:40 | a line without whitespace is unchanged by `strip()` and by stripping any smaller set of blanks, such as the one `int()` skips |
| PyText.StripKeepsChars | Vehicle/vehicle.py:40 | every character of the stripped line occurs in the line |
| PyText.Split | Vehicle/vehicle.py:41 | `str.split(sep)`: always at least one field; `SplitSpec` and `SplitJoin` characterise it as the inverse of `sep.join` |
| PyText.SplitSpec | Vehicle/vehicle.py:41 | no field of `split(",")` contains a comma, and joining the fields with commas gives back the line |
| PyText.SplitJoin | Vehicle/vehicle.py:41 | splitting undoes joining for at least one comma-free field |
| PyText.SplitTrailingSep | Vehicle/vehicle.py:41-44 | a trailing comma adds exactly one empty last field, the one `get_map` deletes |
| PyInt.ParseInt | Vehicle/vehicle.py:47 | `int()` with base 10: the field with `int()`'s own blanks stripped must be a sign and digit body; a rejected field raises ValueError carrying the field's text |
| PyInt.SeparatorNotBlank | Vehicle/vehicle.py:40-47 | the ASCII separators U+001C and U+001F, which `strip()` removes, make `int()` raise when they touch a literal |
| PyInt.ShowRoundTrip | Vehicle/vehicle.py:47 | `int(str(n)) == n` for every integer, negative ones included |
| PyInt.NoDigitIsError | Vehicle/vehicle.py:47 | a field with no digit at all, the empty field included, raises ValueError |
| PyInt.LeadingZerosAndBlanks | Vehicle/vehicle.py:47 | surrounding whitespace and leading zeros are accepted: `int(" 007\n") == 7` |
| PyInt.SingleUnderscore | Vehicle/vehicle.py:47 | a sign and an underscore between digits are accepted: `int("+1_0") == 10` |
| PyInt.DoubleUnderscore | Vehicle/vehicle.py:47 | two underscores in a row are rejected |
| PyInt.SignMustTouchDigits | Vehicle/vehicle.py:47 | whitespace between the sign and the digits is rejected |
| PyInt.DigitsLiteral | Vehicle/vehicle.py:47 | the decimal digits of a number, with or without a minus sign, are a literal for that number or its negation |
| TileMap.Fields | Vehicle/vehicle.py:40-44 | the fields of a line: its stripped split, minus at most one field; `FieldsShape` says which one |
| TileMap.FieldsShape | Vehicle/vehicle.py:40-44 | the fields of a line contain no comma, and at most one empty last field of the split is dropped |
| TileMap.SplitFields | Vehicle/vehicle.py:40-44 | strip, split and the deletion of an empty last field compute the line's fields |
| TileMap.ConvertRow | Vehicle/vehicle.py:46-47 | the in-place conversion loop returns the row of integer values, or the error of the first field `int()` rejects |
| TileMap.ParseLine | Vehicle/vehicle.py:40-47 | a parsed row has one value per field |
| TileMap.ParseMap | Vehicle/vehicle.py:35-49 | a parsed map has one row per line |
| TileMap.GetMap | Vehicle/vehicle.py:35-49 | the line-by-line loop computes the map, or the first error, as ParseMap does |
| TileMap.BlankLine | Vehicle/vehicle.py:40-45 | a blank line becomes an empty row |
| TileMap.RowRoundTrip | Vehicle/vehicle.py:39-48 | a row written as comma-separated integers reads back as the same row |
| TileMap.RowRoundTripTrailingComma | Vehicle/vehicle.py:39-48 | a non-empty row written with one trailing comma also reads back as the same row |
| TileMap.LoneComma | Vehicle/vehicle.py:41-47 | a line holding only a comma keeps one empty field and raises ValueError |
| TileMap.DoubleTrailingComma | Vehicle/vehicle.py:41-47 | a line ending in two commas always raises ValueError, since only one empty field is deleted |
| TileMap.MapRoundTrip | Vehicle/vehicle.py:35-49 | a grid written line by line reads back as the same grid |
| Walls.PaletteIndex | Vehicle/vehicle.py:91-102 | `map_items[code - 1]` exists exactly for codes -3 to 4, a negative index counting from the end of the list |
| Walls.PaletteInOrder | Vehicle/vehicle.py:102 | codes 1 to 4 select images 0 to 3 in order |
| Walls.HalfExtents | Vehicle/vehicle.py:107-113 | `w // 2 - (-w // 2) == w`, and the two halves are symmetric exactly when `w` is even |
| Walls.HitboxFor | Vehicle/vehicle.py:104-113 | codes 3 and 4, and only they, get a triangle: code 3 the top-left, bottom-right and bottom-left corners, code 4 the bottom-left, bottom-right and top-right corners |
| Walls.RampLegs | Vehicle/vehicle.py:106-113 | each ramp is a right triangle whose base is the sprite's whole width and whose vertical leg is its whole height, on the left for code 3 and on the right for code 4 |
| Walls.RampsMirror | Vehicle/vehicle.py:106-113 | for an even width the code 4 ramp is the code 3 ramp mirrored left to right |
| Walls.OddWidthNotMirrored | Vehicle/vehicle.py:107-113 | for a 71-pixel width the floor division breaks the mirror symmetry by one pixel |
| Walls.MakeWall | Vehicle/vehicle.py:102-116 | a cell gets a wall exactly when its code selects an image; the wall's image is `map_items[code - 1]` under Python's indexing, its size is that image's size and its collision polygon is HitboxFor of the code and size; otherwise IndexError is reported with the cell |
| Walls.WallPosition | Vehicle/vehicle.py:115-116 | a wall's right and top edges lie on the 70-pixel grid at its cell's column and at 15 minus its row |
| Walls.WallsApart | Vehicle/vehicle.py:115-116 | cells in different places get walls in different places |
| Walls.RowCells | Vehicle/vehicle.py:99-101 | the non-zero cells of one row, left to right, skipping zeros; `RowCellsExact` proves they are exactly those cells, strictly by column |
| Walls.GridCells | Vehicle/vehicle.py:97-101 | the non-zero cells of the map, row by row; `GridCellsExact` characterises them |
| Walls.RowCellsExact | Vehicle/vehicle.py:98-100 | the scan of a row lists exactly its non-zero cells, in increasing column order |
| Walls.GridCellsExact | Vehicle/vehicle.py:97-100 | the scan of the map lists exactly its non-zero cells, in row-major order |
| Walls.ScanStep | Vehicle/vehicle.py:98-118 | one cell of the scan skips a zero, appends the cell's wall, or ends the row's placement with that cell's failure |
| Walls.Place | Vehicle/vehicle.py:97-118 | placing the cells in order, appending each wall and stopping at the first cell with no image; `PlaceConverts`, `PlaceFailure`, `PlaceAll` and `PlaceStops` characterise the walls and the failing cell |
| Walls.PlaceConverts | Vehicle/vehicle.py:97-118 | placement fails exactly when some cell has no image, and otherwise yields every cell's wall in order |
| Walls.PlaceFailure | Vehicle/vehicle.py:97-118 | on failure, the walls placed are exactly those of the cells before the first cell with no image |
| Walls.PlaceAll | Vehicle/vehicle.py:97-118 | with no failure there is one wall per cell, each the wall of its own cell |
| Walls.PlaceStops | Vehicle/vehicle.py:97-118 | once a cell has failed, later cells change nothing |
| Walls.PlaceGrid | Vehicle/vehicle.py:97-118 | a map whose codes all lie in -3 to 4 gets one wall per non-zero cell, no two walls in the same place |
| Motion.Press | Vehicle/vehicle.py:138-142 | pressing an arrow key sets its flag; other keys change nothing |
| Motion.Release | Vehicle/vehicle.py:144-148 | releasing an arrow key clears its flag; other keys change nothing |
| Motion.PressThenRelease | Vehicle/vehicle.py:138-148 | a press followed by a release of the same key leaves the flags as the release alone would, and the other way round |
| Motion.PressIdempotent | Vehicle/vehicle.py:138-148 | repeated presses or releases of a key have no further effect |
| Motion.ApplyDrag | Vehicle/vehicle.py:152-156 | drag moves the velocity DRAG towards zero, crossing zero only from below DRAG, and leaves a car at rest at rest |
| Motion.Accelerate | Vehicle/vehicle.py:158-163 | the velocity drops by ACCL exactly when the left arrow is held and it is above -SPEED_CAP; otherwise it rises by ACCL exactly when the right arrow is held and it is below SPEED_CAP |
| Motion.VelocityStep | Vehicle/vehicle.py:152-163 | drag then acceleration: one frame changes the velocity by at most DRAG + ACCL; `VelocityBounded` and `HoldLeftFromRest` follow it over many frames |
| Motion.LeftWins | Vehicle/vehicle.py:160-163 | with both arrows held the left one wins whenever it can still accelerate |
| Motion.VelocityBounded | Vehicle/vehicle.py:153-163 | a speed below SPEED_CAP + ACCL stays below it |
| Motion.HoldLeftFromRest | Vehicle/vehicle.py:153-163 | holding the left arrow from rest gives -0.5 after one frame and 0.3 less each further frame, up to frame 50 |
| Motion.SoftCapExceeded | Vehicle/vehicle.py:160-163 | holding the left arrow from rest reaches -15.2 at frame 50 and -15.4 at frame 54, past SPEED_CAP |
| Motion.DragNeverStopsOdd | Vehicle/vehicle.py:152-156 | with no key held, an odd velocity in tenths never reaches zero |
| Motion.DragStopsEven | Vehicle/vehicle.py:152-156 | with no key held, a velocity of exactly 2k tenths comes to rest after exactly k frames (a property of exact tenths; see "Left out") |
| Motion.InDeadZone | Vehicle/vehicle.py:173-195 | the car's box lies inside all four scroll boundaries of the view; `Scroll` reports a change exactly when it does not |
| Motion.CheckLeft | Vehicle/vehicle.py:173-177 | the left check only moves the view left, puts the car's left edge at or right of the left boundary, and lands exactly on it when it moves |
| Motion.CheckRight | Vehicle/vehicle.py:179-183 | the right check only moves the view right, puts the car's right edge at or left of the right boundary, and lands exactly on it when it moves |
| Motion.CheckUp | Vehicle/vehicle.py:185-189 | the up check only moves the view up, puts the car's top at or below the top boundary, and lands exactly on it when it moves |
| Motion.CheckDown | Vehicle/vehicle.py:191-195 | the down check only moves the view down, puts the car's bottom at or above the bottom boundary, and lands exactly on it when it moves |
| Motion.Scroll | Vehicle/vehicle.py:169-195 | `changed` is set exactly when the car was outside the dead zone; an unchanged view is the old view; each axis follows only that axis's checks |
| Motion.ScrollSettles | Vehicle/vehicle.py:169-195 | a car that fits in the dead zone ends the frame inside the new dead zone, so scrolling again changes nothing |
| Motion.WideCarNeverSettles | Vehicle/vehicle.py:173-183 | for every view, a car wider than the dead zone is outside it, the scroll reports a change and leaves the car's right edge on the right boundary, and scrolling again from the new view reports a change too; from the origin a 300-pixel car sends the view back where it was |
| Motion.Viewport | Vehicle/vehicle.py:197-202 | the viewport is one 800×600 screen whose lower-left corner is the view |
| Game.MyAppWindow.constructor | Vehicle/vehicle.py:54-72 | a new window is not scrolled, holds no key, and has no walls and no moving car |
| Game.MyAppWindow.OnKeyPress | Vehicle/vehicle.py:138-142 | the flags become Press of the old flags; nothing else changes |
| Game.MyAppWindow.OnKeyRelease | Vehicle/vehicle.py:144-148 | the flags become Release of the old flags; nothing else changes |
| Game.MyAppWindow.StartNewGame | Vehicle/vehicle.py:74-129 | the car is at (64, 270) at rest. A bad map field leaves no walls and the view unchanged. Otherwise the wall list is Place of the map's non-zero cells, the error is the failing cell if any, and the view is at the origin exactly when at least one row was completed |
| Game.MyAppWindow.PlaceRow | Vehicle/vehicle.py:98-118 | placing one more row extends the placement of the rows before it by that row's cells, and a failure belongs to that row |
| Game.MyAppWindow.AddDragAndAcceleration | Vehicle/vehicle.py:152-163 | the new velocity is one VelocityStep of the old one under the held keys |
| Game.MyAppWindow.ManageScrolling | Vehicle/vehicle.py:167-195 | the new view and the `changed` flag are those of Scroll applied to the old view |
| Game.MyAppWindow.Animate | Vehicle/vehicle.py:150-202 | the velocity takes one VelocityStep and the view follows Scroll; the viewport is returned exactly when a scroll check fired (`changed`), which can happen with the view ending where it started |

## Left out

- Reading `map.csv` from disk: `GetMap` takes the file's lines.
- Image loading: a wall's size comes from a given function from image name to size.
- The car sprite's image and SPRITE_SCALING are not part of this model.
- `arcade.PhysicsEnginePlatformer` and GRAVITY: the engine is built once per map row and its `update()` moves the car. That engine is not part of this model.
- Rendering (`on_draw`), `all_sprites_list`, the background colour, `main` and `arcade.run` are not modelled.
- `set_viewport`'s effect on the screen: `Animate` returns the rectangle it would receive.
- END_OF_MAP and the window's `width`/`height` arguments are never read by the modelled code.
- The `if __name__ == '__main__'` test inside `start_new_game` is modelled as true, which is the case when the file is run as a script. Imported as a module, it would place no walls.
- `animate`'s `delta_time` is ignored, as it is in the source.
- Floating point is left out.
  - Velocities are exact tenths. The source accumulates binary rounding errors of 0.2 and 0.5.
  - The car's box is whole pixels, so the `int()` truncations in the scroll checks are the identity.
- Motion.DragStopsEven: holds only for exact tenths. The source's binary floats do not reach zero: from 1.0, repeated subtraction of 0.2 leaves about 5.55e-17 after five frames and then alternates between that and about -0.2, never 0.
- Game.MyAppWindow.Animate: the velocity after a frame is the one handed to the physics engine. The engine's own changes to `change_x`, `change_y` and the car's position are not modelled. The car's box after the engine step is a parameter.
- Game.MyAppWindow.constructor: `player_sprite` and `wall_list` are `None` in the source until `start_new_game` runs. The model starts them at zero and empty.
- PyInt.ParseInt: models `int()` of Python 3.6 and later, which accepts underscores between digits, in releases before the 4300-digit limit on decimal literals (added in 3.11, 3.10.7, 3.9.14, 3.8.14 and 3.7.14). That limit is not modelled, so `PyInt.ShowRoundTrip` holds for every integer only in the earlier releases.
- PyInt.ParseInt: only ASCII digits are accepted. Python's `int()` also accepts other Unicode decimal digits, which map files do not use.
- Exceptions other than `ValueError` from `int()` and `IndexError` from the palette lookup are not modelled. An example is a missing image file.
