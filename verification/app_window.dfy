/**
 * The window of Vehicle/vehicle.py (`MyAppWindow`): it loads the map and places
 * the walls, tracks the arrow keys, and each frame updates the car's velocity and
 * scrolls the view after the car.
 */
module Game {
  import opened Results
  import opened PyInt
  import opened TileMap
  import opened Walls
  import opened Motion

  /** Where `start_new_game` puts the car's centre, in pixels. */
  const StartX: int := 64
  const StartY: int := 270

  /** Why `start_new_game` stopped: a map cell `int()` rejected, or a code with no image. */
  datatype StartError = MapError(error: ValueError) | TileError(cell: Cell)

  class MyAppWindow {
    var viewLeft: int
    var viewBottom: int
    var leftDown: bool
    var rightDown: bool
    /** The car's centre, in pixels. */
    var centerX: int
    var centerY: int
    /** The car's velocity, in tenths of a pixel per frame. */
    var changeX: int
    var changeY: int
    var wallList: seq<Wall>

    /** The arrow keys held down. */
    function Keys(): Held
      reads this
    {
      Held(leftDown, rightDown)
    }

    /** How far the view has scrolled. */
    function Scrolling(): View
      reads this
    {
      View(viewLeft, viewBottom)
    }

    /** A new window: not scrolled, no key held, no car moving and no walls yet. */
    constructor ()
      ensures Scrolling() == View(0, 0) && Keys() == Held(false, false)
      ensures centerX == 0 && centerY == 0 && changeX == 0 && changeY == 0 && wallList == []
    {
      viewLeft, viewBottom := 0, 0;
      leftDown, rightDown := false, false;
      centerX, centerY, changeX, changeY := 0, 0, 0, 0;
      wallList := [];
    }

    /** `on_key_press`: marks an arrow key as held; nothing else changes. */
    method OnKeyPress(key: Key)
      modifies this`leftDown, this`rightDown
      ensures Keys() == Press(old(Keys()), key)
    {
      if key == LeftArrow {
        leftDown := true;
      } else if key == RightArrow {
        rightDown := true;
      }
    }

    /** `on_key_release`: marks an arrow key as no longer held; nothing else changes. */
    method OnKeyRelease(key: Key)
      modifies this`leftDown, this`rightDown
      ensures Keys() == Release(old(Keys()), key)
    {
      if key == LeftArrow {
        leftDown := false;
      } else if key == RightArrow {
        rightDown := false;
      }
    }

    /**
     * `start_new_game`, given the lines of the map file and the size of each image.
     * The car is put back at its start, at rest, and the wall list emptied; then
     * the map is read and a wall placed for every non-zero cell in row-major
     * order. A map line `int()` rejects ends the game's set-up before any wall
     * is placed; a code with no image ends it with the walls placed so far. The
     * view is reset to the origin after each completed row of the map.
     */
    method StartNewGame(lines: seq<string>, imageSize: string -> Size) returns (err: Option<StartError>)
      modifies this`viewLeft, this`viewBottom, this`wallList
      modifies this`centerX, this`centerY, this`changeX, this`changeY
      ensures centerX == StartX && centerY == StartY && changeX == 0 && changeY == 0
      ensures ParseMap(lines).Err? ==>
        err == Some(MapError(ParseMap(lines).error)) && wallList == [] &&
        viewLeft == old(viewLeft) && viewBottom == old(viewBottom)
      ensures ParseMap(lines).Ok? ==>
        var grid := ParseMap(lines).value;
        var p := Place(GridCells(grid), imageSize);
        var rowsDone := if p.failed.Some? then p.failed.value.row else |grid|;
        wallList == p.walls &&
        err == (if p.failed.Some? then Some(TileError(p.failed.value)) else None) &&
        if rowsDone > 0 then viewLeft == 0 && viewBottom == 0
        else viewLeft == old(viewLeft) && viewBottom == old(viewBottom)
    {
      wallList := [];
      centerX, centerY := StartX, StartY;
      changeX, changeY := 0, 0;
      var mapArray := GetMap(lines);
      if mapArray.Err? {
        return Some(MapError(mapArray.error));
      }
      var grid := mapArray.value;
      for rowIndex := 0 to |grid|
        invariant Place(GridCells(grid[..rowIndex]), imageSize) == Placement(wallList, None)
        invariant centerX == StartX && centerY == StartY && changeX == 0 && changeY == 0
        invariant rowIndex > 0 ==> viewLeft == 0 && viewBottom == 0
        invariant rowIndex == 0 ==> viewLeft == old(viewLeft) && viewBottom == old(viewBottom)
      {
        var failed := PlaceRow(grid, rowIndex, imageSize);
        if failed.Some? {
          GridCellsPrefix(grid, rowIndex + 1);
          PlaceStops(GridCells(grid[..rowIndex + 1]), GridCells(grid), imageSize);
          return Some(TileError(failed.value));
        }
        viewLeft, viewBottom := 0, 0;
      }
      assert grid[..|grid|] == grid;
      return None;
    }

    /**
     * The inner loop of `start_new_game`: a wall for each non-zero cell of row
     * `rowIndex`, left to right, stopping at the first code with no image.
     */
    method PlaceRow(grid: seq<seq<int>>, rowIndex: nat, imageSize: string -> Size) returns (failed: Option<Cell>)
      requires rowIndex < |grid|
      requires Place(GridCells(grid[..rowIndex]), imageSize) == Placement(wallList, None)
      modifies this`wallList
      ensures Place(GridCells(grid[..rowIndex + 1]), imageSize) == Placement(wallList, failed)
      ensures failed.Some? ==> failed.value.row == rowIndex
    {
      var row := grid[rowIndex];
      assert row[..0] == [];
      assert GridCells(grid[..rowIndex]) + RowCells(rowIndex, row[..0]) == GridCells(grid[..rowIndex]);
      for columnIndex := 0 to |row|
        invariant Place(GridCells(grid[..rowIndex]) + RowCells(rowIndex, row[..columnIndex]), imageSize) ==
                  Placement(wallList, None)
      {
        var item := row[columnIndex];
        ScanStep(grid, rowIndex, columnIndex, imageSize, wallList);
        if item == 0 {
          continue;
        }
        var index := PaletteIndex(item);
        if index.None? {
          return Some(Cell(rowIndex, columnIndex, item));
        }
        var image := Palette[index.value];
        var size := imageSize(image);
        var wall := Wall(image, size, columnIndex * TileSize, (TopRow - rowIndex) * TileSize,
                         HitboxFor(item, size));
        assert MakeWall(Cell(rowIndex, columnIndex, item), imageSize) == Ok(wall);
        wallList := wallList + [wall];
      }
      ScanPrefix(grid, rowIndex, |row|);
      return None;
    }

    /**
     * One frame of `animate`, given the car's box after the physics engine has
     * moved it: drag and acceleration update the velocity, then the view scrolls
     * so that the car is back inside the dead zone, and the new viewport is
     * returned when the view changed.
     */
    method Animate(after: Box) returns (viewport: Option<Rect>)
      modifies this`changeX, this`viewLeft, this`viewBottom
      ensures changeX == VelocityStep(old(changeX), Keys())
      ensures var s := Scroll(old(Scrolling()), after);
        Scrolling() == s.view && viewport == if s.changed then Some(Viewport(s.view)) else None
    {
      AddDragAndAcceleration();
      var changed := ManageScrolling(after);
      if changed {
        viewport := Some(Rect(viewLeft, ScreenWidth + viewLeft, viewBottom, ScreenHeight + viewBottom));
      } else {
        viewport := None;
      }
    }

    /** The velocity half of `animate`: drag towards rest, then the held arrow's push. */
    method AddDragAndAcceleration()
      modifies this`changeX
      ensures changeX == VelocityStep(old(changeX), Keys())
    {
      if changeX > 0 {
        changeX := changeX - Drag;
      } else if changeX < 0 {
        changeX := changeX + Drag;
      }
      if leftDown && changeX > -SpeedCap {
        changeX := changeX - Accel;
      } else if rightDown && changeX < SpeedCap {
        changeX := changeX + Accel;
      }
    }

    /** The scrolling half of `animate`: the four boundary checks, in order. */
    method ManageScrolling(after: Box) returns (changed: bool)
      modifies this`viewLeft, this`viewBottom
      ensures Scroll(old(Scrolling()), after) == Scrolled(Scrolling(), changed)
    {
      changed := false;
      ghost var s := Scrolled(Scrolling(), false);

      var leftBoundary := viewLeft + ViewportMargin;
      if after.left < leftBoundary {
        viewLeft := viewLeft - (leftBoundary - after.left);
        changed := true;
      }
      s := CheckLeft(s, after);
      assert s == Scrolled(Scrolling(), changed);

      var rightBoundary := viewLeft + ScreenWidth - RightMargin;
      if after.right > rightBoundary {
        viewLeft := viewLeft + (after.right - rightBoundary);
        changed := true;
      }
      s := CheckRight(s, after);
      assert s == Scrolled(Scrolling(), changed);

      var topBoundary := viewBottom + ScreenHeight - ViewportMargin;
      if after.top > topBoundary {
        viewBottom := viewBottom + (after.top - topBoundary);
        changed := true;
      }
      s := CheckUp(s, after);
      assert s == Scrolled(Scrolling(), changed);

      var bottomBoundary := viewBottom + ViewportMargin;
      if after.bottom < bottomBoundary {
        viewBottom := viewBottom - (bottomBoundary - after.bottom);
        changed := true;
      }
      s := CheckDown(s, after);
      assert s == Scrolled(Scrolling(), changed);
    }
  }
}
