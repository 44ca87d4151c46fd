/**
 * Wall placement from the tile map (Vehicle/vehicle.py, `start_new_game`): every
 * non-zero map cell becomes a wall sprite whose image is chosen by the cell's code,
 * whose right edge and top edge are fixed by the cell's column and row, and whose
 * collision polygon is a ramp for codes 3 and 4.
 */
module Walls {
  import opened Results

  /** Side of a map tile in pixels. */
  const TileSize: int := 70
  /** Map row 0 has its top edge at this many tiles above the origin. */
  const TopRow: int := 15

  /** The wall images, selected by `code - 1` with Python's list indexing. */
  const Palette: seq<string> := [
    "img/slice03_03.png",
    "img/slice27_27.png",
    "img/slice06_06.png",
    "img/slice07_07.png"]

  /** Width and height of a sprite in pixels (the image's size at scale 1). */
  datatype Size = Size(width: nat, height: nat)

  /** A point relative to the sprite's centre. */
  datatype Point = Point(x: int, y: int)

  /** A wall's collision polygon: the sprite's own rectangle, or a triangle. */
  datatype Hitbox = Rectangle | Ramp(a: Point, b: Point, c: Point)

  datatype Wall = Wall(image: string, size: Size, right: int, top: int, hitbox: Hitbox)

  /** A map cell: its row, its column and the code stored there. */
  datatype Cell = Cell(row: nat, col: nat, code: int)

  /**
   * The palette slot `map_items[code - 1]` reads: Python accepts indexes from
   * `-len` to `len - 1`, a negative one counting from the end.
   */
  function PaletteIndex(code: int): (r: Option<nat>)
    ensures r.Some? <==> -|Palette| + 1 <= code <= |Palette|
    ensures r.Some? ==> r.value < |Palette|
    ensures r.Some? ==> r.value == code - 1 || r.value == code - 1 + |Palette|
  {
    var i := code - 1;
    if 0 <= i < |Palette| then Some(i)
    else if -|Palette| <= i < 0 then Some(i + |Palette|)
    else None
  }

  /** The codes the map file uses, 1 to 4, pick images 0 to 3 in order. */
  lemma PaletteInOrder(code: int)
    requires 1 <= code <= 4
    ensures PaletteIndex(code) == Some(code - 1)
  {
  }

  /** Python's `-n // 2`: floor division, so an odd `n` rounds away from zero. */
  function Lo(n: int): int {
    (-n) / 2
  }

  /** Python's `n // 2`. */
  function Hi(n: int): int {
    n / 2
  }

  /**
   * The half extents always span the whole length, and they are symmetric about
   * the centre exactly when the length is even.
   */
  lemma HalfExtents(n: nat)
    ensures Hi(n) - Lo(n) == n
    ensures Lo(n) == -Hi(n) <==> n % 2 == 0
  {
    var m: int := n;
    if n % 2 == 0 {
      assert m == 2 * Hi(n);
      assert -m == 2 * -Hi(n);
    } else {
      assert m == 2 * Hi(n) + 1;
      assert -m == 2 * (-Hi(n) - 1) + 1;
    }
  }

  function TopLeft(s: Size): Point { Point(Lo(s.width), Hi(s.height)) }
  function TopRight(s: Size): Point { Point(Hi(s.width), Hi(s.height)) }
  function BottomLeft(s: Size): Point { Point(Lo(s.width), Lo(s.height)) }
  function BottomRight(s: Size): Point { Point(Hi(s.width), Lo(s.height)) }

  function Vertices(h: Hitbox): set<Point>
    requires h.Ramp?
  {
    {h.a, h.b, h.c}
  }

  /**
   * The collision polygon of a wall with the given code and size: code 3 is a
   * triangle whose high corner is the top-left one, code 4 a triangle whose high
   * corner is the top-right one; both have the whole bottom edge as their base.
   */
  function HitboxFor(code: int, size: Size): (r: Hitbox)
    ensures r.Ramp? <==> code == 3 || code == 4
    ensures code == 3 ==> Vertices(r) == {TopLeft(size), BottomRight(size), BottomLeft(size)}
    ensures code == 4 ==> Vertices(r) == {BottomLeft(size), BottomRight(size), TopRight(size)}
  {
    var w: int := size.width;
    var h: int := size.height;
    if code == 3 then Ramp(Point(-w / 2, h / 2), Point(w / 2, -h / 2), Point(-w / 2, -h / 2))
    else if code == 4 then Ramp(Point(-w / 2, -h / 2), Point(w / 2, -h / 2), Point(w / 2, h / 2))
    else Rectangle
  }

  /**
   * Each ramp is a right triangle with legs as long as the sprite is wide and high:
   * its base runs along the bottom edge and its vertical leg on the high side.
   */
  lemma RampLegs(code: int, size: Size)
    requires code == 3 || code == 4
    ensures var r := HitboxFor(code, size);
      var high := if code == 3 then TopLeft(size) else TopRight(size);
      high in Vertices(r) && BottomLeft(size) in Vertices(r) && BottomRight(size) in Vertices(r) &&
      BottomRight(size).x - BottomLeft(size).x == size.width &&
      high.y - BottomLeft(size).y == size.height &&
      (code == 3 ==> high.x == BottomLeft(size).x) && (code == 4 ==> high.x == BottomRight(size).x)
  {
    HalfExtents(size.width);
    HalfExtents(size.height);
  }

  function MirrorPoint(p: Point): Point {
    Point(-p.x, p.y)
  }

  /** For an even width, the code 4 ramp is the code 3 ramp mirrored left to right. */
  lemma RampsMirror(size: Size)
    requires size.width % 2 == 0
    ensures Vertices(HitboxFor(4, size)) ==
            set p | p in Vertices(HitboxFor(3, size)) :: MirrorPoint(p)
  {
    HalfExtents(size.width);
    var r3 := HitboxFor(3, size);
    var m := set p | p in Vertices(r3) :: MirrorPoint(p);
    assert MirrorPoint(TopLeft(size)) == TopRight(size);
    assert MirrorPoint(BottomRight(size)) == BottomLeft(size);
    assert MirrorPoint(BottomLeft(size)) == BottomRight(size);
    assert m == {TopRight(size), BottomLeft(size), BottomRight(size)};
  }

  /**
   * For an odd width the floor division puts the left edge one pixel further from
   * the centre than the right edge, so the two ramps are no longer mirror images.
   */
  lemma OddWidthNotMirrored()
    ensures TopLeft(Size(71, 70)) == Point(-36, 35) && TopRight(Size(71, 70)) == Point(35, 35)
    ensures MirrorPoint(TopLeft(Size(71, 70))) !in Vertices(HitboxFor(4, Size(71, 70)))
  {
  }

  /**
   * The wall for one map cell: the image `map_items[code - 1]`, the ramp polygon
   * for codes 3 and 4, the right edge at `col * 70` and the top edge at
   * `(15 - row) * 70`. A code outside the palette raises IndexError, which is
   * reported with the cell.
   */
  function MakeWall(cell: Cell, imageSize: string -> Size): (r: Result<Wall, Cell>)
    ensures r.Err? <==> PaletteIndex(cell.code).None?
    ensures r.Err? ==> r.error == cell
    ensures r.Ok? ==> r.value.image == Palette[PaletteIndex(cell.code).value]
    ensures r.Ok? ==> r.value.size == imageSize(r.value.image)
    ensures r.Ok? ==> r.value.hitbox == HitboxFor(cell.code, r.value.size)
  {
    match PaletteIndex(cell.code)
    case None => Err(cell)
    case Some(i) =>
      var image := Palette[i];
      var size := imageSize(image);
      Ok(Wall(image, size, cell.col * TileSize, (TopRow - cell.row) * TileSize, HitboxFor(cell.code, size)))
  }

  /** The wall of a cell sits on the 70-pixel grid, one tile per row and column. */
  lemma WallPosition(cell: Cell, imageSize: string -> Size)
    requires MakeWall(cell, imageSize).Ok?
    ensures var w := MakeWall(cell, imageSize).value;
      w.right % TileSize == 0 && w.top % TileSize == 0 &&
      w.right / TileSize == cell.col && TopRow - w.top / TileSize == cell.row
  {
  }

  /** Two cells in different places give walls in different places. */
  lemma WallsApart(c: Cell, d: Cell, imageSize: string -> Size)
    requires MakeWall(c, imageSize).Ok? && MakeWall(d, imageSize).Ok?
    requires c.row != d.row || c.col != d.col
    ensures var v, w := MakeWall(c, imageSize).value, MakeWall(d, imageSize).value;
      v.right != w.right || v.top != w.top
  {
    WallPosition(c, imageSize);
    WallPosition(d, imageSize);
  }

  /** Row-major order of cells: by row, then by column. */
  predicate Before(c: Cell, d: Cell) {
    c.row < d.row || (c.row == d.row && c.col < d.col)
  }

  predicate Ordered(cells: seq<Cell>) {
    forall i, j :: 0 <= i < j < |cells| ==> Before(cells[i], cells[j])
  }

  /** The non-zero cells of one map row, left to right (the `continue` skips zeros). */
  function RowCells(row: nat, codes: seq<int>): seq<Cell> {
    if codes == [] then []
    else
      var col := |codes| - 1;
      RowCells(row, codes[..col]) + (if codes[col] == 0 then [] else [Cell(row, col, codes[col])])
  }

  /** The non-zero cells of the whole map, row by row. */
  function GridCells(grid: seq<seq<int>>): seq<Cell> {
    if grid == [] then []
    else GridCells(grid[..|grid| - 1]) + RowCells(|grid| - 1, grid[|grid| - 1])
  }

  /** The row scan lists exactly the non-zero cells of the row, in column order. */
  lemma {:induction false} RowCellsExact(row: nat, codes: seq<int>)
    ensures forall c :: c in RowCells(row, codes) <==>
      c.row == row && c.col < |codes| && c.code == codes[c.col] && c.code != 0
    ensures Ordered(RowCells(row, codes))
  {
    if codes != [] {
      var col := |codes| - 1;
      RowCellsExact(row, codes[..col]);
      var prev := RowCells(row, codes[..col]);
      assert forall c :: c in prev ==> c.col < col;
      forall c ensures c in RowCells(row, codes) <==>
        c.row == row && c.col < |codes| && c.code == codes[c.col] && c.code != 0
      {
        if c.col < col {
          assert codes[..col][c.col] == codes[c.col];
        }
      }
    }
  }

  /** The map scan lists exactly the non-zero cells of the map, in row-major order. */
  lemma {:induction false} GridCellsExact(grid: seq<seq<int>>)
    ensures forall c :: c in GridCells(grid) <==>
      c.row < |grid| && c.col < |grid[c.row]| && c.code == grid[c.row][c.col] && c.code != 0
    ensures Ordered(GridCells(grid))
  {
    if grid != [] {
      var last := |grid| - 1;
      var front := grid[..last];
      GridCellsExact(front);
      RowCellsExact(last, grid[last]);
      var prev := GridCells(front);
      var tail := RowCells(last, grid[last]);
      assert forall c :: c in prev ==> c.row < last;
      forall c ensures c in GridCells(grid) <==>
        c.row < |grid| && c.col < |grid[c.row]| && c.code == grid[c.row][c.col] && c.code != 0
      {
        if c.row < last {
          assert front[c.row] == grid[c.row];
        }
      }
      forall i, j | 0 <= i < j < |prev + tail| ensures Before((prev + tail)[i], (prev + tail)[j]) {
        if j < |prev| {
        } else if i >= |prev| {
          assert (prev + tail)[i] == tail[i - |prev|];
          assert (prev + tail)[j] == tail[j - |prev|];
        } else {
          assert (prev + tail)[i] in prev;
          assert (prev + tail)[j] in tail;
        }
      }
    }
  }

  /** Scanning part of a row lists a prefix of the cells of the whole row. */
  lemma {:induction false} RowCellsPrefix(row: nat, codes: seq<int>, k: nat)
    requires k <= |codes|
    ensures RowCells(row, codes[..k]) <= RowCells(row, codes)
  {
    if k < |codes| {
      var front := codes[..|codes| - 1];
      assert front[..k] == codes[..k];
      RowCellsPrefix(row, front, k);
    } else {
      assert codes[..k] == codes;
    }
  }

  /** Scanning the first rows lists a prefix of the cells of the whole map. */
  lemma {:induction false} GridCellsPrefix(grid: seq<seq<int>>, k: nat)
    requires k <= |grid|
    ensures GridCells(grid[..k]) <= GridCells(grid)
  {
    if k < |grid| {
      var front := grid[..|grid| - 1];
      assert front[..k] == grid[..k];
      GridCellsPrefix(front, k);
    } else {
      assert grid[..k] == grid;
    }
  }

  /**
   * The cells scanned before row `i`, column `j` are a prefix of the cells of the
   * whole map, and the next cell of the scan extends them by one row or one cell.
   */
  lemma {:induction false} ScanPrefix(grid: seq<seq<int>>, i: nat, j: nat)
    requires i < |grid| && j <= |grid[i]|
    ensures GridCells(grid[..i]) + RowCells(i, grid[i][..j]) <= GridCells(grid)
    ensures j == |grid[i]| ==> GridCells(grid[..i]) + RowCells(i, grid[i][..j]) == GridCells(grid[..i + 1])
  {
    GridCellsPrefix(grid, i + 1);
    RowCellsPrefix(i, grid[i], j);
    assert grid[..i + 1][..i] == grid[..i];
    assert grid[i][..|grid[i]|] == grid[i];
  }

  /** The walls placed so far, and the cell whose IndexError ended the scan, if any. */
  datatype Placement = Placement(walls: seq<Wall>, failed: Option<Cell>)

  /**
   * Placing walls for the cells in order: each wall is appended to the wall list,
   * and the first cell without a wall image ends the scan with the earlier walls
   * still in the list.
   */
  function Place(cells: seq<Cell>, imageSize: string -> Size): Placement {
    if cells == [] then Placement([], None)
    else
      var p := Place(cells[..|cells| - 1], imageSize);
      if p.failed.Some? then p
      else
        match MakeWall(cells[|cells| - 1], imageSize)
        case Ok(w) => Placement(p.walls + [w], None)
        case Err(c) => Placement(p.walls, Some(c))
  }

  /**
   * Placement is a conversion of every cell that stops at the first failure: when
   * no cell fails the walls are all the cells' walls, otherwise the scan reports
   * the same cell the conversion does.
   */
  lemma {:induction false} PlaceConverts(cells: seq<Cell>, imageSize: string -> Size)
    ensures var p := Place(cells, imageSize);
      var r := ConvertEach(cells, c => MakeWall(c, imageSize));
      (p.failed.None? <==> r.Ok?) &&
      (r.Ok? ==> p.walls == r.value) &&
      (r.Err? ==> p.failed == Some(r.error))
  {
    if cells != [] {
      PlaceConverts(cells[..|cells| - 1], imageSize);
    }
  }

  /**
   * On a failure, the walls placed are exactly those of the cells before the
   * failing one, and the failing cell is the first without a wall image.
   */
  lemma {:induction false} PlaceFailure(cells: seq<Cell>, imageSize: string -> Size)
    requires Place(cells, imageSize).failed.Some?
    ensures var p := Place(cells, imageSize);
      exists k :: 0 <= k < |cells| && cells[k] == p.failed.value &&
        MakeWall(cells[k], imageSize).Err? &&
        Place(cells[..k], imageSize) == Placement(p.walls, None)
  {
    var n := |cells| - 1;
    var front := cells[..n];
    var q := Place(front, imageSize);
    if q.failed.Some? {
      PlaceFailure(front, imageSize);
      var k :| 0 <= k < |front| && front[k] == q.failed.value &&
        MakeWall(front[k], imageSize).Err? && Place(front[..k], imageSize) == Placement(q.walls, None);
      assert front[..k] == cells[..k];
    } else {
      assert cells[n] == Place(cells, imageSize).failed.value;
    }
  }

  /** With no failure, there is one wall per cell, each the wall of its own cell. */
  lemma PlaceAll(cells: seq<Cell>, imageSize: string -> Size)
    requires forall i :: 0 <= i < |cells| ==> MakeWall(cells[i], imageSize).Ok?
    ensures var p := Place(cells, imageSize);
      p.failed.None? && |p.walls| == |cells| &&
      forall i :: 0 <= i < |cells| ==> Ok(p.walls[i]) == MakeWall(cells[i], imageSize)
  {
    PlaceConverts(cells, imageSize);
  }

  /** Once a cell has failed, further cells change nothing. */
  lemma {:induction false} PlaceStops(prefix: seq<Cell>, cells: seq<Cell>, imageSize: string -> Size)
    requires prefix <= cells && Place(prefix, imageSize).failed.Some?
    ensures Place(cells, imageSize) == Place(prefix, imageSize)
  {
    if |cells| == |prefix| {
      assert cells == prefix;
    } else {
      var front := cells[..|cells| - 1];
      assert prefix <= front;
      PlaceStops(prefix, front, imageSize);
    }
  }

  /**
   * One step of the row-major scan, from row `i`, column `j`: a zero cell is
   * skipped, a cell with an image adds its wall, and a cell without one ends the
   * placement of the whole row with that cell as the failure.
   */
  lemma ScanStep(grid: seq<seq<int>>, i: nat, j: nat, imageSize: string -> Size, walls: seq<Wall>)
    requires i < |grid| && j < |grid[i]|
    requires Place(GridCells(grid[..i]) + RowCells(i, grid[i][..j]), imageSize) == Placement(walls, None)
    ensures var cell := Cell(i, j, grid[i][j]);
      var next := GridCells(grid[..i]) + RowCells(i, grid[i][..j + 1]);
      (cell.code == 0 ==> Place(next, imageSize) == Placement(walls, None)) &&
      (cell.code != 0 && MakeWall(cell, imageSize).Ok? ==>
        Place(next, imageSize) == Placement(walls + [MakeWall(cell, imageSize).value], None)) &&
      (cell.code != 0 && MakeWall(cell, imageSize).Err? ==>
        Place(GridCells(grid[..i + 1]), imageSize) == Placement(walls, Some(cell)))
  {
    var row := grid[i];
    var cell := Cell(i, j, row[j]);
    var before := GridCells(grid[..i]);
    var done := before + RowCells(i, row[..j]);
    assert row[..j + 1][..j] == row[..j];
    if row[j] != 0 {
      assert RowCells(i, row[..j + 1]) == RowCells(i, row[..j]) + [cell];
      assert before + RowCells(i, row[..j + 1]) == done + [cell];
      assert (done + [cell])[..|done|] == done;
      if MakeWall(cell, imageSize).Err? {
        RowCellsPrefix(i, row, j + 1);
        ScanPrefix(grid, i, |row|);
        assert row[..|row|] == row;
        PlaceStops(done + [cell], GridCells(grid[..i + 1]), imageSize);
      }
    } else {
      assert RowCells(i, row[..j + 1]) == RowCells(i, row[..j]);
    }
  }

  /**
   * A map whose every code has an image gets one wall per non-zero cell, no two
   * walls in the same place.
   */
  lemma PlaceGrid(grid: seq<seq<int>>, imageSize: string -> Size)
    requires forall r, c :: 0 <= r < |grid| && 0 <= c < |grid[r]| ==> -3 <= grid[r][c] <= 4
    ensures var cells := GridCells(grid);
      var p := Place(cells, imageSize);
      p.failed.None? && |p.walls| == |cells| &&
      forall i, j :: 0 <= i < j < |p.walls| ==>
        p.walls[i].right != p.walls[j].right || p.walls[i].top != p.walls[j].top
  {
    var cells := GridCells(grid);
    GridCellsExact(grid);
    forall i | 0 <= i < |cells| ensures MakeWall(cells[i], imageSize).Ok? {
      assert cells[i] in cells;
    }
    PlaceAll(cells, imageSize);
    var p := Place(cells, imageSize);
    forall i, j | 0 <= i < j < |p.walls|
      ensures p.walls[i].right != p.walls[j].right || p.walls[i].top != p.walls[j].top
    {
      assert Before(cells[i], cells[j]);
      WallsApart(cells[i], cells[j], imageSize);
    }
  }
}
