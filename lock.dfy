/**
 * What happens when the falling piece can no longer move down: the piece
 * is copied into the grid, the rows it spans are scanned for full lines,
 * and every full line is removed by shifting the rows above it down.
 */
module Lock {
  import opened Shapes
  import opened Board

  /** Every flat index of the field is the index of its own column and row. */
  lemma CellOfIndex(k: int)
    requires 0 <= k < FieldSize
    ensures InField(Column(k), Row(k)) && k == Idx(Column(k), Row(k))
  {
  }

  /** The piece covers field index k: the box cell over k is occupied. */
  predicate Covers(p: Piece, k: int)
  {
    0 <= k < FieldSize && Occupied(p.index, p.rotation, Column(k) - p.posX, Row(k) - p.posY)
  }

  /** The grid with the piece copied into it: each cell the piece covers holds its tag. */
  function Commit(g: seq<Byte>, p: Piece): (h: seq<Byte>)
    ensures |h| == |g|
  {
    seq(|g|, k requires 0 <= k < |g| => if Covers(p, k) then Tag(p.index) else g[k])
  }

  /** Cell by cell: after the commit a field cell holds the tag iff the piece occupies it. */
  lemma CommitAt(g: seq<Byte>, p: Piece, x: int, y: int)
    requires |g| >= FieldSize && InField(x, y)
    ensures At(Commit(g, p), x, y) ==
      if Occupied(p.index, p.rotation, x - p.posX, y - p.posY) then Tag(p.index) else At(g, x, y)
  {
    IdxCoordinates(x, y);
  }

  /**
   * Committing an inside piece keeps the walls, writes only tags into the
   * interior, and leaves the padding alone.
   */
  lemma CommitKeepsShape(g: seq<Byte>, p: Piece)
    requires WallsIntact(g) && InteriorWellFormed(g) && Inside(p)
    ensures WallsIntact(Commit(g, p)) && InteriorWellFormed(Commit(g, p))
    ensures Commit(g, p)[FieldSize..] == g[FieldSize..]
  {
    var h := Commit(g, p);
    forall x, y | InField(x, y)
      ensures IsWallCell(x, y) ==> At(h, x, y) == Wall
      ensures !IsWallCell(x, y) ==> At(h, x, y) == Nothing || IsTag(At(h, x, y))
    {
      CommitAt(g, p, x, y);
      if Occupied(p.index, p.rotation, x - p.posX, y - p.posY) {
        InsideCellsInterior(p, x - p.posX, y - p.posY);
      }
    }
  }

  /** A piece that is not above row `top` leaves rows above `top` as they were. */
  lemma CommitBelow(g: seq<Byte>, p: Piece, x: int, y: int)
    requires |g| >= FieldSize && InField(x, y) && y < p.posY
    ensures At(Commit(g, p), x, y) == At(g, x, y)
  {
    CommitAt(g, p, x, y);
  }

  /**
   * Indices of the field cells the copy loop has written once it has
   * visited the box cells before (px, py), column by column.
   */
  predicate CoveredBefore(p: Piece, k: int, px: int, py: int)
  {
    Covers(p, k) &&
    var bx := Column(k) - p.posX;
    bx < px || (bx == px && Row(k) - p.posY < py)
  }

  /** The grid `s` is `g` with the box cells before (px, py) copied in. */
  ghost predicate CopiedUpTo(s: seq<Byte>, g: seq<Byte>, p: Piece, px: int, py: int)
  {
    |s| == |g| &&
    forall k :: 0 <= k < |s| ==> s[k] == if CoveredBefore(p, k, px, py) then Tag(p.index) else g[k]
  }

  /** Visiting an occupied box cell writes the tag at the one index the piece covers there. */
  lemma CopyOccupied(s: seq<Byte>, g: seq<Byte>, p: Piece, px: int, py: int)
    requires |s| == GridSize && Inside(p) && 0 <= px < 4 && 0 <= py < 4
    requires Occupied(p.index, p.rotation, px, py) && CopiedUpTo(s, g, p, px, py)
    ensures InField(p.posX + px, p.posY + py)
    ensures CopiedUpTo(s[Idx(p.posX + px, p.posY + py) := Tag(p.index)], g, p, px, py + 1)
  {
    InsideCellsInterior(p, px, py);
    var k0 := Idx(p.posX + px, p.posY + py);
    IdxCoordinates(p.posX + px, p.posY + py);
    var t := s[k0 := Tag(p.index)];
    forall k | 0 <= k < |t|
      ensures t[k] == if CoveredBefore(p, k, px, py + 1) then Tag(p.index) else g[k]
    {
      if k != k0 && k < FieldSize {
        CellOfIndex(k);
      }
    }
  }

  /** Visiting a free box cell writes nothing. */
  lemma CopyFree(s: seq<Byte>, g: seq<Byte>, p: Piece, px: int, py: int)
    requires 0 <= px < 4 && 0 <= py < 4
    requires !Occupied(p.index, p.rotation, px, py) && CopiedUpTo(s, g, p, px, py)
    ensures CopiedUpTo(s, g, p, px, py + 1)
  {
    forall k | 0 <= k < |s|
      ensures s[k] == if CoveredBefore(p, k, px, py + 1) then Tag(p.index) else g[k]
    {
      if CoveredBefore(p, k, px, py + 1) && !CoveredBefore(p, k, px, py) && k < FieldSize {
        CellOfIndex(k);
      }
    }
  }

  /** A finished column hands over to the next one, and after the last column everything is copied. */
  lemma CopyNextColumn(s: seq<Byte>, g: seq<Byte>, p: Piece, px: int)
    requires CopiedUpTo(s, g, p, px, 4)
    ensures CopiedUpTo(s, g, p, px + 1, 0)
    ensures px == 3 ==> s == Commit(g, p)
  {
    assert forall k :: CoveredBefore(p, k, px, 4) <==> CoveredBefore(p, k, px + 1, 0);
    if px == 3 {
      assert forall k :: CoveredBefore(p, k, px + 1, 0) <==> Covers(p, k);
    }
  }

  /**
   * The copy loop: each occupied box cell (a table character other than
   * '.') writes the piece's tag at `(pos_y + py) * rows + pos_x + px`.
   */
  method CommitPiece(grid: array<Byte>, p: Piece)
    requires grid.Length == GridSize && Inside(p)
    modifies grid
    ensures grid[..] == Commit(old(grid[..]), p)
  {
    ghost var g := grid[..];
    for px := 0 to 4
      invariant CopiedUpTo(grid[..], g, p, px, 0)
    {
      for py := 0 to 4
        invariant CopiedUpTo(grid[..], g, p, px, py)
      {
        FilledMatchesTable(p.index, RotatedIndex(px, py, p.rotation));
        if Tetromino[p.index - 1][RotatedIndex(px, py, p.rotation)] != '.' {
          CopyOccupied(grid[..], g, p, px, py);
          grid[(p.posY + py) * Width + p.posX + px] := Tag(p.index);
        } else {
          CopyFree(grid[..], g, p, px, py);
        }
      }
      CopyNextColumn(grid[..], g, p, px);
    }
  }

  /** Rows 0..3 are the hidden spawn rows; between ticks their interior is empty. */
  ghost predicate HiddenRowsEmpty(g: seq<Byte>)
  {
    |g| >= FieldSize &&
    forall x, y :: InField(x, y) && !IsWallCell(x, y) && y < 4 ==> At(g, x, y) == Nothing
  }

  /** A piece that locks below the spawn rows leaves them empty. */
  lemma CommitKeepsHiddenRows(g: seq<Byte>, p: Piece)
    requires HiddenRowsEmpty(g) && p.posY >= 4
    ensures HiddenRowsEmpty(Commit(g, p))
  {
    forall x, y | InField(x, y) && !IsWallCell(x, y) && y < 4
      ensures At(Commit(g, p), x, y) == Nothing
    {
      CommitBelow(g, p, x, y);
    }
  }

  /** `reset_grid` has written the cells before (x, y), column by column. */
  ghost predicate ResetUpTo(s: seq<Byte>, g: seq<Byte>, x: int, y: int)
  {
    |s| == |g| && |g| >= FieldSize && s[FieldSize..] == g[FieldSize..] &&
    forall cx, cy :: InField(cx, cy) ==>
      At(s, cx, cy) == if cx < x || (cx == x && cy < y) then FreshCell(cx, cy) else At(g, cx, cy)
  }

  lemma ResetStep(s: seq<Byte>, g: seq<Byte>, x: int, y: int)
    requires ResetUpTo(s, g, x, y) && InField(x, y)
    ensures ResetUpTo(s[Idx(x, y) := FreshCell(x, y)], g, x, y + 1)
  {
    var t := s[Idx(x, y) := FreshCell(x, y)];
    assert t[FieldSize..] == s[FieldSize..];
    forall cx, cy | InField(cx, cy)
      ensures At(t, cx, cy) == if cx < x || (cx == x && cy < y + 1) then FreshCell(cx, cy) else At(g, cx, cy)
    {
      IdxCoordinates(cx, cy);
      IdxCoordinates(x, y);
    }
  }

  lemma ResetNextColumn(s: seq<Byte>, g: seq<Byte>, x: int)
    requires ResetUpTo(s, g, x, Height)
    ensures ResetUpTo(s, g, x + 1, 0)
    ensures x == Width - 1 ==> IsFreshField(s)
  {
  }

  /** The grid `reset_grid` leaves behind: the fresh field, with the padding as it was. */
  function ResetField(g: seq<Byte>): (h: seq<Byte>)
    requires |g| >= FieldSize
    ensures |h| == |g|
  {
    seq(|g|, k requires 0 <= k < |g| => if k < FieldSize then FreshCell(Column(k), Row(k)) else g[k])
  }

  /** The reset field is fresh, and it is the only fresh grid that keeps the padding. */
  lemma ResetFieldUnique(g: seq<Byte>, s: seq<Byte>)
    requires |g| >= FieldSize
    ensures IsFreshField(ResetField(g)) && ResetField(g)[FieldSize..] == g[FieldSize..]
    ensures IsFreshField(s) && |s| == |g| && s[FieldSize..] == g[FieldSize..] ==> s == ResetField(g)
  {
    var h := ResetField(g);
    forall x, y | InField(x, y)
      ensures At(h, x, y) == FreshCell(x, y)
    {
      IdxCoordinates(x, y);
    }
    if IsFreshField(s) && |s| == |g| && s[FieldSize..] == g[FieldSize..] {
      forall k | 0 <= k < |s|
        ensures s[k] == h[k]
      {
        if k < FieldSize {
          CellOfIndex(k);
        } else {
          assert s[k] == s[FieldSize..][k - FieldSize];
        }
      }
    }
  }

  /**
   * `reset_grid`: every cell of the 10 x 24 field becomes a wall on the side
   * columns and the bottom row and empty elsewhere; the padding is not touched.
   */
  method ResetGrid(grid: array<Byte>)
    requires grid.Length == GridSize
    modifies grid
    ensures IsFreshField(grid[..])
    ensures grid[FieldSize..] == old(grid[FieldSize..])
    ensures grid[..] == ResetField(old(grid[..]))
  {
    ghost var g := grid[..];
    for x := 0 to Width
      invariant ResetUpTo(grid[..], g, x, 0)
    {
      for y := 0 to Height
        invariant ResetUpTo(grid[..], g, x, y)
      {
        ResetStep(grid[..], g, x, y);
        grid[y * Width + x] := if x == 0 || x == Width - 1 || y == VisibleRows + 3 then Wall else Nothing;
      }
      ResetNextColumn(grid[..], g, x);
    }
    ResetFieldUnique(g, grid[..]);
  }

  /** A fresh field has empty spawn rows. */
  lemma FreshFieldHiddenRowsEmpty(g: seq<Byte>)
    requires IsFreshField(g)
    ensures HiddenRowsEmpty(g)
  {
  }

  /**
   * Row y is full: each of its eight interior cells holds a value above
   * `wall`, that is a locked piece. The scan may look at rows past the
   * field, which read padding.
   */
  predicate FullLine(g: seq<Byte>, y: int)
    requires 0 <= y && (y + 1) * Width <= |g|
  {
    forall x :: 1 <= x < Width - 1 ==> g[Idx(x, y)] > Wall
  }

  /** The full rows among rows y .. y + n - 1, in ascending order. */
  function FullLines(g: seq<Byte>, y: int, n: nat): (lines: seq<int>)
    requires 0 <= y && (y + n) * Width <= |g|
    ensures forall r :: r in lines <==> y <= r < y + n && FullLine(g, r)
    ensures forall i, j :: 0 <= i < j < |lines| ==> lines[i] < lines[j]
    ensures |lines| <= n
  {
    if n == 0 then []
    else
      var below := FullLines(g, y, n - 1);
      assert forall i :: 0 <= i < |below| ==> below[i] in below;
      below + (if FullLine(g, y + n - 1) then [y + n - 1] else [])
  }

  /** The interior cells of row y before column x all hold locked pieces. */
  predicate FullBefore(g: seq<Byte>, y: int, x: int)
    requires 0 <= y && (y + 1) * Width <= |g| && x <= Width - 1
  {
    forall cx :: 1 <= cx < x ==> g[Idx(cx, y)] > Wall
  }

  /** One row of the line check: `line &= cell > wall` over the interior columns. */
  method LineIsFull(grid: array<Byte>, y: int) returns (line: bool)
    requires 0 <= y && (y + 1) * Width <= grid.Length
    ensures line == FullLine(grid[..], y)
  {
    line := true;
    for x := 1 to Width - 1
      invariant line == FullBefore(grid[..], y, x)
    {
      assert FullBefore(grid[..], y, x + 1) == (FullBefore(grid[..], y, x) && grid[Idx(x, y)] > Wall);
      line := line && grid[y * Width + x] > Wall;
    }
  }

  /**
   * The line check: rows pos_y .. pos_y + 3 are tested in order and each
   * full one is appended. The guard `py < cols + 3` holds for every py the
   * loop takes.
   */
  method ScanLines(grid: array<Byte>, posY: int) returns (lines: seq<int>)
    requires grid.Length == GridSize && 0 <= posY <= Height - 2
    ensures lines == FullLines(grid[..], posY, 4)
  {
    lines := [];
    for py := 0 to 4
      invariant lines == FullLines(grid[..], posY, py)
    {
      if py < VisibleRows + 3 {
        var line := LineIsFull(grid, posY + py);
        if line {
          lines := lines + [posY + py];
        }
      }
    }
  }

  /** No row of the playfield is full. */
  ghost predicate NoFullRows(g: seq<Byte>)
  {
    |g| >= FieldSize && forall y :: 0 <= y < Height - 1 ==> !FullLine(g, y)
  }

  /** A fresh field has no full row. */
  lemma FreshFieldNoFullRows(g: seq<Byte>)
    requires IsFreshField(g)
    ensures NoFullRows(g)
  {
    forall y | 0 <= y < Height - 1
      ensures !FullLine(g, y)
    {
      assert At(g, 1, y) == Nothing;
    }
  }

  /** Walls, the bottom row included, and the padding are never full. */
  lemma NotFullOutsidePlayfield(g: seq<Byte>, y: int)
    requires WallsIntact(g) && PaddingClear(g) && |g| == GridSize
    requires Height - 1 <= y && (y + 1) * Width <= |g|
    ensures !FullLine(g, y)
  {
    if y == Height - 1 {
      assert At(g, 1, y) == Wall;
    } else {
      assert g[Idx(1, y)] == Nothing;
    }
  }

  /** Cell (x, y) once row r has been removed: interior cells of rows 1..r take the cell above, row 0 empties. */
  function CollapsedCell(g: seq<Byte>, r: int, x: int, y: int): Byte
    requires |g| >= FieldSize && InField(x, y)
  {
    if 1 <= x < Width - 1 && y <= r then (if y == 0 then Nothing else At(g, x, y - 1)) else At(g, x, y)
  }

  /** The grid after row r is removed; the padding is untouched. */
  function Collapse(g: seq<Byte>, r: int): (h: seq<Byte>)
    requires |g| >= FieldSize
    ensures |h| == |g|
  {
    seq(|g|, k requires 0 <= k < |g| => if k < FieldSize then CollapsedCell(g, r, Column(k), Row(k)) else g[k])
  }

  lemma CollapseAt(g: seq<Byte>, r: int, x: int, y: int)
    requires |g| >= FieldSize && InField(x, y)
    ensures At(Collapse(g, r), x, y) == CollapsedCell(g, r, x, y)
  {
    IdxCoordinates(x, y);
  }

  /**
   * `s` is `g` part way through removing row r: the columns before px are
   * done, and so are the rows below py of column px.
   */
  ghost predicate ShiftedUpTo(s: seq<Byte>, g: seq<Byte>, r: int, px: int, py: int)
  {
    |s| == |g| && |g| >= FieldSize && s[FieldSize..] == g[FieldSize..] &&
    forall x, y :: InField(x, y) ==>
      At(s, x, y) == if x < px || (x == px && y > py) then CollapsedCell(g, r, x, y) else At(g, x, y)
  }

  /** Below the removed row nothing moves, so a column starts out done from row r down. */
  lemma ShiftColumnStart(s: seq<Byte>, g: seq<Byte>, r: int, px: int)
    requires ShiftedUpTo(s, g, r, px, Height)
    ensures ShiftedUpTo(s, g, r, px, r)
  {
  }

  /** `grid[py * rows + px] = grid[(py - 1) * rows + px]`. */
  lemma ShiftCell(s: seq<Byte>, g: seq<Byte>, r: int, px: int, py: int)
    requires ShiftedUpTo(s, g, r, px, py) && 1 <= px < Width - 1 && 0 < py <= r < Height
    ensures ShiftedUpTo(s[Idx(px, py) := s[Idx(px, py - 1)]], g, r, px, py - 1)
  {
    var t := s[Idx(px, py) := s[Idx(px, py - 1)]];
    assert t[FieldSize..] == s[FieldSize..];
    assert At(s, px, py - 1) == At(g, px, py - 1);
    forall x, y | InField(x, y)
      ensures At(t, x, y) == if x < px || (x == px && y > py - 1) then CollapsedCell(g, r, x, y) else At(g, x, y)
    {
      IdxCoordinates(x, y);
      IdxCoordinates(px, py);
    }
  }

  /** `grid[px] = 0` finishes the column. */
  lemma ShiftColumnEnd(s: seq<Byte>, g: seq<Byte>, r: int, px: int)
    requires ShiftedUpTo(s, g, r, px, 0) && 1 <= px < Width - 1 && 0 <= r
    ensures ShiftedUpTo(s[Idx(px, 0) := Nothing], g, r, px + 1, Height)
  {
    var t := s[Idx(px, 0) := Nothing];
    assert t[FieldSize..] == s[FieldSize..];
    forall x, y | InField(x, y)
      ensures At(t, x, y) == if x < px + 1 then CollapsedCell(g, r, x, y) else At(g, x, y)
    {
      IdxCoordinates(x, y);
      IdxCoordinates(px, 0);
    }
  }

  /** The side columns never move, so after the last interior column the grid is the collapse. */
  lemma ShiftDone(s: seq<Byte>, g: seq<Byte>, r: int)
    requires ShiftedUpTo(s, g, r, Width - 1, Height)
    ensures s == Collapse(g, r)
  {
    forall k | 0 <= k < |s|
      ensures s[k] == Collapse(g, r)[k]
    {
      if k < FieldSize {
        CellOfIndex(k);
      } else {
        assert s[k] == s[FieldSize..][k - FieldSize];
      }
    }
  }

  /**
   * Removing one full row: for each interior column, every cell from row r
   * up to row 1 takes the cell above it, then the top cell is cleared.
   */
  method RemoveLine(grid: array<Byte>, r: int)
    requires grid.Length == GridSize && 0 <= r < Height
    modifies grid
    ensures grid[..] == Collapse(old(grid[..]), r)
  {
    ghost var g := grid[..];
    for px := 1 to Width - 1
      invariant ShiftedUpTo(grid[..], g, r, px, Height)
    {
      ShiftColumnStart(grid[..], g, r, px);
      var py := r;
      while py > 0
        invariant 0 <= py <= r && ShiftedUpTo(grid[..], g, r, px, py)
      {
        ShiftCell(grid[..], g, r, px, py);
        grid[py * Width + px] := grid[(py - 1) * Width + px];
        py := py - 1;
      }
      ShiftColumnEnd(grid[..], g, r, px);
      grid[px] := Nothing;
    }
    ShiftDone(grid[..], g, r);
  }

  /** The grid after the rows in `lines` are removed one after the other. */
  function CollapseAll(g: seq<Byte>, lines: seq<int>): (h: seq<Byte>)
    requires |g| >= FieldSize
    ensures |h| == |g|
  {
    if |lines| == 0 then g else Collapse(CollapseAll(g, lines[..|lines| - 1]), lines[|lines| - 1])
  }

  /** The clearing loop: the recorded rows are removed in the order they were found. */
  method ClearLines(grid: array<Byte>, lines: seq<int>)
    requires grid.Length == GridSize
    requires forall i :: 0 <= i < |lines| ==> 0 <= lines[i] < Height
    modifies grid
    ensures grid[..] == CollapseAll(old(grid[..]), lines)
  {
    ghost var g := grid[..];
    for i := 0 to |lines|
      invariant grid[..] == CollapseAll(g, lines[..i])
    {
      assert lines[..i + 1][..i] == lines[..i];
      RemoveLine(grid, lines[i]);
    }
    assert lines[..|lines|] == lines;
  }

  /** Walls, interior labels, padding and the empty spawn rows all survive the removal of a row. */
  lemma CollapseKeepsShape(g: seq<Byte>, r: int)
    requires WallsIntact(g) && InteriorWellFormed(g) && PaddingClear(g) && 0 <= r < Height - 1
    ensures WallsIntact(Collapse(g, r)) && InteriorWellFormed(Collapse(g, r)) && PaddingClear(Collapse(g, r))
    ensures HiddenRowsEmpty(g) ==> HiddenRowsEmpty(Collapse(g, r))
  {
    var h := Collapse(g, r);
    forall x, y | InField(x, y)
      ensures At(h, x, y) == CollapsedCell(g, r, x, y)
    {
      CollapseAt(g, r, x, y);
    }
  }

  /** The eight interior cells of row y, left to right. */
  function InteriorRow(g: seq<Byte>, y: int): (row: seq<Byte>)
    requires |g| >= FieldSize && 0 <= y < Height
    ensures |row| == Width - 2
  {
    seq(Width - 2, i requires 0 <= i < Width - 2 => At(g, i + 1, y))
  }

  /** The playfield as a list of rows, top (row 0) to bottom (row 22); the wall row is left out. */
  function Rows(g: seq<Byte>): (rows: seq<seq<Byte>>)
    requires |g| >= FieldSize
    ensures |rows| == Height - 1
  {
    seq(Height - 1, y requires 0 <= y < Height - 1 => InteriorRow(g, y))
  }

  const EmptyRow: seq<Byte> := seq(Width - 2, i => Nothing)

  /**
   * Removing row r, seen row by row: row r is gone, the rows above it move
   * down one place in their order, an empty row enters at the top, and the
   * rows below r stay where they are.
   */
  lemma CollapseRows(g: seq<Byte>, r: int)
    requires |g| >= FieldSize && 0 <= r < Height - 1
    ensures Rows(Collapse(g, r)) == [EmptyRow] + Rows(g)[..r] + Rows(g)[r + 1..]
  {
    var h := Collapse(g, r);
    var want := [EmptyRow] + Rows(g)[..r] + Rows(g)[r + 1..];
    forall y | 0 <= y < Height - 1
      ensures Rows(h)[y] == want[y]
    {
      forall i | 0 <= i < Width - 2
        ensures InteriorRow(h, y)[i] == want[y][i]
      {
        CollapseAt(g, r, i + 1, y);
      }
    }
  }

  /** How removing row r moves full rows: those above r move down one row, those below stay. */
  lemma CollapseFullLine(g: seq<Byte>, r: int, y: int)
    requires |g| >= FieldSize && 0 <= r < Height && 0 <= y < Height
    ensures FullLine(Collapse(g, r), y) <==>
      if y > r then FullLine(g, y) else 1 <= y && FullLine(g, y - 1)
  {
    var h := Collapse(g, r);
    if y > r {
      forall x | 1 <= x < Width - 1
        ensures h[Idx(x, y)] == g[Idx(x, y)]
      {
        CollapseAt(g, r, x, y);
      }
    } else if y == 0 {
      CollapseAt(g, r, 1, y);
      assert h[Idx(1, y)] == Nothing;
    } else {
      var above := y - 1;
      forall x | 1 <= x < Width - 1
        ensures h[Idx(x, y)] == g[Idx(x, above)]
      {
        CollapseAt(g, r, x, y);
      }
      if FullLine(h, y) {
        forall x | 1 <= x < Width - 1
          ensures g[Idx(x, above)] > Wall
        {
          assert h[Idx(x, y)] > Wall;
        }
      }
    }
  }

  /** Removing several rows keeps everything `CollapseKeepsShape` keeps. */
  lemma {:induction false} CollapseAllKeepsShape(g: seq<Byte>, lines: seq<int>)
    requires WallsIntact(g) && InteriorWellFormed(g) && PaddingClear(g)
    requires forall i :: 0 <= i < |lines| ==> 0 <= lines[i] < Height - 1
    ensures WallsIntact(CollapseAll(g, lines)) && InteriorWellFormed(CollapseAll(g, lines))
    ensures PaddingClear(CollapseAll(g, lines))
    ensures HiddenRowsEmpty(g) ==> HiddenRowsEmpty(CollapseAll(g, lines))
  {
    if |lines| > 0 {
      CollapseAllKeepsShape(g, lines[..|lines| - 1]);
      CollapseKeepsShape(CollapseAll(g, lines[..|lines| - 1]), lines[|lines| - 1]);
    }
  }

  /** Lines in strictly ascending order, as the scan records them. */
  predicate Ascending(lines: seq<int>)
  {
    forall i, j :: 0 <= i < j < |lines| ==> lines[i] < lines[j]
  }

  /**
   * Removing the rows in ascending order: once the first i are gone, every
   * full row left is one of the rows still to be removed, at its original
   * index.
   */
  lemma {:induction false} CollapsePrefixFullRows(g: seq<Byte>, lines: seq<int>, i: nat)
    requires |g| >= FieldSize && Ascending(lines) && i <= |lines|
    requires forall k :: 0 <= k < |lines| ==> 0 <= lines[k] < Height - 1
    requires forall y :: 0 <= y < Height - 1 && FullLine(g, y) ==> y in lines
    ensures forall y :: 0 <= y < Height - 1 && FullLine(CollapseAll(g, lines[..i]), y) ==> y in lines[i..]
  {
    if i > 0 {
      CollapsePrefixFullRows(g, lines, i - 1);
      var prev := CollapseAll(g, lines[..i - 1]);
      var r := lines[i - 1];
      assert lines[..i][..i - 1] == lines[..i - 1];
      assert CollapseAll(g, lines[..i]) == Collapse(prev, r);
      forall y | 0 <= y < Height - 1 && FullLine(Collapse(prev, r), y)
        ensures y in lines[i..]
      {
        CollapseFullLine(prev, r, y);
        assert y > r;
        assert y in lines[i - 1..];
      }
    }
  }

  /** When every full row is listed, ascending, removing them all leaves no full row. */
  lemma CollapseAllClearsFullRows(g: seq<Byte>, lines: seq<int>)
    requires |g| >= FieldSize && Ascending(lines)
    requires forall k :: 0 <= k < |lines| ==> 0 <= lines[k] < Height - 1
    requires forall y :: 0 <= y < Height - 1 && FullLine(g, y) ==> y in lines
    ensures NoFullRows(CollapseAll(g, lines))
  {
    CollapsePrefixFullRows(g, lines, |lines|);
    assert lines[..|lines|] == lines;
  }

  /** Rows the piece does not reach keep their fullness when it is committed. */
  lemma CommitOtherRows(g: seq<Byte>, p: Piece, y: int)
    requires |g| >= FieldSize && 0 <= y < Height && (y < p.posY || p.posY + 4 <= y)
    ensures FullLine(Commit(g, p), y) == FullLine(g, y)
  {
    forall x | 1 <= x < Width - 1
      ensures At(Commit(g, p), x, y) == At(g, x, y)
    {
      CommitAt(g, p, x, y);
    }
  }
}
