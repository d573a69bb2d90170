/** The collision test, as the nested scan over the piece's box that the game runs. */
module Collision {
  import opened Shapes
  import opened Board

  /**
   * The test the scan applies to one box cell (the table character at the
   * rotated position is not '.', and the field cell under it is not empty)
   * decides whether that cell fits.
   */
  lemma CellTest(p: Piece, g: seq<Byte>, px: int, py: int)
    requires |g| >= FieldSize && 0 <= px < 4 && 0 <= py < 4
    ensures CellFits(p, g, px, py) <==>
      !(InField(p.posX + px, p.posY + py) && Tetromino[p.index - 1][RotatedIndex(px, py, p.rotation)] != '.' &&
        g[(p.posY + py) * Width + (p.posX + px)] != Nothing)
  {
    FilledMatchesTable(p.index, RotatedIndex(px, py, p.rotation));
  }

  /**
   * The body of the scan for one box cell: the cell blocks when it lies in
   * the field, the table character at its rotated position is not '.', and
   * the field cell under it is not empty. Every index read lies in the
   * 240-cell field.
   */
  method CellBlocked(p: Piece, grid: array<Byte>, px: int, py: int) returns (blocked: bool)
    requires grid.Length >= FieldSize && 0 <= px < 4 && 0 <= py < 4
    ensures blocked == !CellFits(p, grid[..], px, py)
  {
    var pi := RotatedIndex(px, py, p.rotation);
    var fi := (p.posY + py) * Width + (p.posX + px);
    CellTest(p, grid[..], px, py);
    blocked := false;
    if 0 <= p.posX + px < Width {
      if 0 <= p.posY + py < Height {
        assert 0 <= fi < FieldSize;
        blocked := Tetromino[p.index - 1][pi] != '.' && grid[fi] != Nothing;
      }
    }
  }

  /**
   * `does_piece_fit`: scans the 16 box cells column by column and answers
   * false at the first cell that blocks; cells outside the field are
   * skipped. The grid is only read.
   */
  method DoesPieceFit(p: Piece, grid: array<Byte>) returns (fits: bool)
    requires grid.Length >= FieldSize
    ensures fits == Fits(p, grid[..])
  {
    for px := 0 to 4
      invariant Fits(p, grid[..]) == FitsFrom(p, grid[..], px, 0)
    {
      for py := 0 to 4
        invariant Fits(p, grid[..]) == FitsFrom(p, grid[..], px, py)
      {
        var blocked := CellBlocked(p, grid, px, py);
        if blocked {
          return false;
        }
      }
    }
    return true;
  }
}
