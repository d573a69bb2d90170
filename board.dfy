/**
 * The playfield grid, the falling piece and the placement rule.
 *
 * The grid is a flat byte array indexed `y * Width + x`. The source's macros
 * are named the other way round: `rows` (10) is the width and `cols` (20) the
 * visible height. Four hidden spawn rows sit above the visible ones, so the
 * field is Width x Height = 10 x 24 = 240 cells, in an array of
 * `rows * cols + 100` = 300 bytes whose last 60 bytes are never written.
 */
module Board {
  import opened Shapes

  /** `rows` in the source: the board width, side walls included. */
  const Width := 10
  /** `cols` in the source: the number of visible rows. */
  const VisibleRows := 20
  /** Rows of the field: four hidden spawn rows, the visible rows, the bottom wall row among them. */
  const Height := VisibleRows + 4
  /** Cells of the field proper. */
  const FieldSize := Width * Height
  /** Bytes allocated for the grid. */
  const GridSize := Width * VisibleRows + 100

  /** Grid cells are `unsigned char`. */
  type Byte = x: int | 0 <= x < 256

  /** Cell labels, with the numeric values the full-row test depends on. */
  const Nothing: Byte := 0
  const RemoveMe: Byte := 8
  const Wall: Byte := 9

  /** A locked cell of shape `index` holds the character `index + '0'`. */
  function Tag(index: ShapeId): (b: Byte)
    ensures b > Wall && b != RemoveMe
    ensures b == '1' as int + (index - 1)
  {
    index + '0' as int
  }

  predicate IsTag(b: Byte)
  {
    '1' as int <= b <= '7' as int
  }

  predicate InField(x: int, y: int)
  {
    0 <= x < Width && 0 <= y < Height
  }

  function Idx(x: int, y: int): int
  {
    y * Width + x
  }

  /** Column and row of flat grid index k. */
  function Column(k: int): int
  {
    k % Width
  }

  function Row(k: int): int
  {
    k / Width
  }

  /** For a cell of the field, Column and Row undo Idx. */
  lemma IdxCoordinates(x: int, y: int)
    requires InField(x, y)
    ensures Column(Idx(x, y)) == x && Row(Idx(x, y)) == y
  {
  }

  function At(g: seq<Byte>, x: int, y: int): Byte
    requires |g| >= FieldSize && InField(x, y)
  {
    g[Idx(x, y)]
  }

  /** The left and right columns and the bottom row of the field are walls. */
  predicate IsWallCell(x: int, y: int)
  {
    x == 0 || x == Width - 1 || y == Height - 1
  }

  ghost predicate WallsIntact(g: seq<Byte>)
  {
    |g| >= FieldSize &&
    forall x, y :: InField(x, y) && IsWallCell(x, y) ==> At(g, x, y) == Wall
  }

  /** Every interior cell is empty or holds a locked piece tag. */
  ghost predicate InteriorWellFormed(g: seq<Byte>)
  {
    |g| >= FieldSize &&
    forall x, y :: InField(x, y) && !IsWallCell(x, y) ==> At(g, x, y) == Nothing || IsTag(At(g, x, y))
  }

  /** The bytes after the field keep the zeros the grid was cleared to. */
  predicate PaddingClear(g: seq<Byte>)
  {
    forall k :: FieldSize <= k < |g| ==> g[k] == Nothing
  }

  /** The label `reset_grid` gives cell (x, y). */
  function FreshCell(x: int, y: int): Byte
  {
    if IsWallCell(x, y) then Wall else Nothing
  }

  ghost predicate IsFreshField(g: seq<Byte>)
  {
    |g| >= FieldSize &&
    forall x, y :: InField(x, y) ==> At(g, x, y) == FreshCell(x, y)
  }

  /** A fresh field has its walls and nothing else. */
  lemma FreshFieldWellFormed(g: seq<Byte>)
    requires IsFreshField(g)
    ensures WallsIntact(g) && InteriorWellFormed(g)
    ensures forall x, y :: InField(x, y) && !IsWallCell(x, y) ==> At(g, x, y) == Nothing
  {
  }

  /** The falling piece; `jump` records a hard drop. */
  datatype Piece = Piece(index: ShapeId, rotation: Rotation, posX: int, posY: int, jump: bool)

  /** `reset_piece`, with the random shape id given as `next`. */
  function Spawn(next: ShapeId): (p: Piece)
    ensures p.index == next && p.rotation == 0 && !p.jump
    ensures p.posX == Width / 2 - 2 && p.posY == 0
  {
    Piece(next, 0, Width / 2 - 2, 0, false)
  }

  /** The proposal a move builds: the piece shifted, with `jump` cleared. */
  function Moved(p: Piece, dx: int, dy: int): (q: Piece)
    ensures q.index == p.index && q.rotation == p.rotation && !q.jump
    ensures q.posX == p.posX + dx && q.posY == p.posY + dy
  {
    Piece(p.index, p.rotation, p.posX + dx, p.posY + dy, false)
  }

  /**
   * The proposal the landing loops build for row y: same shape, rotation
   * and column, `jump` cleared.
   */
  function Lowered(p: Piece, y: int): (q: Piece)
    ensures q.index == p.index && q.rotation == p.rotation && q.posX == p.posX
    ensures q.posY == y && !q.jump
  {
    Piece(p.index, p.rotation, p.posX, y, false)
  }

  /** The proposal a rotation builds: the 3-bit field incremented (wrapping), `jump` cleared. */
  function Turned(p: Piece): (q: Piece)
    ensures q.index == p.index && q.posX == p.posX && q.posY == p.posY && !q.jump
    ensures q.rotation == if p.rotation == 7 then 0 else p.rotation + 1
  {
    Piece(p.index, (p.rotation + 1) % 8, p.posX, p.posY, false)
  }

  /** Box cell (px, py) of p does not collide: it is free, outside the field, or on an empty cell. */
  predicate CellFits(p: Piece, g: seq<Byte>, px: int, py: int)
    requires |g| >= FieldSize
  {
    var x, y := p.posX + px, p.posY + py;
    Occupied(p.index, p.rotation, px, py) && InField(x, y) ==> At(g, x, y) == Nothing
  }

  /**
   * Every box cell of p from (px, py) on fits, visiting the cells in the
   * order `does_piece_fit` does: px outer, py inner.
   */
  predicate FitsFrom(p: Piece, g: seq<Byte>, px: nat, py: nat)
    requires |g| >= FieldSize
    decreases 4 - px, 4 - py
  {
    if px >= 4 then true
    else if py >= 4 then FitsFrom(p, g, px + 1, 0)
    else CellFits(p, g, px, py) && FitsFrom(p, g, px, py + 1)
  }

  /** The cells still to visit from (px, py) are the rest of column px and the later columns. */
  predicate Remaining(px: int, py: int, a: int, b: int)
  {
    0 <= a < 4 && ((a == px && py <= b < 4) || (px < a && 0 <= b < 4))
  }

  /** A scan that succeeds from (px, py) on vouches for every remaining cell. */
  lemma {:induction false} FitsFromHolds(p: Piece, g: seq<Byte>, px: nat, py: nat)
    requires |g| >= FieldSize && px <= 4 && py <= 4 && FitsFrom(p, g, px, py)
    ensures forall a, b :: Remaining(px, py, a, b) ==> CellFits(p, g, a, b)
    decreases 4 - px, 4 - py
  {
    if px < 4 {
      if py < 4 {
        FitsFromHolds(p, g, px, py + 1);
      } else {
        FitsFromHolds(p, g, px + 1, 0);
      }
    }
  }

  /** If every remaining cell fits, the scan from (px, py) on succeeds. */
  lemma {:induction false} FitsFromOf(p: Piece, g: seq<Byte>, px: nat, py: nat)
    requires |g| >= FieldSize && px <= 4 && py <= 4
    requires forall a, b :: Remaining(px, py, a, b) ==> CellFits(p, g, a, b)
    ensures FitsFrom(p, g, px, py)
    decreases 4 - px, 4 - py
  {
    if px < 4 {
      if py < 4 {
        assert Remaining(px, py, px, py);
        FitsFromOf(p, g, px, py + 1);
      } else {
        FitsFromOf(p, g, px + 1, 0);
      }
    }
  }

  /**
   * `does_piece_fit`: no occupied cell of the piece that lands inside the
   * field lands on a non-empty cell. Cells outside the field are ignored.
   */
  predicate Fits(p: Piece, g: seq<Byte>)
    requires |g| >= FieldSize
  {
    FitsFrom(p, g, 0, 0)
  }

  /** A piece fits exactly when each of its 16 box cells fits. */
  lemma FitsCells(p: Piece, g: seq<Byte>)
    requires |g| >= FieldSize
    ensures Fits(p, g) <==> forall px, py :: 0 <= px < 4 && 0 <= py < 4 ==> CellFits(p, g, px, py)
  {
    if Fits(p, g) {
      FitsHasCells(p, g);
    }
    if forall px, py :: 0 <= px < 4 && 0 <= py < 4 ==> CellFits(p, g, px, py) {
      CellsMakeFit(p, g);
    }
  }

  lemma FitsHasCells(p: Piece, g: seq<Byte>)
    requires |g| >= FieldSize && Fits(p, g)
    ensures forall px, py :: 0 <= px < 4 && 0 <= py < 4 ==> CellFits(p, g, px, py)
  {
    FitsFromHolds(p, g, 0, 0);
    forall px, py | 0 <= px < 4 && 0 <= py < 4 ensures CellFits(p, g, px, py) {
      assert Remaining(0, 0, px, py);
    }
  }

  lemma CellsMakeFit(p: Piece, g: seq<Byte>)
    requires |g| >= FieldSize
    requires forall px, py :: 0 <= px < 4 && 0 <= py < 4 ==> CellFits(p, g, px, py)
    ensures Fits(p, g)
  {
    FitsFromOf(p, g, 0, 0);
  }

  /** The fit of a piece reads only the 240 cells of the field. */
  lemma FitsReadsOnlyField(p: Piece, g: seq<Byte>, h: seq<Byte>)
    requires |g| >= FieldSize && |h| >= FieldSize && g[..FieldSize] == h[..FieldSize]
    ensures Fits(p, g) == Fits(p, h)
  {
    forall x, y | InField(x, y) ensures At(g, x, y) == At(h, x, y) {
      assert g[Idx(x, y)] == g[..FieldSize][Idx(x, y)];
      assert h[Idx(x, y)] == h[..FieldSize][Idx(x, y)];
    }
    assert forall px, py :: CellFits(p, g, px, py) == CellFits(p, h, px, py);
    FitsCells(p, g);
    FitsCells(p, h);
  }

  /** Pieces in the same place: they differ at most in the `jump` flag. */
  predicate SamePlace(p: Piece, q: Piece)
  {
    p.index == q.index && p.rotation == q.rotation && p.posX == q.posX && p.posY == q.posY
  }

  /** The `jump` flag plays no part in the fit. */
  lemma SamePlaceFits(p: Piece, q: Piece, g: seq<Byte>)
    requires |g| >= FieldSize && SamePlace(p, q)
    ensures Fits(p, g) == Fits(q, g)
  {
    assert forall px, py :: CellFits(p, g, px, py) == CellFits(q, g, px, py);
    FitsCells(p, g);
    FitsCells(q, g);
  }

  /** Box cell (px, py) of p, if occupied, lies strictly between the walls. */
  predicate CellInside(p: Piece, px: int, py: int)
  {
    Occupied(p.index, p.rotation, px, py) ==>
      1 <= p.posX + px < Width - 1 && p.posY + py < Height - 1
  }

  /** Every box cell of p from (px, py) on is inside, in the order of the fit scan. */
  predicate InsideFrom(p: Piece, px: nat, py: nat)
    decreases 4 - px, 4 - py
  {
    if px >= 4 then true
    else if py >= 4 then InsideFrom(p, px + 1, 0)
    else CellInside(p, px, py) && InsideFrom(p, px, py + 1)
  }

  lemma {:induction false} InsideFromHolds(p: Piece, px: nat, py: nat)
    requires px <= 4 && py <= 4 && InsideFrom(p, px, py)
    ensures forall a, b :: Remaining(px, py, a, b) ==> CellInside(p, a, b)
    decreases 4 - px, 4 - py
  {
    if px < 4 {
      if py < 4 {
        InsideFromHolds(p, px, py + 1);
      } else {
        InsideFromHolds(p, px + 1, 0);
      }
    }
  }

  lemma {:induction false} InsideFromOf(p: Piece, px: nat, py: nat)
    requires px <= 4 && py <= 4
    requires forall a, b :: Remaining(px, py, a, b) ==> CellInside(p, a, b)
    ensures InsideFrom(p, px, py)
    decreases 4 - px, 4 - py
  {
    if px < 4 {
      if py < 4 {
        assert Remaining(px, py, px, py);
        InsideFromOf(p, px, py + 1);
      } else {
        InsideFromOf(p, px + 1, 0);
      }
    }
  }

  /**
   * The invariant of the falling piece: it has never risen above row 0 and
   * all its cells are inside the walls. It keeps every grid index the game
   * computes for the piece within the field.
   */
  predicate Inside(p: Piece)
  {
    0 <= p.posY && InsideFrom(p, 0, 0)
  }

  /** A piece is inside exactly when it is not above row 0 and each of its 16 box cells is inside. */
  lemma InsideCells(p: Piece)
    ensures Inside(p) <==> 0 <= p.posY && forall px, py :: 0 <= px < 4 && 0 <= py < 4 ==> CellInside(p, px, py)
  {
    if Inside(p) {
      InsideHasCells(p);
    }
    if 0 <= p.posY && forall px, py :: 0 <= px < 4 && 0 <= py < 4 ==> CellInside(p, px, py) {
      CellsMakeInside(p);
    }
  }

  lemma InsideHasCells(p: Piece)
    requires Inside(p)
    ensures forall px, py :: 0 <= px < 4 && 0 <= py < 4 ==> CellInside(p, px, py)
  {
    InsideFromHolds(p, 0, 0);
    forall px, py | 0 <= px < 4 && 0 <= py < 4 ensures CellInside(p, px, py) {
      assert Remaining(0, 0, px, py);
    }
  }

  lemma CellsMakeInside(p: Piece)
    requires 0 <= p.posY && forall px, py :: 0 <= px < 4 && 0 <= py < 4 ==> CellInside(p, px, py)
    ensures Inside(p)
  {
    InsideFromOf(p, 0, 0);
  }

  /** The `jump` flag plays no part in being inside. */
  lemma SamePlaceInside(p: Piece, q: Piece)
    requires SamePlace(p, q)
    ensures Inside(p) == Inside(q)
  {
    assert forall px, py :: CellInside(p, px, py) == CellInside(q, px, py);
    InsideCells(p);
    InsideCells(q);
  }

  /** Every freshly spawned piece is inside the walls, whatever its shape. */
  lemma SpawnInside(next: ShapeId)
    ensures Inside(Spawn(next))
  {
    InsideCells(Spawn(next));
  }

  /**
   * An inside piece is at most 21 rows down and its box starts in columns
   * -1..7: its hub cell, in the middle 2x2 of the box, is between the walls
   * and above the bottom wall.
   */
  lemma InsideBounds(p: Piece)
    requires Inside(p)
    ensures 0 <= p.posY <= Height - 3
    ensures -1 <= p.posX <= Width - 3
  {
    InsideCells(p);
    HubOccupied(p.index, p.rotation);
    assert CellInside(p, Hub(p.rotation).0, Hub(p.rotation).1);
  }

  /** The occupied cells of an inside piece are interior cells of the field. */
  lemma InsideCellsInterior(p: Piece, px: int, py: int)
    requires Inside(p) && Occupied(p.index, p.rotation, px, py)
    ensures InField(p.posX + px, p.posY + py) && !IsWallCell(p.posX + px, p.posY + py)
    ensures 0 <= Idx(p.posX + px, p.posY + py) < FieldSize
  {
    InsideCells(p);
    assert CellInside(p, px, py);
  }

  /**
   * A sideways or downward step that fits keeps a piece inside the walls:
   * q, the piece in the place of the proposal, is inside.
   */
  lemma ShiftStaysInside(p: Piece, g: seq<Byte>, dx: int, dy: int, q: Piece)
    requires WallsIntact(g) && Inside(p)
    requires ((dx == -1 || dx == 1) && dy == 0) || (dx == 0 && dy == 1)
    requires Fits(Moved(p, dx, dy), g) && SamePlace(q, Moved(p, dx, dy))
    ensures Inside(q)
  {
    InsideCells(p);
    InsideCells(q);
    FitsCells(Moved(p, dx, dy), g);
    forall px, py | 0 <= px < 4 && 0 <= py < 4 ensures CellInside(q, px, py) {
      if Occupied(p.index, p.rotation, px, py) {
        assert CellInside(p, px, py);
        assert CellFits(Moved(p, dx, dy), g, px, py);
      }
    }
  }

  /** The 16 box cells of p, one by one, are inside (the unfolded form of `Inside`). */
  predicate InsideEach(p: Piece)
  {
    0 <= p.posY &&
    CellInside(p, 0, 0) && CellInside(p, 0, 1) && CellInside(p, 0, 2) && CellInside(p, 0, 3) &&
    CellInside(p, 1, 0) && CellInside(p, 1, 1) && CellInside(p, 1, 2) && CellInside(p, 1, 3) &&
    CellInside(p, 2, 0) && CellInside(p, 2, 1) && CellInside(p, 2, 2) && CellInside(p, 2, 3) &&
    CellInside(p, 3, 0) && CellInside(p, 3, 1) && CellInside(p, 3, 2) && CellInside(p, 3, 3)
  }

  lemma InsideEachCells(p: Piece)
    ensures Inside(p) <==> InsideEach(p)
  {
    InsideCells(p);
    if InsideEach(p) {
      forall px, py | 0 <= px < 4 && 0 <= py < 4 ensures CellInside(p, px, py) {
        assert px == 0 || px == 1 || px == 2 || px == 3;
        assert py == 0 || py == 1 || py == 2 || py == 3;
      }
    }
  }

  /** Box cell (px, py) of q, if occupied and in the field, is not on a wall. */
  predicate CellOffWall(q: Piece, px: int, py: int)
  {
    var x, y := q.posX + px, q.posY + py;
    Occupied(q.index, q.rotation, px, py) && InField(x, y) ==> !IsWallCell(x, y)
  }

  predicate OffWallEach(q: Piece)
  {
    CellOffWall(q, 0, 0) && CellOffWall(q, 0, 1) && CellOffWall(q, 0, 2) && CellOffWall(q, 0, 3) &&
    CellOffWall(q, 1, 0) && CellOffWall(q, 1, 1) && CellOffWall(q, 1, 2) && CellOffWall(q, 1, 3) &&
    CellOffWall(q, 2, 0) && CellOffWall(q, 2, 1) && CellOffWall(q, 2, 2) && CellOffWall(q, 2, 3) &&
    CellOffWall(q, 3, 0) && CellOffWall(q, 3, 1) && CellOffWall(q, 3, 2) && CellOffWall(q, 3, 3)
  }

  /** A piece that fits a grid with intact walls has no occupied cell on a wall. */
  lemma FitsOffWall(q: Piece, g: seq<Byte>)
    requires WallsIntact(g) && Fits(q, g)
    ensures OffWallEach(q)
  {
    FitsHasCells(q, g);
    forall px, py | 0 <= px < 4 && 0 <= py < 4 ensures CellOffWall(q, px, py) {
      assert CellFits(q, g, px, py);
    }
  }

  /**
   * A rotation that fits keeps a piece inside the walls. Rotation moves cells
   * anywhere in the box, and a cell pushed past the wall is ignored by the
   * fit; what saves the invariant is that, for every shape, a rotation that
   * pushes a cell out also lays another cell on the wall it crossed. The
   * proof checks the seven masks one by one. The conclusion is about q,
   * the piece in the place of the proposal.
   */
  lemma TurnStaysInside(p: Piece, g: seq<Byte>, q: Piece)
    requires WallsIntact(g) && Inside(p) && Fits(Turned(p), g) && SamePlace(q, Turned(p))
    ensures Inside(q)
  {
    if p.rotation < 4 {
      TurnStaysInsideLow(p, g);
    } else {
      // rotations r and r - 4 show the same cells
      var low := Piece(p.index, p.rotation - 4, p.posX, p.posY, false);
      SameCellsSameFit(Turned(p), Turned(low), g);
      SameCellsSameInside(p, low);
      TurnStaysInsideLow(low, g);
      SameCellsSameInside(Turned(p), Turned(low));
    }
    SamePlaceInside(Turned(p), q);
  }

  /** Pieces that differ only by four rotation steps occupy the same cells. */
  predicate SameCells(p: Piece, q: Piece)
  {
    p.index == q.index && p.posX == q.posX && p.posY == q.posY &&
    (p.rotation + 4 == q.rotation || q.rotation + 4 == p.rotation)
  }

  lemma SameCellsOccupied(p: Piece, q: Piece, px: int, py: int)
    requires SameCells(p, q)
    ensures Occupied(p.index, p.rotation, px, py) == Occupied(q.index, q.rotation, px, py)
  {
    if p.rotation + 4 == q.rotation {
      FourStepsSameCells(p.index, p.rotation, px, py);
    } else {
      FourStepsSameCells(q.index, q.rotation, px, py);
    }
  }

  lemma SameCellsSameFit(p: Piece, q: Piece, g: seq<Byte>)
    requires |g| >= FieldSize && SameCells(p, q)
    ensures Fits(p, g) == Fits(q, g)
  {
    forall px, py | 0 <= px < 4 && 0 <= py < 4 ensures CellFits(p, g, px, py) == CellFits(q, g, px, py) {
      SameCellsOccupied(p, q, px, py);
    }
    FitsCells(p, g);
    FitsCells(q, g);
  }

  lemma SameCellsSameInside(p: Piece, q: Piece)
    requires SameCells(p, q)
    ensures Inside(p) == Inside(q)
  {
    forall px, py | 0 <= px < 4 && 0 <= py < 4 ensures CellInside(p, px, py) == CellInside(q, px, py) {
      SameCellsOccupied(p, q, px, py);
    }
    InsideCells(p);
    InsideCells(q);
  }

  /** The rotation lemma for rotations 0..3, checked shape by shape. */
  lemma TurnStaysInsideLow(p: Piece, g: seq<Byte>)
    requires WallsIntact(g) && Inside(p) && Fits(Turned(p), g) && p.rotation < 4
    ensures Inside(Turned(p))
  {
    InsideEachCells(p);
    FitsOffWall(Turned(p), g);
    TurnEach(p);
    InsideEachCells(Turned(p));
  }

  /**
   * Cell by cell: if p is inside and the turned piece has no cell on a wall,
   * the turned piece is inside. The proof is split by shape only to keep
   * each solver query small.
   */
  lemma TurnEach(p: Piece)
    requires p.rotation < 4 && InsideEach(p) && OffWallEach(Turned(p))
    ensures InsideEach(Turned(p))
  {
    match p.index
    case 1 => TurnShape1(p);
    case 2 => TurnShape2(p);
    case 3 => TurnShape3(p);
    case 4 => TurnShape4(p);
    case 5 => TurnShape5(p);
    case 6 => TurnShape6(p);
    case 7 => TurnShape7(p);
  }

  lemma TurnShape1(p: Piece)
    requires p.index == 1 && p.rotation < 4 && InsideEach(p) && OffWallEach(Turned(p))
    ensures InsideEach(Turned(p))
  {
  }

  lemma TurnShape2(p: Piece)
    requires p.index == 2 && p.rotation < 4 && InsideEach(p) && OffWallEach(Turned(p))
    ensures InsideEach(Turned(p))
  {
  }

  lemma TurnShape3(p: Piece)
    requires p.index == 3 && p.rotation < 4 && InsideEach(p) && OffWallEach(Turned(p))
    ensures InsideEach(Turned(p))
  {
  }

  lemma TurnShape4(p: Piece)
    requires p.index == 4 && p.rotation < 4 && InsideEach(p) && OffWallEach(Turned(p))
    ensures InsideEach(Turned(p))
  {
  }

  lemma TurnShape5(p: Piece)
    requires p.index == 5 && p.rotation < 4 && InsideEach(p) && OffWallEach(Turned(p))
    ensures InsideEach(Turned(p))
  {
  }

  lemma TurnShape6(p: Piece)
    requires p.index == 6 && p.rotation < 4 && InsideEach(p) && OffWallEach(Turned(p))
    ensures InsideEach(Turned(p))
  {
  }

  lemma TurnShape7(p: Piece)
    requires p.index == 7 && p.rotation < 4 && InsideEach(p) && OffWallEach(Turned(p))
    ensures InsideEach(Turned(p))
  {
  }




























}
