/**
 * The player's moves (`move_piece`), the hard drop, and the landing row the
 * ghost piece is drawn at (the loop at the top of `draw_piece_drop`).
 */
module Movement {
  import opened Shapes
  import opened Board
  import opened Collision

  /** Move modes, as `get_key_pressed` produces them and `move_piece` switches on them. */
  const Left := 0
  const Right := 1
  const Down := 2
  const Rotate := 3
  const HardDrop := 4

  /** The piece one row lower, as the landing loop's `pos_y++` leaves it. */
  function Dropped(p: Piece): (q: Piece)
    ensures SamePlace(q, Moved(p, 0, 1)) && q.jump == p.jump
  {
    Piece(p.index, p.rotation, p.posX, p.posY + 1, p.jump)
  }

  /**
   * The piece p moved down one row at a time while the row below fits: the
   * place where a hard drop puts it and where the ghost piece is drawn. It
   * stays in p's column with p's shape and rotation, is inside the walls,
   * and cannot move down any further. Moving down terminates because an
   * inside piece is never below row 22.
   */
  function Landing(p: Piece, g: seq<Byte>): (r: Piece)
    requires WallsIntact(g) && Inside(p)
    ensures r.index == p.index && r.rotation == p.rotation && r.posX == p.posX && r.jump == p.jump
    ensures p.posY <= r.posY
    ensures Inside(r) && !Fits(Moved(r, 0, 1), g)
    decreases Height - p.posY
  {
    InsideBounds(p);
    if Fits(Moved(p, 0, 1), g) then
      ShiftStaysInside(p, g, 0, 1, Dropped(p));
      Landing(Dropped(p), g)
    else
      p
  }

  /** The drop passes only through rows where the piece fits: it never tunnels through a block. */
  lemma {:induction false} LandingPasses(p: Piece, g: seq<Byte>, k: int)
    requires WallsIntact(g) && Inside(p)
    requires p.posY < k <= Landing(p, g).posY
    ensures Fits(Lowered(p, k), g)
    decreases Height - p.posY
  {
    InsideBounds(p);
    // a piece that cannot move down is its own landing place
    assert Fits(Moved(p, 0, 1), g);
    var d := Dropped(p);
    ShiftStaysInside(p, g, 0, 1, d);
    assert Landing(p, g) == Landing(d, g);
    if k == p.posY + 1 {
      assert Lowered(p, k) == Moved(p, 0, 1);
    } else {
      LandingPasses(d, g, k);
      assert Lowered(d, k) == Lowered(p, k);
    }
  }

  /**
   * `move_piece`: left, right and down shift the piece by one cell and
   * rotate steps the 3-bit rotation field, each only when the proposal fits;
   * the hard drop moves the piece to its landing place and sets `jump`; any
   * other mode leaves the piece alone.
   */
  function Move(p: Piece, mode: int, g: seq<Byte>): Piece
    requires |g| >= FieldSize
    requires mode == HardDrop ==> WallsIntact(g) && Inside(p)
  {
    if mode == Left then (if Fits(Moved(p, -1, 0), g) then p.(posX := p.posX - 1) else p)
    else if mode == Right then (if Fits(Moved(p, 1, 0), g) then p.(posX := p.posX + 1) else p)
    else if mode == Down then (if Fits(Moved(p, 0, 1), g) then p.(posY := p.posY + 1) else p)
    else if mode == Rotate then (if Fits(Turned(p), g) then p.(rotation := (p.rotation + 1) % 8) else p)
    else if mode == HardDrop then Landing(p, g).(jump := true)
    else p
  }

  /**
   * What each mode does: a shift or a rotation happens exactly when its
   * proposal fits and then puts the piece where the proposal was; only the
   * hard drop touches `jump`, and it leaves the piece resting in its own
   * column; the shape never changes.
   */
  lemma MoveOutcome(p: Piece, mode: int, g: seq<Byte>)
    requires |g| >= FieldSize
    requires mode == HardDrop ==> WallsIntact(g) && Inside(p)
    ensures Move(p, mode, g).index == p.index
    ensures mode == Left ==> (Move(p, mode, g) != p <==> Fits(Moved(p, -1, 0), g))
    ensures mode == Right ==> (Move(p, mode, g) != p <==> Fits(Moved(p, 1, 0), g))
    ensures mode == Down ==> (Move(p, mode, g) != p <==> Fits(Moved(p, 0, 1), g))
    ensures mode == Rotate ==> (Move(p, mode, g) != p <==> Fits(Turned(p), g))
    ensures mode == Left && Fits(Moved(p, -1, 0), g) ==> SamePlace(Move(p, mode, g), Moved(p, -1, 0))
    ensures mode == Right && Fits(Moved(p, 1, 0), g) ==> SamePlace(Move(p, mode, g), Moved(p, 1, 0))
    ensures mode == Down && Fits(Moved(p, 0, 1), g) ==> SamePlace(Move(p, mode, g), Moved(p, 0, 1))
    ensures mode == Rotate && Fits(Turned(p), g) ==> SamePlace(Move(p, mode, g), Turned(p))
    ensures Left <= mode <= Rotate ==> Move(p, mode, g).jump == p.jump
    ensures mode == HardDrop ==>
      var q := Move(p, mode, g);
      q.jump && q.rotation == p.rotation && q.posX == p.posX && q.posY >= p.posY && !Fits(Moved(q, 0, 1), g)
    ensures !(Left <= mode <= HardDrop) ==> Move(p, mode, g) == p
  {
    if mode == HardDrop {
      var r := Landing(p, g);
      SamePlaceFits(Moved(r, 0, 1), Moved(Move(p, mode, g), 0, 1), g);
    }
  }

  /** Every move keeps a piece inside the walls. */
  lemma MoveStaysInside(p: Piece, mode: int, g: seq<Byte>)
    requires WallsIntact(g) && Inside(p)
    ensures Inside(Move(p, mode, g))
  {
    var q := Move(p, mode, g);
    if mode == Left && Fits(Moved(p, -1, 0), g) {
      ShiftStaysInside(p, g, -1, 0, q);
    } else if mode == Right && Fits(Moved(p, 1, 0), g) {
      ShiftStaysInside(p, g, 1, 0, q);
    } else if mode == Down && Fits(Moved(p, 0, 1), g) {
      ShiftStaysInside(p, g, 0, 1, q);
    } else if mode == Rotate && Fits(Turned(p), g) {
      TurnStaysInside(p, g, q);
    } else if mode == HardDrop {
      SamePlaceInside(Landing(p, g), q);
    }
  }

  /** A piece that fits where it is still fits after any move: moves never overlap locked blocks. */
  lemma MoveKeepsFit(p: Piece, mode: int, g: seq<Byte>)
    requires WallsIntact(g) && Inside(p) && Fits(p, g)
    ensures Fits(Move(p, mode, g), g)
  {
    var q := Move(p, mode, g);
    if mode == Left && Fits(Moved(p, -1, 0), g) {
      SamePlaceFits(Moved(p, -1, 0), q, g);
    } else if mode == Right && Fits(Moved(p, 1, 0), g) {
      SamePlaceFits(Moved(p, 1, 0), q, g);
    } else if mode == Down && Fits(Moved(p, 0, 1), g) {
      SamePlaceFits(Moved(p, 0, 1), q, g);
    } else if mode == Rotate && Fits(Turned(p), g) {
      SamePlaceFits(Turned(p), q, g);
    } else if mode == HardDrop {
      var r := Landing(p, g);
      if r.posY == p.posY {
        SamePlaceFits(p, q, g);
      } else {
        LandingPasses(p, g, r.posY);
        SamePlaceFits(Lowered(p, r.posY), q, g);
      }
    }
  }

  /**
   * The landing loop shared by the hard drop and `draw_piece_drop`: while
   * the piece one row lower fits, move it down.
   */
  method DropToLanding(p: Piece, grid: array<Byte>) returns (q: Piece)
    requires WallsIntact(grid[..]) && Inside(p)
    ensures q == Landing(p, grid[..])
  {
    q := p;
    var fits := DoesPieceFit(Moved(q, 0, 1), grid);
    while fits
      invariant Inside(q) && Landing(q, grid[..]) == Landing(p, grid[..])
      invariant fits == Fits(Moved(q, 0, 1), grid[..])
      decreases Height - q.posY
    {
      InsideBounds(q);
      ShiftStaysInside(q, grid[..], 0, 1, Dropped(q));
      q := q.(posY := q.posY + 1);
      fits := DoesPieceFit(Moved(q, 0, 1), grid);
    }
  }

  /**
   * `move_piece`, step by step: each shift adds the fit result (0 or 1) to
   * the coordinate, rotation adds it to the 3-bit field (wrapping from 7 to
   * 0), and the hard drop runs the landing loop and then sets `jump`.
   */
  method MovePiece(p: Piece, mode: int, grid: array<Byte>) returns (q: Piece)
    requires grid.Length >= FieldSize
    requires mode == HardDrop ==> WallsIntact(grid[..]) && Inside(p)
    ensures q == Move(p, mode, grid[..])
  {
    q := p;
    if mode == Left {
      var fits := DoesPieceFit(Moved(p, -1, 0), grid);
      q := q.(posX := q.posX - if fits then 1 else 0);
    } else if mode == Right {
      var fits := DoesPieceFit(Moved(p, 1, 0), grid);
      q := q.(posX := q.posX + if fits then 1 else 0);
    } else if mode == Down {
      var fits := DoesPieceFit(Moved(p, 0, 1), grid);
      q := q.(posY := q.posY + if fits then 1 else 0);
    } else if mode == Rotate {
      var fits := DoesPieceFit(Turned(p), grid);
      q := q.(rotation := (q.rotation + if fits then 1 else 0) % 8);
    } else if mode == HardDrop {
      q := DropToLanding(p, grid);
      q := q.(jump := true);
    }
  }
}
