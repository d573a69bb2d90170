/**
 * The tetromino catalogue and the rotation encoder.
 *
 * A piece lives in a 4x4 box. Each of the seven shapes is a 16-character
 * mask read row by row ('.' is a free cell); `RotatedIndex` maps a box cell
 * (px, py) and a rotation to the mask position that is shown there.
 */
module Shapes {

  /** Shape ids are 1..7 (the generator draws `rand() % 7 + 1`). */
  type ShapeId = i: int | 1 <= i <= 7 witness 1

  /** The rotation field of a piece is an unsigned 3-bit bitfield: 0..7. */
  type Rotation = r: int | 0 <= r < 8

  /** C's `r % 4` on `int`: the remainder takes the sign of the dividend. */
  function CRemainder4(r: int): (m: int)
    ensures r >= 0 ==> m == r % 4
    ensures r < 0 ==> -4 < m <= 0 && (r - m) % 4 == 0
  {
    if r >= 0 then r % 4 else -((-r) % 4)
  }

  /**
   * The rotation encoder. The switch has no default, so a rotation whose
   * C remainder is negative falls through to `return 0`.
   */
  function RotatedIndex(px: int, py: int, r: int): (i: int)
    ensures 0 <= px < 4 && 0 <= py < 4 ==> 0 <= i < 16
    ensures r >= 0 && r % 4 == 0 ==> i == py * 4 + px
  {
    match CRemainder4(r)
    case 0 => py * 4 + px
    case 1 => 12 + py - (px * 4)
    case 2 => 15 - (py * 4) - px
    case 3 => 3 - py + (px * 4)
    case _ => 0
  }

  /** For a non-negative rotation only the rotation modulo 4 matters. */
  lemma RotatedIndexPeriodic(px: int, py: int, r: int)
    requires r >= 0
    ensures RotatedIndex(px, py, r) == RotatedIndex(px, py, r % 4)
    ensures RotatedIndex(px, py, r + 4) == RotatedIndex(px, py, r)
  {
    assert (r + 4) % 4 == r % 4;
  }

  /** The box cell that a quarter turn (clockwise on screen) carries to (px, py). */
  function QuarterTurn(px: int, py: int): (c: (int, int))
    ensures 0 <= px < 4 && 0 <= py < 4 ==> 0 <= c.0 < 4 && 0 <= c.1 < 4
  {
    (py, 3 - px)
  }

  /** Each rotation step shows the previous rotation turned by a quarter. */
  lemma RotationStepIsQuarterTurn(px: int, py: int, r: int)
    requires r >= 0
    ensures RotatedIndex(px, py, r + 1) == RotatedIndex(QuarterTurn(px, py).0, QuarterTurn(px, py).1, r)
  {
    assert (r + 1) % 4 == (r % 4 + 1) % 4;
  }

  /** Four quarter turns give back the starting cell: rotation is a group of order 4. */
  lemma {:induction false} FourQuarterTurns(px: int, py: int)
    ensures var a := QuarterTurn(px, py);
            var b := QuarterTurn(a.0, a.1);
            var c := QuarterTurn(b.0, b.1);
            QuarterTurn(c.0, c.1) == (px, py)
  {
  }

  /** The inverse of the rotation encoder: the box cell that shows mask position i. */
  function CellOf(i: int, r: int): (c: (int, int))
    requires 0 <= i < 16 && r >= 0
    ensures 0 <= c.0 < 4 && 0 <= c.1 < 4
    ensures RotatedIndex(c.0, c.1, r) == i
  {
    match r % 4
    case 0 => (i % 4, i / 4)
    case 1 => (3 - i / 4, i % 4)
    case 2 => (3 - i % 4, 3 - i / 4)
    case _ => (i / 4, 3 - i % 4)
  }

  /**
   * For every non-negative rotation the encoder is a bijection between the
   * 16 box cells and the 16 mask positions: `CellOf` undoes it on both sides.
   */
  lemma RotatedIndexBijective(px: int, py: int, r: int)
    requires 0 <= px < 4 && 0 <= py < 4 && r >= 0
    ensures CellOf(RotatedIndex(px, py, r), r) == (px, py)
  {
  }

  /** Distinct box cells show distinct mask positions. */
  lemma RotatedIndexInjective(px: int, py: int, qx: int, qy: int, r: int)
    requires 0 <= px < 4 && 0 <= py < 4 && 0 <= qx < 4 && 0 <= qy < 4 && r >= 0
    requires RotatedIndex(px, py, r) == RotatedIndex(qx, qy, r)
    ensures px == qx && py == qy
  {
    RotatedIndexBijective(px, py, r);
    RotatedIndexBijective(qx, qy, r);
  }

  /** The seven masks, each four rows of four characters laid end to end. */
  const Tetromino: seq<string> := [
    "..1...1...1...1.",
    "..2..22..2......",
    ".3...33...3.....",
    ".....44..44.....",
    "..5..55...5.....",
    ".....66...6...6.",
    ".....77..7...7.."
  ]

  /**
   * The mask positions of shape `index` that hold a block, read off the
   * table above; the proofs use this form, which spares the solver the
   * string literals.
   */
  predicate Filled(index: ShapeId, i: int)
  {
    match index
    case 1 => i == 2 || i == 6 || i == 10 || i == 14
    case 2 => i == 2 || i == 5 || i == 6 || i == 9
    case 3 => i == 1 || i == 5 || i == 6 || i == 10
    case 4 => i == 5 || i == 6 || i == 9 || i == 10
    case 5 => i == 2 || i == 5 || i == 6 || i == 10
    case 6 => i == 5 || i == 6 || i == 10 || i == 14
    case 7 => i == 5 || i == 6 || i == 9 || i == 13
  }

  /** `Filled` agrees with the table: a position holds a block iff its character is not '.'. */
  lemma FilledMatchesTable(index: ShapeId, i: int)
    requires 0 <= i < 16
    ensures Filled(index, i) <==> Tetromino[index - 1][i] != '.'
  {
  }

  /** Box cell (px, py) of shape `index` in rotation `r` is part of the piece. */
  predicate Occupied(index: ShapeId, r: Rotation, px: int, py: int)
  {
    0 <= px < 4 && 0 <= py < 4 && Filled(index, RotatedIndex(px, py, r))
  }

  /** Stepping the 3-bit rotation field shows the quarter turn of the previous rotation. */
  lemma RotationFieldStep(px: int, py: int, r: Rotation)
    ensures RotatedIndex(px, py, (r + 1) % 8) == RotatedIndex(QuarterTurn(px, py).0, QuarterTurn(px, py).1, r)
  {
    RotationStepIsQuarterTurn(px, py, r);
    RotatedIndexPeriodic(px, py, r + 1);
    RotatedIndexPeriodic(px, py, (r + 1) % 8);
    assert ((r + 1) % 8) % 4 == (r + 1) % 4;
  }

  /** Rotation r + 1 occupies exactly the quarter turn of what rotation r occupies. */
  lemma OccupiedAfterTurn(index: ShapeId, r: Rotation, px: int, py: int)
    requires 0 <= px < 4 && 0 <= py < 4
    ensures Occupied(index, (r + 1) % 8, px, py) == Occupied(index, r, QuarterTurn(px, py).0, QuarterTurn(px, py).1)
  {
    RotationFieldStep(px, py, r);
  }

  /**
   * The 3-bit field takes eight values but shows four orientations:
   * rotations r and r + 4 show the same cells.
   */
  lemma FourStepsSameCells(index: ShapeId, r: Rotation, px: int, py: int)
    requires r < 4
    ensures Occupied(index, r + 4, px, py) == Occupied(index, r, px, py)
  {
    RotatedIndexPeriodic(px, py, r);
  }

  /**
   * Mask position 6 is filled in every shape, so in rotation r the box cell
   * `Hub(r)`, which lies in the middle 2x2 of the box, is always part of
   * the piece.
   */
  function Hub(r: Rotation): (c: (int, int))
    ensures 1 <= c.0 <= 2 && 1 <= c.1 <= 2
    ensures RotatedIndex(c.0, c.1, r) == 6
  {
    CellOf(6, r)
  }

  lemma HubOccupied(index: ShapeId, r: Rotation)
    ensures Occupied(index, r, Hub(r).0, Hub(r).1)
  {
  }
}
