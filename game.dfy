/**
 * One pass of the game loop's update block: the pending key, gravity with
 * locking and line clearing, then the score and level bookkeeping.
 */
module Game {
  import opened Shapes
  import opened Board
  import opened Collision
  import opened Movement
  import opened Lock
  import opened Scoring

  /** `key_pressed` when no key is pending. */
  const NoKey := -1

  /**
   * What the loop carries from one update to the next: the grid, the
   * falling piece, the rotate-key latch `held`, the pending key, the score
   * and level, the gravity counter and the two update flags.
   */
  datatype Snapshot = Snapshot(
    grid: seq<Byte>, piece: Piece, held: bool, key: int,
    progress: Progress, counter: nat, scoreChanged: bool, levelChanged: bool)

  /**
   * The grid between updates: its size, the walls, only tags inside, clear
   * padding, empty spawn rows and no full row.
   */
  ghost predicate GoodGrid(g: seq<Byte>)
  {
    |g| == GridSize && WallsIntact(g) && InteriorWellFormed(g) && PaddingClear(g) &&
    HiddenRowsEmpty(g) && NoFullRows(g)
  }

  /** The invariant between updates: a good grid, a falling piece inside it and clear of blocks, valid bookkeeping. */
  ghost predicate ValidSnapshot(s: Snapshot)
  {
    GoodGrid(s.grid) && Inside(s.piece) && Fits(s.piece, s.grid) && ValidProgress(s.progress)
  }

  /**
   * `handle_key_press` on the piece and the latch: the rotate key turns the
   * piece only when the latch is open and then closes it; any other key
   * value is handed to the move.
   */
  function KeyEffect(p: Piece, key: int, held: bool, g: seq<Byte>): (Piece, bool)
    requires WallsIntact(g) && Inside(p)
  {
    if key == Rotate then ((if held then p else Move(p, Rotate, g)), true)
    else (Move(p, key, g), held)
  }

  /**
   * Holding the rotate key turns the piece once: a second rotate key before
   * the key is released leaves the piece as it is. No pending key leaves the
   * piece alone too, and only the rotate key touches the latch.
   */
  lemma KeyLatch(p: Piece, g: seq<Byte>, key: int, held: bool)
    requires WallsIntact(g) && Inside(p)
    ensures KeyEffect(p, Rotate, true, g) == (p, true)
    ensures KeyEffect(p, NoKey, held, g) == (p, held)
    ensures key != Rotate ==> KeyEffect(p, key, held, g).1 == held
    ensures key == Rotate ==> KeyEffect(p, key, held, g).1
  {
    MoveOutcome(p, NoKey, g);
  }

  /** A key keeps the piece inside the field and clear of blocks. */
  lemma KeyKeepsFit(p: Piece, key: int, held: bool, g: seq<Byte>)
    requires WallsIntact(g) && Inside(p) && Fits(p, g)
    ensures Inside(KeyEffect(p, key, held, g).0) && Fits(KeyEffect(p, key, held, g).0, g)
  {
    MoveStaysInside(p, key, g);
    MoveKeepsFit(p, key, g);
  }

  /** The key step of an update: the key takes effect and is consumed. */
  function AfterKey(s: Snapshot): Snapshot
    requires WallsIntact(s.grid) && Inside(s.piece)
  {
    var r := KeyEffect(s.piece, s.key, s.held, s.grid);
    s.(piece := r.0, held := r.1, key := NoKey)
  }

  /**
   * The lock: the piece is copied into the grid, its four rows are scanned
   * for full lines, a new piece `next` is spawned and the full lines are
   * removed. The game is over when the new piece cannot move down or the
   * locked piece reached into the spawn rows; then the grid is reset, a
   * second new piece `restart` is spawned and the bookkeeping restarts.
   * The second component is `lines_length` as the score block sees it.
   */
  function LockPiece(s: Snapshot, next: ShapeId, restart: ShapeId): (Snapshot, nat)
    requires |s.grid| == GridSize && 0 <= s.piece.posY <= Height - 2
  {
    var committed := Commit(s.grid, s.piece);
    var lines := FullLines(committed, s.piece.posY, 4);
    var cleared := CollapseAll(committed, lines);
    var spawn := Spawn(next);
    if !Fits(Moved(spawn, 0, 1), cleared) || s.piece.posY < 4 then
      (s.(grid := ResetField(cleared), piece := Spawn(restart), progress := Start,
          scoreChanged := true, levelChanged := true), 0)
    else
      (s.(grid := cleared, piece := spawn, scoreChanged := s.scoreChanged || |lines| > 0), |lines|)
  }

  /**
   * Gravity: every `FallPeriod(level)` updates, or straight after a hard
   * drop, the piece moves down one row if it fits there and locks if not.
   */
  function Gravity(s: Snapshot, next: ShapeId, restart: ShapeId): (Snapshot, nat)
    requires |s.grid| == GridSize && WallsIntact(s.grid) && Inside(s.piece) && s.progress.level <= MaxLevel
  {
    if s.counter % FallPeriod(s.progress.level) == 0 || s.piece.jump then
      if Fits(Moved(s.piece, 0, 1), s.grid) then (s.(piece := Dropped(s.piece)), 0)
      else
        InsideBounds(s.piece);
        LockPiece(s, next, restart)
    else (s, 0)
  }

  /** The end of an update: score and level, then the counter steps and both flags drop. */
  function Settle(s: Snapshot, lines: nat): Snapshot
  {
    s.(progress := UpdateProgress(s.progress, lines, s.scoreChanged, s.levelChanged),
       counter := s.counter + 1, scoreChanged := false, levelChanged := false)
  }

  /** One update of the game; `next` and `restart` stand for the two `rand()` draws it may make. */
  function Tick(s: Snapshot, next: ShapeId, restart: ShapeId): Snapshot
    requires ValidSnapshot(s)
  {
    KeyKeepsFit(s.piece, s.key, s.held, s.grid);
    var a := AfterKey(s);
    var b := Gravity(a, next, restart);
    Settle(b.0, b.1)
  }

  /** The state before the first update: a reset grid over zeroed memory, a new piece, both flags set. */
  function Initial(next: ShapeId): Snapshot
  {
    Snapshot(ResetField(seq(GridSize, k => Nothing)), Spawn(next), false, NoKey, Start, 0, true, true)
  }

  /** A piece spawned over empty spawn rows fits. */
  lemma SpawnFits(g: seq<Byte>, next: ShapeId)
    requires HiddenRowsEmpty(g)
    ensures Fits(Spawn(next), g)
  {
    var p := Spawn(next);
    SpawnInside(next);
    forall px, py | 0 <= px < 4 && 0 <= py < 4
      ensures CellFits(p, g, px, py)
    {
      if Occupied(p.index, p.rotation, px, py) {
        InsideCellsInterior(p, px, py);
      }
    }
    CellsMakeFit(p, g);
  }

  /** A reset grid is good. */
  lemma ResetGood(g: seq<Byte>)
    requires |g| == GridSize && PaddingClear(g)
    ensures GoodGrid(ResetField(g))
  {
    var h := ResetField(g);
    ResetFieldUnique(g, h);
    FreshFieldWellFormed(h);
    FreshFieldHiddenRowsEmpty(h);
    FreshFieldNoFullRows(h);
    assert forall k :: FieldSize <= k < |h| ==> h[k] == h[FieldSize..][k - FieldSize];
  }

  lemma InitialValid(next: ShapeId)
    ensures ValidSnapshot(Initial(next))
  {
    var s := Initial(next);
    ResetGood(seq(GridSize, k => Nothing));
    SpawnInside(next);
    SpawnFits(s.grid, next);
    StartValid();
  }

  /**
   * The scan after a commit finds every full row: the committed grid keeps
   * its shape, the rows found lie in the playfield, and every full row of
   * the committed grid is among them, since the rows the piece does not
   * reach were not full before.
   */
  lemma ScanFindsAllFullRows(g: seq<Byte>, p: Piece)
    requires GoodGrid(g) && Inside(p)
    ensures p.posY <= Height - 2
    ensures WallsIntact(Commit(g, p)) && InteriorWellFormed(Commit(g, p)) && PaddingClear(Commit(g, p))
    ensures forall k :: 0 <= k < |FullLines(Commit(g, p), p.posY, 4)| ==>
      0 <= FullLines(Commit(g, p), p.posY, 4)[k] < Height - 1
    ensures forall y :: 0 <= y < Height - 1 && FullLine(Commit(g, p), y) ==> y in FullLines(Commit(g, p), p.posY, 4)
  {
    InsideBounds(p);
    var c := Commit(g, p);
    var lines := FullLines(c, p.posY, 4);
    CommitKeepsShape(g, p);
    assert PaddingClear(c) by {
      assert forall k :: FieldSize <= k < |c| ==> c[k] == c[FieldSize..][k - FieldSize];
      assert forall k :: FieldSize <= k < |g| ==> g[k] == g[FieldSize..][k - FieldSize];
    }
    forall k | 0 <= k < |lines|
      ensures 0 <= lines[k] < Height - 1
    {
      assert lines[k] in lines;
      if lines[k] >= Height - 1 {
        NotFullOutsidePlayfield(c, lines[k]);
      }
    }
    forall y | 0 <= y < Height - 1 && FullLine(c, y)
      ensures y in lines
    {
      if y < p.posY || p.posY + 4 <= y {
        CommitOtherRows(g, p, y);
      }
    }
  }

  /** Committing a piece below the spawn rows and removing the rows found leaves a good grid. */
  lemma CommitAndClearGood(g: seq<Byte>, p: Piece)
    requires GoodGrid(g) && Inside(p) && p.posY >= 4
    ensures p.posY <= Height - 2
    ensures GoodGrid(CollapseAll(Commit(g, p), FullLines(Commit(g, p), p.posY, 4)))
  {
    ScanFindsAllFullRows(g, p);
    var c := Commit(g, p);
    var lines := FullLines(c, p.posY, 4);
    CommitKeepsHiddenRows(g, p);
    CollapseAllKeepsShape(c, lines);
    assert Ascending(lines);
    CollapseAllClearsFullRows(c, lines);
  }

  /**
   * A lock leaves a valid state: either the game goes on with the new piece
   * in the cleared grid, or it restarts on a fresh grid. At most four rows
   * are cleared at once.
   */
  lemma LockKeepsValid(s: Snapshot, next: ShapeId, restart: ShapeId)
    requires ValidSnapshot(s)
    ensures s.piece.posY <= Height - 2
    ensures ValidSnapshot(LockPiece(s, next, restart).0) && LockPiece(s, next, restart).1 <= 4
  {
    InsideBounds(s.piece);
    var c := Commit(s.grid, s.piece);
    var lines := FullLines(c, s.piece.posY, 4);
    var cleared := CollapseAll(c, lines);
    var r := LockPiece(s, next, restart);
    if !Fits(Moved(Spawn(next), 0, 1), cleared) || s.piece.posY < 4 {
      ScanFindsAllFullRows(s.grid, s.piece);
      CollapseAllKeepsShape(c, lines);
      ResetGood(cleared);
      SpawnInside(restart);
      SpawnFits(r.0.grid, restart);
      StartValid();
    } else {
      CommitAndClearGood(s.grid, s.piece);
      SpawnInside(next);
      SpawnFits(cleared, next);
    }
  }

  /** Gravity keeps the state valid: a piece that falls moves into a row where it fits. */
  lemma GravityKeepsValid(s: Snapshot, next: ShapeId, restart: ShapeId)
    requires ValidSnapshot(s)
    ensures ValidSnapshot(Gravity(s, next, restart).0) && Gravity(s, next, restart).1 <= 4
  {
    if s.counter % FallPeriod(s.progress.level) == 0 || s.piece.jump {
      if Fits(Moved(s.piece, 0, 1), s.grid) {
        var d := Dropped(s.piece);
        ShiftStaysInside(s.piece, s.grid, 0, 1, d);
        SamePlaceFits(d, Moved(s.piece, 0, 1), s.grid);
      } else {
        LockKeepsValid(s, next, restart);
      }
    }
  }

  /** The bookkeeping at the end of an update keeps the state valid. */
  lemma SettleKeepsValid(s: Snapshot, lines: nat)
    requires ValidSnapshot(s)
    ensures ValidSnapshot(Settle(s, lines))
  {
    UpdateKeepsValid(s.progress, lines, s.scoreChanged, s.levelChanged);
  }

  /**
   * The game invariant: from a valid state every update leads to a valid
   * state, whatever key is pending and whatever pieces are drawn. In
   * particular the walls stay, the falling piece never overlaps a block or
   * leaves the field, no full row survives an update, and the level and
   * its requirement stay in step.
   */
  lemma TickKeepsValid(s: Snapshot, next: ShapeId, restart: ShapeId)
    requires ValidSnapshot(s)
    ensures ValidSnapshot(Tick(s, next, restart))
  {
    KeyKeepsFit(s.piece, s.key, s.held, s.grid);
    var a := AfterKey(s);
    GravityKeepsValid(a, next, restart);
    var b := Gravity(a, next, restart);
    SettleKeepsValid(b.0, b.1);
  }

  /**
   * Game over: when the locked piece reached into the spawn rows, or the
   * new piece cannot move down in the cleared grid, the grid is reset, the
   * second new piece falls, the bookkeeping restarts and both flags are
   * set; no rows count towards the score.
   */
  lemma GameOverRestarts(s: Snapshot, next: ShapeId, restart: ShapeId)
    requires |s.grid| == GridSize && 0 <= s.piece.posY <= Height - 2
    requires s.piece.posY < 4 ||
      !Fits(Moved(Spawn(next), 0, 1),
        CollapseAll(Commit(s.grid, s.piece), FullLines(Commit(s.grid, s.piece), s.piece.posY, 4)))
    ensures IsFreshField(LockPiece(s, next, restart).0.grid)
    ensures LockPiece(s, next, restart).0.piece == Spawn(restart)
    ensures LockPiece(s, next, restart).0.progress == Start
    ensures LockPiece(s, next, restart).0.scoreChanged && LockPiece(s, next, restart).0.levelChanged
    ensures LockPiece(s, next, restart).1 == 0
  {
    var c := Commit(s.grid, s.piece);
    ResetFieldUnique(CollapseAll(c, FullLines(c, s.piece.posY, 4)), []);
  }

  /**
   * Otherwise the game goes on: the first new piece falls, the bookkeeping
   * is untouched until the end of the update, and the rows found count.
   */
  lemma LockContinues(s: Snapshot, next: ShapeId, restart: ShapeId)
    requires |s.grid| == GridSize && 4 <= s.piece.posY <= Height - 2
    requires Fits(Moved(Spawn(next), 0, 1),
      CollapseAll(Commit(s.grid, s.piece), FullLines(Commit(s.grid, s.piece), s.piece.posY, 4)))
    ensures LockPiece(s, next, restart).0.piece == Spawn(next)
    ensures LockPiece(s, next, restart).0.progress == s.progress
    ensures LockPiece(s, next, restart).1 == |FullLines(Commit(s.grid, s.piece), s.piece.posY, 4)|
    ensures LockPiece(s, next, restart).0.scoreChanged == (s.scoreChanged || LockPiece(s, next, restart).1 > 0)
  {
  }

  /** The restarted bookkeeping passes through the end of the update unchanged. */
  lemma RestartSettles()
    ensures UpdateProgress(Start, 0, true, true) == Start
  {
  }

  /**
   * Gravity either leaves the bookkeeping as it was or restarts it; a
   * restart sets both flags and counts no rows.
   */
  lemma GravityProgress(s: Snapshot, next: ShapeId, restart: ShapeId)
    requires ValidSnapshot(s)
    ensures Gravity(s, next, restart).0.progress == s.progress ||
      (Gravity(s, next, restart).0.progress == Start && Gravity(s, next, restart).1 == 0 &&
       Gravity(s, next, restart).0.scoreChanged && Gravity(s, next, restart).0.levelChanged)
  {
    InsideBounds(s.piece);
  }

  /**
   * The end of an update never lowers the score: it adds the award for
   * the rows when the score block runs, and nothing otherwise.
   */
  lemma SettleScore(s: Snapshot, lines: nat)
    ensures Settle(s, lines).progress.score ==
      s.progress.score + if s.scoreChanged then Points(lines, s.progress.level) else 0
  {
    UpdateMonotone(s.progress, lines, s.scoreChanged, s.levelChanged);
  }

  /** An update is the key step, then gravity, then the bookkeeping. */
  lemma TickSteps(s: Snapshot, next: ShapeId, restart: ShapeId)
    requires ValidSnapshot(s)
    ensures ValidSnapshot(AfterKey(s))
    ensures Tick(s, next, restart) ==
      Settle(Gravity(AfterKey(s), next, restart).0, Gravity(AfterKey(s), next, restart).1)
  {
    KeyKeepsFit(s.piece, s.key, s.held, s.grid);
  }

  /** An update either restarts the game or does not lower the score. */
  lemma TickScore(s: Snapshot, next: ShapeId, restart: ShapeId)
    requires ValidSnapshot(s)
    ensures Tick(s, next, restart).progress.score >= s.progress.score || Tick(s, next, restart).progress == Start
  {
    TickSteps(s, next, restart);
    var a := AfterKey(s);
    var b := Gravity(a, next, restart);
    GravityProgress(a, next, restart);
    SettleScore(b.0, b.1);
    if b.0.progress != s.progress {
      RestartSettles();
    }
  }

  /** The two outcomes of a lock, for given scan result and cleared grid. */
  lemma LockOutcome(s: Snapshot, next: ShapeId, restart: ShapeId, lines: seq<int>, cleared: seq<Byte>)
    requires |s.grid| == GridSize && 0 <= s.piece.posY <= Height - 2
    requires lines == FullLines(Commit(s.grid, s.piece), s.piece.posY, 4)
    requires cleared == CollapseAll(Commit(s.grid, s.piece), lines)
    ensures !Fits(Moved(Spawn(next), 0, 1), cleared) || s.piece.posY < 4 ==>
      LockPiece(s, next, restart) == (s.(grid := ResetField(cleared), piece := Spawn(restart), progress := Start,
        scoreChanged := true, levelChanged := true), 0)
    ensures Fits(Moved(Spawn(next), 0, 1), cleared) && s.piece.posY >= 4 ==>
      LockPiece(s, next, restart) == (s.(grid := cleared, piece := Spawn(next),
        scoreChanged := s.scoreChanged || |lines| > 0), |lines|)
  {
  }

  /**
   * The game's state as the loop keeps it: the grid array, the falling
   * piece, the rotate latch, the pending key, the score and level
   * counters, the gravity counter and the two update flags.
   */
  class Game {
    const grid: array<Byte>
    var piece: Piece
    var held: bool
    var keyPressed: int
    var score: nat
    var linesCleared: nat
    var level: nat
    var levelRequirement: nat
    var forceDownCounter: nat
    var scoreChanged: bool
    var levelChanged: bool

    /** The state as a value. */
    function State(): Snapshot
      reads this, grid
    {
      Snapshot(grid[..], piece, held, keyPressed, Progress(score, linesCleared, level, levelRequirement),
        forceDownCounter, scoreChanged, levelChanged)
    }

    ghost predicate Valid()
      reads this, grid
    {
      grid.Length == GridSize && ValidSnapshot(State())
    }

    /** Start-up: a zeroed grid is reset, the first piece is drawn, both flags are set. */
    constructor(next: ShapeId)
      ensures Valid() && State() == Initial(next)
    {
      var g := new Byte[GridSize](k => Nothing);
      assert g[..] == seq(GridSize, k => Nothing);
      ResetGrid(g);
      grid := g;
      piece := Spawn(next);
      held := false;
      keyPressed := NoKey;
      score := 0;
      linesCleared := 0;
      level := 0;
      levelRequirement := LinesPerLevel;
      forceDownCounter := 0;
      scoreChanged := true;
      levelChanged := true;
      new;
      InitialValid(next);
    }

    /** A key-down event records the decoded key. */
    method KeyDown(key: int)
      requires Valid()
      modifies this
      ensures Valid() && State() == old(State()).(key := key)
    {
      keyPressed := key;
    }

    /** A key-up event opens the rotate latch. */
    method KeyUp()
      requires Valid()
      modifies this
      ensures Valid() && State() == old(State()).(held := false)
    {
      held := false;
    }

    /** `handle_key_press`. */
    method HandleKeyPress()
      requires Valid()
      modifies this
      ensures Valid() && State() == AfterKey(old(State()))
    {
      KeyKeepsFit(piece, keyPressed, held, grid[..]);
      if keyPressed == Rotate {
        if !held {
          piece := MovePiece(piece, Rotate, grid);
        }
        held := true;
      } else {
        piece := MovePiece(piece, keyPressed, grid);
      }
      keyPressed := NoKey;
    }

    /**
     * The first half of the lock: copy the piece into the grid, scan its
     * four rows for full lines and remove them.
     */
    method CommitAndClear() returns (lines: seq<int>)
      requires GoodGrid(grid[..]) && Inside(piece)
      modifies grid
      ensures lines == FullLines(Commit(old(grid[..]), piece), piece.posY, 4)
      ensures grid[..] == CollapseAll(Commit(old(grid[..]), piece), lines)
    {
      ScanFindsAllFullRows(grid[..], piece);
      CommitPiece(grid, piece);
      lines := ScanLines(grid, piece.posY);
      ClearLines(grid, lines);
    }

    /**
     * The lock branch of the update: copy the piece, scan its rows, spawn
     * `next`, remove the full rows, and restart the game with `restart` if
     * the new piece cannot move down or the old one reached into the spawn
     * rows. Returns `lines_length`.
     */
    method LockCurrent(next: ShapeId, restart: ShapeId) returns (linesLength: nat)
      requires GoodGrid(grid[..]) && Inside(piece)
      modifies this, grid
      ensures State() == LockPiece(old(State()), next, restart).0
      ensures linesLength == LockPiece(old(State()), next, restart).1
    {
      ghost var s := State();
      InsideBounds(piece);
      var lines := CommitAndClear();
      ghost var cleared := grid[..];
      LockOutcome(s, next, restart, lines, cleared);
      if |lines| > 0 {
        scoreChanged := true;
      }
      var temp := piece;
      piece := Spawn(next);
      linesLength := |lines|;
      var fits := DoesPieceFit(Moved(piece, 0, 1), grid);
      if !fits || temp.posY < 4 {
        linesLength := GameOver(restart);
      } else {
        assert State() == s.(grid := cleared, piece := Spawn(next), scoreChanged := s.scoreChanged || |lines| > 0);
      }
    }

    /**
     * Game over: a new piece `restart`, a reset grid, and the bookkeeping
     * back at its start with both flags set. Returns the cleared
     * `lines_length`.
     */
    method GameOver(restart: ShapeId) returns (linesLength: nat)
      requires grid.Length == GridSize
      modifies this, grid
      ensures linesLength == 0
      ensures State() == old(State()).(grid := ResetField(old(grid[..])), piece := Spawn(restart),
        progress := Start, scoreChanged := true, levelChanged := true)
    {
      piece := Spawn(restart);
      ResetGrid(grid);
      linesLength := 0;
      score := 0;
      linesCleared := 0;
      levelRequirement := LinesPerLevel;
      level := 0;
      scoreChanged := true;
      levelChanged := true;
    }

    /** Gravity: when the counter is due or after a hard drop, fall one row or lock. Returns `lines_length`. */
    method ForceDown(next: ShapeId, restart: ShapeId) returns (linesLength: nat)
      requires Valid()
      modifies this, grid
      ensures Valid() && (State(), linesLength) == Gravity(old(State()), next, restart)
    {
      GravityKeepsValid(State(), next, restart);
      linesLength := 0;
      if forceDownCounter % FallPeriod(level) == 0 || piece.jump {
        var fits := DoesPieceFit(Moved(piece, 0, 1), grid);
        if fits {
          piece := Dropped(piece);
        } else {
          linesLength := LockCurrent(next, restart);
        }
      }
    }

    /**
     * The score block, the level block, then the counter and the flags:
     * the counters follow `UpdateProgress` and nothing else changes.
     */
    method UpdateScore(linesLength: nat)
      modifies this
      ensures Progress(score, linesCleared, level, levelRequirement) ==
        UpdateProgress(old(Progress(score, linesCleared, level, levelRequirement)), linesLength,
          old(scoreChanged), old(levelChanged))
      ensures forceDownCounter == old(forceDownCounter) + 1 && !scoreChanged && !levelChanged
      ensures piece == old(piece) && held == old(held) && keyPressed == old(keyPressed)
    {
      if scoreChanged {
        score := score + Points(linesLength, level);
        linesCleared := linesCleared + linesLength;
        levelChanged := levelChanged || (linesCleared >= levelRequirement && level < MaxLevel);
      }
      if levelChanged {
        level := level + if linesCleared >= levelRequirement && level < MaxLevel then 1 else 0;
        levelRequirement := levelRequirement +
          LinesPerLevel * if linesCleared >= levelRequirement && level < MaxLevel then 1 else 0;
        linesCleared := 0;
      }
      forceDownCounter := forceDownCounter + 1;
      scoreChanged := false;
      levelChanged := false;
    }

    /** One pass of the update block; `next` and `restart` are the pieces a lock may draw. */
    method Update(next: ShapeId, restart: ShapeId)
      requires Valid()
      modifies this, grid
      ensures Valid() && State() == Tick(old(State()), next, restart)
    {
      TickSteps(State(), next, restart);
      HandleKeyPress();
      var linesLength := ForceDown(next, restart);
      ghost var b := State();
      SettleKeepsValid(b, linesLength);
      UpdateScore(linesLength);
      assert State() == Settle(b, linesLength);
    }
  }
}
