/**
 * Score, cleared-line count and level. The counters are `size_t` in the
 * game and are modelled as unbounded naturals.
 */
module Scoring {

  /** `base_level_requirement`: lines needed per level. */
  const LinesPerLevel := 10
  /** Levels stop rising at 11. */
  const MaxLevel := 11

  /** `get_points`: points for clearing `lines` rows at once on `level`. */
  function Points(lines: nat, level: nat): (points: nat)
    ensures points == 0 <==> lines == 0
  {
    match lines
    case 0 => 0
    case 1 => 50 * (level + 1)
    case 2 => 150 * (level + 1)
    case 3 => 300 * (level + 1)
    case _ => 500 * (level + 1)
  }

  /** Every level multiplies the level-0 award: level l pays l + 1 times as much. */
  lemma PointsScaleWithLevel(lines: nat, level: nat)
    ensures Points(lines, level) == (level + 1) * Points(lines, 0)
  {
  }

  /** More rows at once never pay less, and a higher level never pays less. */
  lemma PointsMonotone(lines: nat, more: nat, level: nat, higher: nat)
    requires lines <= more && level <= higher
    ensures Points(lines, level) <= Points(more, higher)
  {
    PointsScaleWithLevel(lines, level);
    PointsScaleWithLevel(more, higher);
    assert Points(lines, 0) <= Points(more, 0);
    assert (level + 1) * Points(lines, 0) <= (higher + 1) * Points(lines, 0);
    assert (higher + 1) * Points(lines, 0) <= (higher + 1) * Points(more, 0);
  }

  /** Clearing two to four rows at once pays more than clearing them one at a time. */
  lemma PointsRewardMultiLine(lines: nat, level: nat)
    requires 2 <= lines <= 4
    ensures Points(lines, level) > lines * Points(1, level)
  {
  }

  /**
   * The gravity period in ticks, `10000 - 863 * level`. It is only used
   * for levels up to 11, where it stays positive.
   */
  function FallPeriod(level: nat): (period: nat)
    requires level <= MaxLevel
    ensures period >= 10000 - 863 * MaxLevel
  {
    10000 - 863 * level
  }

  /** Higher levels fall strictly faster. */
  lemma FallPeriodDecreasing(level: nat, higher: nat)
    requires level < higher <= MaxLevel
    ensures FallPeriod(higher) < FallPeriod(level)
  {
  }

  /** Score, lines cleared towards the next level, level, and that level's requirement. */
  datatype Progress = Progress(score: nat, linesCleared: nat, level: nat, requirement: nat)

  /** The values the game starts from and returns to after a game over. */
  const Start := Progress(0, 0, 0, LinesPerLevel)

  /** The condition both halves of the level update test. */
  predicate ReachedRequirement(pr: Progress)
  {
    pr.linesCleared >= pr.requirement && pr.level < MaxLevel
  }

  /**
   * The score block, run when `score_changed` is set: the points for
   * `lines` rows at the current level are added, and so are the rows.
   */
  function Award(pr: Progress, lines: nat): Progress
  {
    Progress(pr.score + Points(lines, pr.level), pr.linesCleared + lines, pr.level, pr.requirement)
  }

  /**
   * The level block, run when `level_changed` is set: the level rises if
   * the requirement is reached; the requirement rises by 10 if, with the
   * level already raised, the condition still holds (so the step from 10
   * to 11 keeps it); the count towards the next level restarts at zero.
   */
  function LevelUp(pr: Progress): (q: Progress)
  {
    var level := pr.level + if ReachedRequirement(pr) then 1 else 0;
    var raised := pr.linesCleared >= pr.requirement && level < MaxLevel;
    Progress(pr.score, 0, level, pr.requirement + if raised then LinesPerLevel else 0)
  }

  /**
   * The end of a tick: the score block when `scoreChanged`, which also sets
   * the level flag when the requirement is reached, then the level block
   * when the flag is set.
   */
  function UpdateProgress(pr: Progress, lines: nat, scoreChanged: bool, levelChanged: bool): (q: Progress)
  {
    var scored := if scoreChanged then Award(pr, lines) else pr;
    var levelFlag := levelChanged || (scoreChanged && ReachedRequirement(scored));
    if levelFlag then LevelUp(scored) else scored
  }

  /**
   * The bookkeeping invariant: the level is at most 11, the requirement is
   * ten lines per level reached plus ten (it stops at 110), and below the
   * top level the count has not reached the requirement.
   */
  predicate ValidProgress(pr: Progress)
  {
    pr.level <= MaxLevel &&
    pr.requirement == LinesPerLevel * ((if pr.level < 10 then pr.level else 10) + 1) &&
    (pr.level < MaxLevel ==> pr.linesCleared < pr.requirement)
  }

  lemma StartValid()
    ensures ValidProgress(Start)
  {
  }

  /** The update keeps the bookkeeping invariant, whatever the flags and the row count. */
  lemma UpdateKeepsValid(pr: Progress, lines: nat, scoreChanged: bool, levelChanged: bool)
    requires ValidProgress(pr)
    ensures ValidProgress(UpdateProgress(pr, lines, scoreChanged, levelChanged))
  {
    var scored := if scoreChanged then Award(pr, lines) else pr;
    if ReachedRequirement(scored) {
      assert scored.level < 10 ==> scored.requirement == LinesPerLevel * (scored.level + 1);
    }
  }

  /**
   * The score only grows, by exactly the award for the rows when the score
   * block runs; the level never falls and rises by at most one.
   */
  lemma UpdateMonotone(pr: Progress, lines: nat, scoreChanged: bool, levelChanged: bool)
    ensures UpdateProgress(pr, lines, scoreChanged, levelChanged).score ==
      pr.score + if scoreChanged then Points(lines, pr.level) else 0
    ensures pr.level <= UpdateProgress(pr, lines, scoreChanged, levelChanged).level <= pr.level + 1
  {
  }

  /**
   * Without a pending level flag, the level rises exactly when the rows just
   * cleared bring the count up to the requirement below the top level; the
   * count then restarts at zero and the excess rows are dropped.
   */
  lemma LevelRisesExactly(pr: Progress, lines: nat)
    requires ValidProgress(pr)
    ensures var q := UpdateProgress(pr, lines, true, false);
      (q.level == pr.level + 1 <==> pr.linesCleared + lines >= pr.requirement && pr.level < MaxLevel) &&
      (q.level == pr.level + 1 ==> q.linesCleared == 0) &&
      (q.level == pr.level ==> q.linesCleared == pr.linesCleared + lines)
  {
  }
}
