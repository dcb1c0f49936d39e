/**
 * The level-complete and time-up helper of the concentration game (class
 * LevelHandler), reduced to what it does to the game session: its own copy
 * of the score computation, the score-then-successor order of the
 * level-complete step, and the blocking step of time-up.
 */
module LevelHandlers {
  import opened Options
  import opened MemoryGame

  class LevelHandler {
    const game: Session

    constructor (game: Session)
      ensures this.game == game
    {
      this.game := game;
    }

    /**
     * `computeScore`, the handler's copy: it writes the same four fields
     * with the same values as `Session.ComputeScore` and leaves the base
     * points, the mismatches and the clock alone.
     */
    method ComputeScore()
      modifies game`timeBonus, game`accuracyBonus, game`score, game`totalScore
      ensures game.timeBonus == TimeBonus(game.elapsedSeconds)
      ensures game.accuracyBonus == AccuracyBonus(game.mismatches)
      ensures game.score == game.basePoints + game.timeBonus + game.accuracyBonus
      ensures game.totalScore == old(game.totalScore) + game.score
    {
      game.timeBonus := if game.elapsedSeconds < 0 then 0 else Max(0, 3000 / (game.elapsedSeconds + 1));
      game.accuracyBonus := Max(0, 200 - game.mismatches * 12);
      game.score := game.basePoints + game.timeBonus + game.accuracyBonus;
      game.totalScore := game.totalScore + game.score;
    }

    /**
     * `showLevelComplete` without its popup: stop the clock, compute the
     * score, and only then look up the next level; `hasNext` enables the
     * "Next Level" button.
     */
    method ShowLevelComplete() returns (nextLevel: Option<string>, hasNext: bool)
      requires game.Valid()
      modifies game`timerRunning, game`timeBonus, game`accuracyBonus, game`score, game`totalScore
      ensures game.Valid() && !game.timerRunning
      ensures game.timeBonus == TimeBonus(game.elapsedSeconds)
      ensures game.accuracyBonus == AccuracyBonus(game.mismatches)
      ensures game.score == game.basePoints + game.timeBonus + game.accuracyBonus
      ensures game.totalScore == old(game.totalScore) + game.score
      ensures nextLevel == NextLevel(game.levels, game.selectedLevel) && (hasNext <==> nextLevel.Some?)
    {
      game.StopTimer();
      ComputeScore();
      nextLevel := game.GetNextLevel();
      hasNext := nextLevel.Some?;
    }

    /** `handleTimeUp` without its popup: block every further click and stop the clock. */
    method HandleTimeUp()
      requires game.Valid()
      modifies game`busy, game`timerRunning
      ensures game.Valid()
      ensures game.busy && !game.timerRunning
    {
      game.busy := true;
      game.StopTimer();
    }
  }
}
