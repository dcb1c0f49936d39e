/**
 * Event sequences of the concentration game, checked against the session
 * model: what the handlers' contracts imply when the environment calls
 * them in a given order.
 */
module Scenarios {
  import opened Options
  import opened Generator
  import opened Cards
  import opened MemoryGame

  /** The deck of a 16-card grid dealt from the Nature palette: 8 different values, each twice. */
  method DealClassicNature() returns (deck: seq<string>)
    ensures |deck| == 16
    ensures forall v :: v in deck ==> v in Themes["Nature"] && multiset(deck)[v] == 2
    ensures |set v | v in deck| == 8
  {
    assert "Nature" in Themes && |Themes["Nature"]| == 8;
    ghost var shuffledPool;
    deck, shuffledPool := Generate("Nature", 8);
    DeckFacts(Pool("Nature"), 8, deck, shuffledPool);
  }

  /**
   * The countdown runs out while a pair waits for `CheckMatch`: time-up
   * blocks the grid, but the pending `CheckMatch` unblocks it again, so
   * clicks are accepted after the time is up. If the pair matches and was
   * the last one, the level completes after time-up.
   */
  method TimeUpInsideEvaluationWindow(s: Session) returns (complete: bool)
    requires s.Valid() && s.PairPending()
    requires s.countingDown && s.timerRunning && s.elapsedSeconds == 0
    modifies s`elapsedSeconds, s`timerRunning, s`busy, s`firstSelected, s`secondSelected,
             s`matchesFound, s`mismatches, s`faces, s.SelectedCards()
    ensures s.Valid()
    ensures s.elapsedSeconds == -1 && !s.timerRunning
    ensures !s.busy && s.firstSelected == None && s.secondSelected == None
    ensures old(s.PendingPairMatches()) ==> s.matchesFound == old(s.matchesFound) + 1 && s.mismatches == old(s.mismatches)
    ensures complete <==> old(s.PendingPairMatches()) && s.matchesFound == s.cardCount / 2
  {
    var timeUp := s.Tick();
    assert timeUp;
    s.TimeUp();
    assert s.busy;
    complete := s.CheckMatch();
  }

  /** Once time-up has run, a click on any card changes nothing. */
  method ClickAfterTimeUp(s: Session, i: nat)
    requires s.Valid() && i < |s.cards|
    modifies s`busy, s`timerRunning, s`firstSelected, s`secondSelected, s`attempts, s`timerStarted,
             s`elapsedSeconds, s`countingDown, s`faces, s.cards[i]
    ensures s.Valid() && s.busy && !s.timerRunning
    ensures s.firstSelected == old(s.firstSelected) && s.secondSelected == old(s.secondSelected)
    ensures s.attempts == old(s.attempts) && s.faces == old(s.faces)
  {
    s.TimeUp();
    s.Click(i);
  }

  /**
   * The last pair matches after the countdown ran out: the level completes
   * with the clock at -1. The corrected time bonus is 0; the score as
   * written would have wrapped around to a negative number.
   */
  method LastMatchAfterTimeUp(s: Session) returns (nextLevel: Option<string>)
    requires s.Valid() && s.PendingPairMatches() && s.matchesFound + 1 == s.cardCount / 2
    requires s.countingDown && s.timerRunning && s.elapsedSeconds == 0
    requires 0 < s.basePoints <= 100 * 8
    modifies s`elapsedSeconds, s`timerRunning, s`busy, s`firstSelected, s`secondSelected,
             s`matchesFound, s`mismatches, s`faces, s.SelectedCards(),
             s`timeBonus, s`accuracyBonus, s`score, s`totalScore
    ensures s.elapsedSeconds == -1
    ensures s.timeBonus == 0 && s.score == s.basePoints + s.accuracyBonus
    ensures ScoreAsWritten(s.basePoints, s.elapsedSeconds, s.mismatches) < 0
  {
    ScoreAfterTimeUpWraps(s.basePoints, s.mismatches);
    var complete := TimeUpInsideEvaluationWindow(s);
    assert complete;
    var hasNext;
    nextLevel, hasNext := s.ShowLevelComplete();
  }

  /**
   * Restart while a pair waits out its 600 ms pause, then one click on card
   * `i` before that pause ends: `checkMatch` as written, run by the old
   * round's pause, clears the new round's lone selection. Card `i` stays
   * face up without being selected, and a further click on it is refused.
   */
  method StaleCheckAfterRestart(s: Session, i: nat)
    requires s.Valid() && s.SizeValid() && i < s.cardCount
    modifies s
    ensures s.Valid() && i < |s.cards|
    ensures s.cards[i].State() == Flags(true, false)
    ensures s.firstSelected == None && s.secondSelected == None && !s.busy && s.attempts == 0
  {
    s.StartGame();
    s.Click(i);
    var complete := s.CheckMatchAsWritten();
    s.Click(i);
  }

  /**
   * Card `x` is stranded: face up and unmatched, but neither selection, as
   * `StaleCheckAfterRestart` leaves it. The guard of `onCardClicked` refuses
   * it, and `checkMatch` hides only selected cards.
   */
  ghost predicate Stranded(s: Session, x: nat)
    reads s, s.cards
  {
    && x < |s.cards|
    && s.cards[x].State() == Flags(true, false)
    && s.firstSelected != Some(x) && s.secondSelected != Some(x)
  }

  /** While a card is stranded the grid has an unmatched card, so not every pair is matched. */
  lemma StrandedBlocksCompletion(s: Session, x: nat)
    requires s.Valid() && Stranded(s, x)
    ensures 2 * s.matchesFound < |s.cards|
  {
    assert s.faces[x] == s.cards[x].State();
    UnmatchedCardLeft(s.faces, x);
  }

  /** A click on any card, the stranded one included, leaves a stranded card stranded. */
  method ClickKeepsStranded(s: Session, i: nat, x: nat)
    requires s.Valid() && i < |s.cards| && Stranded(s, x)
    modifies s`firstSelected, s`secondSelected, s`busy, s`attempts,
             s`timerStarted, s`elapsedSeconds, s`timerRunning, s`countingDown, s`faces, s.cards[i]
    ensures s.Valid() && Stranded(s, x)
    ensures 2 * s.matchesFound < |s.cards|
  {
    assert i != x ==> s.cards[i] != s.cards[x];
    s.Click(i);
    StrandedBlocksCompletion(s, x);
  }

  /**
   * `checkMatch` as written leaves a stranded card stranded and, on a grid
   * of `CARD_COUNT` cards, never reports the level complete.
   */
  method CheckKeepsStranded(s: Session, x: nat) returns (complete: bool)
    requires s.Valid() && s.SizeValid() && Stranded(s, x) && |s.cards| == s.cardCount
    modifies s`firstSelected, s`secondSelected, s`busy, s`matchesFound, s`mismatches,
             s`faces, s.SelectedCards()
    ensures s.Valid() && Stranded(s, x)
    ensures 2 * s.matchesFound < |s.cards| && !complete
  {
    assert s.cards[x] !in s.SelectedCards();
    complete := s.CheckMatchAsWritten();
    StrandedBlocksCompletion(s, x);
  }

  /** The same events with the corrected `CheckMatch`: card `i` stays selected, waiting for its partner. */
  method StaleCheckAfterRestartCorrected(s: Session, i: nat)
    requires s.Valid() && s.SizeValid() && i < s.cardCount
    modifies s
    ensures s.Valid() && i < |s.cards|
    ensures s.cards[i].State() == Flags(true, false)
    ensures s.firstSelected == Some(i) && s.secondSelected == None && !s.busy
  {
    s.StartGame();
    s.Click(i);
    var complete := s.CheckMatch();
  }

  /**
   * The "Next Level" button of the level-complete popup, which is enabled
   * only when there is a successor: select it, size its grid, start it.
   */
  method PlayNextLevel(s: Session, nextLevel: string)
    requires s.Valid() && NextLevel(s.levels, s.selectedLevel) == Some(nextLevel)
    modifies s
    ensures s.Valid() && s.SizeValid() && s.selectedLevel == nextLevel
    ensures (s.cols, s.rows) == Dimensions(nextLevel)
    ensures s.cols * s.rows <= s.cardCount <= s.cols * s.rows + 1
    ensures s.basePoints == 100 * (IndexOf(s.levels, nextLevel) + 1)
    ensures Dealt(s.cardValues, s.selectedTheme, s.cardCount) && |s.cards| == s.cardCount
    ensures s.matchesFound == 0 && s.attempts == 0 && !s.busy && !s.timerStarted
    ensures s.firstSelected == None && s.secondSelected == None && s.mismatches == 0
    ensures s.elapsedSeconds == 0 && !s.timerRunning
    ensures forall j :: 0 <= j < |s.cards| ==>
              fresh(s.cards[j]) && s.cards[j].value == s.cardValues[j] && s.cards[j].State() == Flags(false, false)
  {
    s.SelectLevel(nextLevel);
    ghost var grid, count, points := (s.cols, s.rows), s.cardCount, s.basePoints;
    s.StartGame();
    assert (s.cols, s.rows) == grid && s.cardCount == count && s.basePoints == points;
  }
}
