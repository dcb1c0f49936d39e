# Concentration game: a verified model of the game logic

This project is a Dafny model of the logic of a JavaFX concentration
("memory") game. A grid of face-down cards holds pairs of equal values. The
player turns up two cards at a time. An equal pair stays face up as a match;
any other pair is turned face down again after a 600 ms pause. A level ends
when every pair is matched. On countdown levels, time-up blocks the grid,
though a pair still pending can unblock it again (see "Time-up is not
final" below).
The score is made of base points for the level, a time bonus and an
accuracy bonus.

The model follows the program's four core classes. The scenes, popups and
animations are left out.

- `generator.dfy` (module `Generator`) covers `CardValueGenerator`:
  - the table of theme palettes;
  - deck generation. The palette is copied and shuffled, `pairsNeeded` pairs
    are dealt from it cyclically, and the pair list is shuffled.
  - `Collections.shuffle` is modelled as its swap loop over an array. The
    random index is left unconstrained (`:|`), so every fact about a deck
    holds for every outcome of both shuffles.
- `cards.dfy` (module `Cards`) covers `Card`, a class with an immutable
  `value` and the flags `revealed` and `matched`.
  - `Reveal`, `Hide` and `SetMatched` are specified by the value-level
    functions `AfterReveal`, `AfterHide` and `AfterSetMatched` on the flags.
  - Lemmas give those functions their properties.
- `memory_game.dfy` (module `MemoryGame`) covers `MemoryGame`.
  - Pure parts: the level table, the countdown table, the level successor
    and scoring.
  - Class `Session`, whose methods are the game's event handlers. The
    JavaFX timelines become methods that the environment may call in any
    order:
    - `Click(i)` for a card click;
    - `CheckMatch()` for the 600 ms pause after a second selection, in its
      corrected form; `CheckMatchAsWritten()` is the handler as written (see
      Findings);
    - `Tick()` for the one-second clock;
    - `TimeUp()` for the time-up handler;
    - `ShowLevelComplete()` for the level-complete step.
  - Every handler keeps the session invariant `Valid()`. It relates the
    selections, the counters and the clock to the flags of the cards:
    - the number of matched cards is twice `matchesFound`;
    - `attempts` equals the matches, plus the mismatches, plus one while a
      pair is pending;
    - a second selection exists only with a different first one, and only
      while the grid is busy;
    - the clock reads at least 0, or exactly -1 after a countdown has run
      out.
- `level_handler.dfy` (module `LevelHandlers`) covers `LevelHandler`. It
  works on a `Session`: its copy of the score computation, the "score, then
  successor" order of its level-complete step, and the blocking step of
  time-up.
- `scenarios.dfy` (module `Scenarios`) contains event sequences that call
  the handlers in a given order, and what their contracts then imply:
  - a dealt Classic deck is 8 pairs;
  - time-up that lands inside the 600 ms pause;
  - a click after time-up;
  - the last match after time-up;
  - a pause left over from before a restart, with the handler as written
    and with the corrected one, and why the card it strands stays stranded;
  - what the "Next Level" button starts.

Selections are positions in the card list (`Option<nat>`, with `None` for
`null`). Java's card identity (`card != firstSelected`) becomes an index
comparison. The grid's cards are distinct objects. The ghost field `faces`
mirrors their flags, so that the invariant can be stated on values.

The level catalog comes from `LevelManager`, which is not part of this
model. It is the constructor parameter `levels` of `Session`. The built-in
table order is the constant `BuiltInLevels`.

Behaviours of the code that the model reproduces as written. The first
three depart from the game's intended rules, which are stated with each:

- **Time bonus on countdown levels.** On a countdown level the field
  `elapsedSeconds` holds the seconds *remaining*. It is seeded with the
  countdown and decremented on every tick. `computeScore` reads that same
  field, so on countdown levels the time bonus grows with the time left.
  The intended rule is that the bonus rewards speed and is computed from
  the seconds actually spent, on every level. The model follows the code.
- **Time-up is not final.** `checkMatch` clears `busy` unconditionally. If
  time-up lands inside the 600 ms pause, the pending `checkMatch` unblocks
  the grid again, and clicks are accepted after the time is up. The
  intended rule is that once the time has run out the round is over and
  every further selection is rejected. The model follows the code: see
  `Scenarios.TimeUpInsideEvaluationWindow`.
- **The countdown stops at -1, not before 0.** The countdown tick
  decrements first and stops the timer once the reading is below 0, so the
  clock stops at -1. The intended rule is that the countdown stops at 0,
  the last reading before it would go below zero. The model follows the code.
- **`LevelHandler` would not compile as written.**
  - It reads `elapsedSeconds`, `mismatches` and `busy`, which are private
    fields of `MemoryGame`.
  - It calls `game.timerStop()`, which `MemoryGame` does not define.
  - It calls `game.showHomeMenu(stage)`, which is private in `MemoryGame`.

  The model gives the handler access to the session's fields. It reads
  `timerStop()` as the timer stop that `MemoryGame` writes out inline
  (`if (timer != null) timer.stop()`), modelled as `Session.StopTimer`.
- **The second click guard always holds.** `onCardClicked` tests
  `secondSelected == null && card != firstSelected` before it records a
  second card. Under the invariant both tests always hold on an accepted
  click: the grid is busy whenever a second card is selected, and the
  first card is face up. The model records the second card unconditionally
  and asserts the guard (`Session.Select`).
- **Large grids repeat values.** Every listed palette has 8 values, and
  the default palette for an unknown theme has 4. `generate` deals
  `pairsNeeded` pairs cyclically from the shuffled palette, so once the
  grid needs more pairs than the palette has values, some values fill four
  or more cards. With an 8-value palette this happens from Medium
  (10 pairs) upward; on Legendary (30 pairs) six values fill eight cards
  each and two fill six. Any two cards of equal value match. `DeckFacts` and
  `Dealt` therefore promise "each value exactly twice" only when
  `pairsNeeded` is at most the palette size, and even counts for every deck.
- **No card count is ever rounded up.** `setLevelDimensions` rounds an odd
  `COLS * ROWS` up to the next even number. Every grid of the level table
  is already even (`GridsEven`), so the round-up never applies.
- **The card grid is a list.** The card grid is modelled as a `seq<Card>`,
  which is the program's own `List<Card>`, rather than as an array.

## Model

| member | source | states |
|---|---|---|
| Generator.Pool | src/CardValueGenerator.java:5-15 | a known theme yields its listed palette and any other name the default palette of four fruits; the palette is non-empty and lists no value twice |
| Generator.PalettesDistinct | src/CardValueGenerator.java:5-11 | every listed palette, and the default palette, is non-empty with pairwise different entries |
| Generator.At | src/CardValueGenerator.java:23 | the value dealt in round i, `shuffledPool.get(i % size)`, is a palette value |
| Generator.PairList | src/CardValueGenerator.java:20-26 | the pair list after n rounds has 2n entries (none when n ≤ 0), all of them palette values |
| Generator.PairListAt | src/CardValueGenerator.java:22-26 | positions 2i and 2i+1 of the pair list both hold `shuffledPool[i % size]` |
| Generator.AppendPairCount | src/CardValueGenerator.java:24-25 | adding a pair raises its value's count by 2 and no other count |
| Generator.PairListCounts | src/CardValueGenerator.java:22-26 | a value occurs in the pair list exactly twice as often as the number of rounds that deal it |
| Generator.PairListEvenCounts | src/CardValueGenerator.java:22-26 | every value occurs an even number of times in the pair list |
| Generator.RoundsWithoutWrap | src/CardValueGenerator.java:22-23 | while the rounds do not wrap around a palette without repeats, a value is dealt once if it is among the first n palette entries and never otherwise |
| Generator.RoundStepBeforeWrap | src/CardValueGenerator.java:23 | before the palette wraps around, round n-1 deals palette entry n-1 |
| Generator.PairListExactPairs | src/CardValueGenerator.java:17-26 | with n ≤ palette size and no repeats, each of the first n palette values is in the pair list exactly twice and every other value is absent |
| Generator.Shuffle | src/CardValueGenerator.java:18 | the array afterwards is a permutation of the array before |
| Generator.ShuffledCopy | src/CardValueGenerator.java:17-18 | the shuffled copy is a permutation of the list |
| Generator.Generate | src/CardValueGenerator.java:13-30 | the shuffled palette is a permutation of the theme's palette; the deck is a permutation of the pair list dealt from it, with 2·pairsNeeded cards (none when pairsNeeded ≤ 0) |
| Generator.DeckFacts | src/CardValueGenerator.java:13-30 | a deck that is a permutation of the pair list dealt from a permutation of a palette without repeats has 2·pairsNeeded cards; every card is a palette value; every value occurs an even number of times; when pairsNeeded ≤ palette size it has pairsNeeded different values, each exactly twice |
| Generator.DeckExactPairs | src/CardValueGenerator.java:17-28 | dealing n ≤ palette size pairs from a palette without repeats puts each dealt value in the deck exactly twice and n different values in it |
| Generator.DeckValues | src/CardValueGenerator.java:17-28 | such a deck holds exactly n different values |
| Generator.PermutationDistinct | src/CardValueGenerator.java:17-18 | shuffling a palette without repeats leaves it without repeats |
| Generator.DistinctCardinality | src/CardValueGenerator.java:5-10 | a palette without repeats has as many different values as entries |
| Cards.RevealShows | src/Card.java:82-85 | `reveal` never changes `matched`, leaves an unmatched card face up, and changes nothing on a card already face up |
| Cards.HideConceals | src/Card.java:127-130 | `hide` never changes `matched`, leaves an unmatched card face down, and changes nothing on a matched card |
| Cards.RevealHideIdempotent | src/Card.java:82-130 | `reveal` twice is `reveal` once, and `hide` twice is `hide` once |
| Cards.MatchedStaysRevealed | src/Card.java:82-130 | a card that is face up and matched stays exactly so under any sequence of `reveal` and `hide` |
| Cards.EndsWith | src/Card.java:154 | `s.endsWith(suffix)` holds exactly when s is some string followed by suffix |
| Cards.Card.constructor | src/Card.java:21-28 | a new card has the given value, is face down and is not matched |
| Cards.Card.SetMatched | src/Card.java:71-72 | `matched` becomes m and `revealed` is unchanged |
| Cards.Card.Reveal | src/Card.java:82-85 | no change on a face-up or matched card, otherwise `revealed` becomes true |
| Cards.Card.Hide | src/Card.java:127-130 | no change on a matched card, otherwise `revealed` becomes false |
| Cards.Card.IsImage | src/Card.java:153-155 | true exactly when the value ends with ".jpg" or ".png" |
| MemoryGame.Dimensions | src/MemoryGame.java:69-80 | every grid lies within 4..10 columns and 3..6 rows, and a name outside the table gets 4×4 |
| MemoryGame.RoundUpEven | src/MemoryGame.java:81-82 | the card count is the least even number not below `COLS * ROWS`, which is unchanged when already even |
| MemoryGame.GridsEven | src/MemoryGame.java:70-82 | every grid of the level table has an even number of cells |
| MemoryGame.CountdownSeconds | src/MemoryGame.java:133-141 | the countdown is 180 seconds on Expert, 210 on Master, 240 on Grandmaster and 270 on Legendary, and -1 (no countdown) on every other level |
| MemoryGame.IndexOf | src/MemoryGame.java:83 | `indexOf` gives the first position of the name, or -1 exactly when it is absent |
| MemoryGame.BasePointsOfLevel | src/MemoryGame.java:83 | base points are 0 for a name not in the catalog, otherwise 100 times the position of its first occurrence counted from 1 |
| MemoryGame.NextLevel | src/MemoryGame.java:348-353 | a successor is always an entry of the catalog after its first position, and a level in first position is followed by the second entry |
| MemoryGame.NextLevelAfterFirst | src/MemoryGame.java:348-353 | the successor is the entry after the first occurrence of the level |
| MemoryGame.NextLevelNone | src/MemoryGame.java:348-353 | there is no successor exactly when the level occurs nowhere before the last entry |
| MemoryGame.NextLevelInCatalog | src/MemoryGame.java:348-353 | in a catalog without repeated names, every entry but the last is followed by the next one |
| MemoryGame.BuiltInProgression | src/MemoryGame.java:348-353 | in the built-in order Classic is followed by Medium, and Legendary has no successor |
| MemoryGame.Int32 | src/MemoryGame.java:440 | Java `int` addition: the result is in the 32-bit range, equal to the exact sum modulo 2^32, and the sum itself when that fits |
| MemoryGame.ScoreAsWritten | src/MemoryGame.java:440 | the score as written, added in Java `int` arithmetic: it lies in the 32-bit range and equals base points plus the time bonus as written plus the accuracy bonus, modulo 2^32 |
| MemoryGame.TimeBonusAsWritten | src/MemoryGame.java:438 | the time bonus as written: the floor of 3000 / (e + 1) for e ≥ 0, `Integer.MAX_VALUE` at e = -1 (a double division by zero cast to `int`), 0 below |
| MemoryGame.ScoreAfterTimeUpWraps | src/MemoryGame.java:438-440 | with the clock at -1, the score as written is negative for every level's base points and any mismatch count |
| MemoryGame.TimeBonus | src/MemoryGame.java:438 | the time bonus lies in 0..3000; for e ≥ 0 it is the largest b with b·(e+1) ≤ 3000; it is 0 once a countdown has run out |
| MemoryGame.TimeBonusAntitone | src/MemoryGame.java:438 | the time bonus never grows as the clock reading grows |
| MemoryGame.ScoreBounded | src/MemoryGame.java:438-440 | with the corrected time bonus, a level's score exceeds its base points by at most 3200 and never leaves the `int` range |
| MemoryGame.AccuracyBonus | src/MemoryGame.java:439 | the accuracy bonus is the larger of 0 and 200 - 12·mismatches: at most 200 for a non-negative count, and 0 exactly from 17 mismatches on |
| MemoryGame.MatchedCountUpdate | src/MemoryGame.java:246-247 | changing one card's flags changes the number of matched cards by that card's change alone |
| MemoryGame.MatchedCountNone | src/MemoryGame.java:215-219 | a grid of new cards has no matched card |
| MemoryGame.MatchedCountAtMost | src/MemoryGame.java:246-247 | a grid never has more matched cards than cards |
| MemoryGame.UnmatchedCardLeft | src/MemoryGame.java:253 | a grid with an unmatched card has fewer matched cards than cards |
| MemoryGame.ClickKeepsInvariant | src/MemoryGame.java:222-236 | an accepted click on a face-down card of a grid that is not busy finds no pending pair; turning the card up as first selection, or as second selection with one more attempt, keeps the selection and counter invariants |
| MemoryGame.MatchKeepsInvariant | src/MemoryGame.java:245-248 | matching the pending pair, with one more match, keeps the counter invariant |
| MemoryGame.MismatchKeepsInvariant | src/MemoryGame.java:256-263 | hiding the pending pair, with one more mismatch, keeps the counter invariant |
| MemoryGame.Session.RevealCard | src/MemoryGame.java:225 | card k is revealed and its mirror entry follows it; no other card changes |
| MemoryGame.Session.HideCard | src/MemoryGame.java:262-263 | card k is hidden and its mirror entry follows it; no other card changes |
| MemoryGame.Session.MatchCard | src/MemoryGame.java:246-247 | card k is marked matched and its mirror entry follows it; no other card changes |
| MemoryGame.Session.constructor | src/MemoryGame.java:22-48 | the field values declared in `MemoryGame`: grid size 4×4, card count 16, no cards and no card values yet, no selection, every counter and score 0, Classic level and the black-and-white theme; the invariant holds |
| MemoryGame.Session.SetLevelDimensions | src/MemoryGame.java:69-84 | the grid size follows the level table; the card count is `COLS * ROWS` rounded up to even; base points are 100·(index + 1) |
| MemoryGame.Session.SelectLevel | src/MemoryGame.java:324-327 | the "Next Level" action selects the level and sizes its grid |
| MemoryGame.Session.ResetGameState | src/MemoryGame.java:143-156 | selections cleared, not busy, every counter, the clock and the round's score 0, timer stopped; `totalScore` and `basePoints` untouched |
| MemoryGame.Session.GenerateCardValues | src/MemoryGame.java:210-213 | the deck has `CARD_COUNT` cards, all from the theme's palette, each value an even number of times, and `CARD_COUNT / 2` different values, each exactly twice, when the palette is large enough |
| MemoryGame.Session.CreateCards | src/MemoryGame.java:215-219 | one new, distinct, face-down card per deck value, in deck order |
| MemoryGame.Session.LayOutCards | src/MemoryGame.java:111-112 | the grid is the list of new cards, all face down with none matched, and the invariant's card mirror holds |
| MemoryGame.Session.StartGame | src/MemoryGame.java:86-112 | a reset round with a freshly dealt deck and new face-down cards, one per deck value; the invariant holds |
| MemoryGame.Session.StartTimer | src/MemoryGame.java:355-384 | the clock starts running; on a countdown level it counts down from that level's countdown, otherwise up from 0 |
| MemoryGame.Session.Click | src/MemoryGame.java:221-241 | a click on a busy grid or on a matched or face-up card changes nothing; otherwise the card is turned up and becomes the first selection, or the second one with busy set and one more attempt; the timer starts only on the round's first accepted click; the invariant holds |
| MemoryGame.Session.Select | src/MemoryGame.java:225-236 | the accepted part of a click: the card is turned up and recorded as first or second selection, and the invariant holds |
| MemoryGame.Session.CheckMatch | src/MemoryGame.java:243-270 | the corrected `checkMatch`: an equal pending pair is matched with one more match; an unequal one is turned face down with one more mismatch; then both selections are cleared and the grid is not busy; with no pending pair nothing changes, neither the selections, `busy`, the counters nor any card's flags; completion is reported exactly when this match was the last pair; the invariant holds |
| MemoryGame.Session.CheckMatchAsWritten | src/MemoryGame.java:243-270 | `checkMatch` as written: a pending pair is settled as by `CheckMatch`; both selections end cleared and the grid not busy in every case; with no pending pair no card flag and no counter changes; completion is reported exactly when this match was the last pair; the invariant holds |
| MemoryGame.Session.SettleMatch | src/MemoryGame.java:245-248 | both pending cards are matched and `matchesFound` rises by one |
| MemoryGame.Session.SettleMismatch | src/MemoryGame.java:256-263 | both pending cards are face down and `mismatches` rises by one |
| MemoryGame.Session.Tick | src/MemoryGame.java:362-379 | a countdown tick takes a second off and reports time-up and stops exactly when the reading drops below 0; a count-up tick adds a second |
| MemoryGame.Session.TimeUp | src/MemoryGame.java:386-388 | the grid becomes busy and the timer stops; the invariant holds |
| MemoryGame.Session.StopTimer | src/MemoryGame.java:155 | the timer is no longer running |
| MemoryGame.Session.ComputeScore | src/MemoryGame.java:437-442 | time bonus from the clock reading, accuracy bonus from the mismatches, the score as their sum with the base points, and `totalScore` raised by the score |
| MemoryGame.Session.GetNextLevel | src/MemoryGame.java:348-353 | the loop returns the catalog successor of the selected level, or None |
| MemoryGame.Session.ShowLevelComplete | src/MemoryGame.java:272-278 | the clock stops, the score is computed, and `hasNext` says that there is a successor |
| LevelHandlers.LevelHandler.constructor | src/LevelHandler.java:17-19 | the handler works on the given game |
| LevelHandlers.LevelHandler.ComputeScore | src/LevelHandler.java:21-26 | the same four field values as `Session.ComputeScore`, stated by the same functions of the same fields; base points, mismatches and clock untouched |
| LevelHandlers.LevelHandler.ShowLevelComplete | src/LevelHandler.java:28-34 | the clock stops, the score is computed first, and then `hasNext` says that `getNextLevel` found a successor |
| LevelHandlers.LevelHandler.HandleTimeUp | src/LevelHandler.java:101-103 | the grid becomes busy and blocks clicks, and the timer stops; the invariant holds |
| Scenarios.DealClassicNature | src/MemoryGame.java:210-212 | a Classic deck from the Nature palette has 16 cards: 8 different Nature values, each exactly twice |
| Scenarios.TimeUpInsideEvaluationWindow | src/MemoryGame.java:267-269 | time-up inside the 600 ms pause is undone by the pending `checkMatch`: the grid ends not busy with the clock at -1, and a last matching pair still completes the level |
| Scenarios.ClickAfterTimeUp | src/MemoryGame.java:221-222 | right after time-up, a click on any card changes no selection, counter or card |
| Scenarios.LastMatchAfterTimeUp | src/MemoryGame.java:437-440 | a level completed after time-up has the clock at -1; the model's corrected time bonus is 0 and its score base points plus accuracy bonus, while the score as written is negative |
| Scenarios.StaleCheckAfterRestart | src/MemoryGame.java:238-269 | after a restart inside the pause and one click on card i, the old round's `checkMatch` as written leaves card i face up, unmatched and unselected, with the grid not busy; a further click on it is refused, with no attempt counted |
| Scenarios.StrandedBlocksCompletion | src/MemoryGame.java:253 | while a card is stranded (face up, unmatched, neither selection), twice `matchesFound` stays below the number of cards |
| Scenarios.ClickKeepsStranded | src/MemoryGame.java:221-222 | a click on any card, the stranded one included, leaves a stranded card stranded and the level incomplete |
| Scenarios.CheckKeepsStranded | src/MemoryGame.java:243-269 | `checkMatch` as written leaves a stranded card stranded and never reports the level complete |
| Scenarios.StaleCheckAfterRestartCorrected | src/MemoryGame.java:238-269 | the same events with the corrected `CheckMatch` leave card i face up as the first selection, waiting for its partner |
| Scenarios.PlayNextLevel | src/MemoryGame.java:324-328 | the next level starts with its grid size from the level table, its card count (the cell count rounded up to even), its base points from its catalog position, a fresh deck of that card count, zeroed counters, no selection, the clock at 0 and stopped, and one new face-down card per deck value, in deck order |

## Left out

- The JavaFX scenes are not modelled, because they are presentation only. This covers the home menu, the theme selection, the top and bottom bars, the level-complete and time-up popups, their buttons and scene sizes, and the image background.
- Animations and effects (`pop`, `shake`, `animateFlip`, shadows, colour adjustment) are not modelled, because they are visual only.
- Loading image resources, and the "X" shown when that fails, are left out. They are I/O against classpath resources.
- `computeCardSize` is left out, because it is double-valued pixel geometry.
- The GridPane placement loop of `startGame` is left out, because it only lays out the cards.
- Real time is not modelled: the 600 ms pause, the one-second ticks and `Platform.runLater`. The handlers they run are methods the environment may call in any order.
- The label updates in `updateStats` and in the tick handlers are not modelled, because they are display only.
- The randomness of `Collections.shuffle` is not modelled. The model allows any permutation.
- `LevelManager`, `HomeMenu`, `ThemeSelection` and progress loading are not part of this model. The level catalog is the parameter `levels`.
- The restart and exit buttons are not modelled separately. Restart is `StartGame`; exit leaves the session. A restart does not cancel the previous round's 600 ms pause, so any call of `CheckMatch` may come from it.
- MemoryGame.TimeBonus: the source's `(int)(300.0 / (e + 1) * 10)` is evaluated in doubles. For e ≥ 0 the model takes it as the integer quotient `3000 / (e + 1)`; floating-point rounding is not modelled. At e = -1 it is the corrected 0, where the source gives `Integer.MAX_VALUE`; that value is `TimeBonusAsWritten` (see Findings).
- MemoryGame.Session.ComputeScore: at a clock reading of -1 it stores the corrected time bonus 0, and a score of base points plus accuracy bonus. `src/MemoryGame.java:438-440` stores `Integer.MAX_VALUE` and a score that wraps around to a negative number there; those values are `TimeBonusAsWritten` and `ScoreAsWritten` (see Findings). `score` and `totalScore` are unbounded integers, and Java's wrap-around of `totalScore` after very many levels is not modelled.
- LevelHandlers.LevelHandler.ComputeScore: the same correction as `MemoryGame.Session.ComputeScore`. At a clock reading of -1 it stores the time bonus 0 where `src/LevelHandler.java:22` stores `Integer.MAX_VALUE`, and its integers are unbounded, so the wrap-around of `score` and `totalScore` in `src/LevelHandler.java:24-25` is not modelled.
- Scenarios.LastMatchAfterTimeUp: its `s.timeBonus == 0` and its score of base points plus accuracy bonus are the corrected values, which the program never stores; what the program computes is stated by its last clause, through `ScoreAsWritten`.
- MemoryGame.Session.CheckMatch: it is the corrected handler. With no pending pair it changes nothing, where the source clears a lone first selection and `busy`; the handler as written is `CheckMatchAsWritten` (see Findings).
- MemoryGame.Dimensions: its contract gives only the bounds of the table and the default 4×4. The eight entries themselves are the body's table, and `GridsEven` states their parity.
- MemoryGame.Session.StartTimer: the Timeline object is represented only by the flags `timerRunning` (playing or stopped) and `countingDown` (which tick handler it runs).
- LevelHandlers.LevelHandler.HandleTimeUp: the handler's `timerStop()` does not exist in `MemoryGame`. It is read as the inline timer stop of `MemoryGame`.

## Findings

| source | as written | input that shows it | evidently intended | confidence | as-written member | corrected member |
|---|---|---|---|---|---|---|
| src/MemoryGame.java:438 | `timeBonus = Math.max(0, (int)((300.0 / (elapsedSeconds + 1)) * 10))`. On a countdown level the clock stops at -1, but a pair selected just before time-up is still settled by the pending `checkMatch`. If that pair is the last one, the level completes with the clock at -1. The double division by zero gives +Infinity, the cast gives `Integer.MAX_VALUE`, and `basePoints + timeBonus + accuracyBonus` wraps around to a negative score. | An Expert level with one pair left, that pair selected at 0 seconds remaining. The tick takes the clock to -1 and time-up fires, then `checkMatch` matches the pair and the level completes. With e.g. 500 base points and 0 mismatches, the score is 500 + 2147483647 + 200, which wraps to a negative `int`. | A level completed after the time has run out earns no time bonus (0), so the score stays base points plus accuracy bonus. | medium, not executed | MemoryGame.ScoreAfterTimeUpWraps | MemoryGame.ScoreBounded |
| src/MemoryGame.java:238-269 | The 600 ms Timeline that `onCardClicked` starts for `checkMatch` is never cancelled, and `checkMatch` clears `firstSelected`, `secondSelected` and `busy` even when it finds no pair. "Restart" (line 195) runs `startGame` at once. If the old round's pause ends after the restart and after one click of the new round, `checkMatch` clears that lone selection. The card stays face up and unmatched, and the guard at line 222 refuses every click on it. Only `checkMatch` turns cards face down, and only selected ones, so the card is never matched again and `matchesFound` cannot reach `CARD_COUNT / 2`: the level can no longer be completed. The predicate `Scenarios.Stranded` names that state. `ClickKeepsStranded` and `CheckKeepsStranded` show that it survives every click and every check, and `StrandedBlocksCompletion` shows that it keeps the level incomplete. | Select two cards, press Restart within 600 ms, then click one card of the new grid before those 600 ms have passed. | A pause left over from an earlier round does not touch the new round's selection: the restart cancels it, or a `checkMatch` that finds no pending pair changes nothing. | medium, not executed | Scenarios.StaleCheckAfterRestart | MemoryGame.Session.CheckMatch |

`src/LevelHandler.java:22` repeats the same formula. `LevelHandlers.LevelHandler.ComputeScore` uses the corrected time bonus as well, so that it agrees with `MemoryGame.Session.ComputeScore`.
