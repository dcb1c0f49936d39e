/**
 * The game session of the concentration game (class MemoryGame) without its
 * JavaFX scenes: the level table, the countdown table, scoring, the level
 * successor, and class `Session`, whose methods are the event handlers of
 * the game. The handlers that JavaFX timelines run (`CheckMatch` after the
 * 600 ms pause, `Tick` every second, `TimeUp` after the last tick) are
 * methods that the environment may call in any order.
 */
module MemoryGame {
  import opened Options
  import opened Cards
  import opened Generator

  const EasyLevel := "Easy – 4x3"
  const ClassicLevel := "Classic – 4x4"
  const MediumLevel := "Medium – 5x4"
  const HardLevel := "Hard – 6x5"
  const ExpertLevel := "Expert – 8x5"
  const MasterLevel := "Master – 8x6"
  const GrandmasterLevel := "Grandmaster – 9x6"
  const LegendaryLevel := "Legendary – 10x6"

  /** The level names that the grid-size table knows, in order of difficulty. */
  const BuiltInLevels: seq<string> :=
    [EasyLevel, ClassicLevel, MediumLevel, HardLevel, ExpertLevel, MasterLevel, GrandmasterLevel, LegendaryLevel]

  /** The levels that run a countdown clock. */
  const CountdownLevels: set<string> := {ExpertLevel, MasterLevel, GrandmasterLevel, LegendaryLevel}

  /** The theme a session starts with. */
  const InitialTheme := "Black and White Icons"

  // ---------------------------------------------------------------- level table

  /** The grid size (columns, rows) of a level, as in `setLevelDimensions`. */
  function Dimensions(level: string): (grid: (int, int))
    ensures 4 <= grid.0 <= 10 && 3 <= grid.1 <= 6
    ensures level !in BuiltInLevels ==> grid == (4, 4)
  {
    if level == EasyLevel then (4, 3)
    else if level == ClassicLevel then (4, 4)
    else if level == MediumLevel then (5, 4)
    else if level == HardLevel then (6, 5)
    else if level == ExpertLevel then (8, 5)
    else if level == MasterLevel then (8, 6)
    else if level == GrandmasterLevel then (9, 6)
    else if level == LegendaryLevel then (10, 6)
    else (4, 4)
  }

  /** `CARD_COUNT = COLS * ROWS`, plus one when that is odd: the least even number at least `n`. */
  function RoundUpEven(n: int): (r: int)
    ensures r % 2 == 0 && n <= r <= n + 1
    ensures n % 2 == 0 ==> r == n
  {
    if n % 2 != 0 then n + 1 else n
  }

  /** Every grid of the table has an even number of cells, so rounding the card count up never applies. */
  lemma GridsEven(level: string)
    ensures var grid := Dimensions(level); (grid.0 * grid.1) % 2 == 0
  {
    var grid := Dimensions(level);
    assert grid in {(4, 3), (4, 4), (5, 4), (6, 5), (8, 5), (8, 6), (9, 6), (10, 6)};
  }

  /** The seconds on the countdown clock of a level, or -1 for a level that counts up. */
  function CountdownSeconds(level: string): (seconds: int)
    ensures level == ExpertLevel ==> seconds == 180
    ensures level == MasterLevel ==> seconds == 210
    ensures level == GrandmasterLevel ==> seconds == 240
    ensures level == LegendaryLevel ==> seconds == 270
    ensures level !in CountdownLevels ==> seconds == -1
  {
    if level == ExpertLevel then 180
    else if level == MasterLevel then 210
    else if level == GrandmasterLevel then 240
    else if level == LegendaryLevel then 270
    else -1
  }

  /** `List.indexOf`: the first position of `x` in `s`, or -1 when `x` does not occur. */
  function IndexOf<T(==)>(s: seq<T>, x: T): (k: int)
    ensures -1 <= k < |s|
    ensures k == -1 <==> x !in s
    ensures k >= 0 ==> s[k] == x && forall j :: 0 <= j < k ==> s[j] != x
  {
    if |s| == 0 then -1
    else if s[0] == x then 0
    else
      var k := IndexOf(s[1..], x);
      if k < 0 then -1 else k + 1
  }

  /** Base points of a level: 100 per position in the catalog, counted from 1; 0 for an unknown name. */
  lemma BasePointsOfLevel(levels: seq<string>, level: string)
    ensures level !in levels ==> 100 * (IndexOf(levels, level) + 1) == 0
    ensures level in levels ==> 100 <= 100 * (IndexOf(levels, level) + 1) <= 100 * |levels|
    ensures forall k :: 0 <= k < |levels| && levels[k] == level && (forall j :: 0 <= j < k ==> levels[j] != level) ==>
              100 * (IndexOf(levels, level) + 1) == 100 * (k + 1)
  {
    forall k | 0 <= k < |levels| && levels[k] == level && (forall j :: 0 <= j < k ==> levels[j] != level)
      ensures IndexOf(levels, level) == k
    {
      var i := IndexOf(levels, level);
      assert i >= 0;
    }
  }

  /** The level after `level` in `levels`, or None when `level` is last or absent (`getNextLevel`). */
  function NextLevel(levels: seq<string>, level: string): (next: Option<string>)
    ensures next.Some? ==> |levels| >= 2 && next.value in levels[1..]
    ensures |levels| >= 2 && levels[0] == level ==> next == Some(levels[1])
  {
    if |levels| < 2 then None
    else if levels[0] == level then Some(levels[1])
    else NextLevel(levels[1..], level)
  }

  /** The successor is the entry after the first occurrence of `level`. */
  lemma {:induction false} NextLevelAfterFirst(levels: seq<string>, level: string, k: int)
    requires 0 <= k < |levels| - 1 && levels[k] == level
    requires forall j :: 0 <= j < k ==> levels[j] != level
    ensures NextLevel(levels, level) == Some(levels[k + 1])
  {
    if k > 0 {
      NextLevelAfterFirst(levels[1..], level, k - 1);
    }
  }

  /** There is no successor exactly when `level` occurs nowhere but possibly in last place. */
  lemma {:induction false} NextLevelNone(levels: seq<string>, level: string)
    ensures NextLevel(levels, level) == None <==> forall j :: 0 <= j < |levels| - 1 ==> levels[j] != level
  {
    if |levels| >= 2 && levels[0] != level {
      NextLevelNone(levels[1..], level);
      assert forall j :: 1 <= j < |levels| - 1 ==> levels[j] == levels[1..][j - 1];
    }
  }

  /** In a catalog without repeated names, the level at position k < |levels| - 1 is followed by position k + 1. */
  lemma NextLevelInCatalog(levels: seq<string>, k: int)
    requires Distinct(levels)
    requires 0 <= k < |levels| - 1
    ensures NextLevel(levels, levels[k]) == Some(levels[k + 1])
  {
    NextLevelAfterFirst(levels, levels[k], k);
  }

  /** In the built-in order, Classic is followed by Medium and Legendary has no successor. */
  lemma BuiltInProgression()
    ensures NextLevel(BuiltInLevels, ClassicLevel) == Some(MediumLevel)
    ensures NextLevel(BuiltInLevels, LegendaryLevel) == None
  {
    assert BuiltInLevels[7] == LegendaryLevel && LegendaryLevel !in BuiltInLevels[..7];
    NextLevelNone(BuiltInLevels, LegendaryLevel);
  }

  // ---------------------------------------------------------------- scoring

  /** `Math.max` on `int`. */
  function Max(a: int, b: int): int {
    if a < b then b else a
  }

  /** The largest value of a Java `int`. */
  const IntMax := 0x7fff_ffff

  /** Java `int` arithmetic: `x` wrapped into the two's-complement range of 32 bits. */
  function Int32(x: int): (r: int)
    ensures -IntMax - 1 <= r <= IntMax
    ensures (r - x) % 0x1_0000_0000 == 0
    ensures -IntMax - 1 <= x <= IntMax ==> r == x
  {
    (x + 0x8000_0000) % 0x1_0000_0000 - 0x8000_0000
  }

  /**
   * `max(0, (int)(300.0 / (elapsed + 1) * 10))` as written, with the double
   * quotient taken as the integer quotient 3000 / (elapsed + 1) where that
   * is positive. At -1, the reading a countdown stops at, the quotient is
   * `+Infinity`, which the cast turns into `Integer.MAX_VALUE`; below -1 it
   * is negative and the bonus 0.
   */
  function TimeBonusAsWritten(elapsed: int): (bonus: int)
    ensures elapsed >= 0 ==> bonus == TimeBonus(elapsed)
    ensures elapsed == -1 ==> bonus == IntMax
    ensures elapsed < -1 ==> bonus == 0
  {
    if elapsed == -1 then IntMax
    else if elapsed < -1 then 0
    else Max(0, 3000 / (elapsed + 1))
  }

  /** `basePoints + timeBonus + accuracyBonus` in Java `int` arithmetic, with the time bonus as written. */
  function ScoreAsWritten(basePoints: int, elapsed: int, mismatches: int): (score: int)
    ensures -IntMax - 1 <= score <= IntMax
    ensures (score - (basePoints + TimeBonusAsWritten(elapsed) + AccuracyBonus(mismatches))) % 0x1_0000_0000 == 0
  {
    var partial := Int32(basePoints + TimeBonusAsWritten(elapsed));
    var score := Int32(partial + AccuracyBonus(mismatches));
    WrapAdd(partial, basePoints + TimeBonusAsWritten(elapsed), score, AccuracyBonus(mismatches));
    score
  }

  /** Wrapping one summand of a sum first wraps the sum by the same multiple of 2^32. */
  lemma WrapAdd(wrapped: int, x: int, r: int, y: int)
    requires (wrapped - x) % 0x1_0000_0000 == 0
    requires (r - (wrapped + y)) % 0x1_0000_0000 == 0
    ensures (r - (x + y)) % 0x1_0000_0000 == 0
  {
  }

  /**
   * A pair matched after the countdown ran out completes the level with the
   * clock at -1: the time bonus as written is `Integer.MAX_VALUE` and the
   * score wraps around to a negative number.
   */
  lemma ScoreAfterTimeUpWraps(basePoints: int, mismatches: int)
    requires 0 < basePoints <= 0x1000_0000 && mismatches >= 0
    ensures TimeBonusAsWritten(-1) == IntMax
    ensures ScoreAsWritten(basePoints, -1, mismatches) < 0
  {
    var partial := basePoints + IntMax;
    assert Int32(partial) == partial - 0x1_0000_0000;
    assert Int32(partial - 0x1_0000_0000 + AccuracyBonus(mismatches)) == partial - 0x1_0000_0000 + AccuracyBonus(mismatches);
  }

  /**
   * The time bonus: 3000 / (elapsed + 1) while the clock reads at least 0,
   * the largest b with b * (elapsed + 1) <= 3000; 0 once a countdown has
   * run out.
   */
  function TimeBonus(elapsed: int): (bonus: int)
    ensures 0 <= bonus <= 3000
    ensures elapsed >= 0 ==> bonus * (elapsed + 1) <= 3000 < (bonus + 1) * (elapsed + 1)
    ensures elapsed < 0 ==> bonus == 0
  {
    if elapsed < 0 then 0 else Max(0, 3000 / (elapsed + 1))
  }

  /** With the corrected bonus a level's score is its base points plus at most 3200, so it cannot wrap. */
  lemma ScoreBounded(basePoints: int, elapsed: int, mismatches: int)
    requires 0 <= basePoints <= IntMax - 3200 && mismatches >= 0
    ensures basePoints <= basePoints + TimeBonus(elapsed) + AccuracyBonus(mismatches) <= basePoints + 3200
    ensures Int32(basePoints + TimeBonus(elapsed) + AccuracyBonus(mismatches)) ==
            basePoints + TimeBonus(elapsed) + AccuracyBonus(mismatches)
  {
  }

  /** The time bonus shrinks as the clock reading grows. */
  lemma TimeBonusAntitone(e1: int, e2: int)
    requires 0 <= e1 <= e2
    ensures TimeBonus(e2) <= TimeBonus(e1)
  {
    var b1, b2 := TimeBonus(e1), TimeBonus(e2);
    MulMonotone(e1 + 1, e2 + 1, b2);
    // b2 * (e1 + 1) <= b2 * (e2 + 1) <= 3000 < (b1 + 1) * (e1 + 1)
    MulCancel(b2, b1 + 1, e1 + 1);
  }

  /** Multiplying by a non-negative factor keeps the order. */
  lemma MulMonotone(a: int, b: int, c: int)
    requires a <= b && 0 <= c
    ensures a * c <= b * c
  {
  }

  /** A positive factor can be cancelled from a strict inequality. */
  lemma MulCancel(x: int, y: int, c: int)
    requires 0 < c && x * c < y * c
    ensures x < y
  {
    if y <= x {
      MulMonotone(y, x, c);
    }
  }

  /** `max(0, 200 - mismatches * 12)`: at most 200, and 0 from 17 mismatches on. */
  function AccuracyBonus(mismatches: int): (bonus: int)
    ensures bonus >= 0 && bonus >= 200 - 12 * mismatches
    ensures bonus == 0 || bonus == 200 - 12 * mismatches
    ensures mismatches >= 0 ==> bonus <= 200
    ensures bonus == 0 <==> mismatches >= 17
  {
    Max(0, 200 - mismatches * 12)
  }

  // ---------------------------------------------------------------- the session

  /** The number of matched cards among `faces`. */
  function MatchedCount(faces: seq<Flags>): nat {
    if faces == [] then 0
    else MatchedCount(faces[..|faces| - 1]) + (if faces[|faces| - 1].matched then 1 else 0)
  }

  /** There are never more matched cards than cards. */
  lemma {:induction false} MatchedCountAtMost(faces: seq<Flags>)
    ensures MatchedCount(faces) <= |faces|
  {
    if faces != [] {
      MatchedCountAtMost(faces[..|faces| - 1]);
    }
  }

  /** A grid with an unmatched card has fewer matched cards than cards. */
  lemma {:induction false} UnmatchedCardLeft(faces: seq<Flags>, x: int)
    requires 0 <= x < |faces| && !faces[x].matched
    ensures MatchedCount(faces) < |faces|
  {
    var prefix := faces[..|faces| - 1];
    if x == |faces| - 1 {
      MatchedCountAtMost(prefix);
    } else {
      assert prefix[x] == faces[x];
      UnmatchedCardLeft(prefix, x);
    }
  }

  /** Changing the flags of one card changes the count by that card's change alone. */
  lemma {:induction false} MatchedCountUpdate(faces: seq<Flags>, k: int, f: Flags)
    requires 0 <= k < |faces|
    ensures MatchedCount(faces[k := f]) ==
            MatchedCount(faces) - (if faces[k].matched then 1 else 0) + (if f.matched then 1 else 0)
  {
    var n := |faces|;
    if k < n - 1 {
      assert faces[k := f][..n - 1] == faces[..n - 1][k := f];
      MatchedCountUpdate(faces[..n - 1], k, f);
    } else {
      assert faces[k := f][..n - 1] == faces[..n - 1];
    }
  }

  /** A grid of face-down, unmatched cards has no matched card. */
  lemma {:induction false} MatchedCountNone(n: nat)
    ensures MatchedCount(seq(n, j => Flags(false, false))) == 0
  {
    if n > 0 {
      assert seq(n, j => Flags(false, false))[..n - 1] == seq(n - 1, j => Flags(false, false));
      MatchedCountNone(n - 1);
    }
  }

  /**
   * A deck of `count` values dealt for `theme`: every value from the theme's
   * palette, each an even number of times, and exactly twice for `count / 2`
   * different values when the palette is large enough.
   */
  ghost predicate Dealt(deck: seq<string>, theme: string, count: int) {
    && |deck| == count
    && (forall v :: v in deck ==> v in Pool(theme))
    && (forall v :: multiset(deck)[v] % 2 == 0)
    && (count / 2 <= |Pool(theme)| ==>
          (forall v :: v in deck ==> multiset(deck)[v] == 2) && |set v | v in deck| == count / 2)
  }

  /** A selection names a card of the grid that is face up and not matched. */
  ghost predicate Selectable(faces: seq<Flags>, sel: Option<nat>) {
    sel.Some? ==> sel.value < |faces| && faces[sel.value] == Flags(true, false)
  }

  /** The selections: at most two different face-up cards, and a second one only while busy. */
  ghost predicate SelectionOk(faces: seq<Flags>, first: Option<nat>, second: Option<nat>, busy: bool) {
    && Selectable(faces, first) && Selectable(faces, second)
    && (second.Some? ==> first.Some? && first != second && busy)
  }

  /**
   * The counters: matched cards are face up and come two per match, and
   * every attempt is a match, a mismatch or the pending pair.
   */
  ghost predicate CountersOk(faces: seq<Flags>, matchesFound: int, mismatches: int, attempts: int, pending: bool) {
    && (forall j :: 0 <= j < |faces| && faces[j].matched ==> faces[j].revealed)
    && 0 <= matchesFound && 0 <= mismatches
    && MatchedCount(faces) == 2 * matchesFound
    && attempts == matchesFound + mismatches + (if pending then 1 else 0)
  }

  /**
   * An accepted click on the face-down card `i` while the grid is not busy:
   * nothing is pending yet, and revealing the card as first selection, or
   * as second selection that opens an attempt, keeps both invariants.
   */
  lemma ClickKeepsInvariant(faces: seq<Flags>, i: nat, first: Option<nat>, second: Option<nat>,
                            matchesFound: int, mismatches: int, attempts: int)
    requires SelectionOk(faces, first, second, false)
    requires CountersOk(faces, matchesFound, mismatches, attempts, second.Some?)
    requires i < |faces| && faces[i] == Flags(false, false)
    ensures second == None && first != Some(i)
    ensures first.None? ==>
              && SelectionOk(faces[i := Flags(true, false)], Some(i), None, false)
              && CountersOk(faces[i := Flags(true, false)], matchesFound, mismatches, attempts, false)
    ensures first.Some? ==>
              && SelectionOk(faces[i := Flags(true, false)], first, Some(i), true)
              && CountersOk(faces[i := Flags(true, false)], matchesFound, mismatches, attempts + 1, true)
  {
    MatchedCountUpdate(faces, i, Flags(true, false));
  }

  /** Settling a pending pair of equal values: both become matched, one more match, nothing pending. */
  lemma MatchKeepsInvariant(faces: seq<Flags>, a: nat, b: nat, matchesFound: int, mismatches: int, attempts: int)
    requires SelectionOk(faces, Some(a), Some(b), true)
    requires CountersOk(faces, matchesFound, mismatches, attempts, true)
    ensures CountersOk(faces[a := Flags(true, true)][b := Flags(true, true)],
                       matchesFound + 1, mismatches, attempts, false)
  {
    MatchedCountUpdate(faces, a, Flags(true, true));
    MatchedCountUpdate(faces[a := Flags(true, true)], b, Flags(true, true));
  }

  /** Settling a pending pair of different values: both face down, one more mismatch, nothing pending. */
  lemma MismatchKeepsInvariant(faces: seq<Flags>, a: nat, b: nat, matchesFound: int, mismatches: int, attempts: int)
    requires SelectionOk(faces, Some(a), Some(b), true)
    requires CountersOk(faces, matchesFound, mismatches, attempts, true)
    ensures CountersOk(faces[a := Flags(false, false)][b := Flags(false, false)],
                       matchesFound, mismatches + 1, attempts, false)
  {
    MatchedCountUpdate(faces, a, Flags(false, false));
    MatchedCountUpdate(faces[a := Flags(false, false)], b, Flags(false, false));
  }

  class Session {
    var cols: int
    var rows: int
    var cardCount: int

    // The selected cards, as positions in `cards`; None stands for null.
    var firstSelected: Option<nat>
    var secondSelected: Option<nat>
    var busy: bool
    var attempts: int
    var matchesFound: int
    var mismatches: int
    // Seconds elapsed on a level that counts up; seconds remaining on a countdown level.
    var elapsedSeconds: int
    var timerStarted: bool

    var totalScore: int
    var score: int
    var basePoints: int
    var timeBonus: int
    var accuracyBonus: int

    var cardValues: seq<string>
    var cards: seq<Card>
    var selectedLevel: string
    var selectedTheme: string
    // The catalog order that `levelManager.getAllLevels()` supplies.
    const levels: seq<string>

    // Whether the one-second timeline is playing, and whether it runs the countdown handler.
    var timerRunning: bool
    var countingDown: bool

    // The flags of the grid's cards, position by position.
    ghost var faces: seq<Flags>

    /** Two cards are selected and wait for `CheckMatch`. */
    predicate PairPending()
      reads this
    {
      firstSelected.Some? && secondSelected.Some?
    }

    /** The ghost field `faces` mirrors the flags of the grid's cards, which are distinct objects. */
    ghost predicate GridMirrored()
      reads this`cards, this`faces, cards
    {
      && (forall i, j :: 0 <= i < j < |cards| ==> cards[i] != cards[j])
      && |faces| == |cards|
      && (forall j :: 0 <= j < |cards| ==> faces[j] == cards[j].State())
    }

    /** The selection rule, on this session's fields. */
    ghost predicate SelectionValid()
      reads this`faces, this`firstSelected, this`secondSelected, this`busy
    {
      SelectionOk(faces, firstSelected, secondSelected, busy)
    }

    /** The counter rule, on this session's fields. */
    ghost predicate CountersValid()
      reads this`faces, this`matchesFound, this`mismatches, this`attempts, this`secondSelected
    {
      CountersOk(faces, matchesFound, mismatches, attempts, secondSelected.Some?)
    }

    /** The clock reads at least 0, or -1 once a countdown has run out and stopped. */
    ghost predicate ClockValid()
      reads this`elapsedSeconds, this`countingDown, this`timerRunning
    {
      elapsedSeconds >= 0 || (elapsedSeconds == -1 && countingDown && !timerRunning)
    }

    /** The session invariant, kept by every event handler. */
    ghost predicate Valid()
      reads this`cards, this`faces, this`firstSelected, this`secondSelected, this`busy, this`matchesFound,
            this`mismatches, this`attempts, this`elapsedSeconds, this`countingDown,
            this`timerRunning, cards
    {
      && GridMirrored()
      && SelectionValid()
      && CountersValid()
      && ClockValid()
    }

    /** The card count is a non-negative even number, so that it deals whole pairs. */
    ghost predicate SizeValid()
      reads this`cardCount
    {
      cardCount >= 0 && cardCount % 2 == 0
    }

    /** Turns card `k` face up, keeping its mirror entry in step. */
    method RevealCard(k: nat)
      requires GridMirrored() && k < |cards|
      modifies cards[k], this`faces
      ensures GridMirrored()
      ensures faces == old(faces)[k := AfterReveal(old(faces[k]))]
    {
      cards[k].Reveal();
      faces := faces[k := cards[k].State()];
      forall j | 0 <= j < |cards| ensures faces[j] == cards[j].State() {
        if j != k { assert cards[j] != cards[k]; }
      }
    }

    /** Turns card `k` face down unless it is matched, keeping its mirror entry in step. */
    method HideCard(k: nat)
      requires GridMirrored() && k < |cards|
      modifies cards[k], this`faces
      ensures GridMirrored()
      ensures faces == old(faces)[k := AfterHide(old(faces[k]))]
    {
      cards[k].Hide();
      faces := faces[k := cards[k].State()];
      forall j | 0 <= j < |cards| ensures faces[j] == cards[j].State() {
        if j != k { assert cards[j] != cards[k]; }
      }
    }

    /** Marks card `k` as matched, keeping its mirror entry in step. */
    method MatchCard(k: nat)
      requires GridMirrored() && k < |cards|
      modifies cards[k], this`faces
      ensures GridMirrored()
      ensures faces == old(faces)[k := AfterSetMatched(old(faces[k]), true)]
    {
      cards[k].SetMatched(true);
      faces := faces[k := cards[k].State()];
      forall j | 0 <= j < |cards| ensures faces[j] == cards[j].State() {
        if j != k { assert cards[j] != cards[k]; }
      }
    }

    /** The cards that `CheckMatch` may change: the selected ones. */
    function SelectedCards(): set<Card>
      reads this, cards
    {
      (if firstSelected.Some? && firstSelected.value < |cards| then {cards[firstSelected.value]} else {}) +
      (if secondSelected.Some? && secondSelected.value < |cards| then {cards[secondSelected.value]} else {})
    }

    /** The pending pair shows the same value twice. */
    predicate PendingPairMatches()
      reads this, cards
    {
      && PairPending()
      && firstSelected.value < |cards| && secondSelected.value < |cards|
      && cards[firstSelected.value].value == cards[secondSelected.value].value
    }

    /** The field values of a new game object, with the level catalog that the level manager provides. */
    constructor (levels: seq<string>)
      ensures Valid() && SizeValid()
      ensures this.levels == levels
      ensures cols == 4 && rows == 4 && cardCount == 16
      ensures firstSelected == None && secondSelected == None && !busy
      ensures attempts == 0 && matchesFound == 0 && mismatches == 0 && elapsedSeconds == 0 && !timerStarted
      ensures totalScore == 0 && score == 0 && basePoints == 0 && timeBonus == 0 && accuracyBonus == 0
      ensures cardValues == [] && |cards| == 0
      ensures selectedLevel == ClassicLevel && selectedTheme == InitialTheme
      ensures !timerRunning && !countingDown
    {
      this.levels := levels;
      cols, rows := 4, 4;
      cardCount := 16;
      firstSelected, secondSelected := None, None;
      busy := false;
      attempts, matchesFound, mismatches, elapsedSeconds := 0, 0, 0, 0;
      timerStarted := false;
      totalScore, score, basePoints, timeBonus, accuracyBonus := 0, 0, 0, 0, 0;
      cardValues := [];
      cards := [];
      selectedLevel := ClassicLevel;
      selectedTheme := InitialTheme;
      timerRunning, countingDown := false, false;
      faces := [];
    }

    /** `setLevelDimensions`: grid size from the level table, card count rounded up to even, base points from the catalog. */
    method SetLevelDimensions(level: string)
      modifies this`cols, this`rows, this`cardCount, this`basePoints
      ensures (cols, rows) == Dimensions(level)
      ensures SizeValid() && cols * rows <= cardCount <= cols * rows + 1
      ensures basePoints == 100 * (IndexOf(levels, level) + 1)
    {
      var grid := Dimensions(level);
      cols, rows := grid.0, grid.1;
      cardCount := RoundUpEven(cols * rows);
      basePoints := 100 * (IndexOf(levels, level) + 1);
    }

    /** The "Next Level" action: select the level and size the grid for it. */
    method SelectLevel(level: string)
      modifies this`selectedLevel, this`cols, this`rows, this`cardCount, this`basePoints
      ensures selectedLevel == level
      ensures (cols, rows) == Dimensions(level)
      ensures SizeValid() && cols * rows <= cardCount <= cols * rows + 1
      ensures basePoints == 100 * (IndexOf(levels, level) + 1)
    {
      selectedLevel := level;
      SetLevelDimensions(level);
    }

    /** `resetGameState`: clear the selections, the counters, the clock and the round's score; stop the timer. */
    method ResetGameState()
      modifies this`firstSelected, this`secondSelected, this`busy, this`attempts, this`matchesFound,
               this`elapsedSeconds, this`timerStarted, this`mismatches, this`score, this`timeBonus,
               this`accuracyBonus, this`timerRunning
      ensures firstSelected == None && secondSelected == None && !busy
      ensures attempts == 0 && matchesFound == 0 && mismatches == 0
      ensures elapsedSeconds == 0 && !timerStarted && !timerRunning
      ensures score == 0 && timeBonus == 0 && accuracyBonus == 0
    {
      firstSelected := None;
      secondSelected := None;
      busy := false;
      attempts := 0;
      matchesFound := 0;
      elapsedSeconds := 0;
      timerStarted := false;
      mismatches := 0;
      score := 0;
      timeBonus := 0;
      accuracyBonus := 0;
      StopTimer();
    }

    /** `generateCardValues`: a deck of `cardCount / 2` pairs of the selected theme. */
    method GenerateCardValues()
      requires SizeValid()
      modifies this`cardValues
      ensures Dealt(cardValues, selectedTheme, cardCount)
    {
      ghost var shuffledPool;
      cardValues, shuffledPool := Generate(selectedTheme, cardCount / 2);
      DeckFacts(Pool(selectedTheme), cardCount / 2, cardValues, shuffledPool);
    }

    /** `createCards`: one new face-down card per value, in deck order. */
    method CreateCards() returns (made: seq<Card>)
      ensures |made| == |cardValues|
      ensures forall j :: 0 <= j < |made| ==>
                fresh(made[j]) && made[j].value == cardValues[j] && made[j].State() == Flags(false, false)
      ensures forall i, j :: 0 <= i < j < |made| ==> made[i] != made[j]
    {
      made := [];
      for k := 0 to |cardValues|
        invariant |made| == k
        invariant forall j :: 0 <= j < k ==>
                    fresh(made[j]) && made[j].value == cardValues[j] && made[j].State() == Flags(false, false)
        invariant forall i, j :: 0 <= i < j < k ==> made[i] != made[j]
      {
        var card := new Card(cardValues[k]);
        made := made + [card];
      }
    }

    /** `startGame` without its scene: reset the round, deal a new deck and lay out new cards. */
    method StartGame()
      requires Valid() && SizeValid()
      modifies this`firstSelected, this`secondSelected, this`busy, this`attempts, this`matchesFound,
               this`elapsedSeconds, this`timerStarted, this`mismatches, this`score, this`timeBonus,
               this`accuracyBonus, this`timerRunning, this`cardValues, this`cards, this`faces
      ensures Valid()
      ensures Dealt(cardValues, selectedTheme, cardCount) && |cards| == cardCount
      ensures forall j :: 0 <= j < |cards| ==>
                fresh(cards[j]) && cards[j].value == cardValues[j] && cards[j].State() == Flags(false, false)
      ensures firstSelected == None && secondSelected == None && !busy
      ensures attempts == 0 && matchesFound == 0 && mismatches == 0
      ensures elapsedSeconds == 0 && !timerStarted && !timerRunning
      ensures score == 0 && timeBonus == 0 && accuracyBonus == 0
    {
      ResetGameState();
      GenerateCardValues();
      LayOutCards();
    }

    /** The grid of a new round: the cards that `CreateCards` makes, all face down. */
    method LayOutCards()
      modifies this`cards, this`faces
      ensures GridMirrored() && |cards| == |cardValues|
      ensures faces == seq(|cards|, j => Flags(false, false)) && MatchedCount(faces) == 0
      ensures forall j :: 0 <= j < |cards| ==>
                fresh(cards[j]) && cards[j].value == cardValues[j] && cards[j].State() == Flags(false, false)
    {
      cards := CreateCards();
      faces := seq(|cards|, j => Flags(false, false));
      MatchedCountNone(|cards|);
    }

    /** `startTimer`: start the one-second timeline, counting down from the level's countdown or up from 0. */
    method StartTimer()
      modifies this`timerStarted, this`elapsedSeconds, this`timerRunning, this`countingDown
      ensures ClockValid()
      ensures timerStarted && timerRunning
      ensures countingDown == (CountdownSeconds(selectedLevel) > 0)
      ensures elapsedSeconds == if countingDown then CountdownSeconds(selectedLevel) else 0
    {
      timerStarted := true;
      var countdown := CountdownSeconds(selectedLevel);
      if countdown > 0 {
        elapsedSeconds := countdown;
        countingDown := true;
      } else {
        elapsedSeconds := 0;
        countingDown := false;
      }
      timerRunning := true;
    }

    /**
     * `onCardClicked`: a click on a busy grid, a matched card or a face-up
     * card changes nothing. Otherwise the card is turned face up and becomes
     * the first selection, or the second one, which counts an attempt and
     * makes the grid busy until `CheckMatch`. The first accepted click of a
     * round starts the clock.
     */
    method Click(i: nat)
      requires Valid() && i < |cards|
      modifies this`firstSelected, this`secondSelected, this`busy, this`attempts,
               this`timerStarted, this`elapsedSeconds, this`timerRunning, this`countingDown, this`faces, cards[i]
      ensures Valid()
      ensures old(busy || cards[i].matched || cards[i].revealed) ==> unchanged(this) && unchanged(cards[i])
      ensures !old(busy || cards[i].matched || cards[i].revealed) ==>
                && cards[i].State() == Flags(true, false)
                && timerStarted
                && (old(timerStarted) ==>
                      timerRunning == old(timerRunning) && countingDown == old(countingDown) &&
                      elapsedSeconds == old(elapsedSeconds))
                && (!old(timerStarted) ==>
                      timerRunning && countingDown == (CountdownSeconds(selectedLevel) > 0) &&
                      elapsedSeconds == (if countingDown then CountdownSeconds(selectedLevel) else 0))
                && (old(firstSelected).None? ==>
                      firstSelected == Some(i) && secondSelected == None && !busy && attempts == old(attempts))
                && (old(firstSelected).Some? ==>
                      firstSelected == old(firstSelected) && secondSelected == Some(i) && busy &&
                      attempts == old(attempts) + 1)
    {
      if busy || cards[i].matched || cards[i].revealed {
        return;
      }
      if !timerStarted {
        StartTimer();
      }
      Select(i);
    }

    /** An accepted click after the clock: turn card `i` face up and record it as first or second selection. */
    method Select(i: nat)
      requires GridMirrored() && SelectionValid() && CountersValid()
      requires i < |cards| && !busy && faces[i] == Flags(false, false)
      modifies this`firstSelected, this`secondSelected, this`busy, this`attempts, this`faces, cards[i]
      ensures GridMirrored() && SelectionValid() && CountersValid()
      ensures cards[i].State() == Flags(true, false)
      ensures old(firstSelected).None? ==>
                firstSelected == Some(i) && secondSelected == None && !busy && attempts == old(attempts)
      ensures old(firstSelected).Some? ==>
                firstSelected == old(firstSelected) && secondSelected == Some(i) && busy &&
                attempts == old(attempts) + 1
    {
      ClickKeepsInvariant(faces, i, firstSelected, secondSelected, matchesFound, mismatches, attempts);
      RevealCard(i);
      if firstSelected.None? {
        firstSelected := Some(i);
      } else {
        // The source also tests that no second card is selected and that the
        // card differs from the first; under the invariant both always hold.
        assert secondSelected.None? && Some(i) != firstSelected;
        secondSelected := Some(i);
        busy := true;
        attempts := attempts + 1;
      }
    }

    /**
     * `checkMatch`, run 600 ms after the second selection: a pair of equal
     * values becomes matched and counts a match, any other pair is turned
     * face down and counts a mismatch, and then the selections are cleared
     * and the grid is no longer busy. `complete` says that this match was the
     * last one and the level-complete screen is due. This is the corrected
     * handler: a run that finds no pending pair, which only a pause left over
     * from before a restart can cause, changes nothing (see
     * `CheckMatchAsWritten`).
     */
    method CheckMatch() returns (complete: bool)
      requires Valid()
      modifies this`firstSelected, this`secondSelected, this`busy, this`matchesFound, this`mismatches,
               this`faces, SelectedCards()
      ensures Valid()
      ensures old(PairPending()) ==> firstSelected == None && secondSelected == None && !busy
      ensures old(PendingPairMatches()) ==>
                && cards[old(firstSelected).value].State() == Flags(true, true)
                && cards[old(secondSelected).value].State() == Flags(true, true)
                && matchesFound == old(matchesFound) + 1 && mismatches == old(mismatches)
      ensures old(PairPending() && !PendingPairMatches()) ==>
                && cards[old(firstSelected).value].State() == Flags(false, false)
                && cards[old(secondSelected).value].State() == Flags(false, false)
                && matchesFound == old(matchesFound) && mismatches == old(mismatches) + 1
      ensures !old(PairPending()) ==>
                && firstSelected == old(firstSelected) && secondSelected == old(secondSelected)
                && busy == old(busy) && faces == old(faces)
                && matchesFound == old(matchesFound) && mismatches == old(mismatches)
      ensures complete <==> old(PendingPairMatches()) && matchesFound == cardCount / 2
    {
      complete := false;
      if firstSelected.Some? && secondSelected.Some? {
        var a, b := firstSelected.value, secondSelected.value;
        if cards[a].value == cards[b].value {
          SettleMatch(a, b);
          complete := matchesFound == cardCount / 2;
        } else {
          SettleMismatch(a, b);
        }
        firstSelected := None;
        secondSelected := None;
        busy := false;
      }
    }

    /**
     * `checkMatch` as written: after settling a pending pair as `CheckMatch`
     * does, it clears both selections and the busy flag even when it found no
     * pair. The pause that runs it is never cancelled, so after a restart
     * inside the pause it clears a lone first selection of the new round
     * whose card stays face up.
     */
    method CheckMatchAsWritten() returns (complete: bool)
      requires Valid()
      modifies this`firstSelected, this`secondSelected, this`busy, this`matchesFound, this`mismatches,
               this`faces, SelectedCards()
      ensures Valid()
      ensures firstSelected == None && secondSelected == None && !busy
      ensures old(PendingPairMatches()) ==>
                && cards[old(firstSelected).value].State() == Flags(true, true)
                && cards[old(secondSelected).value].State() == Flags(true, true)
                && matchesFound == old(matchesFound) + 1 && mismatches == old(mismatches)
      ensures old(PairPending() && !PendingPairMatches()) ==>
                && cards[old(firstSelected).value].State() == Flags(false, false)
                && cards[old(secondSelected).value].State() == Flags(false, false)
                && matchesFound == old(matchesFound) && mismatches == old(mismatches) + 1
      ensures !old(PairPending()) ==>
                faces == old(faces) && matchesFound == old(matchesFound) && mismatches == old(mismatches)
      ensures complete <==> old(PendingPairMatches()) && matchesFound == cardCount / 2
    {
      complete := CheckMatch();
      firstSelected := None;
      secondSelected := None;
      busy := false;
    }

    /** The matching branch of `checkMatch`: both cards of the pending pair become matched, one more match. */
    method SettleMatch(a: nat, b: nat)
      requires GridMirrored() && SelectionOk(faces, Some(a), Some(b), true)
      requires CountersOk(faces, matchesFound, mismatches, attempts, true)
      modifies this`faces, this`matchesFound, cards[a], cards[b]
      ensures GridMirrored() && CountersOk(faces, matchesFound, mismatches, attempts, false)
      ensures cards[a].State() == Flags(true, true) && cards[b].State() == Flags(true, true)
      ensures matchesFound == old(matchesFound) + 1
    {
      MatchKeepsInvariant(faces, a, b, matchesFound, mismatches, attempts);
      MatchCard(a);
      MatchCard(b);
      matchesFound := matchesFound + 1;
    }

    /** The other branch of `checkMatch`: one more mismatch, both cards of the pending pair face down again. */
    method SettleMismatch(a: nat, b: nat)
      requires GridMirrored() && SelectionOk(faces, Some(a), Some(b), true)
      requires CountersOk(faces, matchesFound, mismatches, attempts, true)
      modifies this`faces, this`mismatches, cards[a], cards[b]
      ensures GridMirrored() && CountersOk(faces, matchesFound, mismatches, attempts, false)
      ensures cards[a].State() == Flags(false, false) && cards[b].State() == Flags(false, false)
      ensures mismatches == old(mismatches) + 1
    {
      MismatchKeepsInvariant(faces, a, b, matchesFound, mismatches, attempts);
      mismatches := mismatches + 1;
      HideCard(a);
      HideCard(b);
    }

    /**
     * One second of the running clock: the countdown handler takes a second
     * off and stops the timer once the reading drops below 0, asking for the
     * time-up screen (`timeUp`); the count-up handler adds a second.
     */
    method Tick() returns (timeUp: bool)
      requires Valid() && timerRunning
      modifies this`elapsedSeconds, this`timerRunning
      ensures Valid()
      ensures elapsedSeconds == if countingDown then old(elapsedSeconds) - 1 else old(elapsedSeconds) + 1
      ensures timeUp <==> countingDown && elapsedSeconds < 0
      ensures timerRunning == !timeUp
    {
      if countingDown {
        elapsedSeconds := elapsedSeconds - 1;
        timeUp := elapsedSeconds < 0;
        if timeUp {
          timerRunning := false;
        }
      } else {
        elapsedSeconds := elapsedSeconds + 1;
        timeUp := false;
      }
    }

    /** `handleTimeUp` without its scene: block every further click and stop the timer. */
    method TimeUp()
      requires Valid()
      modifies this`busy, this`timerRunning
      ensures Valid()
      ensures busy && !timerRunning
    {
      busy := true;
      StopTimer();
    }

    /** `if (timer != null) timer.stop()`: the one-second timeline stops; the clock keeps its reading. */
    method StopTimer()
      modifies this`timerRunning
      ensures !timerRunning
    {
      timerRunning := false;
    }

    /**
     * `computeScore`: time bonus from the clock reading (on a countdown level
     * that is the time remaining), accuracy bonus from the mismatches, their
     * sum with the base points as the round's score, added to the total.
     */
    method ComputeScore()
      modifies this`timeBonus, this`accuracyBonus, this`score, this`totalScore
      ensures timeBonus == TimeBonus(elapsedSeconds)
      ensures accuracyBonus == AccuracyBonus(mismatches)
      ensures score == basePoints + timeBonus + accuracyBonus
      ensures totalScore == old(totalScore) + score
    {
      timeBonus := if elapsedSeconds < 0 then 0 else Max(0, 3000 / (elapsedSeconds + 1));
      accuracyBonus := Max(0, 200 - mismatches * 12);
      score := basePoints + timeBonus + accuracyBonus;
      totalScore := totalScore + score;
    }

    /** `getNextLevel`: the catalog entry after the selected level, or None. */
    method GetNextLevel() returns (next: Option<string>)
      ensures next == NextLevel(levels, selectedLevel)
    {
      var all := levels;
      var i := 0;
      while i < |all| - 1
        invariant 0 <= i <= |all|
        invariant NextLevel(all, selectedLevel) == NextLevel(all[i..], selectedLevel)
      {
        if all[i] == selectedLevel {
          return Some(all[i + 1]);
        }
        assert all[i..][1..] == all[i + 1..];
        i := i + 1;
      }
      return None;
    }

    /** `showLevelComplete` without its scene: stop the clock, compute the score, then look up the next level. */
    method ShowLevelComplete() returns (nextLevel: Option<string>, hasNext: bool)
      requires Valid()
      modifies this`timerRunning, this`timeBonus, this`accuracyBonus, this`score, this`totalScore
      ensures Valid() && !timerRunning
      ensures timeBonus == TimeBonus(elapsedSeconds) && accuracyBonus == AccuracyBonus(mismatches)
      ensures score == basePoints + timeBonus + accuracyBonus && totalScore == old(totalScore) + score
      ensures nextLevel == NextLevel(levels, selectedLevel) && (hasNext <==> nextLevel.Some?)
    {
      StopTimer();
      ComputeScore();
      nextLevel := GetNextLevel();
      hasNext := nextLevel.Some?;
    }
  }
}
