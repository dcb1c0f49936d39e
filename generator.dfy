/**
 * The deck generator of the concentration game (class CardValueGenerator):
 * a fixed table of theme palettes, and `Generate`, which deals
 * `pairsNeeded` pairs of palette values in shuffled order.
 *
 * `Collections.shuffle` is modelled by its swap loop with the random draw
 * left unconstrained, so every statement about a generated deck holds for
 * every outcome of the two shuffles.
 */
module Generator {

  /** No value occurs twice in `s`. */
  ghost predicate Distinct<T>(s: seq<T>) {
    forall i, j :: 0 <= i < j < |s| ==> s[i] != s[j]
  }

  /** The palettes of the known themes. */
  const Themes: map<string, seq<string>> := map[
    "Black and White Icons" := ["⚫", "⚪", "⬛", "⬜", "◼", "◻", "⚙️", "💀"],
    "Nature" := ["🌲", "🌸", "🍀", "🌻", "🌊", "🌳", "🍁", "🌿"],
    "Space Exploration" := ["🚀", "🪐", "🌌", "🌕", "☄️", "👩‍🚀", "🛰️", "🌟"],
    "Holidays" := ["🎄", "🎃", "🎆", "🎁", "🕯️", "🧧", "🥂", "🎅"],
    "Art & Paintings" := ["🎨", "🖌️", "🖼️", "🪶", "🪞", "✏️", "🖋️", "📜"]
  ]

  /** The palette used for a theme name that is not in `Themes`. */
  const DefaultPool: seq<string> := ["🍎", "🍌", "🍇", "🍓"]

  /** `THEMES.getOrDefault(theme, DefaultPool)`: the palette a deck is drawn from. */
  function Pool(theme: string): (pool: seq<string>)
    ensures theme in Themes ==> pool == Themes[theme]
    ensures theme !in Themes ==> pool == DefaultPool
    ensures |pool| > 0 && Distinct(pool)
  {
    PalettesDistinct();
    if theme in Themes then Themes[theme] else DefaultPool
  }

  /** Every palette, the default one included, lists each value once. */
  lemma PalettesDistinct()
    ensures forall t :: t in Themes ==> |Themes[t]| > 0 && Distinct(Themes[t])
    ensures Distinct(DefaultPool)
  {
    var names := ["Black and White Icons", "Nature", "Space Exploration", "Holidays", "Art & Paintings"];
    assert Themes.Keys == set t | t in names;
    forall k | 0 <= k < |names| ensures Distinct(Themes[names[k]]) {
      var p := Themes[names[k]];
      forall i, j | 0 <= i < j < |p| ensures p[i] != p[j] {
        assert p[i][0] != p[j][0] || p[i][1..] != p[j][1..];
      }
    }
  }

  /**
   * The pair list before the final shuffle: for i = 0 .. n-1, the value
   * `shuffledPool[i % |shuffledPool|]` twice in a row.
   */
  function PairList(shuffledPool: seq<string>, n: int): (pairs: seq<string>)
    requires |shuffledPool| > 0
    ensures |pairs| == if n <= 0 then 0 else 2 * n
    ensures forall v :: v in pairs ==> v in shuffledPool
  {
    if n <= 0 then []
    else
      var v := At(shuffledPool, n - 1);
      PairList(shuffledPool, n - 1) + [v, v]
  }

  /** Positions 2i and 2i+1 of the pair list both hold `shuffledPool[i % |shuffledPool|]`. */
  lemma {:induction false} PairListAt(shuffledPool: seq<string>, n: int, i: int)
    requires |shuffledPool| > 0
    requires 0 <= i < n
    ensures PairList(shuffledPool, n)[2 * i] == shuffledPool[i % |shuffledPool|]
    ensures PairList(shuffledPool, n)[2 * i + 1] == shuffledPool[i % |shuffledPool|]
  {
    if i < n - 1 {
      PairListAt(shuffledPool, n - 1, i);
    }
  }

  /** The palette value round i deals: the palette is reused cyclically. */
  function At(shuffledPool: seq<string>, i: int): (w: string)
    requires |shuffledPool| > 0
    ensures w in shuffledPool
  {
    shuffledPool[i % |shuffledPool|]
  }

  /** The number of rounds i < n of the pair loop that deal value `v`. */
  function Rounds(shuffledPool: seq<string>, n: int, v: string): nat
    requires |shuffledPool| > 0
  {
    if n <= 0 then 0
    else Rounds(shuffledPool, n - 1, v) + (if At(shuffledPool, n - 1) == v then 1 else 0)
  }

  /** Appending a pair adds two to the count of its value and nothing to any other. */
  lemma AppendPairCount(s: seq<string>, w: string, v: string)
    ensures multiset(s + [w, w])[v] == multiset(s)[v] + (if w == v then 2 else 0)
  {
    assert multiset(s + [w, w]) == multiset(s) + multiset{w, w};
  }

  /** Each round deals its value twice, so a value occurs twice per round that deals it. */
  lemma {:induction false} PairListCounts(shuffledPool: seq<string>, n: int, v: string)
    requires |shuffledPool| > 0
    ensures multiset(PairList(shuffledPool, n))[v] == 2 * Rounds(shuffledPool, n, v)
  {
    if n > 0 {
      PairListCounts(shuffledPool, n - 1, v);
      AppendPairCount(PairList(shuffledPool, n - 1), At(shuffledPool, n - 1), v);
    }
  }

  /** Every value occurs an even number of times in the pair list. */
  lemma PairListEvenCounts(shuffledPool: seq<string>, n: int, v: string)
    requires |shuffledPool| > 0
    ensures multiset(PairList(shuffledPool, n))[v] % 2 == 0
  {
    PairListCounts(shuffledPool, n, v);
    DoubleIsEven(Rounds(shuffledPool, n, v));
  }

  /** Twice a number is even. */
  lemma DoubleIsEven(k: int)
    ensures (2 * k) % 2 == 0
  {
  }

  /**
   * While the rounds do not wrap around a palette without repeated values,
   * a value is dealt in one round if it is among the first n palette values
   * and in none otherwise.
   */
  lemma {:induction false} RoundsWithoutWrap(shuffledPool: seq<string>, n: int, v: string)
    requires |shuffledPool| > 0 && Distinct(shuffledPool)
    requires 0 <= n <= |shuffledPool|
    ensures Rounds(shuffledPool, n, v) == if v in shuffledPool[..n] then 1 else 0
  {
    if n > 0 {
      RoundsWithoutWrap(shuffledPool, n - 1, v);
      RoundStepBeforeWrap(shuffledPool, n, v);
      var before, upTo := shuffledPool[..n - 1], shuffledPool[..n];
      assert upTo == before + [shuffledPool[n - 1]];
      if v == shuffledPool[n - 1] {
        LastNotEarlier(shuffledPool, n);
        assert upTo[n - 1] == v;
      }
    }
  }

  /** Before the rounds wrap around, round n - 1 deals palette value n - 1. */
  lemma RoundStepBeforeWrap(shuffledPool: seq<string>, n: int, v: string)
    requires 0 < n <= |shuffledPool|
    ensures Rounds(shuffledPool, n, v) == Rounds(shuffledPool, n - 1, v) + (if shuffledPool[n - 1] == v then 1 else 0)
  {
    assert (n - 1) % |shuffledPool| == n - 1;
  }

  /** In a sequence without repetitions, the value at position n - 1 is not among the ones before it. */
  lemma LastNotEarlier<T>(s: seq<T>, n: int)
    requires Distinct(s) && 0 < n <= |s|
    ensures s[n - 1] !in s[..n - 1]
  {
    var before := s[..n - 1];
    forall k | 0 <= k < |before| ensures before[k] != s[n - 1] {
      assert before[k] == s[k];
    }
  }

  /**
   * When no more pairs are needed than the palette holds, and the palette
   * has no repeated value, the pair list holds each of the first n palette
   * values exactly twice and nothing else.
   */
  lemma PairListExactPairs(shuffledPool: seq<string>, n: int, v: string)
    requires |shuffledPool| > 0 && Distinct(shuffledPool)
    requires 0 <= n <= |shuffledPool|
    ensures multiset(PairList(shuffledPool, n))[v] == if v in shuffledPool[..n] then 2 else 0
  {
    PairListCounts(shuffledPool, n, v);
    RoundsWithoutWrap(shuffledPool, n, v);
  }

  /** A sequence without repetitions has as many distinct values as elements. */
  lemma {:induction false} DistinctCardinality<T>(s: seq<T>)
    requires Distinct(s)
    ensures |set x | x in s| == |s|
  {
    if |s| > 0 {
      var init, last := s[..|s| - 1], s[|s| - 1];
      assert Distinct(init);
      DistinctCardinality(init);
      assert s == init + [last];
      assert (set x | x in s) == (set x | x in init) + {last};
      assert last !in init;
    }
  }

  /** `Collections.shuffle`: a random permutation of `a`, in place. */
  method Shuffle(a: array<string>)
    modifies a
    ensures multiset(a[..]) == old(multiset(a[..]))
  {
    var i := a.Length;
    while i > 1
      invariant 0 <= i <= a.Length
      invariant multiset(a[..]) == old(multiset(a[..]))
    {
      var j :| 0 <= j < i;
      a[i - 1], a[j] := a[j], a[i - 1];
      i := i - 1;
    }
  }

  /** A shuffled copy of a list: `new ArrayList<>(s)` followed by `Collections.shuffle`. */
  method ShuffledCopy(s: seq<string>) returns (r: seq<string>)
    ensures multiset(r) == multiset(s)
  {
    var copy := new string[|s|](k requires 0 <= k < |s| => s[k]);
    assert copy[..] == s;
    Shuffle(copy);
    r := copy[..];
  }

  /**
   * `CardValueGenerator.generate`: `pairsNeeded` pairs of values of the
   * theme's palette in shuffled order. `shuffledPool` is the palette after
   * its first shuffle; the pairs reuse it cyclically.
   */
  method Generate(theme: string, pairsNeeded: int) returns (result: seq<string>, ghost shuffledPool: seq<string>)
    ensures multiset(shuffledPool) == multiset(Pool(theme))
    ensures multiset(result) == multiset(PairList(shuffledPool, pairsNeeded))
    ensures |result| == if pairsNeeded <= 0 then 0 else 2 * pairsNeeded
  {
    var pool := Pool(theme);
    var shuffled := ShuffledCopy(pool);
    shuffledPool := shuffled;
    assert |shuffled| == |multiset(shuffled)| == |multiset(pool)| == |pool|;
    var size := |shuffled|;

    var pairs: seq<string> := [];
    var i := 0;
    while i < pairsNeeded
      invariant 0 <= i
      invariant pairsNeeded >= 0 ==> i <= pairsNeeded
      invariant pairsNeeded <= 0 ==> i == 0
      invariant pairs == PairList(shuffledPool, i)
    {
      var val := shuffled[i % size];
      pairs := pairs + [val, val];
      i := i + 1;
    }
    assert pairs == PairList(shuffledPool, pairsNeeded);
    result := ShuffledCopy(pairs);
    assert |result| == |multiset(result)| == |multiset(pairs)| == |pairs|;
  }

  /** What a shuffled pair list drawn from a shuffled palette satisfies. */
  lemma DeckFacts(pool: seq<string>, pairsNeeded: int, result: seq<string>, shuffledPool: seq<string>)
    requires Distinct(pool)
    requires multiset(shuffledPool) == multiset(pool)
    requires |shuffledPool| > 0
    requires multiset(result) == multiset(PairList(shuffledPool, pairsNeeded))
    ensures |result| == if pairsNeeded <= 0 then 0 else 2 * pairsNeeded
    ensures forall v :: v in result ==> v in pool
    ensures forall v :: multiset(result)[v] % 2 == 0
    ensures pairsNeeded <= |pool| ==>
              (forall v :: v in result ==> multiset(result)[v] == 2) &&
              |set v | v in result| == if pairsNeeded <= 0 then 0 else pairsNeeded
  {
    var pairs := PairList(shuffledPool, pairsNeeded);
    assert |result| == |multiset(result)| == |multiset(pairs)| == |pairs|;
    forall v | v in result ensures v in pool {
      assert v in multiset(result);
      assert v in multiset(pairs);
      assert v in shuffledPool;
      assert v in multiset(shuffledPool);
    }
    forall v ensures multiset(result)[v] % 2 == 0 {
      PairListEvenCounts(shuffledPool, pairsNeeded, v);
    }
    if pairsNeeded <= |pool| {
      assert |shuffledPool| == |multiset(shuffledPool)| == |multiset(pool)| == |pool|;
      PermutationDistinct(pool, shuffledPool);
      DeckExactPairs(shuffledPool, if pairsNeeded <= 0 then 0 else pairsNeeded, pairsNeeded, result);
    }
  }

  /** Dealing `n` distinct values, none twice: each is in the deck exactly twice, and there are `n` of them. */
  lemma DeckExactPairs(shuffledPool: seq<string>, n: nat, pairsNeeded: int, result: seq<string>)
    requires Distinct(shuffledPool) && 0 < |shuffledPool| && n <= |shuffledPool|
    requires n == if pairsNeeded <= 0 then 0 else pairsNeeded
    requires multiset(result) == multiset(PairList(shuffledPool, pairsNeeded))
    ensures forall v :: v in result ==> multiset(result)[v] == 2
    ensures |set v | v in result| == n
  {
    assert PairList(shuffledPool, n) == PairList(shuffledPool, pairsNeeded);
    forall v | v in result ensures multiset(result)[v] == 2 {
      PairListExactPairs(shuffledPool, n, v);
    }
    DeckValues(shuffledPool, n, result);
  }

  /** The values of a deck of `n` distinct pairs are the first `n` palette entries. */
  lemma DeckValues(shuffledPool: seq<string>, n: nat, result: seq<string>)
    requires Distinct(shuffledPool) && 0 < |shuffledPool| && n <= |shuffledPool|
    requires multiset(result) == multiset(PairList(shuffledPool, n))
    ensures |set v | v in result| == n
  {
    var used := shuffledPool[..n];
    assert Distinct(used);
    DistinctCardinality(used);
    forall v ensures v in result <==> v in used {
      PairListExactPairs(shuffledPool, n, v);
      assert v in result <==> v in multiset(result);
    }
    assert (set v | v in result) == (set v | v in used);
  }

  /** A permutation of a sequence without repetitions has none either. */
  lemma PermutationDistinct<T>(s: seq<T>, t: seq<T>)
    requires Distinct(s) && multiset(s) == multiset(t)
    ensures Distinct(t)
  {
    forall x ensures multiset(s)[x] <= 1 {
      DistinctCountAtMostOne(s, x);
    }
    forall i, j | 0 <= i < j < |t| ensures t[i] != t[j] {
      if t[i] == t[j] {
        TwoOccurrences(t, i, j);
        assert false;
      }
    }
  }

  /** A value occurs at most once in a sequence without repetitions. */
  lemma {:induction false} DistinctCountAtMostOne<T>(s: seq<T>, x: T)
    requires Distinct(s)
    ensures multiset(s)[x] <= 1
  {
    if |s| > 0 {
      assert s == [s[0]] + s[1..];
      assert Distinct(s[1..]);
      DistinctCountAtMostOne(s[1..], x);
      if s[0] == x {
        assert x !in s[1..];
      }
    }
  }

  /** Two positions holding the same value make it occur at least twice. */
  lemma TwoOccurrences<T>(t: seq<T>, i: int, j: int)
    requires 0 <= i < j < |t| && t[i] == t[j]
    ensures multiset(t)[t[i]] >= 2
  {
    assert t == t[..i] + [t[i]] + t[i + 1..j] + [t[j]] + t[j + 1..];
  }
}
