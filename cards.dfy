/**
 * One card of the grid (class Card): an immutable value and the two flags
 * `revealed` and `matched`, changed only by `Reveal`, `Hide` and `SetMatched`.
 * Rendering, animations and image loading are not modelled.
 */
module Cards {

  /** The two mutable flags of a card. */
  datatype Flags = Flags(revealed: bool, matched: bool)

  /** The flags after `reveal()`: a revealed or matched card is left as it is. */
  function AfterReveal(f: Flags): Flags {
    if f.revealed || f.matched then f else f.(revealed := true)
  }

  /** The flags after `hide()`: a matched card is left as it is. */
  function AfterHide(f: Flags): Flags {
    if f.matched then f else f.(revealed := false)
  }

  /** The flags after `setMatched(m)`: only `matched` changes. */
  function AfterSetMatched(f: Flags, m: bool): Flags {
    f.(matched := m)
  }

  /** After `reveal()` an unmatched card shows its face; `matched` never changes. */
  lemma RevealShows(f: Flags)
    ensures AfterReveal(f).matched == f.matched
    ensures !f.matched ==> AfterReveal(f).revealed
    ensures f.revealed ==> AfterReveal(f) == f
  {
  }

  /** After `hide()` an unmatched card is face down; `matched` never changes. */
  lemma HideConceals(f: Flags)
    ensures AfterHide(f).matched == f.matched
    ensures !f.matched ==> !AfterHide(f).revealed
    ensures f.matched ==> AfterHide(f) == f
  {
  }

  /** `reveal()` and `hide()` are each idempotent. */
  lemma RevealHideIdempotent(f: Flags)
    ensures AfterReveal(AfterReveal(f)) == AfterReveal(f)
    ensures AfterHide(AfterHide(f)) == AfterHide(f)
  {
  }

  /** A card that is revealed and matched stays so under any sequence of reveals and hides. */
  lemma {:induction false} MatchedStaysRevealed(f: Flags, ops: seq<bool>)
    requires f.revealed && f.matched
    ensures Apply(f, ops) == f
  {
    if ops != [] {
      MatchedStaysRevealed(if ops[0] then AfterReveal(f) else AfterHide(f), ops[1..]);
    }
  }

  /** Applies a sequence of operations to the flags: `true` for `reveal()`, `false` for `hide()`. */
  function Apply(f: Flags, ops: seq<bool>): Flags
    decreases ops
  {
    if ops == [] then f else Apply(if ops[0] then AfterReveal(f) else AfterHide(f), ops[1..])
  }

  /** `String.endsWith`: `s` is some string followed by `suffix`. */
  function EndsWith(s: string, suffix: string): (b: bool)
    ensures b <==> exists front :: s == front + suffix
  {
    if |suffix| <= |s| && s[|s| - |suffix|..] == suffix then
      assert s == s[..|s| - |suffix|] + suffix;
      true
    else
      false
  }

  class Card {
    const value: string
    var revealed: bool
    var matched: bool

    /** A new card shows its back: neither revealed nor matched. */
    constructor (val: string)
      ensures value == val
      ensures State() == Flags(false, false)
    {
      value := val;
      revealed := false;
      matched := false;
    }

    /** The current flags. */
    function State(): Flags
      reads this
    {
      Flags(revealed, matched)
    }

    method SetMatched(m: bool)
      modifies this
      ensures State() == AfterSetMatched(old(State()), m)
    {
      matched := m;
    }

    method Reveal()
      modifies this
      ensures State() == AfterReveal(old(State()))
    {
      if revealed || matched {
        return;
      }
      revealed := true;
    }

    method Hide()
      modifies this
      ensures State() == AfterHide(old(State()))
    {
      if matched {
        return;
      }
      revealed := false;
    }

    /** The value names an image resource: it ends with ".jpg" or ".png". */
    function IsImage(): (b: bool)
      ensures b <==> exists front :: value == front + ".jpg" || value == front + ".png"
    {
      EndsWith(value, ".jpg") || EndsWith(value, ".png")
    }
  }
}
