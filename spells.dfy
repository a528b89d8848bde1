/** Spells in flight and what one pass of the caster's spell list does to them.

    The pass in `handleSpellCasting` walks the list with `forEach` and removes
    entries with `splice` while it walks. `forEach` fixes its end at the starting
    length and visits index k only while k is still inside the array, so a removal
    at k shifts the next spell into slot k, which has already been visited: that
    spell is neither advanced nor checked in this pass. This module describes the
    pass by the fate of every spell of the starting list, indexed by its original
    position. */
module Spells {
  import opened Geometry

  /** A spell in flight (the `Spell` record of the game). */
  datatype Spell = Spell(x: int, y: int, dx: int, dy: int, radius: int, color: string)

  /** The body a spell can strike: the opponent's centre and radius. */
  datatype Circle = Circle(x: int, y: int, radius: int)

  /** What a pass needs besides the spells: the arena width and the opponent's body. */
  datatype Field = Field(width: int, opponent: Circle)

  /** What becomes of one spell of the starting list during a pass. */
  datatype Fate =
    | Kept     // visited, advanced, still in the arena and no hit
    | Pruned   // visited, advanced out of the arena, removed without scoring
    | Hit      // visited, advanced onto the opponent, removed and scored
    | Skipped  // shifted into an already visited slot by the removal before it
  {
    predicate IsRemoval() { this == Pruned || this == Hit }
  }

  /** One step of a spell: `spell.x += spell.dx`. */
  function Advance(sp: Spell): Spell
  {
    sp.(x := sp.x + sp.dx)
  }

  predicate OutOfBounds(sp: Spell, width: int)
  {
    sp.x < 0 || sp.x > width
  }

  /** The centre of the spell lies strictly inside the opponent's body. */
  predicate Strikes(sp: Spell, body: Circle)
  {
    Within(sp.x, sp.y, body.x, body.y, body.radius)
  }

  /** The verdict on an already advanced spell: the bounds check comes first. */
  function Judge(sp: Spell, f: Field): Fate
  {
    if OutOfBounds(sp, f.width) then Pruned
    else if Strikes(sp, f.opponent) then Hit
    else Kept
  }

  /** The fate of the spell at original index i of the starting list s. */
  function FateAt(s: seq<Spell>, i: nat, f: Field): Fate
    requires i < |s|
    decreases i
  {
    if i > 0 && FateAt(s, i - 1, f).IsRemoval() then Skipped
    else Judge(Advance(s[i]), f)
  }

  /** What a spell with the given fate leaves in the list. */
  function Outcome(sp: Spell, fate: Fate): seq<Spell>
  {
    match fate
    case Kept => [Advance(sp)]
    case Skipped => [sp]
    case _ => []
  }

  /** The list left by the first j spells of s. */
  function Survivors(s: seq<Spell>, j: nat, f: Field): seq<Spell>
    requires j <= |s|
    decreases j
  {
    if j == 0 then [] else Survivors(s, j - 1, f) + Outcome(s[j - 1], FateAt(s, j - 1, f))
  }

  /** How many of the first j spells strike the opponent. */
  function HitCount(s: seq<Spell>, j: nat, f: Field): nat
    requires j <= |s|
    decreases j
  {
    if j == 0 then 0 else HitCount(s, j - 1, f) + (if FateAt(s, j - 1, f) == Hit then 1 else 0)
  }

  /** How many of the first j spells are removed, by pruning or by a hit. */
  function RemovalCount(s: seq<Spell>, j: nat, f: Field): nat
    requires j <= |s|
    decreases j
  {
    if j == 0 then 0 else RemovalCount(s, j - 1, f) + (if FateAt(s, j - 1, f).IsRemoval() then 1 else 0)
  }

  /** The list after a whole pass over s, and the points it scores. */
  function Sweep(s: seq<Spell>, f: Field): seq<Spell>
  {
    Survivors(s, |s|, f)
  }

  function SweepHits(s: seq<Spell>, f: Field): nat
  {
    HitCount(s, |s|, f)
  }

  /** The list shrinks by exactly the number of removals. */
  lemma {:induction false} SurvivorsLength(s: seq<Spell>, j: nat, f: Field)
    requires j <= |s|
    ensures RemovalCount(s, j, f) <= j
    ensures |Survivors(s, j, f)| == j - RemovalCount(s, j, f)
  {
    if j > 0 {
      SurvivorsLength(s, j - 1, f);
    }
  }

  /** Every hit is a removal, so a pass scores at most once per spell. */
  lemma {:induction false} HitsAreRemovals(s: seq<Spell>, j: nat, f: Field)
    requires j <= |s|
    ensures HitCount(s, j, f) <= RemovalCount(s, j, f) <= j
  {
    if j > 0 {
      HitsAreRemovals(s, j - 1, f);
    }
  }

  /** The first spell is always visited, and no two neighbours are both skipped. */
  lemma {:induction false} SkipsAreIsolated(s: seq<Spell>, i: nat, f: Field)
    requires i < |s|
    ensures FateAt(s, i, f) == Skipped ==> i > 0 && FateAt(s, i - 1, f) != Skipped
  {
    if i > 0 && FateAt(s, i - 1, f) == Skipped {
      assert !FateAt(s, i - 1, f).IsRemoval();
    }
  }

  /** What the first i spells leave is a prefix of what the first j leave. */
  lemma {:induction false} SurvivorsPrefix(s: seq<Spell>, i: nat, j: nat, f: Field)
    requires i <= j <= |s|
    ensures Survivors(s, i, f) <= Survivors(s, j, f)
    decreases j - i
  {
    if i < j {
      SurvivorsPrefix(s, i, j - 1, f);
    }
  }

  /** Spell i of the starting list ends up, as its outcome says, at the position
      given by how many earlier spells survive: order is preserved. */
  lemma OutcomeInPlace(s: seq<Spell>, i: nat, f: Field)
    requires i < |s|
    ensures var at, out := |Survivors(s, i, f)|, Outcome(s[i], FateAt(s, i, f));
      at + |out| <= |Sweep(s, f)| && Sweep(s, f)[at .. at + |out|] == out
  {
    SurvivorsPrefix(s, i + 1, |s|, f);
  }

  /** The spell right after a removed one is left in the list exactly as it was:
      neither advanced nor checked against the bounds or the opponent. */
  lemma SkippedNeighbourUnchanged(s: seq<Spell>, i: nat, f: Field)
    requires i + 1 < |s|
    requires FateAt(s, i, f).IsRemoval()
    ensures |Survivors(s, i, f)| < |Sweep(s, f)|
    ensures Sweep(s, f)[|Survivors(s, i, f)|] == s[i + 1]
  {
    OutcomeInPlace(s, i + 1, f);
    assert Survivors(s, i + 1, f) == Survivors(s, i, f);
  }

  /** The filter the pass is meant to be: every spell advanced, those that leave
      the arena or strike the opponent dropped. */
  function Intended(s: seq<Spell>, j: nat, f: Field): seq<Spell>
    requires j <= |s|
    decreases j
  {
    if j == 0 then []
    else Intended(s, j - 1, f) + (if Judge(Advance(s[j - 1]), f) == Kept then [Advance(s[j - 1])] else [])
  }

  function IntendedHits(s: seq<Spell>, j: nat, f: Field): nat
    requires j <= |s|
    decreases j
  {
    if j == 0 then 0 else IntendedHits(s, j - 1, f) + (if Judge(Advance(s[j - 1]), f) == Hit then 1 else 0)
  }

  /** As long as no spell but possibly the last one is removed, nothing is
      skipped and the pass agrees with the intended filter. */
  lemma {:induction false} AgreesWithIntended(s: seq<Spell>, j: nat, f: Field)
    requires j <= |s|
    requires forall i :: 0 <= i < j - 1 ==> !Judge(Advance(s[i]), f).IsRemoval()
    ensures Survivors(s, j, f) == Intended(s, j, f)
    ensures HitCount(s, j, f) == IntendedHits(s, j, f)
  {
    if j > 0 {
      AgreesWithIntended(s, j - 1, f);
      NeverSkippedBefore(s, j - 1, f);
    }
  }

  /** Before the first removal every spell is visited and judged on its advanced position. */
  lemma {:induction false} NeverSkippedBefore(s: seq<Spell>, i: nat, f: Field)
    requires i < |s|
    requires forall k :: 0 <= k < i ==> !Judge(Advance(s[k]), f).IsRemoval()
    ensures FateAt(s, i, f) == Judge(Advance(s[i]), f)
  {
    if i > 0 {
      NeverSkippedBefore(s, i - 1, f);
    }
  }

  /** Two spells leaving the arena side by side: the pass removes the first and
      keeps the second where it was, while the intended filter removes both. */
  lemma NeighbourEscapesPruning()
    ensures var s := [Spell(2, 300, -5, 0, 5, "red"), Spell(3, 310, -5, 0, 5, "red")];
      var f := Field(800, Circle(750, 450, 20));
      Sweep(s, f) == [s[1]] && Intended(s, |s|, f) == []
  {
    var s := [Spell(2, 300, -5, 0, 5, "red"), Spell(3, 310, -5, 0, 5, "red")];
    var f := Field(800, Circle(750, 450, 20));
    assert FateAt(s, 0, f) == Pruned;
    assert FateAt(s, 1, f) == Skipped;
  }

  /** A spell one step short of an opponent centred at (750, 300) with radius 20
      reaches (745, 300), five away from the centre: it is removed and scores. */
  lemma HitScenario()
    ensures var s := [Spell(740, 300, 5, 0, 5, "red")];
      var f := Field(800, Circle(750, 300, 20));
      Sweep(s, f) == [] && SweepHits(s, f) == 1
  {
    var s := [Spell(740, 300, 5, 0, 5, "red")];
    var f := Field(800, Circle(750, 300, 20));
    assert SquaredDistance(745, 300, 750, 300) == 25;
    assert FateAt(s, 0, f) == Hit;
    assert Survivors(s, 1, f) == Survivors(s, 0, f) + Outcome(s[0], Hit);
    assert HitCount(s, 1, f) == HitCount(s, 0, f) + 1;
  }

  /** A spell at x = 800 moving right in an arena 800 wide reaches 805 and is
      pruned without scoring, even though it was heading for the opponent. */
  lemma PruneScenario()
    ensures var s := [Spell(800, 300, 5, 0, 5, "red")];
      var f := Field(800, Circle(805, 300, 20));
      Sweep(s, f) == [] && SweepHits(s, f) == 0
  {
    var s := [Spell(800, 300, 5, 0, 5, "red")];
    var f := Field(800, Circle(805, 300, 20));
    assert FateAt(s, 0, f) == Pruned;
    assert Survivors(s, 1, f) == Survivors(s, 0, f) + Outcome(s[0], Pruned);
    assert HitCount(s, 1, f) == HitCount(s, 0, f);
  }
}
