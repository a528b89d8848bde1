/** The two duellists and the score board, and the three operations of the
    game that change a hero in place: `moveHero`, `bounceOffMouse` and
    `handleSpellCasting`. */
module Heroes {
  import opened Geometry
  import opened Spells
  import opened Cadence

  /** Which side a hero plays: `'hero1'` casts to the right, `'hero2'` to the left. */
  datatype HeroKey = Hero1 | Hero2
  {
    function Other(): HeroKey
    {
      if this == Hero1 then Hero2 else Hero1
    }
  }

  /** The settings a player chooses with the sliders and the colour picker. */
  datatype HeroParams = HeroParams(spellColor: string, fireRate: int, moveSpeed: int)

  /** The arena: the canvas' width and height. */
  datatype Canvas = Canvas(width: int, height: int)

  /** A spell as `handleSpellCasting` spawns it at the caster's centre. */
  function NewSpell(x: int, y: int, color: string, key: HeroKey): Spell
  {
    Spell(x, y, if key == Hero1 then 5 else -5, 0, 5, color)
  }

  /** The reflection test of `moveHero`, taken after the step. */
  predicate TouchesWall(y: int, radius: int, height: int)
  {
    y - radius <= 0 || y + radius >= height
  }

  /** The proximity test of `bounceOffMouse`: the pointer is closer than `radius + 10`. */
  predicate NearPointer(x: int, y: int, radius: int, mouseX: int, mouseY: int)
  {
    Within(x, y, mouseX, mouseY, radius + 10)
  }

  /** The points of both heroes. */
  class Score {
    var hero1: int
    var hero2: int

    constructor ()
      ensures hero1 == 0 && hero2 == 0
    {
      hero1, hero2 := 0, 0;
    }

    function Of(key: HeroKey): int
      reads this
    {
      if key == Hero1 then hero1 else hero2
    }

    /** `prevScore[heroKey] + 1`, applied at once. */
    method Increment(key: HeroKey)
      modifies this
      ensures Of(key) == old(Of(key)) + 1
      ensures Of(key.Other()) == old(Of(key.Other()))
    {
      if key == Hero1 {
        hero1 := hero1 + 1;
      } else {
        hero2 := hero2 + 1;
      }
    }
  }

  /** A duellist: its settings, its body and velocity, and the spells it has in flight. */
  class Hero {
    var spellColor: string
    var fireRate: int
    var moveSpeed: int
    var x: int
    var y: int
    var radius: int
    var dx: int
    var dy: int
    var color: string
    var spells: seq<Spell>

    /** The object literal for `hero1` or `hero2` at the start of a match. The
        start heights are a quarter and three quarters of the canvas height,
        which the game's canvas divides exactly. */
    constructor (key: HeroKey, params: HeroParams, canvas: Canvas)
      requires canvas.height % 4 == 0
      ensures spellColor == params.spellColor && fireRate == params.fireRate && moveSpeed == params.moveSpeed
      ensures radius == 20 && dx == 0 && spells == []
      ensures key == Hero1 ==>
        x == 50 && y * 4 == canvas.height && dy == params.moveSpeed && color == "green"
      ensures key == Hero2 ==>
        x == canvas.width - 50 && y * 4 == 3 * canvas.height && dy == -params.moveSpeed && color == "purple"
    {
      spellColor, fireRate, moveSpeed := params.spellColor, params.fireRate, params.moveSpeed;
      radius, dx, spells := 20, 0, [];
      if key == Hero1 {
        x, y, dy, color := 50, canvas.height / 4, params.moveSpeed, "green";
      } else {
        x, y, dy, color := canvas.width - 50, (3 * canvas.height) / 4, -params.moveSpeed, "purple";
      }
    }

    /** The hero's body, as a target for the opponent's spells. */
    function Body(): Circle
      reads this`x, this`y, this`radius
    {
      Circle(x, y, radius)
    }

    /** The spell `handleSpellCasting` appends, if the time gate opens. */
    function Volley(lastFireTime: int, currentTime: int, key: HeroKey): (v: seq<Spell>)
      reads this`fireRate, this`x, this`y, this`spellColor
    {
      if ShouldFire(lastFireTime, currentTime, fireRate) then [NewSpell(x, y, spellColor, key)] else []
    }

    /** `moveHero`: step by `dy`, then reverse if the new position touches the top
        or the bottom. The speed never changes, only its sign. */
    method Move(height: int)
      modifies this`y, this`dy
      ensures y == old(y) + old(dy)
      ensures dy == if TouchesWall(y, radius, height) then -old(dy) else old(dy)
      ensures dy * dy == old(dy) * old(dy)
    {
      y := y + dy;
      if y - radius <= 0 || y + radius >= height {
        dy := dy * -1;
      }
    }

    /** `bounceOffMouse`: reverse when the pointer is within `radius + 10` of the centre. */
    method BounceOffMouse(mouseX: int, mouseY: int)
      modifies this`dy
      ensures dy == if NearPointer(x, y, radius, mouseX, mouseY) then -old(dy) else old(dy)
    {
      if Within(x, y, mouseX, mouseY, radius + 10) {
        dy := dy * -1;
      }
    }

    /** `handleSpellCasting`: spawn a spell if the time gate opens, then make one
        pass over the list. Returns the value the source assigns to its
        `lastFireTime` parameter, which the caller cannot see. */
    method CastSpells(lastFireTime: int, currentTime: int, opponent: Hero, width: int, key: HeroKey, score: Score)
      returns (fireTime: int)
      modifies this`spells, score
      ensures fireTime == if ShouldFire(lastFireTime, currentTime, fireRate) then currentTime else lastFireTime
      ensures var queued := old(spells) + Volley(lastFireTime, currentTime, key);
        var field := Field(width, opponent.Body());
        spells == Sweep(queued, field) && score.Of(key) == old(score.Of(key)) + SweepHits(queued, field)
      ensures score.Of(key.Other()) == old(score.Of(key.Other()))
    {
      fireTime := lastFireTime;
      if currentTime - lastFireTime > fireRate {
        spells := spells + [NewSpell(x, y, spellColor, key)];
        fireTime := currentTime;
      }
      assert spells == old(spells) + Volley(lastFireTime, currentTime, key);
      SweepSpells(opponent, width, key, score);
    }

    /** `hero.spells.forEach(...)`: visit index k while k is below both the
        starting length and the current length, calling the callback on it. */
    method SweepSpells(opponent: Hero, width: int, key: HeroKey, score: Score)
      modifies this`spells, score
      ensures var field := Field(width, opponent.Body());
        spells == Sweep(old(spells), field) && score.Of(key) == old(score.Of(key)) + SweepHits(old(spells), field)
      ensures score.Of(key.Other()) == old(score.Of(key.Other()))
    {
      ghost var s0 := spells;
      ghost var field := Field(width, opponent.Body());
      ghost var j: nat := 0;  // the original index of the spell now at index k
      var n := |spells|;
      for k := 0 to n
        invariant j <= |s0|
        invariant spells == Survivors(s0, j, field) + s0[j..]
        invariant j < |s0| ==> k == |Survivors(s0, j, field)| && FateAt(s0, j, field) != Skipped
        invariant j == |s0| ==> |spells| <= k
        invariant score.Of(key) == old(score.Of(key)) + HitCount(s0, j, field)
        invariant score.Of(key.Other()) == old(score.Of(key.Other()))
      {
        if k < |spells| {
          ghost var before := spells;
          VisitSpell(k, opponent, width, key, score);
          j := VisitKeepsShape(s0, j, field, k, before, spells);
        }
      }
      if j < |s0| {
        SurvivorsLength(s0, j, field);
      }
      assert s0[j..] == [];
    }

    /** The `forEach` callback for the spell at `index`: advance it, remove it if
        it left the arena, otherwise remove it and score if it strikes the
        opponent. The bounds check returns before the hit test. */
    method VisitSpell(index: nat, opponent: Hero, width: int, key: HeroKey, score: Score)
      requires index < |spells|
      modifies this`spells, score
      ensures var spell := Advance(old(spells)[index]);
        var fate := Judge(spell, Field(width, opponent.Body()));
        spells == old(spells)[..index] + (if fate == Kept then [spell] else []) + old(spells)[index + 1..] &&
        score.Of(key) == old(score.Of(key)) + (if fate == Hit then 1 else 0)
      ensures score.Of(key.Other()) == old(score.Of(key.Other()))
    {
      var spell := spells[index];
      spell := spell.(x := spell.x + spell.dx);
      spells := spells[index := spell];
      if spell.x < 0 || spell.x > width {
        spells := spells[..index] + spells[index + 1..];
        return;
      }
      if Within(spell.x, spell.y, opponent.x, opponent.y, opponent.radius) {
        spells := spells[..index] + spells[index + 1..];
        score.Increment(key);
      }
    }
  }

  /** One visit, seen from the starting list s: the list before the visit holds
      what the first j spells left, followed by spells j, j + 1, ... of s, and
      index k, the one visited, holds spell j. Afterwards the list again has this
      shape, for j + 1 if the spell stayed and for j + 2 if it was removed: the
      `splice` moved spell j + 1 into the visited slot. */
  lemma VisitKeepsShape(s: seq<Spell>, j: nat, f: Field, k: nat, before: seq<Spell>, after: seq<Spell>) returns (j': nat)
    requires j < |s| && FateAt(s, j, f) != Skipped
    requires before == Survivors(s, j, f) + s[j..] && k == |Survivors(s, j, f)|
    requires var spell := Advance(before[k]);
      after == before[..k] + (if Judge(spell, f) == Kept then [spell] else []) + before[k + 1..]
    ensures j < j' <= |s|
    ensures after == Survivors(s, j', f) + s[j'..]
    ensures j' < |s| ==> k + 1 == |Survivors(s, j', f)| && FateAt(s, j', f) != Skipped
    ensures j' == |s| ==> |after| <= k + 1
    ensures HitCount(s, j', f) == HitCount(s, j, f) + (if Judge(Advance(before[k]), f) == Hit then 1 else 0)
  {
    assert s[j..] == [s[j]] + s[j + 1..];
    assert before[..k] == Survivors(s, j, f) && before[k] == s[j] && before[k + 1..] == s[j + 1..];
    if !FateAt(s, j, f).IsRemoval() || j + 1 == |s| {
      j' := j + 1;
    } else {
      j' := j + 2;
      assert FateAt(s, j + 1, f) == Skipped;
      assert Survivors(s, j + 1, f) == Survivors(s, j, f);
      assert s[j + 1..] == [s[j + 1]] + s[j + 2..];
    }
  }
}
