/** One match: the state the game's effect sets up (the two heroes and the two
    last-fire times), the frame step `update`, and the pointer handler. The score
    board lives outside the match and is shared with it. */
module Duel {
  import opened Spells
  import opened Cadence
  import opened Heroes

  class Match {
    var hero1: Hero
    var hero2: Hero
    var score: Score
    var canvas: Canvas
    var lastFireTime1: int
    var lastFireTime2: int

    ghost predicate Valid()
      reads this
    {
      hero1 != hero2
    }

    /** The start of the effect: both heroes built from their settings, and both
        last-fire times read from the clock (`now1`, `now2`). */
    constructor (params1: HeroParams, params2: HeroParams, canvas: Canvas, score: Score, now1: int, now2: int)
      requires canvas.height % 4 == 0
      ensures Valid() && fresh(hero1) && fresh(hero2)
      ensures this.canvas == canvas && this.score == score
      ensures lastFireTime1 == now1 && lastFireTime2 == now2
      ensures hero1.x == 50 && hero1.y * 4 == canvas.height && hero1.dy == params1.moveSpeed
      ensures hero2.x == canvas.width - 50 && hero2.y * 4 == 3 * canvas.height && hero2.dy == -params2.moveSpeed
      ensures hero1.radius == 20 && hero2.radius == 20 && hero1.dx == 0 && hero2.dx == 0
      ensures hero1.spells == [] && hero2.spells == []
      ensures hero1.fireRate == params1.fireRate && hero1.spellColor == params1.spellColor
      ensures hero2.fireRate == params2.fireRate && hero2.spellColor == params2.spellColor
    {
      hero1 := new Hero(Hero1, params1, canvas);
      hero2 := new Hero(Hero2, params2, canvas);
      this.canvas, this.score := canvas, score;
      lastFireTime1, lastFireTime2 := now1, now2;
    }

    /** `update`: move hero 1, move hero 2, then cast for hero 1 against hero 2
        and for hero 2 against hero 1, each cast reading the clock (`now1`,
        `now2`). The fire times the casts return are dropped, so the last-fire
        times stay as the match started. Spawning and hit tests therefore see
        both heroes already moved. */
    method Frame(now1: int, now2: int)
      requires Valid()
      modifies hero1`y, hero1`dy, hero1`spells, hero2`y, hero2`dy, hero2`spells, score
      ensures unchanged(this)
      ensures hero1.y == old(hero1.y) + old(hero1.dy)
      ensures hero1.dy == if TouchesWall(hero1.y, hero1.radius, canvas.height) then -old(hero1.dy) else old(hero1.dy)
      ensures hero2.y == old(hero2.y) + old(hero2.dy)
      ensures hero2.dy == if TouchesWall(hero2.y, hero2.radius, canvas.height) then -old(hero2.dy) else old(hero2.dy)
      ensures var queued := old(hero1.spells) + hero1.Volley(lastFireTime1, now1, Hero1);
        var field := Field(canvas.width, hero2.Body());
        hero1.spells == Sweep(queued, field) && score.hero1 == old(score.hero1) + SweepHits(queued, field)
      ensures var queued := old(hero2.spells) + hero2.Volley(lastFireTime2, now2, Hero2);
        var field := Field(canvas.width, hero1.Body());
        hero2.spells == Sweep(queued, field) && score.hero2 == old(score.hero2) + SweepHits(queued, field)
    {
      hero1.Move(canvas.height);
      hero2.Move(canvas.height);
      var fired1 := hero1.CastSpells(lastFireTime1, now1, hero2, canvas.width, Hero1, score);
      var fired2 := hero2.CastSpells(lastFireTime2, now2, hero1, canvas.width, Hero2, score);
    }

    /** `handleMouseMove`: the pointer bounces each hero it is near. */
    method PointerMove(mouseX: int, mouseY: int)
      requires Valid()
      modifies hero1`dy, hero2`dy
      ensures hero1.dy == if NearPointer(hero1.x, hero1.y, hero1.radius, mouseX, mouseY) then -old(hero1.dy) else old(hero1.dy)
      ensures hero2.dy == if NearPointer(hero2.x, hero2.y, hero2.radius, mouseX, mouseY) then -old(hero2.dy) else old(hero2.dy)
    {
      hero1.BounceOffMouse(mouseX, mouseY);
      hero2.BounceOffMouse(mouseX, mouseY);
    }
  }

  /** The pointer handler never moves a hero, so the same pointer position seen
      twice leaves both directions as they were. */
  method PointerTwiceRestores(m: Match, mouseX: int, mouseY: int)
    requires m.Valid()
    modifies m.hero1`dy, m.hero2`dy
    ensures m.hero1.dy == old(m.hero1.dy) && m.hero2.dy == old(m.hero2.dy)
  {
    m.PointerMove(mouseX, mouseY);
    m.PointerMove(mouseX, mouseY);
  }

  /** A run of `update` calls, one per entry of `times`, each reading the clock
      as that entry for both heroes. `spawned1` and `spawned2` list the frames at
      which `Frame` appends a spell for hero 1 and hero 2. Because the frames never
      update the last-fire times, these are exactly the frames more than the
      hero's fire rate after the match began. */
  method Play(m: Match, times: seq<int>) returns (spawned1: seq<int>, spawned2: seq<int>)
    requires m.Valid()
    modifies m.hero1`y, m.hero1`dy, m.hero1`spells, m.hero2`y, m.hero2`dy, m.hero2`spells, m.score
    ensures spawned1 == StaleSpawns(m.lastFireTime1, m.hero1.fireRate, times)
    ensures spawned2 == StaleSpawns(m.lastFireTime2, m.hero2.fireRate, times)
  {
    spawned1, spawned2 := [], [];
    for i := 0 to |times|
      invariant spawned1 == StaleSpawns(m.lastFireTime1, m.hero1.fireRate, times[..i])
      invariant spawned2 == StaleSpawns(m.lastFireTime2, m.hero2.fireRate, times[..i])
    {
      var t := times[i];
      if m.hero1.Volley(m.lastFireTime1, t, Hero1) != [] {
        spawned1 := spawned1 + [t];
      }
      if m.hero2.Volley(m.lastFireTime2, t, Hero2) != [] {
        spawned2 := spawned2 + [t];
      }
      m.Frame(t, t);
      assert times[..i + 1] == times[..i] + [t];
      StaleSpawnsSnoc(m.lastFireTime1, m.hero1.fireRate, times[..i], t);
      StaleSpawnsSnoc(m.lastFireTime2, m.hero2.fireRate, times[..i], t);
    }
    assert times[..|times|] == times;
  }
}
