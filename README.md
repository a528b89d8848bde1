# Duel game: the simulation step, in Dafny

This project models the simulation core of a two-hero duel game. Two heroes
bounce up and down in an arena. Each one casts spells toward the other on a timer.
A spell that strikes the other hero is removed and scores a point for its caster.
The model covers five parts of `duel-game/src/App.tsx`:

- the start of a match: the two hero object literals and the two last-fire times;
- `moveHero`: step vertically, then reflect at the top or bottom;
- `bounceOffMouse`: reverse when the pointer comes close;
- `handleSpellCasting`: a timed spawn, then a `forEach` pass over the caster's
  spells that advances them, prunes them at the arena's sides and scores hits;
- `update`: the order of one frame.

Modules, one per concern:

- `Geometry` (geometry.dfy): the distance test `Math.hypot(dx, dy) < r`, decided
  exactly on integers by comparing squares.
- `Spells` (spells.dfy): the `Spell` record. It also specifies one pass over a
  spell list, by the fate of each spell of the starting list: kept, pruned, hit,
  or skipped. The lemmas here state what a pass does.
- `Cadence` (cadence.dfy): the spawn gate. It describes the spawns a run of frames
  produces with the match's fixed start time, and compares them with a
  last-fire time that would be remembered between frames.
- `Heroes` (heroes.dfy): the `Hero` and `Score` classes. Their methods change
  fields in place, as the game does: `Move`, `BounceOffMouse`, `CastSpells`,
  `SweepSpells` (the `forEach` loop) and `VisitSpell` (its callback).
- `Duel` (duel.dfy): the `Match` class. It holds what the game's effect sets up.
  `Frame` is `update`; `PointerMove` is the mouse handler.

The `forEach` loop is modelled as the code behaves. `forEach` fixes its end at the
starting length. It visits index k only while k is still inside the array.
`splice(k, 1)` moves the next spell into slot k, which has already been visited.
So the spell right after a removed one is neither advanced nor checked in that
frame. `FateAt` marks such a spell `Skipped`. `SweepSpells` is proved to leave
exactly `Sweep(old list)` and to add exactly `SweepHits(old list)` to the
caster's score.

## Model

| member | source | states |
|---|---|---|
| Geometry.SquaredDistance | duel-game/src/App.tsx:234 | the squared distance is never negative, and it is zero exactly when the two points coincide |
| Heroes.Score.constructor | duel-game/src/App.tsx:42 | both counters start at 0 |
| Heroes.Score.Increment | duel-game/src/App.tsx:274-277 | the given hero's counter rises by exactly 1, and the other hero's counter is unchanged |
| Heroes.Hero.constructor | duel-game/src/App.tsx:51-71 | hero1 starts at (50, height/4) with dy = moveSpeed and colour green; hero2 starts at (width-50, 3*height/4) with dy = -moveSpeed and colour purple; both have radius 20, dx = 0, no spells and the player's settings |
| Heroes.Hero.Move | duel-game/src/App.tsx:217-223 | y becomes y + dy; dy is negated exactly when the new y touches the top (y - radius <= 0) or the bottom (y + radius >= height); the speed dy*dy is kept; x, dx, radius and the spells are outside the frame and unchanged |
| Heroes.Hero.BounceOffMouse | duel-game/src/App.tsx:233-238 | dy is negated exactly when the pointer lies closer than radius + 10 to the centre; nothing else changes |
| Heroes.Hero.CastSpells | duel-game/src/App.tsx:240-280 | if currentTime - lastFireTime > fireRate, exactly one spell is appended before the pass: at the hero's centre, with dx = 5 for hero1 and -5 for hero2, dy = 0, radius 5 and the hero's spell colour; otherwise nothing is appended. The list becomes the pass over the queued list. The caster's score rises by the pass's hits and the other score is unchanged. The returned fire time is currentTime if a spell was spawned, otherwise lastFireTime |
| Heroes.Hero.SweepSpells | duel-game/src/App.tsx:262-279 | the `forEach` loop with in-place `splice` leaves exactly `Sweep` of the starting list, and the caster's score rises by exactly `SweepHits`, the number of hit removals |
| Heroes.Hero.VisitSpell | duel-game/src/App.tsx:262-279 | the callback advances the spell at the index by dx. The bounds test x < 0 or x > width removes it without scoring. Only a spell that passes it meets the opponent hit test; a hit removes it and adds exactly 1 to the caster's score. Otherwise the advanced spell stays in its slot |
| Spells.SurvivorsLength | duel-game/src/App.tsx:262-279 | after a pass, the list's length is the starting length minus the number of removals |
| Spells.HitsAreRemovals | duel-game/src/App.tsx:270-278 | every hit is a removal, so one pass scores at most once per spell |
| Spells.SkipsAreIsolated | duel-game/src/App.tsx:262-279 | the first spell is always visited, and a skipped spell always follows a visited one |
| Spells.SurvivorsPrefix | duel-game/src/App.tsx:262-279 | what the first i spells leave is a prefix of what the first j leave, so a pass preserves order |
| Spells.OutcomeInPlace | duel-game/src/App.tsx:262-279 | each spell of the starting list ends at the position given by how many earlier spells remain: advanced by dx with y unchanged if kept, unchanged if skipped, absent if removed |
| Spells.SkippedNeighbourUnchanged | duel-game/src/App.tsx:262-279 | the spell right after a removed one stays in the list exactly as it was, neither advanced nor checked |
| Spells.NeverSkippedBefore | duel-game/src/App.tsx:262-268 | until the first removal, every spell is visited and judged on its advanced position |
| Spells.AgreesWithIntended | duel-game/src/App.tsx:262-279 | when no spell except possibly the last is removed, the pass equals the filter that advances every spell and drops the removed ones, with the same hits |
| Spells.NeighbourEscapesPruning | duel-game/src/App.tsx:265-267 | two neighbouring spells both leaving the arena: the pass removes the first and keeps the second unadvanced, where the filter removes both |
| Spells.HitScenario | duel-game/src/App.tsx:270-278 | against an opponent at (750, 300) with radius 20, a spell reaching (745, 300) is removed and scores 1 |
| Spells.PruneScenario | duel-game/src/App.tsx:263-268 | a spell advancing to x = 805 in an arena 800 wide is removed without scoring, even when it would have hit |
| Cadence.StaleSpawns | duel-game/src/App.tsx:82-83 | with the match's start time passed on every frame, the spawn frames are exactly the frames more than fireRate after the start |
| Cadence.PersistedSpawns | duel-game/src/App.tsx:249-260 | a remembered last-fire time yields spawns more than fireRate apart: the first more than fireRate after the start, each later one more than fireRate after the previous one |
| Cadence.StaleSpawnsSnoc | duel-game/src/App.tsx:82-83 | one more frame at the end of a run joins the spawns exactly when it is more than fireRate after the start |
| Cadence.StaleSpawnsEveryFrame | duel-game/src/App.tsx:73-83 | once every frame is more than fireRate ms after the start, the game spawns on every frame |
| Cadence.FirstSpawnAgrees | duel-game/src/App.tsx:249 | the fixed start time and a remembered one agree on whether there is a first spawn and on when it is |
| Cadence.StaleSpawnsAtLeastPersisted | duel-game/src/App.tsx:249-260 | with a non-negative fire rate, the game spawns at least as often as a remembered last-fire time would |
| Cadence.CadenceScenario | duel-game/src/App.tsx:249-260 | fire rate 100 and frames every 50 ms up to 350: the game spawns at 150, 200, 250, 300 and 350; a remembered time would spawn at 150 and 300 only |
| Duel.Match.constructor | duel-game/src/App.tsx:51-74 | the match starts with both heroes at their starting positions and velocities, no spells, and both last-fire times read from the clock |
| Duel.Match.Frame | duel-game/src/App.tsx:76-92 | both heroes move before either casts. Hero 1's spawn and hits use its moved position and hero 2's moved body, and the same holds for hero 2. Each score rises by its own caster's hits. The last-fire times do not change |
| Duel.Match.PointerMove | duel-game/src/App.tsx:96-100 | each hero's dy is negated exactly when the pointer is near it |
| Duel.Play | duel-game/src/App.tsx:73-92 | over a run of `update` calls, the frames at which each hero's `Frame` appends a spell are exactly `StaleSpawns` from the match's start time and that hero's fire rate: the last-fire times are never updated between frames |
| Duel.PointerTwiceRestores | duel-game/src/App.tsx:233-238 | the same pointer position handled twice restores both directions, because the pointer handler never moves a hero |

## Where the code departs from its evident intent

The model follows the code in the three places below. For the first two it also
defines the behaviour the code evidently aims at, and proves how the two relate.

- Cadence. A cadence that remembered its last spawn would space the spawns by
  more than `fireRate` ms. In the code, `handleSpellCasting` assigns
  `currentTime` only to its own parameter (line 259). The caller's
  `lastFireTime1` and `lastFireTime2` (lines 73-74) never change. So once a frame
  is more than `fireRate` ms after the match began, every later frame spawns a
  spell. `Duel.Play` proves this of a run of `Frame` calls: the frames that spawn
  are exactly `Cadence.StaleSpawns` from the start time, and
  `Cadence.StaleSpawnsEveryFrame` shows that this is then every frame.
  `Cadence.PersistedSpawns` is the remembered cadence; `Cadence.CadenceScenario`
  shows the two side by side. The gate is strict (`>`): with a fire rate of 100,
  the first spawn comes more than 100 ms after the start, not at 100 ms.
- Removal while iterating. One would expect every spell to be advanced and
  checked once per frame. The code's `splice` inside `forEach` skips the spell
  right after each removal (`Spells.SkippedNeighbourUnchanged`,
  `Spells.NeighbourEscapesPruning`). `Spells.Intended` is the filter that visits
  every spell, and `Spells.AgreesWithIntended` says when the code matches it.
- Vertical bounds. One would expect y to stay within [radius, height - radius];
  the code does not keep it there. It reflects only after the step, so y can pass
  a wall by up to |dy|, and a pointer flip near a wall can push it further. The
  model does not claim the bound.

## Left out

- The React component, JSX controls, sliders, the `parseInt` of slider values and the scoreboard markup (lines 125-206): presentation.
- `drawHero`, `drawSpell`, `ctx.clearRect` and drawing the spells (lines 77, 85-89, 209-231): canvas calls.
- The early returns when the canvas or its 2D context is missing (lines 46-49): host plumbing.
- `requestAnimationFrame`, registering the `mousemove` listener, and tearing down and re-creating the effect when settings change (lines 45-50, 91-107): host scheduling and event wiring. `Frame` is one call of `update`. `PointerMove` is one mouse event.
- `handleHeroClick` and `handleHeroParamsChange` (lines 109-123): UI state with dispatch by object identity.
- `Date.now()`: each clock reading is a parameter of its own (`now1` and `now2` in the constructor and in `Frame`, `currentTime` in `CastSpells`).
- `Math.hypot` in floating point: the model compares squared integer distances. This is exact for a non-negative radius and ignores float rounding.
- JavaScript numbers are doubles; the model uses unbounded integers. Every coordinate the game itself produces is an integer well inside the exact range of a double; the pointer position, an input, is covered by the two lines below.
- `setScore` with an updater function, which React may batch: each hit adds 1 to the counter at once.
- A spell object's in-place `spell.x += spell.dx`: a `Spell` is a value, and the advanced value replaces it in its slot. Only the hero's array refers to a spell, so nothing can observe the difference.
- Heroes.Hero.BounceOffMouse: the pointer position is taken as integers. The browser's `offsetX` and `offsetY` (line 97) are doubles and can be fractional, for example under page zoom or CSS scaling; the proximity test on such positions is not modelled.
- Duel.Match.PointerMove: takes the pointer position as integers, for the same reason as `BounceOffMouse`.
- Heroes.Hero.constructor: requires the canvas height to be divisible by 4, because the model has no fractional start heights; the game's canvas is 600 high.
