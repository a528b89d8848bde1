/** The time gate on spawning a spell.

    `handleSpellCasting` spawns when more than `fireRate` milliseconds separate
    the current time from `lastFireTime`, and then assigns `currentTime` to its
    own parameter `lastFireTime`. The frame driver passes its `lastFireTime1` and
    `lastFireTime2` by value and never updates them, so every frame compares
    against the time the match started. This module states both readings of a
    run of frames: the spawns the game makes (the stale start time) and the
    spawns a persisted cadence would make. */
module Cadence {

  /** The gate of `handleSpellCasting`: `currentTime - lastFireTime > fireRate`. */
  predicate ShouldFire(lastFireTime: int, currentTime: int, fireRate: int)
  {
    currentTime - lastFireTime > fireRate
  }

  /** The times among `times` at which the game spawns, every frame being
      compared with the same `start`. */
  function StaleSpawns(start: int, fireRate: int, times: seq<int>): (r: seq<int>)
    ensures |r| <= |times|
    ensures forall k :: 0 <= k < |r| ==> r[k] in times && ShouldFire(start, r[k], fireRate)
    ensures forall k :: 0 <= k < |times| && ShouldFire(start, times[k], fireRate) ==> times[k] in r
  {
    if times == [] then []
    else
      var rest := StaleSpawns(start, fireRate, times[1..]);
      assert forall k :: 0 < k < |times| ==> times[k] == times[1..][k - 1];
      if ShouldFire(start, times[0], fireRate) then [times[0]] + rest else rest
  }

  /** The times at which a cadence that remembers its last spawn would spawn. */
  function PersistedSpawns(lastFireTime: int, fireRate: int, times: seq<int>): (r: seq<int>)
    ensures |r| <= |times|
    ensures forall k :: 0 <= k < |r| ==> r[k] in times
    ensures |r| > 0 ==> ShouldFire(lastFireTime, r[0], fireRate)
    ensures forall k :: 0 < k < |r| ==> ShouldFire(r[k - 1], r[k], fireRate)
    decreases |times|
  {
    if times == [] then []
    else if ShouldFire(lastFireTime, times[0], fireRate) then
      [times[0]] + PersistedSpawns(times[0], fireRate, times[1..])
    else
      PersistedSpawns(lastFireTime, fireRate, times[1..])
  }

  /** One more frame at the end of a run adds that frame to the spawns exactly
      when it passes the gate against the start; this is how a run of frames,
      played one after the other, builds up `StaleSpawns`. */
  lemma {:induction false} StaleSpawnsSnoc(start: int, fireRate: int, times: seq<int>, t: int)
    ensures StaleSpawns(start, fireRate, times + [t])
      == StaleSpawns(start, fireRate, times) + (if ShouldFire(start, t, fireRate) then [t] else [])
    decreases |times|
  {
    if times == [] {
      assert ([] + [t])[1..] == [];
    } else {
      assert (times + [t])[1..] == times[1..] + [t];
      StaleSpawnsSnoc(start, fireRate, times[1..], t);
    }
  }

  /** Once more than `fireRate` milliseconds separate every frame from the
      start, the game spawns on every frame. */
  lemma {:induction false} StaleSpawnsEveryFrame(start: int, fireRate: int, times: seq<int>)
    requires forall k :: 0 <= k < |times| ==> ShouldFire(start, times[k], fireRate)
    ensures StaleSpawns(start, fireRate, times) == times
  {
    if times != [] {
      StaleSpawnsEveryFrame(start, fireRate, times[1..]);
    }
  }

  /** Both readings agree on the first spawn. */
  lemma {:induction false} FirstSpawnAgrees(start: int, fireRate: int, times: seq<int>)
    ensures |StaleSpawns(start, fireRate, times)| > 0 <==> |PersistedSpawns(start, fireRate, times)| > 0
    ensures |StaleSpawns(start, fireRate, times)| > 0 ==>
      StaleSpawns(start, fireRate, times)[0] == PersistedSpawns(start, fireRate, times)[0]
  {
    if times != [] && !ShouldFire(start, times[0], fireRate) {
      FirstSpawnAgrees(start, fireRate, times[1..]);
    }
  }

  /** With a non-negative fire rate, the game spawns at least as often as a
      persisted cadence that started no earlier: a remembered spawn time only
      raises the bar. */
  lemma {:induction false} StaleSpawnsAtLeastPersisted(start: int, lastFireTime: int, fireRate: int, times: seq<int>)
    requires 0 <= fireRate
    requires start <= lastFireTime
    ensures |PersistedSpawns(lastFireTime, fireRate, times)| <= |StaleSpawns(start, fireRate, times)|
    decreases |times|
  {
    if times != [] {
      if ShouldFire(lastFireTime, times[0], fireRate) {
        StaleSpawnsAtLeastPersisted(start, times[0], fireRate, times[1..]);
      } else {
        StaleSpawnsAtLeastPersisted(start, lastFireTime, fireRate, times[1..]);
      }
    }
  }

  /** The stale reading of the scenario below: from 150 on, every frame passes. */
  lemma StaleScenarioSpawns()
    ensures StaleSpawns(0, 100, [50, 100, 150, 200, 250, 300, 350]) == [150, 200, 250, 300, 350]
  {
    var from150 := [150, 200, 250, 300, 350];
    assert [50, 100, 150, 200, 250, 300, 350][1..] == [100] + from150;
    assert ([100] + from150)[1..] == from150;
    StaleSpawnsEveryFrame(0, 100, from150);
  }

  /** The remembered reading after the spawn at 150: only 300 passes. */
  lemma PersistedAfter150()
    ensures PersistedSpawns(150, 100, [200, 250, 300, 350]) == [300]
  {
    assert [200, 250, 300, 350][1..] == [250, 300, 350];
    assert [250, 300, 350][1..] == [300, 350];
    assert [300, 350][1..] == [350];
    assert PersistedSpawns(300, 100, [350]) == [];
  }

  /** A fire rate of 100 ms and a frame every 50 ms from 50 to 350: the game
      spawns on the five frames from 150 on, a persisted cadence only at 150 and 300. */
  lemma CadenceScenario()
    ensures StaleSpawns(0, 100, [50, 100, 150, 200, 250, 300, 350]) == [150, 200, 250, 300, 350]
    ensures PersistedSpawns(0, 100, [50, 100, 150, 200, 250, 300, 350]) == [150, 300]
  {
    assert [150] + [300] == [150, 300];
    StaleScenarioSpawns();
    PersistedAfter150();
    var times := [50, 100, 150, 200, 250, 300, 350];
    assert times[1..] == [100, 150, 200, 250, 300, 350];
    assert times[1..][1..] == [150, 200, 250, 300, 350];
    assert times[1..][1..][1..] == [200, 250, 300, 350];
  }
}
