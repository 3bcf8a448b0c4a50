# Anuto waves and enemies, modelled in Dafny

This project models two stateful pieces of the Anuto tower-defense game.

- **`Wave`** releases a roster of enemies into the game, one per game tick at most, each after its own add delay. It reports the wave's lifecycle (started, all enemies added, enemy removed, done) to its listeners and pays a one-shot wave reward.
- **`Enemy`** follows a path of waypoints, can be knocked back along it and predicts where it will be. It keeps health, speed and reward, each scaled by a multiplicative modifier. When it dies it pays its reward, and when it reaches the end of the path it takes a life.

Files:

- `geometry.dfy` (`Geometry`): positions and the vector operations the enemy uses (`len`, `norm`, `mul`, `add`). They are restricted to points on a line, so a distance is an absolute difference and no square root is needed.
- `movement.dfy` (`Movement`): pure specifications of path following.
  - `DistanceRemaining`.
  - `Advance`, one tick.
  - `Lookahead`, the loop of `getPositionAfter`.
  - `Retreat`, the loop of `sendBack`.
  - The lemmas that give these their meaning, stated against the `OnPath` invariant.
- `enemy.dfy` (`Enemies`): the class `Enemy`, whose methods update its fields in place and are proved against the `Movement` functions.
- `wave.dfy` (`Waves`): pure specifications of the spawn and removal steps over a `Spawn` snapshot of the three enemy lists, and the class `Wave` that performs them in place. `Wave` records every outside call in a ghost `effects` log:
  - listener notifications;
  - `GameEngine.add` and listener (un)registration;
  - `GameManager.giveCredits`;
  - `Enemy.remove`.
- `wrappers.dfy` (`Wrappers`): `Option`, for the nullable path and the nullable pending enemy.

Outside inputs become parameters:

- The frame rate becomes a parameter of `Enemy.Tick`.
- The add timer's answer on a tick (`TickTimer.tick()`) becomes the parameter `fires` of `Wave.OnTick`.
- The enemy's configuration and add delay become constructor arguments.

The enemy's calls to the game manager and to the engine are counted in the fields `livesTaken`, `creditsGiven` and `removeRequests`.

## Model

| member | source | states |
|---|---|---|
| Geometry.Distance | app/src/main/java/ch/logixisland/anuto/game/objects/Enemy.java:197-198 | The length of the vector between two points is non-negative and is zero exactly when the points coincide. |
| Geometry.MoveToward | app/src/main/java/ch/logixisland/anuto/game/objects/Enemy.java:243 | Moving `d` toward a target that is at least `d` away lands exactly `d` from the start and `gap - d` from the target. |
| Geometry.DistanceSymmetric | app/src/main/java/ch/logixisland/anuto/game/objects/Enemy.java:223 | The segment length does not depend on the direction it is measured in (`wThis - wLast` versus `fromTo(pos, wp)`). |
| Movement.SegmentsBetween | app/src/main/java/ch/logixisland/anuto/game/objects/Enemy.java:219-224 | The summed lengths of a run of path segments are never negative. |
| Movement.SegmentsSplitFront | app/src/main/java/ch/logixisland/anuto/game/objects/Enemy.java:219-224 | A run of segments is its first segment plus the rest, which is the step from one waypoint to the next. |
| Movement.SegmentsConcat | app/src/main/java/ch/logixisland/anuto/game/objects/Enemy.java:219-224 | Two adjacent runs of segments add up to the joined run. |
| Movement.DistanceRemaining | app/src/main/java/ch/logixisland/anuto/game/objects/Enemy.java:212-227 | The remaining distance is non-negative and is 0 once the index reaches the path count. |
| Movement.Advance | app/src/main/java/ch/logixisland/anuto/game/objects/Enemy.java:148-154 | One enabled tick raises the index by 0 or 1 and never past the path count. It raises it exactly when the waypoint is strictly closer than the step, and then the position is that waypoint. |
| Movement.AdvanceShortensRemaining | app/src/main/java/ch/logixisland/anuto/game/objects/Enemy.java:148-154 | A tick shortens the remaining distance by the step, or by the gap to the waypoint when the gap is smaller. |
| Movement.AdvanceStaysOnPath | app/src/main/java/ch/logixisland/anuto/game/objects/Enemy.java:148-154 | A tick with a non-negative step keeps an enemy on its path. |
| Movement.AdvanceNeverIncreasesRemaining | app/src/main/java/ch/logixisland/anuto/game/objects/Enemy.java:148-154 | The remaining distance never grows from one tick to the next. |
| Movement.Lookahead | app/src/main/java/ch/logixisland/anuto/game/objects/Enemy.java:196-209 | The look-ahead never goes back to an earlier waypoint. With no waypoint left it returns the current position unchanged. |
| Movement.LookaheadTravels | app/src/main/java/ch/logixisland/anuto/game/objects/Enemy.java:196-209 | The predicted point is on the path. If the distance is shorter than what remains, the point is exactly that distance further along. Otherwise it is the last waypoint. |
| Movement.LookaheadReachesEnd | app/src/main/java/ch/logixisland/anuto/game/objects/Enemy.java:196-209 | A look-ahead that covers the rest of the path returns the last waypoint. |
| Movement.Retreat | app/src/main/java/ch/logixisland/anuto/game/objects/Enemy.java:230-251 | The knock-back walk never yields an index below 1 or above the old index. |
| Movement.RetreatPastRoom | app/src/main/java/ch/logixisland/anuto/game/objects/Enemy.java:233-251 | A retreat longer than the path behind the enemy ends on waypoint 0 with index 1. |
| Movement.RetreatWithinRoom | app/src/main/java/ch/logixisland/anuto/game/objects/Enemy.java:233-247 | A retreat that fits keeps the enemy on its path and adds exactly the retreat distance to the distance remaining. |
| Movement.RetreatStaysOnPath | app/src/main/java/ch/logixisland/anuto/game/objects/Enemy.java:229-252 | Any non-negative retreat keeps the enemy on its path. |
| Movement.RoomPlusRemaining | app/src/main/java/ch/logixisland/anuto/game/objects/Enemy.java:212-227 | The path behind an enemy plus the distance ahead of it is the whole path length. |
| Movement.SendBackIntended | app/src/main/java/ch/logixisland/anuto/game/objects/Enemy.java:229-252 | A knock-back by `d` keeps the enemy on its path with index in [1, old index]. The distance remaining becomes `min(old + d, path length)`. |
| Movement.SendBackAsWrittenOvershoots | app/src/main/java/ch/logixisland/anuto/game/objects/Enemy.java:233 | On the path [0, 10, 20], an enemy 5 from the end sent back by 6 ends 20 from the end under the loop as written, and 11 from the end under the corrected loop. |
| Movement.Ticks | app/src/main/java/ch/logixisland/anuto/game/objects/Enemy.java:137-156 | Repeated ticks never lower the waypoint index. |
| Movement.StraightPathScenario | app/src/main/java/ch/logixisland/anuto/game/objects/Enemy.java:149-151 | On the path [0, 10] with a step of 0.5, the enemy is on waypoint 1 after 20 ticks but still heading for it. The 21st tick leaves no waypoint. |
| Movement.StraightPathFrom | app/src/main/java/ch/logixisland/anuto/game/objects/Enemy.java:149-154 | From `m` steps along the path [0, 10], `20 - m` further ticks reach the waypoint without passing it. |
| Enemies.Round | app/src/main/java/ch/logixisland/anuto/game/objects/Enemy.java:277 | `Math.round` gives the integer within half a unit, halves rounded up. |
| Enemies.Enemy.constructor | app/src/main/java/ch/logixisland/anuto/game/objects/Enemy.java:89-113 | A new enemy starts with the configured health and speed, all three modifiers at 1, no path and nothing paid or taken. |
| Enemies.Enemy.SetPath | app/src/main/java/ch/logixisland/anuto/game/objects/Enemy.java:163-168 | After `setPath`, the enemy stands on waypoint 0 with index 1, and it is on its path. |
| Enemies.Enemy.HasWayPoint | app/src/main/java/ch/logixisland/anuto/game/objects/Enemy.java:298-300 | It fails without a path. On an enemy with a path, it fails exactly when the index has reached the path count. |
| Enemies.Enemy.GetWayPoint | app/src/main/java/ch/logixisland/anuto/game/objects/Enemy.java:294-296 | The waypoint ahead is a point of the path and, for an enemy on its path, no further away than the length of the segment it is on. |
| Enemies.Enemy.GetSpeed | app/src/main/java/ch/logixisland/anuto/game/objects/Enemy.java:171-173 | With the modifier at 1 the reported speed is the base speed, and it is never negative when neither the base speed nor the modifier is (the condition under which a tick keeps the enemy on its path). |
| Enemies.Enemy.GetHealth | app/src/main/java/ch/logixisland/anuto/game/objects/Enemy.java:255-257 | Reported health divided by a non-zero health modifier gives back the internal health; with the modifier at 1 it is the internal health. |
| Enemies.Enemy.Tick | app/src/main/java/ch/logixisland/anuto/game/objects/Enemy.java:137-156 | A disabled tick changes nothing. An enabled tick with no waypoint takes one life and asks for removal without moving. Otherwise the tick moves by `Advance` with step = speed / frame rate. With non-negative speed the enemy stays on its path. |
| Enemies.Enemy.GetDistanceRemaining | app/src/main/java/ch/logixisland/anuto/game/objects/Enemy.java:212-227 | The for-loop returns 0 without a path and `DistanceRemaining` otherwise. |
| Enemies.Enemy.GetPositionAfter | app/src/main/java/ch/logixisland/anuto/game/objects/Enemy.java:187-210 | Without a path it returns the current position, otherwise the `Lookahead` point. It changes no field. |
| Enemies.Enemy.SendBack | app/src/main/java/ch/logixisland/anuto/game/objects/Enemy.java:229-252 | The corrected knock-back loop leaves the index in [1, old index] and keeps the enemy on its path. The distance remaining grows by exactly the retreat, capped at the path length. |
| Enemies.Enemy.SendBackMeetsIntent | app/src/main/java/ch/logixisland/anuto/game/objects/Enemy.java:229-252 | The state the loop reaches is the one `SendBackIntended` characterises. |
| Enemies.Enemy.GetReward | app/src/main/java/ch/logixisland/anuto/game/objects/Enemy.java:276-278 | The reward is within half a unit of the configured reward times the reward modifier. |
| Enemies.Enemy.Damage | app/src/main/java/ch/logixisland/anuto/game/objects/Enemy.java:255-266 | Internal health drops by `dmg / healthModifier`, so reported health drops by exactly `dmg`. At or below 0 the enemy pays `GetReward()` once and asks for removal once; otherwise neither happens. |
| Enemies.Enemy.Heal | app/src/main/java/ch/logixisland/anuto/game/objects/Enemy.java:268-274 | Internal health becomes `min(health + val / healthModifier, configured health)` and never ends above the configured health. |
| Enemies.Enemy.ModifySpeed | app/src/main/java/ch/logixisland/anuto/game/objects/Enemy.java:281-283 | The speed modifier and the reported speed are multiplied by `f`. No other field changes. |
| Enemies.Enemy.ModifyHealth | app/src/main/java/ch/logixisland/anuto/game/objects/Enemy.java:285-287 | The health modifier and the reported health are multiplied by `f`. No other field changes. |
| Enemies.Enemy.ModifyReward | app/src/main/java/ch/logixisland/anuto/game/objects/Enemy.java:289-291 | The reward modifier is multiplied by `f`. No other field changes. |
| Enemies.HealUndoesDamage | app/src/main/java/ch/logixisland/anuto/game/objects/Enemy.java:259-274 | On a fully healthy enemy, a hit of at most the reported health followed by a heal of the same amount restores full health. Only a hit of exactly the reported health kills, and it requests removal once. |
| Waves.TickStep | app/src/main/java/ch/logixisland/anuto/game/data/Wave.java:85-111 | A tick reports all-added exactly when nothing is queued or pending. Otherwise at most one enemy joins and in-game grows by exactly the joiners. With nothing pending exactly the queue head is taken off; with a pending enemy the queue is untouched. A head with delay below 0.1 joins at once. Otherwise the waiting enemy (the pending one, or the delayed head just taken) joins and clears the slot exactly when the timer fires, and becomes the pending enemy when it does not. |
| Waves.TickKeepsMembers | app/src/main/java/ch/logixisland/anuto/game/data/Wave.java:92-110 | A tick moves enemies between to-add, pending and in-game without gaining or losing any: the multiset of tracked enemies is the same before and after, so an enemy tracked once before the tick is tracked once after it. |
| Waves.FirstIndex | app/src/main/java/ch/logixisland/anuto/game/data/Wave.java:73 | The index found holds the enemy and no earlier entry does. |
| Waves.RemoveFirst | app/src/main/java/ch/logixisland/anuto/game/data/Wave.java:73 | `ArrayList.remove` drops the first occurrence of a member, keeping the entries before and after it in order, and leaves a non-member's list unchanged. |
| Waves.RemovalStep | app/src/main/java/ch/logixisland/anuto/game/data/Wave.java:69-80 | The removal callback drops only the removed enemy from the tracked enemies and leaves to-add and pending alone. |
| Waves.DoneIffLastMemberLeft | app/src/main/java/ch/logixisland/anuto/game/data/Wave.java:77-79 | Done fires exactly when the enemy that left was the only one the wave still tracked. |
| Waves.ImmediateRosterOnePerTick | app/src/main/java/ch/logixisland/anuto/game/data/Wave.java:85-111 | With every delay below 0.1, N enemies join one per tick in roster order. All-added is reported on tick N + 1, not before. |
| Waves.Dismissals | app/src/main/java/ch/logixisland/anuto/game/data/Wave.java:130-133 | Abort's log has two entries per in-game enemy, each an unsubscribe or a removal request, so no enemy-removed, done, payment or start event results. |
| Waves.DismissalsInOrder | app/src/main/java/ch/logixisland/anuto/game/data/Wave.java:130-133 | Entry by entry, the j-th in-game enemy is unsubscribed and then asked to leave. |
| Waves.Admissions | app/src/main/java/ch/logixisland/anuto/game/data/Wave.java:96-98 | Admitting enemies logs two entries per enemy, each a subscribe or an engine add, and nothing else. |
| Waves.AdmissionsInOrder | app/src/main/java/ch/logixisland/anuto/game/data/Wave.java:96-98 | Entry by entry, the j-th joiner is subscribed and then handed to the engine. |
| Waves.Wave.constructor | app/src/main/java/ch/logixisland/anuto/game/data/Wave.java:35-54 | A loaded wave has empty lists, no pending enemy, the reward flag clear and an empty log. |
| Waves.Wave.OnXmlCommit | app/src/main/java/ch/logixisland/anuto/game/data/Wave.java:201-207 | Each roster enemy's health and reward modifiers are multiplied by the wave's multipliers once per roster entry, and no other field changes. |
| Waves.Wave.Start | app/src/main/java/ch/logixisland/anuto/game/data/Wave.java:118-125 | `start` clears the reward flag and appends the roster, in order, behind what is queued. It then subscribes to ticks and reports the start, in that order. |
| Waves.Wave.Abort | app/src/main/java/ch/logixisland/anuto/game/data/Wave.java:127-138 | On a started wave, `abort` unsubscribes from ticks, then unsubscribes and removes each in-game enemy in order with no wave event. All three lists end empty. |
| Waves.Wave.GiveWaveReward | app/src/main/java/ch/logixisland/anuto/game/data/Wave.java:158-163 | The reward is paid only when the flag was clear, and the flag ends set. Payments never exceed starts plus one. |
| Waves.Wave.OnWaveDone | app/src/main/java/ch/logixisland/anuto/game/data/Wave.java:192-198 | The reward is paid before the done event. |
| Waves.Wave.OnTick | app/src/main/java/ch/logixisland/anuto/game/data/Wave.java:85-111 | The lists change as `TickStep` says and the log gains exactly its effects. That is all-added then unsubscribe, or subscribe and engine add for each joiner. |
| Waves.Wave.Admit | app/src/main/java/ch/logixisland/anuto/game/data/Wave.java:96-98 | An admitted enemy is subscribed, handed to the engine and appended to in-game. |
| Waves.Wave.OnEnemyRemoved | app/src/main/java/ch/logixisland/anuto/game/data/Wave.java:69-80 | The callback unsubscribes the enemy, drops it from in-game and reports it. Only when all three lists are then empty does it pay (if unpaid) and report done. |

## Left out

- Floating point: health, speed, positions and modifiers are exact reals. Float rounding, overflow to infinity and NaN are not modelled, nor is the saturation of `Math.round` at the `int` range in `getReward`; `Round` returns an unbounded integer.
- Geometry is one-dimensional. Positions are points on a line and `Vector2.len` is an absolute difference, so there is no square root. The path lemmas rely on this one-dimensional definition of distance and movement; they are not proved for general 2-D paths.
- Geometry.MoveToward: the direction of the zero vector is taken to be zero, so nothing moves. In floating point `norm()` of a zero vector gives NaN. The case arises:
  - for a zero-length path segment;
  - in `getPositionAfter` with a negative look-ahead distance;
  - in `sendBack` with a retreat of 0 or less while the enemy stands on the waypoint it last passed (for example just after a snap), since the first vector toward that waypoint is zero;
  - in `tick` with a step of 0 or less while the enemy stands on the waypoint ahead (for example on the path [0, 10] at step 0.5 after 20 ticks, `Movement.StraightPathScenario`).
- Enemies.Enemy.GetPositionAfter: the interpolation `toWaypoint.mul(distance / toWaypointDist)` is modelled as moving `distance` toward the waypoint. The two agree except when the gap is zero, which requires a negative look-ahead distance.
- Enemies.Enemy.SendBack: it follows the corrected loop, which walks down to waypoint 0. The loop as written, which stops at waypoint 1, is `Movement.Retreat` with lowest waypoint 1 (see Findings). It requires a path; without one the code would call `mPath.get(0)` on null.
- Waves.Wave.Abort: it requires an earlier `start`. Before the first `start` the engine reference is still null (it is set only in `start`), so the code throws at `mGame.removeListener`. That failure is not modelled.
- Enemies.Enemy.Damage: it requires a non-zero health modifier, because float division by zero is not modelled.
- Enemies.Enemy.Heal: it requires a non-zero health modifier, because float division by zero is not modelled.
- Health is not clamped at 0: `damage` lets internal health go negative and only `heal` clamps, at the top. The model does the same.
- Vector2, Path, GameObject, GameEngine, GameManager, TickTimer and EnemyConfig are not part of this model.
  - Their effects are parameters, counters or `effects` log entries.
  - Only `health`, `speed` and `reward` of the configuration are kept, as a record.
  - `isEnabled` is a field that starts true.
  - The engine's target frame rate is the parameter `frameRate`.
  - The add timer is reduced to the per-tick answer `fires`.
- Listener lists are not modelled. Notifying listeners (`onWaveStarted`, `onWaveAllEnemiesAdded`, `onWaveEnemyRemoved`, `onWaveDone`) is one log entry per event, whoever is listening. `addListener`/`removeListener` on the wave and the copy-on-write snapshot semantics are not modelled.
- Enemy: rendering (the health bar, `init`/`clean` adding and removing it), `getDirection`, `getConfigSpeed`, `getTypeId` and the static `health()`/`distanceRemaining()` factories are not modelled.
- Wave: the accessors `getEnemies`, `getEnemiesToAdd`, `getEnemiesInGame` and `getWaveReward` are not modelled.
- Spawning with zero delays takes one tick per enemy: N enemies are all added only after N ticks, and all-added is reported on tick N + 1 (`Waves.ImmediateRosterOnePerTick`).
- On the path [0, 10] at step 0.5, the enemy reaches the last waypoint on tick 20 but still heads for it, because the snap needs a gap strictly below the step. Its index moves past the last waypoint on tick 21, so the life is taken on tick 22 (`Movement.StraightPathScenario`).
- Done is reported once per removal that leaves all three lists empty. Each enemy is unsubscribed before it is reported, so each in-game enemy triggers the callback at most once. The flag keeps the reward from being paid twice in any case.

## Findings

| source | as written | input that shows it | evidently intended | confidence | as-written member | corrected member |
|---|---|---|---|---|---|---|
| app/src/main/java/ch/logixisland/anuto/game/objects/Enemy.java:233 | `while (index > 0)` never walks the first segment. Any retreat that is still in progress when it reaches waypoint 1, or any retreat that starts on the first segment, jumps straight to waypoint 0. | Path [0, 10, 20], enemy at 15 heading for waypoint 2, `sendBack(6)`: it lands on 0 (20 from the end) instead of 9 (11 from the end). | Walk back while `index >= 0`, so the enemy ends exactly `dist` further from the end, or on waypoint 0 when the path behind it is shorter. | not executed | Movement.SendBackAsWrittenOvershoots | Movement.SendBackIntended |
