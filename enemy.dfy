/**
 * An enemy: a path-following object with health, speed and reward, each
 * scaled by its own multiplicative modifier.
 *
 * The calls the enemy makes into the game manager and the engine are recorded
 * in counters: `livesTaken` (`takeLives`), `creditsGiven` (`giveCredits`)
 * and `removeRequests` (`remove()`).
 */
module Enemies {
  import opened Wrappers
  import opened Geometry
  import opened Movement

  /** Per-kind configuration, shared read-only by every enemy of that kind. */
  datatype EnemyConfig = EnemyConfig(health: real, speed: real, reward: int)

  /** `Math.round`: the nearest integer, halves rounded up. */
  function Round(x: real): (r: int)
    ensures r as real - 0.5 <= x < r as real + 0.5
  {
    (x + 0.5).Floor
  }

  class Enemy {
    const config: EnemyConfig
    /** Delay before the wave adds this enemy to the game. */
    const addDelay: real

    /** Health in unmodified units; the reported health is scaled by `healthModifier`. */
    var health: real
    var baseSpeed: real

    var healthModifier: real
    var rewardModifier: real
    var speedModifier: real

    var path: Option<Path>
    var wayPointIndex: nat
    var position: Point
    var enabled: bool

    var livesTaken: nat
    var creditsGiven: int
    var removeRequests: nat

    /** Once a path is set, the waypoint index stays within 1 .. path count. */
    ghost predicate Valid()
      reads this
    {
      match path
      case None => true
      case Some(p) => 0 < |p| && 1 <= wayPointIndex <= |p|
    }

    /** The enemy stands on its path, between the waypoint it passed and the one ahead. */
    ghost predicate OnItsPath()
      reads this
    {
      path.Some? && OnPath(path.value, wayPointIndex, position)
    }

    constructor (config: EnemyConfig, addDelay: real)
      ensures this.config == config && this.addDelay == addDelay
      ensures health == config.health && baseSpeed == config.speed
      ensures healthModifier == 1.0 && rewardModifier == 1.0 && speedModifier == 1.0
      ensures path == None && wayPointIndex == 0 && enabled
      ensures livesTaken == 0 && creditsGiven == 0 && removeRequests == 0
      ensures Valid()
    {
      this.config := config;
      this.addDelay := addDelay;
      health := config.health;
      baseSpeed := config.speed;
      healthModifier, rewardModifier, speedModifier := 1.0, 1.0, 1.0;
      path := None;
      wayPointIndex := 0;
      position := 0.0;
      enabled := true;
      livesTaken, creditsGiven, removeRequests := 0, 0, 0;
    }

    // ------------------------------------------------------------------
    // Path following
    // ------------------------------------------------------------------

    /** Places the enemy on the entry point, heading for waypoint 1. */
    method SetPath(p: Path)
      requires |p| > 0
      modifies this`path, this`position, this`wayPointIndex
      ensures path == Some(p) && position == p[0] && wayPointIndex == 1
      ensures Valid() && OnItsPath()
    {
      path := Some(p);
      position := p[0];
      wayPointIndex := 1;
    }

    predicate HasWayPoint()
      reads this
      ensures path.None? ==> !HasWayPoint()
      ensures Valid() && path.Some? ==> (!HasWayPoint() <==> wayPointIndex == |path.value|)
    {
      path.Some? && wayPointIndex < |path.value|
    }

    /** The waypoint ahead: a point of the path, no further away than the segment the enemy is on. */
    function GetWayPoint(): (w: Point)
      reads this
      requires HasWayPoint()
      ensures w in path.value
      ensures OnItsPath() ==> Distance(position, w) <= SegmentLength(path.value, wayPointIndex)
    {
      path.value[wayPointIndex]
    }

    /**
     * Speed scaled by the speed modifier: the base speed while the modifier is 1,
     * and never negative when neither factor is (which keeps `Tick` on the path).
     */
    function GetSpeed(): (v: real)
      reads this`baseSpeed, this`speedModifier
      ensures speedModifier == 1.0 ==> v == baseSpeed
      ensures baseSpeed >= 0.0 && speedModifier >= 0.0 ==> v >= 0.0
    {
      assert baseSpeed >= 0.0 && speedModifier >= 0.0 ==> baseSpeed * speedModifier >= 0.0 * speedModifier;
      baseSpeed * speedModifier
    }

    /**
     * One simulation step. A disabled enemy does nothing; an enemy with no
     * waypoint left takes one life and asks to be removed; otherwise it moves
     * `GetSpeed() / frameRate` along its path.
     */
    method Tick(frameRate: real)
      requires Valid() && frameRate > 0.0
      modifies this`position, this`wayPointIndex, this`livesTaken, this`removeRequests
      ensures Valid()
      ensures !enabled ==>
        && position == old(position) && wayPointIndex == old(wayPointIndex)
        && livesTaken == old(livesTaken) && removeRequests == old(removeRequests)
      ensures enabled && !old(HasWayPoint()) ==>
        && position == old(position) && wayPointIndex == old(wayPointIndex)
        && livesTaken == old(livesTaken) + 1 && removeRequests == old(removeRequests) + 1
      ensures enabled && old(HasWayPoint()) ==>
        && (position, wayPointIndex) == Advance(path.value, old(wayPointIndex), old(position), GetSpeed() / frameRate)
        && livesTaken == old(livesTaken) && removeRequests == old(removeRequests)
      ensures old(OnItsPath()) && GetSpeed() >= 0.0 ==> OnItsPath()
    {
      if enabled {
        if !HasWayPoint() {
          livesTaken := livesTaken + 1;
          removeRequests := removeRequests + 1;
          return;
        }
        var stepSize := GetSpeed() / frameRate;
        ghost var was := (position, wayPointIndex);
        if Distance(position, GetWayPoint()) < stepSize {
          position := GetWayPoint();
          wayPointIndex := wayPointIndex + 1;
        } else {
          position := MoveToward(position, GetWayPoint(), stepSize);
        }
        if old(OnItsPath()) && GetSpeed() >= 0.0 {
          AdvanceStaysOnPath(path.value, was.1, was.0, stepSize);
        }
      }
    }

    /** What `getDistanceRemaining` returns: the for-loop adds up the segments after the waypoint ahead. */
    method GetDistanceRemaining() returns (r: real)
      requires Valid()
      ensures path.None? ==> r == 0.0
      ensures path.Some? ==> r == DistanceRemaining(path.value, wayPointIndex, position)
    {
      if !HasWayPoint() {
        return 0.0;
      }
      var p := path.value;
      r := Distance(position, p[wayPointIndex]);
      var i := wayPointIndex + 1;
      while i < |p|
        invariant wayPointIndex + 1 <= i <= |p|
        invariant r == Distance(position, p[wayPointIndex]) + SegmentsBetween(p, wayPointIndex + 1, i)
      {
        var wThis := p[i];
        var wLast := p[i - 1];
        r := r + Distance(wLast, wThis);
        i := i + 1;
      }
    }

    /** Where the enemy will be after `sec` seconds at its current speed; no field changes. */
    method GetPositionAfter(sec: real) returns (r: Point)
      requires Valid()
      ensures path.None? ==> r == position
      ensures path.Some? ==> r == Lookahead(path.value, wayPointIndex, position, sec * GetSpeed()).0
    {
      if path.None? {
        return position;
      }
      var p := path.value;
      var distance := sec * GetSpeed();
      var index := wayPointIndex;
      var pos := position;
      while index < |p|
        invariant wayPointIndex <= index
        invariant Lookahead(p, index, pos, distance) == Lookahead(p, wayPointIndex, position, sec * GetSpeed())
        decreases |p| - index
      {
        var toWaypointDist := Distance(pos, p[index]);
        if distance < toWaypointDist {
          return MoveToward(pos, p[index], distance);
        } else {
          distance := distance - toWaypointDist;
          pos := p[index];
          index := index + 1;
        }
      }
      return pos;
    }

    /**
     * Knock-back by `dist`: walks back toward the waypoints already passed,
     * down to waypoint 0; a retreat longer than the path behind the enemy
     * puts it on waypoint 0, heading for waypoint 1. The walk includes the
     * first segment (the loop runs while `index >= 0`), which is the corrected
     * form of the loop guard (see `Movement.SendBackAsWrittenOvershoots`).
     */
    method SendBack(dist: real)
      requires Valid() && path.Some?
      modifies this`position, this`wayPointIndex
      ensures Valid()
      ensures (position, wayPointIndex) == Retreat(path.value, old(wayPointIndex) - 1, old(position), dist, 0)
      ensures 1 <= wayPointIndex <= old(wayPointIndex)
      ensures old(OnItsPath()) && dist >= 0.0 ==>
        && OnItsPath()
        && DistanceRemaining(path.value, wayPointIndex, position)
           == Min(old(DistanceRemaining(path.value, wayPointIndex, position)) + dist, PathLength(path.value))
    {
      var p := path.value;
      var index: int := wayPointIndex - 1;
      var pos := position;
      var d := dist;
      while index >= 0
        invariant -1 <= index < |p|
        invariant Retreat(p, index, pos, d, 0) == Retreat(p, old(wayPointIndex) - 1, old(position), dist, 0)
        decreases index
      {
        var wp := p[index];
        var toWpLen := Distance(pos, wp);
        if d > toWpLen {
          d := d - toWpLen;
          pos := wp;
          index := index - 1;
        } else {
          pos := MoveToward(pos, wp, d);
          position := pos;
          wayPointIndex := index + 1;
          SendBackMeetsIntent(old(wayPointIndex), old(position), dist, old(OnItsPath()));
          return;
        }
      }
      position := p[0];
      wayPointIndex := 1;
      SendBackMeetsIntent(old(wayPointIndex), old(position), dist, old(OnItsPath()));
    }

    /** When the enemy started on its path, the state `SendBack` reaches is the one `SendBackIntended` describes. */
    lemma SendBackMeetsIntent(index: nat, pos: Point, dist: real, wasOnPath: bool)
      requires path.Some? && 1 <= index <= |path.value|
      requires wasOnPath == OnPath(path.value, index, pos)
      requires (position, wayPointIndex) == Retreat(path.value, index - 1, pos, dist, 0)
      ensures wasOnPath && dist >= 0.0 ==>
        && OnItsPath()
        && DistanceRemaining(path.value, wayPointIndex, position)
           == Min(DistanceRemaining(path.value, index, pos) + dist, PathLength(path.value))
    {
      if wasOnPath && dist >= 0.0 {
        assert SendBackIntended(path.value, index, pos, dist) == Retreat(path.value, index - 1, pos, dist, 0);
      }
    }

    // ------------------------------------------------------------------
    // Health and economy
    // ------------------------------------------------------------------

    /** Reported health: internal health scaled by the health modifier. */
    function GetHealth(): (h: real)
      reads this`health, this`healthModifier
      ensures healthModifier != 0.0 ==> h / healthModifier == health
      ensures healthModifier == 1.0 ==> h == health
    {
      health * healthModifier
    }

    /** The credits this enemy is worth: the configured reward scaled by the reward modifier, rounded. */
    function GetReward(): (r: int)
      reads this`rewardModifier
      ensures r as real - 0.5 <= config.reward as real * rewardModifier < r as real + 0.5
    {
      Round(config.reward as real * rewardModifier)
    }

    /** Lowers health by `dmg` in reported units; at zero or below the enemy pays its reward and asks to be removed. */
    method Damage(dmg: real)
      requires healthModifier != 0.0
      modifies this`health, this`creditsGiven, this`removeRequests
      ensures health == old(health) - dmg / healthModifier
      ensures GetHealth() == old(GetHealth()) - dmg
      ensures health <= 0.0 ==> creditsGiven == old(creditsGiven) + GetReward() && removeRequests == old(removeRequests) + 1
      ensures health > 0.0 ==> creditsGiven == old(creditsGiven) && removeRequests == old(removeRequests)
    {
      health := health - dmg / healthModifier;
      assert (old(health) - dmg / healthModifier) * healthModifier == old(health) * healthModifier - dmg;
      if health <= 0.0 {
        creditsGiven := creditsGiven + GetReward();
        removeRequests := removeRequests + 1;
      }
    }

    /** Raises health by `val` in reported units, never above the configured health. */
    method Heal(val: real)
      requires healthModifier != 0.0
      modifies this`health
      ensures health == Min(old(health) + val / healthModifier, config.health)
      ensures health <= config.health
    {
      health := health + val / healthModifier;
      if health > config.health {
        health := config.health;
      }
    }

    method ModifySpeed(f: real)
      modifies this`speedModifier
      ensures speedModifier == old(speedModifier) * f
      ensures GetSpeed() == old(GetSpeed()) * f
    {
      speedModifier := speedModifier * f;
    }

    method ModifyHealth(f: real)
      modifies this`healthModifier
      ensures healthModifier == old(healthModifier) * f
      ensures GetHealth() == old(GetHealth()) * f
    {
      healthModifier := healthModifier * f;
    }

    method ModifyReward(f: real)
      modifies this`rewardModifier
      ensures rewardModifier == old(rewardModifier) * f
    {
      rewardModifier := rewardModifier * f;
    }
  }

  /**
   * At full health, a hit of at most the reported health followed by a heal of
   * the same amount restores full health; only the hit of exactly the reported
   * health kills, and then the enemy asks for removal once.
   */
  method HealUndoesDamage(e: Enemy, x: real)
    requires e.health == e.config.health && e.healthModifier > 0.0
    requires 0.0 <= x <= e.GetHealth()
    modifies e
    ensures e.health == e.config.health
    ensures e.removeRequests == old(e.removeRequests) + (if x == old(e.GetHealth()) then 1 else 0)
  {
    e.Damage(x);
    e.Heal(x);
  }
}
