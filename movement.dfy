/**
 * Path following of an enemy, as pure functions of the path, the waypoint
 * index and the position: the per-tick step (`Enemy.tick`), the remaining
 * distance (`getDistanceRemaining`), the look-ahead (`getPositionAfter`) and
 * the knock-back walk (`sendBack`). The `Enemy` class states its methods in
 * terms of these; the lemmas here are what the path-following code promises.
 *
 * Waypoint `index` is the waypoint the enemy is heading for; segment `k`
 * (for 1 <= k < |path|) runs from waypoint k-1 to waypoint k.
 */
module Movement {
  import opened Geometry

  /** An ordered sequence of waypoints; waypoint 0 is the entry point. */
  type Path = seq<Point>

  function SegmentLength(path: Path, k: int): (r: real)
    requires 1 <= k < |path|
    ensures r >= 0.0
  {
    Distance(path[k - 1], path[k])
  }

  /** Sum of the lengths of segments lo .. hi-1, added up in path order. */
  function SegmentsBetween(path: Path, lo: int, hi: int): (r: real)
    requires 1 <= lo && hi <= |path|
    ensures r >= 0.0
    decreases hi - lo
  {
    if hi <= lo then 0.0 else SegmentsBetween(path, lo, hi - 1) + SegmentLength(path, hi - 1)
  }

  /** Length of the whole path, from waypoint 0 to the last waypoint. */
  function PathLength(path: Path): real
    requires |path| > 0
  {
    SegmentsBetween(path, 1, |path|)
  }

  lemma {:induction false} SegmentsSplitFront(path: Path, lo: int, hi: int)
    requires 1 <= lo < hi <= |path|
    ensures SegmentsBetween(path, lo, hi) == SegmentLength(path, lo) + SegmentsBetween(path, lo + 1, hi)
    decreases hi - lo
  {
    if lo + 1 < hi {
      SegmentsSplitFront(path, lo, hi - 1);
    }
  }

  lemma {:induction false} SegmentsConcat(path: Path, lo: int, mid: int, hi: int)
    requires 1 <= lo <= mid <= hi <= |path|
    ensures SegmentsBetween(path, lo, mid) + SegmentsBetween(path, mid, hi) == SegmentsBetween(path, lo, hi)
    decreases hi - mid
  {
    if mid < hi {
      SegmentsConcat(path, lo, mid, hi - 1);
    }
  }

  /**
   * Distance still to travel: to the waypoint ahead, then along every later
   * segment; zero once no waypoint is left.
   */
  function DistanceRemaining(path: Path, index: nat, pos: Point): (r: real)
    ensures r >= 0.0
    ensures index >= |path| ==> r == 0.0
  {
    if index >= |path| then 0.0
    else Distance(pos, path[index]) + SegmentsBetween(path, index + 1, |path|)
  }

  /**
   * The enemy lies on its path: between the waypoint it has passed and the one
   * it is heading for, or on the last waypoint once none is left.
   */
  ghost predicate OnPath(path: Path, index: nat, pos: Point) {
    && 1 <= index <= |path|
    && (index < |path| ==>
          Distance(path[index - 1], pos) + Distance(pos, path[index]) == SegmentLength(path, index))
    && (index == |path| ==> pos == path[index - 1])
  }

  // ------------------------------------------------------------------
  // One tick of movement
  // ------------------------------------------------------------------

  /**
   * Movement of an enabled enemy that still has a waypoint ahead: snap onto
   * the waypoint and head for the next one when it is closer than the step,
   * otherwise move the step toward it.
   */
  function Advance(path: Path, index: nat, pos: Point, step: real): (r: (Point, nat))
    requires index < |path|
    ensures index <= r.1 <= index + 1 && r.1 <= |path|
    ensures r.1 == index + 1 <==> Distance(pos, path[index]) < step
    ensures r.1 == index + 1 ==> r.0 == path[index]
  {
    if Distance(pos, path[index]) < step then (path[index], index + 1)
    else (MoveToward(pos, path[index], step), index)
  }

  /** Each tick shortens the remaining distance by the step, or by the gap to the waypoint if that is smaller. */
  lemma AdvanceShortensRemaining(path: Path, index: nat, pos: Point, step: real)
    requires index < |path| && step >= 0.0
    ensures var (p, i) := Advance(path, index, pos, step);
      var gap := Distance(pos, path[index]);
      DistanceRemaining(path, i, p) == DistanceRemaining(path, index, pos) - (if gap < step then gap else step)
  {
    if Distance(pos, path[index]) < step && index + 1 < |path| {
      SegmentsSplitFront(path, index + 1, |path|);
    }
  }

  lemma AdvanceStaysOnPath(path: Path, index: nat, pos: Point, step: real)
    requires index < |path| && step >= 0.0
    requires OnPath(path, index, pos)
    ensures var (p, i) := Advance(path, index, pos, step); OnPath(path, i, p)
  {
  }

  /** The remaining distance never grows from one tick to the next. */
  lemma AdvanceNeverIncreasesRemaining(path: Path, index: nat, pos: Point, step: real)
    requires index < |path| && step >= 0.0
    ensures var (p, i) := Advance(path, index, pos, step);
      DistanceRemaining(path, i, p) <= DistanceRemaining(path, index, pos)
  {
    AdvanceShortensRemaining(path, index, pos, step);
  }

  // ------------------------------------------------------------------
  // Look-ahead
  // ------------------------------------------------------------------

  /**
   * Where the enemy will be after travelling `distance` further along its
   * path, with the waypoint it will then be heading for: the state in which
   * the loop of `getPositionAfter` returns.
   */
  function Lookahead(path: Path, index: nat, pos: Point, distance: real): (r: (Point, nat))
    ensures r.1 >= index
    ensures index >= |path| ==> r == (pos, index)
    decreases |path| - index
  {
    if index >= |path| then (pos, index)
    else
      var len := Distance(pos, path[index]);
      if distance < len then (MoveToward(pos, path[index], distance), index)
      else Lookahead(path, index + 1, path[index], distance - len)
  }

  /**
   * The predicted position is `distance` further along the path, or the last
   * waypoint when `distance` covers all that remains.
   */
  lemma {:induction false} LookaheadTravels(path: Path, index: nat, pos: Point, distance: real)
    requires OnPath(path, index, pos) && distance >= 0.0
    ensures var (q, j) := Lookahead(path, index, pos, distance);
      && OnPath(path, j, q)
      && (distance < DistanceRemaining(path, index, pos) ==>
            DistanceRemaining(path, j, q) == DistanceRemaining(path, index, pos) - distance)
      && (distance >= DistanceRemaining(path, index, pos) ==> q == path[|path| - 1])
    decreases |path| - index
  {
    if index < |path| {
      var len := Distance(pos, path[index]);
      if distance >= len {
        if index + 1 < |path| {
          SegmentsSplitFront(path, index + 1, |path|);
        }
        LookaheadTravels(path, index + 1, path[index], distance - len);
      }
    }
  }

  /** A look-ahead that covers all the remaining distance ends on the last waypoint. */
  lemma LookaheadReachesEnd(path: Path, index: nat, pos: Point, distance: real)
    requires OnPath(path, index, pos) && distance >= DistanceRemaining(path, index, pos)
    ensures Lookahead(path, index, pos, distance).0 == path[|path| - 1]
  {
    LookaheadTravels(path, index, pos, distance);
  }

  // ------------------------------------------------------------------
  // Knock-back
  // ------------------------------------------------------------------

  /**
   * The walk of `sendBack`: `k` is the waypoint being walked back toward and
   * `dist` what is left to retreat. The walk continues while `k >= lowest`;
   * when it runs out it puts the enemy on waypoint 0, heading for waypoint 1.
   * The code as written walks down to waypoint 1 (`lowest == 1`).
   */
  function Retreat(path: Path, k: int, pos: Point, dist: real, lowest: nat): (r: (Point, nat))
    requires 0 < |path| && k < |path| && lowest <= 1
    ensures 1 <= r.1 && (r.1 <= k + 1 || r.1 == 1)
    decreases k + 1
  {
    if k < lowest then (path[0], 1)
    else
      var len := Distance(pos, path[k]);
      if dist > len then Retreat(path, k - 1, path[k], dist - len, lowest)
      else (MoveToward(pos, path[k], dist), k + 1)
  }

  /**
   * How far the walk can retreat before it gives up: back to waypoint k, then
   * down the segments to waypoint `lowest`.
   */
  function RetreatRoom(path: Path, k: int, pos: Point, lowest: nat): (r: real)
    requires k < |path| && lowest <= 1
    ensures r >= 0.0
  {
    if k < lowest then 0.0 else Distance(pos, path[k]) + SegmentsBetween(path, lowest + 1, k + 1)
  }

  /** A walk that starts below `lowest`, or a retreat longer than the room left, puts the enemy back on waypoint 0, heading for waypoint 1. */
  lemma {:induction false} RetreatPastRoom(path: Path, k: int, pos: Point, dist: real, lowest: nat)
    requires 0 < |path| && k < |path| && lowest <= 1
    requires k < lowest || dist > RetreatRoom(path, k, pos, lowest)
    ensures Retreat(path, k, pos, dist, lowest) == (path[0], 1)
    decreases k + 1
  {
    if k >= lowest {
      var len := Distance(pos, path[k]);
      if k - 1 >= lowest {
        DistanceSymmetric(path[k - 1], path[k]);
      }
      RetreatPastRoom(path, k - 1, path[k], dist - len, lowest);
    }
  }

  /** A retreat within the room left moves the enemy back along its path by exactly that distance. */
  lemma {:induction false} RetreatWithinRoom(path: Path, k: int, pos: Point, dist: real, lowest: nat)
    requires 0 <= k < |path| && lowest <= k && lowest <= 1
    requires OnPath(path, k + 1, pos)
    requires 0.0 <= dist <= RetreatRoom(path, k, pos, lowest)
    ensures var (q, j) := Retreat(path, k, pos, dist, lowest);
      && OnPath(path, j, q)
      && DistanceRemaining(path, j, q) == DistanceRemaining(path, k + 1, pos) + dist
    decreases k
  {
    var len := Distance(pos, path[k]);
    if dist > len {
      DistanceSymmetric(path[k - 1], path[k]);
      if k + 1 < |path| {
        SegmentsSplitFront(path, k + 1, |path|);
      }
      RetreatWithinRoom(path, k - 1, path[k], dist - len, lowest);
    }
  }

  /** Whatever the distance, a retreat leaves the enemy on its path. */
  lemma {:induction false} RetreatStaysOnPath(path: Path, k: int, pos: Point, dist: real, lowest: nat)
    requires 0 <= k < |path| && lowest <= 1
    requires OnPath(path, k + 1, pos) && dist >= 0.0
    ensures var (q, j) := Retreat(path, k, pos, dist, lowest); OnPath(path, j, q)
  {
    if k < lowest || dist > RetreatRoom(path, k, pos, lowest) {
      RetreatPastRoom(path, k, pos, dist, lowest);
    } else {
      RetreatWithinRoom(path, k, pos, dist, lowest);
    }
  }

  /**
   * With the walk going all the way down to waypoint 0, the room left to
   * retreat and the distance still to travel add up to the whole path.
   */
  lemma RoomPlusRemaining(path: Path, index: nat, pos: Point)
    requires OnPath(path, index, pos)
    ensures RetreatRoom(path, index - 1, pos, 0) + DistanceRemaining(path, index, pos) == PathLength(path)
  {
    if index < |path| {
      DistanceSymmetric(pos, path[index - 1]);
      SegmentsConcat(path, 1, index + 1, |path|);
    }
  }

  function Min(a: real, b: real): real {
    if a <= b then a else b
  }

  /**
   * Knock-back as evidently intended: the walk also covers the first segment
   * (it runs while k >= 0), so the enemy ends exactly `dist` further from the
   * end of its path, or on waypoint 0 when the path is not long enough.
   */
  function SendBackIntended(path: Path, index: nat, pos: Point, dist: real): (r: (Point, nat))
    requires OnPath(path, index, pos) && dist >= 0.0
    ensures OnPath(path, r.1, r.0)
    ensures 1 <= r.1 <= index
    ensures DistanceRemaining(path, r.1, r.0) == Min(DistanceRemaining(path, index, pos) + dist, PathLength(path))
  {
    RoomPlusRemaining(path, index, pos);
    if dist > RetreatRoom(path, index - 1, pos, 0) then
      RetreatPastRoom(path, index - 1, pos, dist, 0);
      if |path| > 1 then
        SegmentsSplitFront(path, 1, |path|);
        Retreat(path, index - 1, pos, dist, 0)
      else
        Retreat(path, index - 1, pos, dist, 0)
    else
      RetreatWithinRoom(path, index - 1, pos, dist, 0);
      Retreat(path, index - 1, pos, dist, 0)
  }

  /**
   * The walk as written stops at waypoint 1 and then jumps to waypoint 0: an
   * enemy 5 short of the end of the path [0, 10, 20] sent back by 6 lands on
   * waypoint 0, 20 from the end, instead of 11 from the end.
   */
  lemma SendBackAsWrittenOvershoots()
    ensures var path := [0.0, 10.0, 20.0];
      && OnPath(path, 2, 15.0)
      && DistanceRemaining(path, 2, 15.0) == 5.0
      && Retreat(path, 1, 15.0, 6.0, 1) == (0.0, 1)
      && DistanceRemaining(path, 1, 0.0) == 20.0
      && SendBackIntended(path, 2, 15.0, 6.0) == (9.0, 1)
      && DistanceRemaining(path, 1, 9.0) == 11.0
  {
  }

  // ------------------------------------------------------------------
  // Several ticks
  // ------------------------------------------------------------------

  /** `n` ticks of an enabled enemy moving `step` per tick; it stops once no waypoint is left. */
  function Ticks(path: Path, index: nat, pos: Point, step: real, n: nat): (r: (Point, nat))
    ensures r.1 >= index
    decreases n
  {
    if n == 0 || index >= |path| then (pos, index)
    else
      var (p, i) := Advance(path, index, pos, step);
      Ticks(path, i, p, step, n - 1)
  }

  /**
   * An enemy entering the path [0, 10] at speed 5 with 10 ticks per second
   * (a step of 0.5) stands on the last waypoint after 20 ticks but still heads
   * for it, because the snap needs a gap strictly below the step; only the
   * 21st tick leaves it with no waypoint ahead.
   */
  lemma StraightPathScenario()
    ensures Ticks([0.0, 10.0], 1, 0.0, 0.5, 20) == (10.0, 1)
    ensures Ticks([0.0, 10.0], 1, 0.0, 0.5, 21) == (10.0, 2)
  {
    StraightPathFrom(0);
  }

  lemma {:induction false} StraightPathFrom(m: nat)
    requires m <= 20
    ensures Ticks([0.0, 10.0], 1, 0.5 * m as real, 0.5, 20 - m) == (10.0, 1)
    ensures Ticks([0.0, 10.0], 1, 0.5 * m as real, 0.5, 21 - m) == (10.0, 2)
    decreases 20 - m
  {
    var path := [0.0, 10.0];
    var pos := 0.5 * m as real;
    if m < 20 {
      assert Advance(path, 1, pos, 0.5) == (0.5 * (m + 1) as real, 1);
      StraightPathFrom(m + 1);
    } else {
      assert Advance(path, 1, pos, 0.5) == (10.0, 2);
    }
  }
}
