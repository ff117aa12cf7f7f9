/**
 * The cursor trail's point queue: each pointer move appends a point, and
 * once the queue holds more than 18 the oldest is dropped. The set-up call is
 * commented out in the page's start-up code, so the trail is never live.
 */
module CursorTrail {

  const MaxPoints: nat := 18

  datatype Point = Point(x: int, y: int, t: int)

  /** `pushPoint`: append, then shift once if over the bound. */
  function Push(trail: seq<Point>, p: Point): (r: seq<Point>)
    requires |trail| <= MaxPoints
    ensures |r| == if |trail| < MaxPoints then |trail| + 1 else MaxPoints
    ensures r == (trail + [p])[|trail| + 1 - |r|..]
  {
    var grown := trail + [p];
    if |grown| > MaxPoints then grown[1..] else grown
  }

  /** The trail after pushing `points` in order. */
  function PushAll(trail: seq<Point>, points: seq<Point>): (r: seq<Point>)
    requires |trail| <= MaxPoints
    ensures |r| <= MaxPoints
  {
    if points == [] then trail
    else Push(PushAll(trail, points[..|points| - 1]), points[|points| - 1])
  }

  /** The last `n` elements of `s`, or all of them if there are fewer. */
  function Newest(s: seq<Point>, n: nat): seq<Point>
  {
    if |s| <= n then s else s[|s| - n..]
  }

  // ---- properties ----

  /** The pushed point is the newest one, and the older points keep their order. */
  lemma PushKeepsOrder(trail: seq<Point>, p: Point)
    requires |trail| <= MaxPoints
    ensures var r := Push(trail, p);
            r[|r| - 1] == p && r[..|r| - 1] == trail[|trail| + 1 - |r|..]
  {
  }

  /** Pushing one more point onto the newest 18 gives the newest 18 of the longer list. */
  lemma NewestStep(points: seq<Point>)
    requires points != []
    ensures var n := |points| - 1;
            Push(Newest(points[..n], MaxPoints), points[n]) == Newest(points, MaxPoints)
  {
    var n := |points| - 1;
    var before := Newest(points[..n], MaxPoints);
    var grown := before + [points[n]];
    if |points| <= MaxPoints {
      assert grown == points;
    } else {
      assert before == points[n - MaxPoints..n];
      assert grown == points[n - MaxPoints..];
      assert grown[1..] == points[|points| - MaxPoints..];
    }
  }

  /** From an empty trail, the trail holds exactly the newest 18 points pushed, oldest first. */
  lemma {:induction false} PushAllKeepsNewest(points: seq<Point>)
    ensures PushAll([], points) == Newest(points, MaxPoints)
  {
    if points != [] {
      PushAllKeepsNewest(points[..|points| - 1]);
      NewestStep(points);
    }
  }

  /** The trail buffer. */
  class Trail {
    var points: seq<Point>

    constructor ()
      ensures points == []
    {
      points := [];
    }

    /** `pushPoint(x, y)` at time `now`. */
    method PushPoint(x: int, y: int, now: int)
      requires |points| <= MaxPoints
      modifies this
      ensures |points| <= MaxPoints
      ensures points == Push(old(points), Point(x, y, now))
    {
      points := points + [Point(x, y, now)];
      if |points| > MaxPoints {
        points := points[1..];
      }
    }
  }
}
