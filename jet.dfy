/**
 * The jet: where it is drawn and the window of recent positions its trail
 * is drawn through. The mesh, the line geometry and the colour buffers are
 * not modelled; only `position` (the mesh position) and `trailPoints`.
 */
module Jet {
  import opened Wrappers
  import opened Jsonl
  import Telemetry

  datatype Vec3 = Vec3(x: real, y: real, z: real)

  /** The trail keeps at most this many points. */
  const MaxTrailPoints: nat := 500

  /** The position `update` uses: the pilot's when one is given, else the frame's coordinates. */
  function ChosenPosition(frame: Frame, pilotPos: Option<Vec3>): Vec3
  {
    match pilotPos
    case Some(pos) => pos
    case None => Vec3(frame.x, frame.y, frame.z)
  }

  /** Push the newest point; drop the oldest when that takes the trail past its bound. */
  function TrailPush(trail: seq<Vec3>, pos: Vec3): (r: seq<Vec3>)
    requires |trail| <= MaxTrailPoints
    ensures |r| <= MaxTrailPoints
    ensures r != [] && r[|r| - 1] == pos
    ensures |trail| < MaxTrailPoints ==> r == trail + [pos]
    ensures |trail| == MaxTrailPoints ==> r == trail[1..] + [pos]
  {
    var pushed := trail + [pos];
    if |pushed| > MaxTrailPoints then pushed[1..] else pushed
  }

  /** The trail after pushing each of `points` in turn. */
  function TrailAfter(trail: seq<Vec3>, points: seq<Vec3>): (r: seq<Vec3>)
    requires |trail| <= MaxTrailPoints
    ensures |r| <= MaxTrailPoints
    decreases |points|
  {
    if points == [] then trail
    else TrailPush(TrailAfter(trail, points[..|points| - 1]), points[|points| - 1])
  }

  /** The last `n` elements of `s` (all of them when there are fewer). */
  function LastN(s: seq<Vec3>, n: nat): seq<Vec3>
  {
    if |s| <= n then s else s[|s| - n..]
  }

  /** The trail is a sliding window: the newest MaxTrailPoints points of the old trail and the pushes. */
  lemma {:induction false} TrailIsWindow(trail: seq<Vec3>, points: seq<Vec3>)
    requires |trail| <= MaxTrailPoints
    ensures TrailAfter(trail, points) == LastN(trail + points, MaxTrailPoints)
    decreases |points|
  {
    if points != [] {
      var init := points[..|points| - 1];
      var last := points[|points| - 1];
      TrailIsWindow(trail, init);
      assert trail + points == (trail + init) + [last];
      var before := trail + init;
      if |before| < MaxTrailPoints {
        assert LastN(before, MaxTrailPoints) == before;
      } else {
        var w := LastN(before, MaxTrailPoints);
        assert |w| == MaxTrailPoints;
        assert w[1..] + [last] == (before + [last])[|before + [last]| - MaxTrailPoints..];
      }
    }
  }

  /**
   * The trail's vertex buffers describe `points`: three coordinates per
   * point, in order, and one colour per point, every one the colour of the
   * regime passed in.
   */
  predicate Describes(positions: seq<real>, colors: seq<int>, points: seq<Vec3>, regime: string)
  {
    && |positions| == 3 * |points|
    && |colors| == |points|
    && (forall i :: 0 <= i < |points| ==>
          positions[3 * i] == points[i].x && positions[3 * i + 1] == points[i].y && positions[3 * i + 2] == points[i].z)
    && (forall i :: 0 <= i < |points| ==> colors[i] == Telemetry.RegimeColor(regime))
  }

  /** The `forEach` that fills the position and colour arrays from the trail. */
  method FillTrailBuffers(points: seq<Vec3>, regime: string) returns (positions: seq<real>, colors: seq<int>)
    ensures Describes(positions, colors, points, regime)
  {
    positions := [];
    colors := [];
    for i := 0 to |points|
      invariant Describes(positions, colors, points[..i], regime)
    {
      var p := points[i];
      positions := positions + [p.x, p.y, p.z];
      colors := colors + [Telemetry.RegimeColor(regime)];
    }
    assert points[..|points|] == points;
  }

  class MarketJet {
    /** The mesh position. */
    var position: Vec3
    var trailPoints: seq<Vec3>
    const maxTrailPoints: nat
    /** The trail geometry's `position` attribute. */
    var trailPositions: seq<real>
    /** The trail geometry's `color` attribute, one regime colour per point. */
    var trailColors: seq<int>

    ghost predicate Valid()
      reads this
    {
      maxTrailPoints == MaxTrailPoints && |trailPoints| <= maxTrailPoints
    }

    /** A new jet sits at the origin with an empty trail. */
    constructor ()
      ensures Valid()
      ensures position == Vec3(0.0, 0.0, 0.0) && trailPoints == []
      ensures trailPositions == [] && trailColors == []
    {
      position := Vec3(0.0, 0.0, 0.0);
      trailPoints := [];
      trailPositions := [];
      trailColors := [];
      maxTrailPoints := MaxTrailPoints;
    }

    /**
     * `update`: move the jet to the chosen position and push that position
     * onto the trail. The buffers are refilled only once the trail has more
     * than one point, all in the colour of this frame's regime; otherwise
     * they keep what they held.
     */
    method Update(frame: Frame, pilotPos: Option<Vec3>)
      requires Valid()
      modifies this
      ensures Valid()
      ensures position == ChosenPosition(frame, pilotPos)
      ensures trailPoints == TrailPush(old(trailPoints), position)
      ensures |trailPoints| > 1 ==> Describes(trailPositions, trailColors, trailPoints, frame.regime)
      ensures |trailPoints| <= 1 ==> trailPositions == old(trailPositions) && trailColors == old(trailColors)
    {
      var pos := if pilotPos.Some? then pilotPos.value else Vec3(frame.x, frame.y, frame.z);
      position := pos;
      trailPoints := trailPoints + [pos];
      if |trailPoints| > maxTrailPoints {
        trailPoints := trailPoints[1..];
      }
      if |trailPoints| > 1 {
        trailPositions, trailColors := FillTrailBuffers(trailPoints, frame.regime);
      }
    }

    /** `resetTrail`: empty the trail and leave the jet and the uploaded buffers as they are. */
    method ResetTrail()
      requires Valid()
      modifies this
      ensures Valid()
      ensures trailPoints == [] && position == old(position)
      ensures trailPositions == old(trailPositions) && trailColors == old(trailColors)
    {
      trailPoints := [];
    }
  }
}
