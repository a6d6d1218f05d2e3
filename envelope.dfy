/**
 * The flight envelope's box: a min/max fold over the frames' coordinates,
 * the box extents (a zero extent falls back to 10), the box centre and the
 * height of the floor grid. The scene objects themselves are not modelled.
 */
module Envelope {
  import opened Wrappers
  import opened Jsonl
  import opened JsMath

  /** The extent used when a coordinate does not vary. */
  const FallbackExtent: real := 10.0

  datatype Box = Box(
    minX: real, maxX: real,
    minY: real, maxY: real,
    minZ: real, maxZ: real,
    width: real, height: real, depth: real,
    centerX: real, centerY: real, centerZ: real,
    floorY: real)

  datatype Axis = X | Y | Z

  function Coord(f: Frame, a: Axis): real
  {
    match a
    case X => f.x
    case Y => f.y
    case Z => f.z
  }

  /**
   * `Math.min(acc, v)` where the accumulator starts at +Infinity; `None`
   * stands for that starting value, which every real number is below.
   */
  function FoldMin(acc: Option<real>, v: real): (r: real)
    ensures r <= v && (acc.Some? ==> r <= acc.value)
    ensures r == v || (acc.Some? && r == acc.value)
  {
    match acc
    case None => v
    case Some(m) => Min(m, v)
  }

  /** `Math.max(acc, v)` with `None` for the starting -Infinity. */
  function FoldMax(acc: Option<real>, v: real): (r: real)
    ensures v <= r && (acc.Some? ==> acc.value <= r)
    ensures r == v || (acc.Some? && r == acc.value)
  {
    match acc
    case None => v
    case Some(m) => Max(m, v)
  }

  /** `(hi - lo) || 10`: a zero extent is replaced. */
  function Extent(lo: real, hi: real): (e: real)
    ensures lo <= hi ==> e > 0.0
    ensures hi - lo != 0.0 ==> e == hi - lo
    ensures hi == lo ==> e == FallbackExtent
  {
    if hi - lo != 0.0 then hi - lo else FallbackExtent
  }

  /** `m` is the least `a`-coordinate among the first `n` frames and one of them has it. */
  ghost predicate IsLeast(frames: seq<Frame>, n: nat, a: Axis, m: real)
    requires n <= |frames|
  {
    (forall k :: 0 <= k < n ==> m <= Coord(frames[k], a)) &&
    (exists k :: 0 <= k < n && Coord(frames[k], a) == m)
  }

  /** `m` is the greatest `a`-coordinate among the first `n` frames and one of them has it. */
  ghost predicate IsGreatest(frames: seq<Frame>, n: nat, a: Axis, m: real)
    requires n <= |frames|
  {
    (forall k :: 0 <= k < n ==> Coord(frames[k], a) <= m) &&
    (exists k :: 0 <= k < n && Coord(frames[k], a) == m)
  }

  /** What the two accumulators of one axis hold after `n` frames. */
  ghost predicate Folded(frames: seq<Frame>, n: nat, a: Axis, lo: Option<real>, hi: Option<real>)
    requires n <= |frames|
  {
    if n == 0 then lo.None? && hi.None?
    else lo.Some? && hi.Some? && IsLeast(frames, n, a, lo.value) && IsGreatest(frames, n, a, hi.value)
  }

  /** Folding in frame n keeps the accumulators the least and greatest of the first n + 1 frames. */
  lemma FoldStep(frames: seq<Frame>, n: nat, a: Axis, lo: Option<real>, hi: Option<real>)
    requires n < |frames| && Folded(frames, n, a, lo, hi)
    ensures Folded(frames, n + 1, a, Some(FoldMin(lo, Coord(frames[n], a))), Some(FoldMax(hi, Coord(frames[n], a))))
  {
    var v := Coord(frames[n], a);
    var lo', hi' := FoldMin(lo, v), FoldMax(hi, v);
    if n == 0 {
      assert Coord(frames[0], a) == lo' == hi';
    } else {
      var kl :| 0 <= kl < n && Coord(frames[kl], a) == lo.value;
      var kh :| 0 <= kh < n && Coord(frames[kh], a) == hi.value;
      if lo' == v {
        assert Coord(frames[n], a) == lo';
      } else {
        assert Coord(frames[kl], a) == lo';
      }
      if hi' == v {
        assert Coord(frames[n], a) == hi';
      } else {
        assert Coord(frames[kh], a) == hi';
      }
    }
  }

  /** The box every frame lies in, each face touching some frame. */
  predicate Encloses(b: Box, frames: seq<Frame>)
  {
    forall k :: 0 <= k < |frames| ==>
      && b.minX <= frames[k].x <= b.maxX
      && b.minY <= frames[k].y <= b.maxY
      && b.minZ <= frames[k].z <= b.maxZ
  }

  ghost predicate Touches(b: Box, frames: seq<Frame>)
  {
    && (exists k :: 0 <= k < |frames| && frames[k].x == b.minX)
    && (exists k :: 0 <= k < |frames| && frames[k].x == b.maxX)
    && (exists k :: 0 <= k < |frames| && frames[k].y == b.minY)
    && (exists k :: 0 <= k < |frames| && frames[k].y == b.maxY)
    && (exists k :: 0 <= k < |frames| && frames[k].z == b.minZ)
    && (exists k :: 0 <= k < |frames| && frames[k].z == b.maxZ)
  }

  /**
   * The bounds computed by the `FlightEnvelope` constructor. With no frames
   * the accumulators keep their infinite start values, which has no real
   * counterpart: that case is `None`.
   */
  method ComputeBox(frames: seq<Frame>) returns (box: Option<Box>)
    ensures box.None? <==> |frames| == 0
    ensures box.Some? ==> Encloses(box.value, frames) && Touches(box.value, frames)
    ensures box.Some? ==>
      var b := box.value;
      && b.width == Extent(b.minX, b.maxX)
      && b.height == Extent(b.minY, b.maxY)
      && b.depth == Extent(b.minZ, b.maxZ)
      && b.width > 0.0 && b.height > 0.0 && b.depth > 0.0
      && b.centerX == (b.minX + b.maxX) / 2.0
      && b.centerY == (b.minY + b.maxY) / 2.0
      && b.centerZ == (b.minZ + b.maxZ) / 2.0
      && b.floorY == b.minY - 2.0
    ensures box.Some? ==>
      var b := box.value;
      && b.minX <= b.centerX <= b.maxX
      && b.minY <= b.centerY <= b.maxY
      && b.minZ <= b.centerZ <= b.maxZ
  {
    var minX, maxX: Option<real> := None, None;
    var minY, maxY: Option<real> := None, None;
    var minZ, maxZ: Option<real> := None, None;
    for i := 0 to |frames|
      invariant Folded(frames, i, X, minX, maxX)
      invariant Folded(frames, i, Y, minY, maxY)
      invariant Folded(frames, i, Z, minZ, maxZ)
    {
      var f := frames[i];
      FoldStep(frames, i, X, minX, maxX);
      FoldStep(frames, i, Y, minY, maxY);
      FoldStep(frames, i, Z, minZ, maxZ);
      minX := Some(FoldMin(minX, f.x));
      maxX := Some(FoldMax(maxX, f.x));
      minY := Some(FoldMin(minY, f.y));
      maxY := Some(FoldMax(maxY, f.y));
      minZ := Some(FoldMin(minZ, f.z));
      maxZ := Some(FoldMax(maxZ, f.z));
    }
    if |frames| == 0 {
      return None;
    }
    var lx, hx, ly, hy, lz, hz := minX.value, maxX.value, minY.value, maxY.value, minZ.value, maxZ.value;
    assert Coord(frames[0], X) == frames[0].x && Coord(frames[0], Y) == frames[0].y && Coord(frames[0], Z) == frames[0].z;
    var width := Extent(lx, hx);
    var height := Extent(ly, hy);
    var depth := Extent(lz, hz);
    box := Some(Box(lx, hx, ly, hy, lz, hz, width, height, depth,
                    (lx + hx) / 2.0, (ly + hy) / 2.0, (lz + hz) / 2.0, ly - 2.0));
    assert forall k :: 0 <= k < |frames| ==>
      Coord(frames[k], X) == frames[k].x && Coord(frames[k], Y) == frames[k].y && Coord(frames[k], Z) == frames[k].z;
  }
}
