/**
 * The free-walk telemetry generator.
 *
 * A random walk carries the spot price and the implied volatility from step
 * to step; each step maps them to the three coordinates (x: structural
 * airspeed, y: load factor, z: wall proximity), classifies a regime and
 * raises the BREACH flag when the spot is outside the walls.
 *
 * `Math.random()` is replaced by an explicit sequence of draws, two per
 * step: `draws[2*i]` moves the volatility and `draws[2*i + 1]` moves the
 * spot at step i.
 */
module Generator {
  import opened Jsonl
  import opened JsMath
  import Telemetry

  datatype GeneratorParams = GeneratorParams(
    steps: int,
    startSpot: real,
    startIv: real,
    targetIv: real,
    atr: real,
    flip: real,
    putWall: real,
    callWall: real)

  /** The historical volatility, fixed for the whole path. */
  const HV: real := 0.12
  /** The implied volatility is never allowed below this. */
  const IvFloor: real := 0.01
  const BreachTag: string := "BREACH"

  /** How many frames the loop `for (i = 0; i < steps; i++)` emits. */
  function Iterations(steps: int): nat
  {
    if steps > 0 then steps else 0
  }

  /** What `Math.random()` can return. */
  predicate ValidDraws(draws: seq<real>)
  {
    forall k :: 0 <= k < |draws| ==> 0.0 <= draws[k] < 1.0
  }

  /**
   * The wall-proximity coordinate divides by the distance from each wall to
   * the flip level without a guard, so neither distance may be zero.
   */
  predicate NonDegenerate(p: GeneratorParams)
  {
    p.callWall != p.flip && p.putWall != p.flip
  }

  // ----- the random walk -----

  /** The state carried from one step to the next. */
  datatype Walk = Walk(spot: real, iv: real)

  /** Drift toward the target volatility, a small shock, then the floor. */
  function NextIv(iv: real, targetIv: real, r1: real): (next: real)
    ensures next >= IvFloor
    ensures iv + (targetIv - iv) * 0.05 + (r1 - 0.5) * 0.01 >= IvFloor ==>
              next == iv + (targetIv - iv) * 0.05 + (r1 - 0.5) * 0.01
    ensures iv + (targetIv - iv) * 0.05 + (r1 - 0.5) * 0.01 < IvFloor ==> next == IvFloor
  {
    Max(IvFloor, iv + (targetIv - iv) * 0.05 + (r1 - 0.5) * 0.01)
  }

  /** An unbiased step scaled by half the average true range. */
  function NextSpot(spot: real, atr: real, r2: real): real
  {
    spot + (r2 - 0.5) * atr * 0.5
  }

  /** The walk after `k` steps; step k uses draws 2k-2 (volatility) and 2k-1 (spot). */
  function WalkAfter(p: GeneratorParams, draws: seq<real>, k: nat): (w: Walk)
    requires 2 * k <= |draws|
  {
    if k == 0 then Walk(p.startSpot, p.startIv)
    else
      var prev := WalkAfter(p, draws, k - 1);
      Walk(NextSpot(prev.spot, p.atr, draws[2 * k - 1]), NextIv(prev.iv, p.targetIv, draws[2 * k - 2]))
  }

  // ----- coordinates, regime, flags -----

  /** x: how many average true ranges the spot is away from the flip level. */
  function AirspeedX(spot: real, p: GeneratorParams): real
  {
    Abs(spot - p.flip) / OrEpsilon(p.atr)
  }

  /** y: the implied over the historical volatility. */
  function LoadFactorY(iv: real): real
  {
    iv / OrEpsilon(HV)
  }

  /** z: the distance to the wall on the spot's side, relative to that wall's distance from the flip level. */
  function WallProximityZ(spot: real, p: GeneratorParams): real
    requires NonDegenerate(p)
  {
    if spot >= p.flip then Abs(p.callWall - spot) / Abs(p.callWall - p.flip)
    else Abs(p.putWall - spot) / Abs(p.putWall - p.flip)
  }

  /** x counts average true ranges (1e-9 stands in for a zero range); it is never negative for a non-negative range. */
  lemma AirspeedMeaning(spot: real, p: GeneratorParams)
    ensures p.atr != 0.0 ==> AirspeedX(spot, p) * p.atr == Abs(spot - p.flip)
    ensures p.atr == 0.0 ==> AirspeedX(spot, p) * Epsilon == Abs(spot - p.flip)
    ensures p.atr >= 0.0 ==> AirspeedX(spot, p) >= 0.0
    ensures AirspeedX(spot, p) == 0.0 <==> spot == p.flip
  {
    var d := OrEpsilon(p.atr);
    var x := AirspeedX(spot, p);
    assert x * d == Abs(spot - p.flip);
    if d > 0.0 {
      QuotientNonNegative(Abs(spot - p.flip), d);
    }
  }

  /** The zero guard on the fixed historical volatility never fires. */
  lemma LoadFactorMeaning(iv: real)
    ensures LoadFactorY(iv) == iv / HV
    ensures iv >= IvFloor ==> LoadFactorY(iv) >= IvFloor / HV > 0.0
  {
  }

  /** z is 0 exactly at the wall on the spot's side and 1 at the flip level. */
  lemma WallProximityMeaning(spot: real, p: GeneratorParams)
    requires NonDegenerate(p)
    ensures WallProximityZ(spot, p) >= 0.0
    ensures spot >= p.flip ==> (WallProximityZ(spot, p) == 0.0 <==> spot == p.callWall)
    ensures spot < p.flip ==> (WallProximityZ(spot, p) == 0.0 <==> spot == p.putWall)
    ensures spot == p.flip ==> WallProximityZ(spot, p) == 1.0
  {
    var wall := if spot >= p.flip then p.callWall else p.putWall;
    var z := WallProximityZ(spot, p);
    assert z == Abs(wall - spot) / Abs(wall - p.flip);
    assert z * Abs(wall - p.flip) == Abs(wall - spot);
    assert spot == p.flip ==> Abs(wall - spot) == Abs(wall - p.flip);
    QuotientNonNegative(Abs(wall - spot), Abs(wall - p.flip));
  }

  /** The first-match threshold ladder. */
  function Classify(x: real, y: real): Regime
  {
    if y > 2.5 || x > 4.5 then Rupture
    else if x < 0.3 then Taxi
    else if y > 1.5 || x > 2.5 then Maneuver
    else Cruise
  }

  /** The regimes from calm to stressed. */
  function Severity(r: Regime): nat
  {
    match r
    case Taxi => 0
    case Cruise => 1
    case Maneuver => 2
    case Rupture => 3
  }

  function Flags(spot: real, p: GeneratorParams): seq<string>
  {
    if spot > p.callWall || spot < p.putWall then [BreachTag] else []
  }

  /** The frame emitted at step `i` once the walk has reached `w`. */
  function MakeFrame(p: GeneratorParams, i: nat, w: Walk): Frame
    requires NonDegenerate(p)
  {
    var x := AirspeedX(w.spot, p);
    var y := LoadFactorY(w.iv);
    Frame(i as real, w.spot, w.iv, HV, x, y, WallProximityZ(w.spot, p),
          RegimeName(Classify(x, y)), Flags(w.spot, p))
  }

  /** The first `n` frames of the path the draws determine. */
  function SyntheticPath(p: GeneratorParams, draws: seq<real>, n: nat): (frames: seq<Frame>)
    requires NonDegenerate(p) && 2 * n <= |draws|
    ensures |frames| == n
  {
    if n == 0 then []
    else SyntheticPath(p, draws, n - 1) + [MakeFrame(p, n - 1, WalkAfter(p, draws, n))]
  }

  /** Frame i of the path is the frame of the walk after i + 1 steps. */
  lemma {:induction false} SyntheticPathAt(p: GeneratorParams, draws: seq<real>, n: nat, i: nat)
    requires NonDegenerate(p) && 2 * n <= |draws| && i < n
    ensures SyntheticPath(p, draws, n)[i] == MakeFrame(p, i, WalkAfter(p, draws, i + 1))
  {
    if i < n - 1 {
      SyntheticPathAt(p, draws, n - 1, i);
    }
  }

  /** `generateSyntheticPath`. */
  method GenerateSyntheticPath(params: GeneratorParams, draws: seq<real>) returns (frames: seq<Frame>)
    requires NonDegenerate(params)
    requires 2 * Iterations(params.steps) <= |draws|
    ensures frames == SyntheticPath(params, draws, Iterations(params.steps))
  {
    frames := [];
    var currentSpot := params.startSpot;
    var currentIv := params.startIv;
    var i := 0;
    while i < params.steps
      invariant 0 <= i <= Iterations(params.steps)
      invariant |frames| == i
      invariant Walk(currentSpot, currentIv) == WalkAfter(params, draws, i)
      invariant frames == SyntheticPath(params, draws, i)
    {
      currentIv := NextIv(currentIv, params.targetIv, draws[2 * i]);
      currentSpot := NextSpot(currentSpot, params.atr, draws[2 * i + 1]);

      var x := AirspeedX(currentSpot, params);
      var y := LoadFactorY(currentIv);
      var z := WallProximityZ(currentSpot, params);

      var regime := Cruise;
      if y > 2.5 || x > 4.5 {
        regime := Rupture;
      } else if x < 0.3 {
        regime := Taxi;
      } else if y > 1.5 || x > 2.5 {
        regime := Maneuver;
      }
      assert regime == Classify(x, y);

      var flags: seq<string> := [];
      if currentSpot > params.callWall || currentSpot < params.putWall {
        flags := flags + [BreachTag];
      }
      assert flags == Flags(currentSpot, params);

      var frame := Frame(i as real, currentSpot, currentIv, HV, x, y, z, RegimeName(regime), flags);
      assert frame == MakeFrame(params, i, Walk(currentSpot, currentIv));
      assert WalkAfter(params, draws, i + 1) == Walk(currentSpot, currentIv);
      frames := frames + [frame];
      i := i + 1;
    }
  }

  // ----- properties of the generated frames -----

  /**
   * The path has one frame per step; frame i is stamped i, carries the fixed
   * historical volatility and a volatility on or above the floor, and is the
   * frame of the walk after i + 1 steps.
   */
  lemma SyntheticPathFrames(p: GeneratorParams, draws: seq<real>, n: nat)
    requires NonDegenerate(p) && 2 * n <= |draws|
    ensures |SyntheticPath(p, draws, n)| == n
    ensures forall i :: 0 <= i < n ==>
      SyntheticPath(p, draws, n)[i] == MakeFrame(p, i, WalkAfter(p, draws, i + 1))
    ensures forall i :: 0 <= i < n ==>
      && SyntheticPath(p, draws, n)[i].timestamp == i as real
      && SyntheticPath(p, draws, n)[i].hv == HV
      && SyntheticPath(p, draws, n)[i].iv >= IvFloor
  {
    forall i | 0 <= i < n
      ensures SyntheticPath(p, draws, n)[i] == MakeFrame(p, i, WalkAfter(p, draws, i + 1))
      ensures SyntheticPath(p, draws, n)[i].iv >= IvFloor
    {
      SyntheticPathAt(p, draws, n, i);
      WalkIvFloor(p, draws, i + 1);
    }
  }

  /** The coordinate bounds every generated frame satisfies. */
  lemma FrameCoordinates(p: GeneratorParams, i: nat, w: Walk)
    requires NonDegenerate(p)
    ensures MakeFrame(p, i, w).timestamp == i as real
    ensures MakeFrame(p, i, w).hv == HV
    ensures MakeFrame(p, i, w).y == w.iv / HV
    ensures w.iv >= IvFloor ==> MakeFrame(p, i, w).y >= IvFloor / HV > 0.0
    ensures p.atr >= 0.0 ==> MakeFrame(p, i, w).x >= 0.0
    ensures MakeFrame(p, i, w).z >= 0.0
  {
    AirspeedMeaning(w.spot, p);
    LoadFactorMeaning(w.iv);
    WallProximityMeaning(w.spot, p);
  }

  /** Every generated frame carries one of the four regime names, chosen by the ladder. */
  lemma FrameRegime(p: GeneratorParams, i: nat, w: Walk)
    requires NonDegenerate(p)
    ensures var f := MakeFrame(p, i, w);
      && (f.regime == "RUPTURE" <==> f.y > 2.5 || f.x > 4.5)
      && (f.regime == "TAXI" <==> !(f.y > 2.5 || f.x > 4.5) && f.x < 0.3)
      && (f.regime == "MANEUVER" <==> !(f.y > 2.5 || f.x > 4.5) && f.x >= 0.3 && (f.y > 1.5 || f.x > 2.5))
      && (f.regime == "CRUISE" <==> f.y <= 1.5 && 0.3 <= f.x <= 2.5)
  {
    var x := AirspeedX(w.spot, p);
    var y := LoadFactorY(w.iv);
    RegimeNameInjective(Classify(x, y), Rupture);
    RegimeNameInjective(Classify(x, y), Taxi);
    RegimeNameInjective(Classify(x, y), Maneuver);
    RegimeNameInjective(Classify(x, y), Cruise);
  }

  /** Precedence: a spot near the flip level is TAXI even under load up to 2.5. */
  lemma TaxiBeatsManeuver(x: real, y: real)
    requires x < 0.3 && 1.5 < y <= 2.5
    ensures Classify(x, y) == Taxi
  {
  }

  /** More airspeed or more load never gives a calmer regime. */
  lemma ClassifyMonotone(x1: real, y1: real, x2: real, y2: real)
    requires x1 <= x2 && y1 <= y2
    ensures Severity(Classify(x1, y1)) <= Severity(Classify(x2, y2))
  {
  }

  /** BREACH is raised exactly when the spot is outside the walls, and no other tag ever is. */
  lemma FrameFlags(p: GeneratorParams, i: nat, w: Walk)
    requires NonDegenerate(p)
    ensures var f := MakeFrame(p, i, w);
      && (f.flags == [BreachTag] <==> w.spot > p.callWall || w.spot < p.putWall)
      && (f.flags == [] <==> p.putWall <= w.spot <= p.callWall)
  {
  }

  /** After at least one step the volatility sits on or above its floor. */
  lemma WalkIvFloor(p: GeneratorParams, draws: seq<real>, k: nat)
    requires 1 <= k && 2 * k <= |draws|
    ensures WalkAfter(p, draws, k).iv >= IvFloor
  {
  }

  /** One step moves the spot by at most a quarter of the average true range. */
  lemma SpotStepBound(spot: real, atr: real, r2: real)
    requires 0.0 <= r2 < 1.0
    ensures Abs(NextSpot(spot, atr, r2) - spot) <= Abs(atr) * 0.25
  {
    var d := r2 - 0.5;
    assert NextSpot(spot, atr, r2) - spot == d * atr * 0.5;
    if atr >= 0.0 {
      assert -0.5 * atr <= d * atr <= 0.5 * atr;
    } else {
      assert 0.5 * atr <= d * atr <= -0.5 * atr;
    }
  }

  /** After k steps the spot is within k quarter-ranges of where it started. */
  lemma {:induction false} SpotDrift(p: GeneratorParams, draws: seq<real>, k: nat)
    requires 2 * k <= |draws| && ValidDraws(draws)
    ensures Abs(WalkAfter(p, draws, k).spot - p.startSpot) <= (k as real) * Abs(p.atr) * 0.25
  {
    if k > 0 {
      SpotDrift(p, draws, k - 1);
      var prev := WalkAfter(p, draws, k - 1);
      SpotStepBound(prev.spot, p.atr, draws[2 * k - 1]);
      assert (k as real) * Abs(p.atr) * 0.25 == ((k - 1) as real) * Abs(p.atr) * 0.25 + Abs(p.atr) * 0.25;
    }
  }

  /** The walk after k steps depends on the first 2k draws and on nothing later. */
  lemma {:induction false} WalkCausal(p: GeneratorParams, d1: seq<real>, d2: seq<real>, k: nat)
    requires 2 * k <= |d1| && 2 * k <= |d2|
    requires d1[..2 * k] == d2[..2 * k]
    ensures WalkAfter(p, d1, k) == WalkAfter(p, d2, k)
  {
    if k > 0 {
      assert d1[..2 * (k - 1)] == d1[..2 * k][..2 * (k - 1)];
      assert d2[..2 * (k - 1)] == d2[..2 * k][..2 * (k - 1)];
      WalkCausal(p, d1, d2, k - 1);
      assert d1[2 * k - 1] == d1[..2 * k][2 * k - 1];
      assert d1[2 * k - 2] == d1[..2 * k][2 * k - 2];
    }
  }

  /**
   * The spot is additive in its draws: two draw sequences that differ only
   * in the spot draw of step j leave spots after k >= j steps that differ by
   * exactly what that one draw contributed.
   */
  lemma {:induction false} SpotDependsOnEarlierDraw(p: GeneratorParams, d1: seq<real>, d2: seq<real>, j: nat, k: nat)
    requires 1 <= j <= k && 2 * k <= |d1| && 2 * k <= |d2|
    requires forall i :: 0 <= i < 2 * k && i != 2 * j - 1 ==> d1[i] == d2[i]
    ensures WalkAfter(p, d1, k).spot - WalkAfter(p, d2, k).spot == (d1[2 * j - 1] - d2[2 * j - 1]) * p.atr * 0.5
  {
    if k == j {
      assert d1[..2 * (k - 1)] == d2[..2 * (k - 1)];
      WalkCausal(p, d1, d2, k - 1);
      var r1, r2 := d1[2 * k - 1], d2[2 * k - 1];
      assert (r1 - 0.5) * p.atr * 0.5 - (r2 - 0.5) * p.atr * 0.5 == (r1 - r2) * p.atr * 0.5;
    } else {
      SpotDependsOnEarlierDraw(p, d1, d2, j, k - 1);
      assert d1[2 * k - 1] == d2[2 * k - 1];
    }
  }

  /** With a non-zero range, changing the spot draw of any step j <= k changes the spot after k steps. */
  lemma SpotSeesItsDraw(p: GeneratorParams, d1: seq<real>, d2: seq<real>, j: nat, k: nat)
    requires 1 <= j <= k && 2 * k <= |d1| && 2 * k <= |d2|
    requires forall i :: 0 <= i < 2 * k && i != 2 * j - 1 ==> d1[i] == d2[i]
    requires d1[2 * j - 1] != d2[2 * j - 1] && p.atr != 0.0
    ensures WalkAfter(p, d1, k).spot != WalkAfter(p, d2, k).spot
  {
    SpotDependsOnEarlierDraw(p, d1, d2, j, k);
    assert (d1[2 * j - 1] - d2[2 * j - 1]) * p.atr != 0.0;
  }

  /** Frame k - 1 of the path shows a different spot when the spot draw of any step j <= k changes. */
  lemma FrameSeesEarlierDraw(p: GeneratorParams, d1: seq<real>, d2: seq<real>, n: nat, j: nat, k: nat)
    requires NonDegenerate(p) && 1 <= j <= k <= n && 2 * n <= |d1| && 2 * n <= |d2|
    requires forall i :: 0 <= i < 2 * n && i != 2 * j - 1 ==> d1[i] == d2[i]
    requires d1[2 * j - 1] != d2[2 * j - 1] && p.atr != 0.0
    ensures SyntheticPath(p, d1, n)[k - 1].spot != SyntheticPath(p, d2, n)[k - 1].spot
  {
    SyntheticPathAt(p, d1, n, k - 1);
    SyntheticPathAt(p, d2, n, k - 1);
    SpotSeesItsDraw(p, d1, d2, j, k);
  }

  /** On a generated frame the IV/HV readout is the frame's load factor y. */
  lemma IvHvIsLoadFactor(p: GeneratorParams, i: nat, w: Walk)
    requires NonDegenerate(p)
    ensures Telemetry.IvHv(MakeFrame(p, i, w)) == MakeFrame(p, i, w).y
  {
  }
}
