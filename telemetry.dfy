/**
 * Small helpers over frames: the colour of a regime, the IV/HV ratio and
 * navigation from the current frame to the next or previous flagged frame.
 */
module Telemetry {
  import opened Jsonl
  import opened JsMath

  const TaxiColor: int := 0xaaaaaa
  const CruiseColor: int := 0x00ff88
  const ManeuverColor: int := 0xffff00
  const RuptureColor: int := 0xff0055

  /** `getRegimeColor`: a 24-bit RGB colour per regime tag; an unknown tag gets the cruise colour. */
  function RegimeColor(regime: string): (color: int)
    ensures 0 <= color < 0x1000000
  {
    if regime == "TAXI" then TaxiColor
    else if regime == "CRUISE" then CruiseColor
    else if regime == "MANEUVER" then ManeuverColor
    else if regime == "RUPTURE" then RuptureColor
    else CruiseColor
  }

  /** The colour table, entry by entry. */
  lemma RegimeColorTable()
    ensures RegimeColor(RegimeName(Taxi)) == 0xaaaaaa
    ensures RegimeColor(RegimeName(Cruise)) == 0x00ff88
    ensures RegimeColor(RegimeName(Maneuver)) == 0xffff00
    ensures RegimeColor(RegimeName(Rupture)) == 0xff0055
  {
  }

  /** The cruise colour is shown for the cruise tag and for every tag that is not a regime name. */
  lemma CruiseColorIsTheDefault(regime: string)
    ensures RegimeColor(regime) == CruiseColor <==>
            regime == "CRUISE" || (regime != "TAXI" && regime != "MANEUVER" && regime != "RUPTURE")
  {
  }

  /** The four regimes are told apart by colour. */
  lemma RegimeColorsDistinct(r1: Regime, r2: Regime)
    ensures RegimeColor(RegimeName(r1)) == RegimeColor(RegimeName(r2)) <==> r1 == r2
  {
    RegimeNameInjective(r1, Taxi);
    RegimeNameInjective(r1, Cruise);
    RegimeNameInjective(r2, Taxi);
    RegimeNameInjective(r2, Cruise);
    RegimeNameInjective(r1, r2);
  }

  /** `getIVHV`: implied over historical volatility, with 1e-9 standing in for a zero `hv`. */
  function IvHv(f: Frame): real
  {
    f.iv / OrEpsilon(f.hv)
  }

  lemma IvHvMeaning(f: Frame)
    ensures f.hv != 0.0 ==> IvHv(f) * f.hv == f.iv
    ensures f.hv == 0.0 ==> IvHv(f) * Epsilon == f.iv
    ensures f.hv > 0.0 && f.iv >= 0.0 ==> IvHv(f) >= 0.0
  {
    var d := OrEpsilon(f.hv);
    assert IvHv(f) * d == f.iv;
    if f.hv > 0.0 && f.iv >= 0.0 {
      QuotientNonNegative(f.iv, f.hv);
    }
  }

  predicate Flagged(frames: seq<Frame>, k: int)
    requires 0 <= k < |frames|
  {
    |frames[k].flags| > 0
  }

  /**
   * `findNextFlag`: the first flagged frame strictly after `currentIndex`,
   * or `currentIndex` itself when there is none. The scan reads
   * `frames[currentIndex + 1]` first, so the index may not be below -1.
   */
  method FindNextFlag(frames: seq<Frame>, currentIndex: int) returns (r: int)
    requires -1 <= currentIndex
    ensures r == currentIndex || (currentIndex < r < |frames| && Flagged(frames, r))
    ensures r != currentIndex ==> forall k :: currentIndex < k < r ==> !Flagged(frames, k)
    ensures r == currentIndex ==> forall k :: currentIndex < k < |frames| ==> !Flagged(frames, k)
    ensures 0 <= currentIndex < |frames| ==> 0 <= r < |frames|
  {
    var i := currentIndex + 1;
    while i < |frames|
      invariant currentIndex + 1 <= i
      invariant forall k :: currentIndex < k < i && k < |frames| ==> !Flagged(frames, k)
      decreases |frames| - i
    {
      if |frames[i].flags| > 0 {
        return i;
      }
      i := i + 1;
    }
    return currentIndex;
  }

  /**
   * `findPrevFlag`: the last flagged frame strictly before `currentIndex`,
   * or `currentIndex` itself when there is none. The scan reads
   * `frames[currentIndex - 1]` first, so the index may not pass the end by more than one.
   */
  method FindPrevFlag(frames: seq<Frame>, currentIndex: int) returns (r: int)
    requires currentIndex <= |frames|
    ensures r == currentIndex || (0 <= r < currentIndex && Flagged(frames, r))
    ensures r != currentIndex ==> forall k :: r < k < currentIndex ==> !Flagged(frames, k)
    ensures r == currentIndex ==> forall k :: 0 <= k < currentIndex ==> !Flagged(frames, k)
    ensures 0 <= currentIndex < |frames| ==> 0 <= r < |frames|
  {
    var i := currentIndex - 1;
    while i >= 0
      invariant i <= currentIndex - 1
      invariant forall k :: i < k < currentIndex && 0 <= k ==> !Flagged(frames, k)
      decreases i
    {
      if |frames[i].flags| > 0 {
        return i;
      }
      i := i - 1;
    }
    return currentIndex;
  }
}
