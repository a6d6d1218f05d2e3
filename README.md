# 4D flight envelope: a Dafny model of its core

The 4D flight envelope shows market telemetry as the flight of a jet through a
three-dimensional envelope:

- x is "structural airspeed", the distance of the spot from the gamma flip in average true ranges.
- y is "load factor", implied over historical volatility.
- z is "wall proximity", the distance to the put or call wall on the spot's side.

This project models and proves properties of the parts of that program that compute rather than draw:

- **Jsonl** (`jsonl.dfy`): the telemetry frame record and the JSONL loader. It splits the text
  on `'\n'`, skips the lines whose `trim()` is empty, and parses the others one by one. A line that
  does not parse is dropped and the rest are still read.
- **Generator** (`generator.dfy`): the free-walk generator. It runs a random walk of the spot and
  the implied volatility, maps each step to x, y and z, picks a regime from a first-match threshold
  ladder, and raises the `BREACH` flag outside the walls. `Math.random()` is replaced by an
  explicit sequence of draws. The loop is a method, proved equal to the specification function
  `SyntheticPath`.
- **Telemetry** (`telemetry.dfy`): the regime colour table, the IV/HV readout, and the scans for
  the next and the previous flagged frame.
- **Jet** (`jet.dfy`): the `MarketJet` class. `Update` moves the jet and pushes its position onto a
  trail of at most 500 points, dropping the oldest. Once there are two points or more, it refills
  the trail's vertex buffers, every vertex in the current frame's regime colour. `ResetTrail`
  empties the trail but leaves the buffers uploaded. The trail is proved to be a sliding window
  over everything pushed.
- **Envelope** (`envelope.dfy`): the envelope box. It is a min/max fold over the frames'
  coordinates, with a fallback extent of 10 for a coordinate that does not vary, the centre at the
  midpoints, and the floor grid 2 below the lowest load factor.
- **JsMath** (`jsmath.dfy`) and **Wrappers** (`wrappers.dfy`): `Math.abs`/`min`/`max`, the
  `d || 1e-9` zero guard, and `Option`.

Numbers are modelled as Dafny `real`, so the arithmetic is exact.

## Model

| member | source | states |
|---|---|---|
| Jsonl.Split | src/io/loadJsonl.ts:16 | `split('\n')` yields one piece more than there are newlines; no piece holds a newline; joining the pieces with newlines gives the text back |
| Jsonl.SplitJoin | src/io/loadJsonl.ts:16 | splitting newline-joined, newline-free pieces gives exactly those pieces back (the inverse direction of `Split`) |
| Jsonl.TrimEmptyIffBlank | src/io/loadJsonl.ts:20 | a line is skipped (its `trim()` is empty) exactly when it consists of ECMAScript whitespace only, the empty line included |
| Jsonl.Trim | src/io/loadJsonl.ts:20 | `trim()` as left then right trimming; `TrimEmptyIffBlank` states when it is empty |
| Jsonl.TrimStartRemovesPrefix | src/io/loadJsonl.ts:20 | left trimming removes a whitespace prefix and stops at the first other character |
| Jsonl.TrimEndRemovesSuffix | src/io/loadJsonl.ts:20 | right trimming removes a whitespace suffix and stops at the last other character |
| Jsonl.LineFrames | src/io/loadJsonl.ts:20-26 | one line contributes at most one frame |
| Jsonl.ParsedLines | src/io/loadJsonl.ts:17-28 | the loader keeps no more frames than there are lines |
| Jsonl.ParsedLinesSnoc | src/io/loadJsonl.ts:19-27 | reading one more line appends exactly what that line contributes |
| Jsonl.ParsedLinesConcat | src/io/loadJsonl.ts:19-27 | lines are filtered independently: the frames of two stretches of lines are the frames of each, concatenated, so a bad line never stops the loop |
| Jsonl.ParsedLinesMembers | src/io/loadJsonl.ts:19-27 | a frame is in the output if and only if it is the parse of some non-blank line |
| Jsonl.SkippedLinesYieldNothing | src/io/loadJsonl.ts:20-25 | blank and unparsable lines yield no frames |
| Jsonl.GoodLinesYieldOneEach | src/io/loadJsonl.ts:19-27 | when every line parses, the output is the lines' parses one for one, in order |
| Jsonl.OneCorruptLine | src/io/loadJsonl.ts:21-25 | N good lines with one unparsable line among them yield exactly N frames, those of the lines before and after it |
| Jsonl.ParseLines | src/io/loadJsonl.ts:16-28 | the imperative loop returns exactly `ParsedLines(Split(text))`, and at most one frame per line |
| Jsonl.LoadJsonl | src/io/loadJsonl.ts:13-29 | `loadJsonl` returns the filtered parses of the fetched text's lines |
| Jsonl.ParseJsonlFile | src/io/loadJsonl.ts:31-52 | `parseJsonlFile` resolves with the filtered parses of the file text's lines |
| Jsonl.RegimeNameInjective | src/io/loadJsonl.ts:9 | the four regime tags are distinct |
| JsMath.Abs | src/sim/generator.ts:29 | `Math.abs` is non-negative and is the value or its negation |
| JsMath.Max | src/sim/generator.ts:23 | `Math.max` is at least both arguments and is one of them |
| JsMath.Min | src/scene/envelope.ts:17 | `Math.min` is at most both arguments and is one of them |
| JsMath.OrEpsilon | src/sim/generator.ts:29-30 | `d \|\| 1e-9` is never zero; it is `d` unless `d` is zero, then 1e-9 |
| Generator.NextIv | src/sim/generator.ts:22-23 | the volatility update drifts 5% toward the target plus the shock `(r1 - 0.5) * 0.01`, then never goes below 0.01: the floor when the update falls below it, the update itself otherwise |
| Generator.NextSpot | src/sim/generator.ts:26 | the spot step `spot + (r2 - 0.5) * atr * 0.5`; its bound per draw is `SpotStepBound` |
| Generator.WalkAfter | src/sim/generator.ts:16-26 | the (spot, iv) state after k loop iterations, step k using draws 2k-2 (volatility) and 2k-1 (spot); `WalkIvFloor`, `SpotDrift`, `WalkCausal` and `SpotDependsOnEarlierDraw` state its properties |
| Generator.WalkIvFloor | src/sim/generator.ts:23 | after one step or more, the walk's volatility is at least 0.01 |
| Generator.SpotStepBound | src/sim/generator.ts:26 | one spot step moves by at most a quarter of the average true range, for any draw in [0, 1) |
| Generator.SpotDrift | src/sim/generator.ts:20-26 | after k steps the spot is within k quarter-ranges of the start spot |
| Generator.WalkCausal | src/sim/generator.ts:20-26 | the walk after k steps depends only on the first 2k draws |
| Generator.SpotDependsOnEarlierDraw | src/sim/generator.ts:20-26 | if two draw sequences differ only in the spot draw of step j <= k, the spots after k steps differ by exactly `(d1 - d2) * atr * 0.5` for that draw |
| Generator.SpotSeesItsDraw | src/sim/generator.ts:20-26 | with a non-zero range, changing the spot draw of any step j <= k changes the spot after k steps |
| Generator.FrameSeesEarlierDraw | src/sim/generator.ts:20-59 | with a non-zero range, frame k - 1 of the path shows a different spot when the spot draw of any step j <= k changes |
| Generator.AirspeedX | src/sim/generator.ts:29 | x = `Math.abs(spot - flip) / (atr \|\| 1e-9)`; `AirspeedMeaning` states what it means |
| Generator.AirspeedMeaning | src/sim/generator.ts:29 | x times the range (or 1e-9 for a zero range) is the distance to the flip; x is 0 exactly at the flip and non-negative for a non-negative range |
| Generator.LoadFactorY | src/sim/generator.ts:30 | y = `iv / (hv \|\| 1e-9)` with the fixed hv; `LoadFactorMeaning` states what it means |
| Generator.LoadFactorMeaning | src/sim/generator.ts:30 | the guard on the fixed HV of 0.12 never fires, so y is iv/0.12; on the floor volatility y is positive |
| Generator.WallProximityZ | src/sim/generator.ts:32-38 | z by the source's if/else: the distance to the call wall over the call wall's distance to the flip at or above the flip, the same with the put wall below it; `WallProximityMeaning` states what it means |
| Generator.WallProximityMeaning | src/sim/generator.ts:32-38 | z is non-negative, 0 exactly at the wall on the spot's side, and 1 at the flip |
| Generator.MakeFrame | src/sim/generator.ts:49-59 | the record pushed at step i: timestamp i, the walk's spot and iv, HV, x, y, z, the regime tag and the flags; `FrameCoordinates`, `FrameRegime` and `FrameFlags` state its properties |
| Generator.SyntheticPath | src/sim/generator.ts:20-60 | the path of n steps has n frames |
| Generator.SyntheticPathAt | src/sim/generator.ts:49-59 | frame i of the path is the frame of the walk after i + 1 steps |
| Generator.GenerateSyntheticPath | src/sim/generator.ts:14-63 | the loop returns exactly `SyntheticPath` for `max(steps, 0)` steps, its walk state equal to `WalkAfter` at every iteration |
| Generator.SyntheticPathFrames | src/sim/generator.ts:15-59 | one frame per step; frame i is stamped i, carries HV 0.12 and a volatility of at least 0.01, and is built from the walk after i + 1 steps |
| Generator.FrameCoordinates | src/sim/generator.ts:29-59 | every frame has timestamp i and HV 0.12; y = iv/0.12 > 0 on the floor; x >= 0 for a non-negative range; z >= 0 |
| Generator.Classify | src/sim/generator.ts:41-44 | the first-match ladder; `FrameRegime`, `TaxiBeatsManeuver` and `ClassifyMonotone` state its properties |
| Generator.FrameRegime | src/sim/generator.ts:41-44 | each regime tag holds if and only if its rung of the ladder is the first to match: RUPTURE for y > 2.5 or x > 4.5, then TAXI for x < 0.3, then MANEUVER for y > 1.5 or x > 2.5, else CRUISE |
| Generator.TaxiBeatsManeuver | src/sim/generator.ts:42-43 | the ladder's order matters: x < 0.3 with 1.5 < y <= 2.5 is TAXI, not MANEUVER |
| Generator.ClassifyMonotone | src/sim/generator.ts:41-44 | more airspeed or more load never gives a calmer regime |
| Generator.Flags | src/sim/generator.ts:46-47 | the flag list of one step; `FrameFlags` states when it holds BREACH |
| Generator.FrameFlags | src/sim/generator.ts:46-47 | the flags are `["BREACH"]` exactly when the spot is outside `[putWall, callWall]`, and empty otherwise |
| Telemetry.RegimeColor | src/sim/telemetry.ts:3-11 | every colour is a 24-bit RGB value |
| Telemetry.RegimeColorTable | src/sim/telemetry.ts:5-8 | TAXI, CRUISE, MANEUVER and RUPTURE map to 0xaaaaaa, 0x00ff88, 0xffff00 and 0xff0055 |
| Telemetry.CruiseColorIsTheDefault | src/sim/telemetry.ts:5-9 | the cruise colour is shown if and only if the tag is CRUISE or no regime name |
| Telemetry.RegimeColorsDistinct | src/sim/telemetry.ts:5-8 | two regimes get the same colour if and only if they are the same regime |
| Telemetry.IvHv | src/sim/telemetry.ts:13-15 | `iv / (hv \|\| 1e-9)` of a frame; `IvHvMeaning` states what it means |
| Telemetry.IvHvMeaning | src/sim/telemetry.ts:13-15 | the readout times hv (or 1e-9 for a zero hv) is iv; it is non-negative for positive hv and non-negative iv |
| Generator.IvHvIsLoadFactor | src/sim/telemetry.ts:13-15 | on a generated frame the IV/HV readout equals the frame's y |
| Telemetry.FindNextFlag | src/sim/telemetry.ts:17-22 | the result is the first flagged frame after the index, or the index itself exactly when no later frame is flagged |
| Telemetry.FindPrevFlag | src/sim/telemetry.ts:24-29 | the result is the last flagged frame before the index, or the index itself exactly when no earlier frame is flagged |
| Jet.ChosenPosition | src/scene/jet.ts:33 | the pilot position when one is given, else the frame's (x, y, z); `MarketJet.Update` moves the jet there |
| Jet.TrailPush | src/scene/jet.ts:37-40 | the trail never exceeds 500 points and ends with the new point; below 500 it gains the point, at 500 it also drops its oldest |
| Jet.TrailIsWindow | src/scene/jet.ts:37-40 | after any sequence of pushes the trail is the last 500 of the old trail followed by the pushed points |
| Jet.FillTrailBuffers | src/scene/jet.ts:43-55 | the position buffer holds each trail point's x, y, z in order, and the colour buffer holds one colour per point, all the current regime's |
| Jet.MarketJet.constructor | src/scene/jet.ts:9-30 | a new jet is at the origin with an empty trail and a bound of 500 |
| Jet.MarketJet.Update | src/scene/jet.ts:32-63 | the jet moves to the pilot position if one is given, else to the frame's (x, y, z); the trail becomes `TrailPush` of the old trail; the buffers describe the trail once it has two points or more, else they are unchanged |
| Jet.MarketJet.ResetTrail | src/scene/jet.ts:65-67 | the trail becomes empty; the jet's position and the uploaded buffers are unchanged |
| Envelope.Extent | src/scene/envelope.ts:26-28 | `(hi - lo) \|\| 10` is the extent when it is non-zero and 10 when it is zero, so it is always positive for ordered bounds |
| Envelope.FoldMin | src/scene/envelope.ts:17 | `Math.min` of the accumulator and a coordinate is at most both and is one of them; an accumulator still at its +Infinity start gives the coordinate |
| Envelope.FoldMax | src/scene/envelope.ts:18 | `Math.max` of the accumulator and a coordinate is at least both and is one of them; an accumulator still at its -Infinity start gives the coordinate |
| Envelope.FoldStep | src/scene/envelope.ts:16-23 | folding one more frame keeps each accumulator the least (or greatest) coordinate seen, attained by a seen frame |
| Envelope.ComputeBox | src/scene/envelope.ts:12-50 | no box exactly for no frames; otherwise every frame lies within the bounds and each bound is attained by some frame; extents are positive via the fallback of 10; the centre is the midpoint and lies within the bounds on every axis; the floor grid sits at minY - 2 |

## Left out

- Floating point: numbers are exact reals, so IEEE rounding, NaN and ±Infinity are not modelled.
- Generator.WallProximityZ: requires `callWall != flip` and `putWall != flip`. The source divides by `|wall - flip|` with no `|| 1e-9` guard, unlike x and y (src/sim/generator.ts:29-30 against 34-37). IEEE gives Infinity or NaN there, and the model requires both distances to be non-zero.
- Generator.GenerateSyntheticPath: carries the same non-degenerate-walls precondition, for the same reason.
- Generator.AirspeedMeaning: proves x >= 0 only for a non-negative range, because a negative `atr` gives a negative x in the source.
- Generator.GenerateSyntheticPath: `steps` is an integer. A fractional `steps` (the loop runs `ceil(steps)` times) is not modelled.
- `Math.random()`: it becomes the `draws` parameter, two draws per step. Their distribution is not modelled; `ValidDraws` states only their range.
- Jsonl.LoadJsonl, Jsonl.ParseJsonlFile: `fetch`, `response.text()`, `FileReader` and its `onerror` rejection are I/O and are left out; the methods take the text they deliver.
- `JSON.parse`: it is the `parse` parameter, `None` standing for a thrown exception. Only well-shaped parses are modelled. The source pushes whatever JSON value a line holds, such as `42` or `{}`, with no shape check. On such a value a later `frames[i].flags.length` (src/sim/telemetry.ts:19) throws.
- `console.warn` is output and is left out.
- Telemetry.FindNextFlag: requires `currentIndex >= -1`. Below that the source reads an `undefined` frame and throws.
- Telemetry.FindPrevFlag: requires `currentIndex <= frames.length`, for the same reason.
- Telemetry.FindNextFlag, Telemetry.FindPrevFlag: a fractional `currentIndex` is not modelled. During playback the index is fractional (src/main.ts:254), and the flag buttons pass it on as it is (src/main.ts:138, src/main.ts:141). Then `frames[i]` at a fractional `i` is `undefined`, and the scan throws at its first step whenever that index is in range.
- Jet.FillTrailBuffers: a colour is kept as its 24-bit value. The conversion into three float channels by `THREE.Color` is not modelled.
- `Float32Array` rounding of the positions is not modelled either.
- Envelope.ComputeBox: with no frames the source builds a box from infinite bounds. The model returns `None` instead, since reals have no Infinity.
- The Three.js scene objects are not modelled, for the parts they do not compute: meshes, materials, the threshold planes at x = 1 and x = 3, and the axis labels. `hud.ts` and `main.ts` (the playback loop, pilot mode, the UI) are UI code and are not part of this model.
- No scenario generator, breach latch or JSONL writer is modelled.
