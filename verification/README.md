# Orekit attitude sequencing and spacecraft state, in Dafny

This project models two coupled pieces of Orekit:

- `AttitudesSequence` (module `Attitudes`): a state machine that keeps one
  active attitude provider and a switching map from each provider to the
  switch edges leaving it. Providers are registered lazily as they are
  mentioned. The active provider changes on `resetActiveProvider`, on the
  first `addSwitchingCondition` of a new provider while none is active, or
  when a wrapped event detector (inner class `Switch`) reports a crossing in a
  direction that triggers its edge. Every other detector query is passed
  through unchanged. Providers and detectors are identity handles (`nat`).
  The mutable Java object is modelled as a value that each operation takes
  and returns.
- `SpacecraftState` (module `Propagation`): an immutable triple of orbit,
  attitude and mass. The constructors taking an explicit attitude check that
  orbit and attitude have the same date and then the same frame object, and
  throw an `IllegalArgumentException` naming the mismatch otherwise. The
  constructors without a mass use 1000 kg. `shiftedBy` and `interpolate`
  delegate the numerics to `Orbit`, `Attitude` and a Hermite interpolator,
  and pass the results through the checking constructor again. A datatype
  value cannot be changed after it is built, and `shiftedBy`/`interpolate`
  return new values; this matches the `final` fields of the Java class.

Module `SwitchingRuns` states properties of whole configurations
(a series of `addSwitchingCondition` calls) and runs (a series of crossings).
`Collaborators` holds the external value types (`AbsoluteDate` as seconds from
a reference epoch, frames as identity handles, `Orbit`, `Attitude`) and the
error taxonomy. `Results` holds `Option`, `Result` and `Outcome`.

Collaborator behaviour is never fixed. `Orbit.shiftedBy`, `Attitude.shiftedBy`,
`Orbit.interpolate`, `Attitude.interpolate`, `HermiteInterpolator.addSamplePoint`,
`HermiteInterpolator.value` and the VVLH `LofOffset` attitude law are fields of the `Delegates` record. Attitude
providers and event detectors are functions passed as parameters. The
properties that need those collaborators to behave are stated as lemmas under
explicit hypotheses, and nothing else:

- `ShiftLaw`: a shift by `dt` moves the date by `dt` and keeps the frame.
- `InterpolationLaw`: interpolation, when it answers, answers at the requested
  date, in the receiver's frame.
- `InterpolatorsAnswer`: on a given call of `interpolate`, no mass point
  addition and none of the three interpolators throws.
- `LofOffsetHonoursRequest`: an attitude law answers at the requested date
  and frame.
- The hypothesis of `ShiftedByZero`: the collaborators' own shifts by zero
  give back exactly the orbit and the attitude they are applied to.

## Model

| member | source | states |
|---|---|---|
| `Propagation.CheckConsistency` | src/main/java/org/orekit/propagation/SpacecraftState.java:142-154 | Passes iff dates are equal and frames are the same object; the date mismatch is reported first, and each error names both mismatched values |
| `Propagation.Create` | src/main/java/org/orekit/propagation/SpacecraftState.java:128-134 | Succeeds iff orbit and attitude are consistent, and then stores exactly its three arguments; otherwise the date error, or with equal dates the frame error |
| `Propagation.FromOrbitAndAttitude` | src/main/java/org/orekit/propagation/SpacecraftState.java:100-106 | Same checks and errors as the three-argument constructor; on success the mass is 1000 |
| `Propagation.FromOrbitAndMass` | src/main/java/org/orekit/propagation/SpacecraftState.java:114-119 | No consistency check. Fails exactly when the default VVLH attitude cannot be computed, forwarding that error. Otherwise stores the orbit, the default attitude and the given mass unchanged |
| `Propagation.FromOrbit` | src/main/java/org/orekit/propagation/SpacecraftState.java:86-91 | Fails exactly when the default attitude fails, with its error; otherwise orbit, default attitude and mass 1000 |
| `Propagation.DefaultAttitudeIsConsistent` | src/main/java/org/orekit/propagation/SpacecraftState.java:89-90 | The unchecked orbit-only constructors still yield consistent states, provided the attitude law answers at the requested date and frame |
| `Propagation.CheckedProjections` | src/main/java/org/orekit/propagation/SpacecraftState.java:226-235 | getDate and getFrame read the orbit; on any state a checking constructor returned they equal the attitude's date and frame |
| `Propagation.ShiftedBy` | src/main/java/org/orekit/propagation/SpacecraftState.java:186-188 | Orbit and attitude are the collaborators' shifted ones, the mass is the original's. The result fails iff the shifted pair is inconsistent, with the checking constructor's error: a date mismatch carrying both dates first, else a frame mismatch carrying both frames |
| `Propagation.ShiftedByKeepsConsistency` | src/main/java/org/orekit/propagation/SpacecraftState.java:186-188 | With shifts that move the date by dt and keep the frame, shifting a consistent state never fails. The result is consistent, at date + dt, in the same frame, with the same mass |
| `Propagation.ShiftedByZero` | src/main/java/org/orekit/propagation/SpacecraftState.java:186-188 | A zero shift returns the same state when the collaborators' zero shifts are identities |
| `Propagation.AddSamplePoints` | src/main/java/org/orekit/propagation/SpacecraftState.java:202-210 | Adding the mass points in order passes iff every addition, made to an interpolator holding the earlier points, passes. A failure is the exception of the first addition that throws |
| `Propagation.AddSamplePointsFailureSticks` | src/main/java/org/orekit/propagation/SpacecraftState.java:203-210 | Once an addition throws, later points do not change the outcome: the loop is left at the first exception |
| `Propagation.CollectSamples` | src/main/java/org/orekit/propagation/SpacecraftState.java:200-210 | The loop's outcome is that of adding the mass points in order. When it completes, there is one orbit, one attitude and one mass point per sample, in iteration order. Each mass point is the sample's mass at abscissa sample date minus target date |
| `Propagation.Interpolate` | src/main/java/org/orekit/propagation/SpacecraftState.java:198-214 | An exception is passed on from the first that throws of: the mass point additions in the sample loop, then the orbit interpolator, the attitude interpolator, and the mass interpolator's value. When all answer, the call succeeds exactly when their orbit and attitude are consistent, and otherwise fails with the checking constructor's error: a date mismatch carrying both dates when the dates differ, else a frame mismatch carrying both frames. A success holds the receiver's orbit and attitude interpolated over the collected lists, and the Hermite value at zero over the mass points. When all answer, the interpolators obey the interpolation law, and the receiver is consistent, it succeeds, is consistent, and sits at the target date in the receiver's frame |
| `Attitudes.InitialIsValid` | src/main/java/org/orekit/attitudes/AttitudesSequence.java:62-65 | The new sequence (no active provider, empty map) satisfies the invariant |
| `Attitudes.ResetActiveProvider` | src/main/java/org/orekit/attitudes/AttitudesSequence.java:70-79 | Afterwards p is active and registered. A known p keeps its edges, a new p gets none, every other entry is unchanged, and the invariant is preserved |
| `Attitudes.AddSwitchingCondition` | src/main/java/org/orekit/attitudes/AttitudesSequence.java:119-145 | before is always registered. It becomes active iff it was new and no provider was active. A null event adds no edge and does not register after. Otherwise after is registered and exactly one Switch is appended to the end of before's list. All other lists are unchanged and the invariant is preserved |
| `Attitudes.EventOccurred` | src/main/java/org/orekit/attitudes/AttitudesSequence.java:191-201 | The active provider becomes next iff the direction test passes, and is otherwise unchanged. The switch happens even when the wrapped detector then throws. The map is untouched. The wrapped detector's action or exception is returned unchanged. The invariant is preserved for edges the sequence holds |
| `Attitudes.SwitchIsTransparent` | src/main/java/org/orekit/attitudes/AttitudesSequence.java:203-228 | g, getMaxCheckInterval, getMaxIterationCount, getThreshold and resetState of an edge equal the wrapped detector's |
| `Attitudes.GetAttitude` | src/main/java/org/orekit/attitudes/AttitudesSequence.java:148-153 | Returns the active provider's answer, error included; with no active provider it fails with the null-provider error |
| `Attitudes.AttitudeAfterSwitch` | src/main/java/org/orekit/attitudes/AttitudesSequence.java:148-153 | After an edge fires on a crossing in a direction it switches on, attitudes come from that edge's target provider |
| `Attitudes.AddSwitchingConditionEdges` | src/main/java/org/orekit/attitudes/AttitudesSequence.java:133-143 | The edge multiset grows by exactly the one Switch built when the event is non-null, and not at all for a null event |
| `Attitudes.AddEventDetectors` | src/main/java/org/orekit/attitudes/AttitudesSequence.java:91-93 | One provider's edges are added to the propagator in list order, each once |
| `Attitudes.RegisterSwitchEvents` | src/main/java/org/orekit/attitudes/AttitudesSequence.java:89-95 | The edges added are the providers' lists concatenated, each in list order, over an unspecified order that visits every provider exactly once. Hence they are the map's edges as a multiset: each is added exactly once, their number is the total edge count, and an edge is added iff the map holds it |
| `Attitudes.InactiveEdgeStillSwitches` | src/main/java/org/orekit/attitudes/AttitudesSequence.java:191-201 | Counterexample: an edge leaving a provider that is not active still moves the sequence, to a provider the active one has no edge to |
| `Attitudes.GuardedEventOccurred` | src/main/java/org/orekit/attitudes/AttitudesSequence.java:34-40 | Corrected switching: an edge leaving before fires only while before is active. Every change of active provider then follows a registered edge from the active provider |
| `SwitchingRuns.ConfigureEdges` | src/main/java/org/orekit/attitudes/AttitudesSequence.java:119-145 | A series of addSwitchingCondition calls adds to the edge multiset exactly the Switches of the calls with a non-null event |
| `SwitchingRuns.RegisteredAreDeclared` | src/main/java/org/orekit/attitudes/AttitudesSequence.java:81-95 | From a new sequence, the edges registerSwitchEvents hands over are exactly the declared ones, each once |
| `SwitchingRuns.ConfigureValid` | src/main/java/org/orekit/attitudes/AttitudesSequence.java:126-141 | Configuring preserves the invariant, never unregisters a provider, and only appends to edge lists |
| `SwitchingRuns.ConfigureKeepsActive` | src/main/java/org/orekit/attitudes/AttitudesSequence.java:126-131 | Once a provider is active, no addSwitchingCondition changes it |
| `SwitchingRuns.ResetThenConfigure` | src/main/java/org/orekit/attitudes/AttitudesSequence.java:70-79 | After resetActiveProvider(p), any switching conditions leave p active |
| `SwitchingRuns.FirstBeforeBecomesActive` | src/main/java/org/orekit/attitudes/AttitudesSequence.java:126-131 | Without a reset, the first before mentioned becomes the active provider |
| `SwitchingRuns.CyclesReturnToStart` | src/main/java/org/orekit/attitudes/AttitudesSequence.java:36-40 | A two-provider entry/exit loop started in one provider is back in it after any number of whole cycles, under either switching rule, with the map unchanged |
| `SwitchingRuns.EclipseLoop` | src/main/java/org/orekit/attitudes/AttitudesSequence.java:36-40 | The sunlit/eclipse example configured from a new sequence ends every whole number of orbits with the sunlit provider active |
| `SwitchingRuns.DirectionDecidesSwitch` | src/main/java/org/orekit/attitudes/AttitudesSequence.java:194-197 | For an increasing-only edge, an increasing crossing activates the target and a decreasing one leaves the source active |

## Left out

- The sample `Collection` of `interpolate` is a sequence; its order is the collection's iteration order.
- Interpolating a set of identical samples, or shifted copies of one state, gives back that state only within numerical tolerance. That depends on Hermite numerics, so it is not stated.
- Hermite interpolation numerics, Keplerian orbit extrapolation and linear attitude extrapolation are floating point in classes not shown; they are uninterpreted fields of `Delegates`. Dates and masses are exact reals, so rounding is not modelled.
- `Propagation.ShiftedByZero`: the source promises a zero shift returns the same state only within rounding; the model proves exact equality under the hypothesis that the collaborators' zero shifts are exact identities.
- When `Orbit.interpolate`, `Attitude.interpolate`, `HermiteInterpolator.addSamplePoint` and `HermiteInterpolator.value` throw, for instance on an empty sample or a repeated date, is up to those classes, whose code is not part of this model. They are fields of `Delegates` that may fail, and `interpolate` passes their failures on. Its success claims are stated under `InterpolatorsAnswer`.
- The default attitude computation (`LofOffset` with `LOFType.VVLH`) is not modelled; it is the `lofOffset` field of `Delegates`, called with the orbit's frame, the orbit, its date and its frame.
- `toTransform`, `getMu`, the Keplerian period and mean motion, and the orbital-element and position/velocity accessors are pure delegation to `Orbit`. They are left out.
- Serialization of both classes is left out.
- Null provider handles are not modelled. Java's `HashMap` accepts a null `before` or `after`, and switching to a null `after` would later make `getAttitude` dereference null. Here every provider is a handle.
- Propagator internals and event root finding are external. `registerSwitchEvents` returns the detectors it would add, in the order it adds them, instead of calling `Propagator.addEventDetector`. A run is modelled as a given series of crossings, and the actions the detectors return are not fed back into the propagator.
- `HalfTrackSampler`, the step-handler adapter in `FixedStepHandler` and `FixedRate` are outside the modelled core.

## Findings

| source | as written | input that shows it | evidently intended | confidence | as-written member | corrected member |
|---|---|---|---|---|---|---|
| src/main/java/org/orekit/attitudes/AttitudesSequence.java:191-200 | `Switch.eventOccurred` switches whenever its direction test passes. It never checks that the provider the edge leaves is the active one. | Edges 1→2 on detector 10 and 3→4 on detector 11, provider 1 active. An increasing crossing of detector 11 makes provider 4 active, though provider 1 has no edge to 4. | The class comment (lines 34-36) says only the switch events associated with the active provider switch it. | medium; not executed | `Attitudes.InactiveEdgeStillSwitches` | `Attitudes.GuardedEventOccurred` |
