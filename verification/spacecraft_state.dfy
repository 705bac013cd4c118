/** The composite spacecraft state of org.orekit.propagation.SpacecraftState: an
    immutable triple of orbit, attitude and mass, built by four constructors, two of
    which check that orbit and attitude agree on date and frame. Time shift and
    interpolation delegate the numerics to Orbit, Attitude and a Hermite
    interpolator, which are left uninterpreted (see `Delegates`). */
module Propagation {
  import opened Results
  import opened Collaborators

  /** Mass given to states built without an explicit mass (kg). */
  const DefaultMass: real := 1000.0

  /** One point handed to the mass Hermite interpolator: the sample's offset from
      the interpolation date, and its mass. */
  datatype SamplePoint = SamplePoint(abscissa: real, value: real)

  /** The collaborators SpacecraftState calls but whose code is not part of this
      model, one field per Java method, as total uninterpreted functions. */
  datatype Delegates = Delegates(
    /** Orbit.shiftedBy(dt), called on the given orbit. */
    orbitShiftedBy: (Orbit, real) -> Orbit,
    /** Attitude.shiftedBy(dt), called on the given attitude. */
    attitudeShiftedBy: (Attitude, real) -> Attitude,
    /** Orbit.interpolate(date, sample), called on the given (receiver) orbit; it may throw. */
    orbitInterpolate: (Orbit, AbsoluteDate, seq<Orbit>) -> Result<Orbit, Error>,
    /** Attitude.interpolate(date, sample), called on the given (receiver) attitude; it may throw. */
    attitudeInterpolate: (Attitude, AbsoluteDate, seq<Attitude>) -> Result<Attitude, Error>,
    /** HermiteInterpolator.addSamplePoint, adding the given point to an
        interpolator that already holds the given points; it may throw. */
    hermiteAddSamplePoint: (seq<SamplePoint>, SamplePoint) -> Outcome<Error>,
    /** HermiteInterpolator.value(0)[0] on an interpolator holding the given
        points; it may throw, for instance when it holds none. */
    hermiteValueAtZero: seq<SamplePoint> -> Result<real, Error>,
    /** new LofOffset(lofFrame, LOFType.VVLH).getAttitude(pv, date, frame). */
    lofOffset: (FrameId, Orbit, AbsoluteDate, FrameId) -> Result<Attitude, Error>)

  /** Orbit and attitude are at the same date, in the same frame object. */
  predicate Consistent(orbit: Orbit, attitude: Attitude) {
    orbit.date == attitude.date && orbit.frame == attitude.referenceFrame
  }

  /** A spacecraft state. The fields are never changed once built; getOrbit,
      getAttitude and getMass are the datatype's destructors. */
  datatype SpacecraftState = SpacecraftState(orbit: Orbit, attitude: Attitude, mass: real)
  {
    /** getDate: the date is read from the orbit. */
    function Date(): AbsoluteDate {
      orbit.date
    }

    /** getFrame: the frame is read from the orbit. */
    function Frame(): FrameId {
      orbit.frame
    }

    predicate IsConsistent() {
      Consistent(orbit, attitude)
    }
  }

  /* ---------------- construction ---------------- */

  /** checkConsistency: the date check comes first, then the frame check; each
      failure names both mismatched values. */
  function CheckConsistency(orbit: Orbit, attitude: Attitude): (r: Outcome<Error>)
    ensures r.Pass? <==> Consistent(orbit, attitude)
    ensures orbit.date != attitude.date ==> r == Fail(DatesMismatch(orbit.date, attitude.date))
    ensures orbit.date == attitude.date && orbit.frame != attitude.referenceFrame ==>
              r == Fail(FramesMismatch(orbit.frame, attitude.referenceFrame))
  {
    if orbit.date != attitude.date then
      Fail(DatesMismatch(orbit.date, attitude.date))
    else if orbit.frame != attitude.referenceFrame then
      Fail(FramesMismatch(orbit.frame, attitude.referenceFrame))
    else
      Pass
  }

  /** SpacecraftState(orbit, attitude, mass): checked, then stores its three arguments. */
  function Create(orbit: Orbit, attitude: Attitude, mass: real): (r: Result<SpacecraftState, Error>)
    ensures r.Ok? <==> Consistent(orbit, attitude)
    ensures r.Ok? ==> r.value.orbit == orbit && r.value.attitude == attitude && r.value.mass == mass
    ensures r.Ok? ==> r.value.IsConsistent()
    ensures orbit.date != attitude.date ==> r == Err(DatesMismatch(orbit.date, attitude.date))
    ensures orbit.date == attitude.date && orbit.frame != attitude.referenceFrame ==>
              r == Err(FramesMismatch(orbit.frame, attitude.referenceFrame))
  {
    match CheckConsistency(orbit, attitude)
    case Fail(e) => Err(e)
    case Pass => Ok(SpacecraftState(orbit, attitude, mass))
  }

  /** SpacecraftState(orbit, attitude): checked, with the default mass. */
  function FromOrbitAndAttitude(orbit: Orbit, attitude: Attitude): (r: Result<SpacecraftState, Error>)
    ensures r.Ok? <==> Consistent(orbit, attitude)
    ensures r.Ok? ==> r.value == SpacecraftState(orbit, attitude, 1000.0)
    ensures orbit.date != attitude.date ==> r == Err(DatesMismatch(orbit.date, attitude.date))
    ensures orbit.date == attitude.date && orbit.frame != attitude.referenceFrame ==>
              r == Err(FramesMismatch(orbit.frame, attitude.referenceFrame))
  {
    Create(orbit, attitude, DefaultMass)
  }

  /** The attitude the orbit-only constructors compute: the VVLH local orbital
      frame law built on the orbit's frame, asked at the orbit's date in the
      orbit's frame, with the orbit as position/velocity provider. */
  function DefaultAttitude(d: Delegates, orbit: Orbit): Result<Attitude, Error> {
    d.lofOffset(orbit.frame, orbit, orbit.date, orbit.frame)
  }

  /** SpacecraftState(orbit, mass): no consistency check; the default attitude
      computation may throw, and its exception is forwarded. */
  function FromOrbitAndMass(d: Delegates, orbit: Orbit, mass: real): (r: Result<SpacecraftState, Error>)
    ensures r.Ok? <==> DefaultAttitude(d, orbit).Ok?
    ensures r.Ok? ==> r.value == SpacecraftState(orbit, DefaultAttitude(d, orbit).value, mass)
    ensures r.Err? ==> r.error == DefaultAttitude(d, orbit).error
  {
    match DefaultAttitude(d, orbit)
    case Err(e) => Err(e)
    case Ok(attitude) => Ok(SpacecraftState(orbit, attitude, mass))
  }

  /** SpacecraftState(orbit): the default attitude and the default mass. */
  function FromOrbit(d: Delegates, orbit: Orbit): (r: Result<SpacecraftState, Error>)
    ensures r.Ok? <==> DefaultAttitude(d, orbit).Ok?
    ensures r.Ok? ==> r.value.orbit == orbit && r.value.mass == 1000.0
    ensures r.Ok? ==> r.value.attitude == DefaultAttitude(d, orbit).value
    ensures r.Err? ==> r.error == DefaultAttitude(d, orbit).error
  {
    FromOrbitAndMass(d, orbit, DefaultMass)
  }

  /** An attitude law honours its request: the attitude it returns is at the
      requested date, in the requested frame. */
  ghost predicate LofOffsetHonoursRequest(d: Delegates) {
    forall lofFrame: FrameId, pv: Orbit, date: AbsoluteDate, frame: FrameId
      | d.lofOffset(lofFrame, pv, date, frame).Ok? ::
      d.lofOffset(lofFrame, pv, date, frame).value.date == date
      && d.lofOffset(lofFrame, pv, date, frame).value.referenceFrame == frame
  }

  /** The orbit-only constructors skip the check, yet their states are
      consistent as long as the default attitude law answers what it was asked. */
  lemma DefaultAttitudeIsConsistent(d: Delegates, orbit: Orbit, mass: real)
    requires LofOffsetHonoursRequest(d)
    ensures FromOrbitAndMass(d, orbit, mass).Ok? ==> FromOrbitAndMass(d, orbit, mass).value.IsConsistent()
    ensures FromOrbit(d, orbit).Ok? ==> FromOrbit(d, orbit).value.IsConsistent()
  {
  }

  /** getDate and getFrame read the orbit; on every state a checking
      constructor returns they also give the attitude's date and frame. */
  lemma CheckedProjections(orbit: Orbit, attitude: Attitude, mass: real)
    requires Create(orbit, attitude, mass).Ok?
    ensures Create(orbit, attitude, mass).value.Date() == attitude.date
    ensures Create(orbit, attitude, mass).value.Frame() == attitude.referenceFrame
    ensures FromOrbitAndAttitude(orbit, attitude).value.Date() == attitude.date
    ensures FromOrbitAndAttitude(orbit, attitude).value.Frame() == attitude.referenceFrame
  {
  }

  /* ---------------- time shift ---------------- */

  /** shiftedBy(dt): orbit and attitude are shifted independently, the mass is
      kept, and the pair goes through the checking constructor again. */
  function ShiftedBy(d: Delegates, s: SpacecraftState, dt: real): (r: Result<SpacecraftState, Error>)
    ensures r.Ok? <==> Consistent(d.orbitShiftedBy(s.orbit, dt), d.attitudeShiftedBy(s.attitude, dt))
    ensures r.Ok? ==> r.value.orbit == d.orbitShiftedBy(s.orbit, dt)
    ensures r.Ok? ==> r.value.attitude == d.attitudeShiftedBy(s.attitude, dt)
    ensures r.Ok? ==> r.value.mass == s.mass
    ensures r.Err? ==> r.error.DatesMismatch? || r.error.FramesMismatch?
    ensures d.orbitShiftedBy(s.orbit, dt).date != d.attitudeShiftedBy(s.attitude, dt).date ==>
              r == Err(DatesMismatch(d.orbitShiftedBy(s.orbit, dt).date, d.attitudeShiftedBy(s.attitude, dt).date))
    ensures d.orbitShiftedBy(s.orbit, dt).date == d.attitudeShiftedBy(s.attitude, dt).date
            && d.orbitShiftedBy(s.orbit, dt).frame != d.attitudeShiftedBy(s.attitude, dt).referenceFrame ==>
              r == Err(FramesMismatch(d.orbitShiftedBy(s.orbit, dt).frame,
                                      d.attitudeShiftedBy(s.attitude, dt).referenceFrame))
  {
    Create(d.orbitShiftedBy(s.orbit, dt), d.attitudeShiftedBy(s.attitude, dt), s.mass)
  }

  /** Orbit.shiftedBy and Attitude.shiftedBy move the date by dt and keep the frame. */
  ghost predicate ShiftLaw(d: Delegates) {
    && (forall o: Orbit, dt: real ::
          d.orbitShiftedBy(o, dt).date == o.date + dt && d.orbitShiftedBy(o, dt).frame == o.frame)
    && (forall a: Attitude, dt: real ::
          d.attitudeShiftedBy(a, dt).date == a.date + dt
          && d.attitudeShiftedBy(a, dt).referenceFrame == a.referenceFrame)
  }

  /** With well-behaved collaborators, shifting a consistent state never throws,
      lands at date + dt in the same frame, keeps the mass, and is consistent. */
  lemma ShiftedByKeepsConsistency(d: Delegates, s: SpacecraftState, dt: real)
    requires ShiftLaw(d)
    requires s.IsConsistent()
    ensures ShiftedBy(d, s, dt).Ok?
    ensures ShiftedBy(d, s, dt).value.IsConsistent()
    ensures ShiftedBy(d, s, dt).value.Date() == s.Date() + dt
    ensures ShiftedBy(d, s, dt).value.Frame() == s.Frame()
    ensures ShiftedBy(d, s, dt).value.mass == s.mass
  {
  }

  /** Shifting by zero gives back the same state, when the collaborators' own
      shifts by zero do (exactly here; within rounding in the Java code). */
  lemma ShiftedByZero(d: Delegates, s: SpacecraftState)
    requires forall o: Orbit :: d.orbitShiftedBy(o, 0.0) == o
    requires forall a: Attitude :: d.attitudeShiftedBy(a, 0.0) == a
    requires s.IsConsistent()
    ensures ShiftedBy(d, s, 0.0) == Ok(s)
  {
  }

  /* ---------------- interpolation ---------------- */

  /** The orbit list handed to Orbit.interpolate: one entry per sample, in order. */
  function SampleOrbits(sample: seq<SpacecraftState>): (r: seq<Orbit>)
    ensures |r| == |sample|
  {
    seq(|sample|, i requires 0 <= i < |sample| => sample[i].orbit)
  }

  /** The attitude list handed to Attitude.interpolate: one entry per sample, in order. */
  function SampleAttitudes(sample: seq<SpacecraftState>): (r: seq<Attitude>)
    ensures |r| == |sample|
  {
    seq(|sample|, i requires 0 <= i < |sample| => sample[i].attitude)
  }

  /** The mass points: each sample's mass at the abscissa state.getDate() - date. */
  function MassSamples(sample: seq<SpacecraftState>, date: AbsoluteDate): (r: seq<SamplePoint>)
    ensures |r| == |sample|
  {
    seq(|sample|, i requires 0 <= i < |sample| => SamplePoint(sample[i].Date() - date, sample[i].mass))
  }

  /** Adds the points, in order, to a fresh HermiteInterpolator: the first
      addition that throws ends it with that exception. */
  function AddSamplePoints(d: Delegates, points: seq<SamplePoint>): (r: Outcome<Error>)
    ensures r.Pass? <==> forall k | 0 <= k < |points| :: d.hermiteAddSamplePoint(points[..k], points[k]).Pass?
    ensures r.Fail? ==>
              exists k | 0 <= k < |points| ::
                && d.hermiteAddSamplePoint(points[..k], points[k]) == r
                && forall j | 0 <= j < k :: d.hermiteAddSamplePoint(points[..j], points[j]).Pass?
    decreases |points|
  {
    if |points| == 0 then Pass
    else
      var held := points[..|points| - 1];
      assert forall k | 0 <= k < |held| :: held[..k] == points[..k] && held[k] == points[k];
      var before := AddSamplePoints(d, held);
      if before.Fail? then before
      else d.hermiteAddSamplePoint(held, points[|points| - 1])
  }

  /** Once an addition has thrown, the points after it change nothing. */
  lemma {:induction false} AddSamplePointsFailureSticks(d: Delegates, points: seq<SamplePoint>, n: nat)
    requires n <= |points|
    requires AddSamplePoints(d, points[..n]).Fail?
    ensures AddSamplePoints(d, points) == AddSamplePoints(d, points[..n])
    decreases |points| - n
  {
    if n < |points| {
      var longer := points[..n + 1];
      assert longer[..n] == points[..n];
      assert AddSamplePoints(d, longer) == AddSamplePoints(d, points[..n]);
      assert points[..n + 1][..n + 1] == points[..n + 1];
      AddSamplePointsFailureSticks(d, points, n + 1);
    } else {
      assert points[..n] == points;
    }
  }

  /** The loop of interpolate: one orbit, one attitude and one mass point per
      sample state, in iteration order, each mass point added to the
      interpolator as it is built; an addition that throws ends the loop. */
  method CollectSamples(d: Delegates, date: AbsoluteDate, sample: seq<SpacecraftState>)
    returns (orbits: seq<Orbit>, attitudes: seq<Attitude>, masses: seq<SamplePoint>, added: Outcome<Error>)
    ensures added == AddSamplePoints(d, MassSamples(sample, date))
    ensures added.Pass? ==> |orbits| == |sample| && |attitudes| == |sample| && |masses| == |sample|
    ensures added.Pass? ==> forall i :: 0 <= i < |sample| ==> orbits[i] == sample[i].orbit
    ensures added.Pass? ==> forall i :: 0 <= i < |sample| ==> attitudes[i] == sample[i].attitude
    ensures added.Pass? ==> forall i :: 0 <= i < |sample| ==>
              masses[i] == SamplePoint(sample[i].orbit.date - date, sample[i].mass)
  {
    orbits, attitudes, masses := [], [], [];
    var k := 0;
    while k < |sample|
      invariant 0 <= k <= |sample|
      invariant |orbits| == k && |attitudes| == k && |masses| == k
      invariant forall i :: 0 <= i < k ==> orbits[i] == sample[i].orbit
      invariant forall i :: 0 <= i < k ==> attitudes[i] == sample[i].attitude
      invariant masses == MassSamples(sample, date)[..k]
      invariant AddSamplePoints(d, masses).Pass?
    {
      var state := sample[k];
      orbits := orbits + [state.orbit];
      attitudes := attitudes + [state.attitude];
      var point := SamplePoint(state.Date() - date, state.mass);
      var outcome := d.hermiteAddSamplePoint(masses, point);
      assert (masses + [point])[..k] == masses;
      assert MassSamples(sample, date)[..k + 1] == masses + [point];
      masses := masses + [point];
      k := k + 1;
      if outcome.Fail? {
        AddSamplePointsFailureSticks(d, MassSamples(sample, date), k);
        return orbits, attitudes, masses, outcome;
      }
    }
    assert masses == MassSamples(sample, date);
    added := Pass;
  }

  /** What adding the mass points to the interpolator gives when interpolate is called. */
  function AddedMassPoints(d: Delegates, date: AbsoluteDate, sample: seq<SpacecraftState>): Outcome<Error> {
    AddSamplePoints(d, MassSamples(sample, date))
  }

  /** What Orbit.interpolate answers when interpolate is called on s. */
  function InterpolatedOrbit(d: Delegates, s: SpacecraftState, date: AbsoluteDate, sample: seq<SpacecraftState>)
    : Result<Orbit, Error>
  {
    d.orbitInterpolate(s.orbit, date, SampleOrbits(sample))
  }

  /** What Attitude.interpolate answers when interpolate is called on s. */
  function InterpolatedAttitude(d: Delegates, s: SpacecraftState, date: AbsoluteDate, sample: seq<SpacecraftState>)
    : Result<Attitude, Error>
  {
    d.attitudeInterpolate(s.attitude, date, SampleAttitudes(sample))
  }

  /** What the mass interpolator answers at offset zero. */
  function InterpolatedMass(d: Delegates, date: AbsoluteDate, sample: seq<SpacecraftState>): Result<real, Error> {
    d.hermiteValueAtZero(MassSamples(sample, date))
  }

  /** interpolate(date, sample), called on state s: the loop adds the mass
      points to the interpolator, then the receiver's orbit and attitude
      interpolate the collected lists, then the mass interpolator is evaluated
      at offset zero; the first of these to throw ends the call with its
      exception. Otherwise the three go through the checking constructor. */
  method Interpolate(d: Delegates, s: SpacecraftState, date: AbsoluteDate, sample: seq<SpacecraftState>)
    returns (r: Result<SpacecraftState, Error>)
    ensures AddedMassPoints(d, date, sample).Fail? ==> r == Err(AddedMassPoints(d, date, sample).error)
    ensures AddedMassPoints(d, date, sample).Pass? && InterpolatedOrbit(d, s, date, sample).Err? ==>
              r == Err(InterpolatedOrbit(d, s, date, sample).error)
    ensures AddedMassPoints(d, date, sample).Pass? && InterpolatedOrbit(d, s, date, sample).Ok?
            && InterpolatedAttitude(d, s, date, sample).Err? ==>
              r == Err(InterpolatedAttitude(d, s, date, sample).error)
    ensures AddedMassPoints(d, date, sample).Pass? && InterpolatedOrbit(d, s, date, sample).Ok?
            && InterpolatedAttitude(d, s, date, sample).Ok? && InterpolatedMass(d, date, sample).Err? ==>
              r == Err(InterpolatedMass(d, date, sample).error)
    ensures InterpolatorsAnswer(d, s, date, sample) ==>
              (r.Ok? <==> Consistent(InterpolatedOrbit(d, s, date, sample).value,
                                     InterpolatedAttitude(d, s, date, sample).value))
    ensures InterpolatorsAnswer(d, s, date, sample) && r.Err? ==> r.error.DatesMismatch? || r.error.FramesMismatch?
    ensures InterpolatorsAnswer(d, s, date, sample)
            && InterpolatedOrbit(d, s, date, sample).value.date != InterpolatedAttitude(d, s, date, sample).value.date ==>
              r == Err(DatesMismatch(InterpolatedOrbit(d, s, date, sample).value.date,
                                     InterpolatedAttitude(d, s, date, sample).value.date))
    ensures InterpolatorsAnswer(d, s, date, sample)
            && InterpolatedOrbit(d, s, date, sample).value.date == InterpolatedAttitude(d, s, date, sample).value.date
            && InterpolatedOrbit(d, s, date, sample).value.frame
               != InterpolatedAttitude(d, s, date, sample).value.referenceFrame ==>
              r == Err(FramesMismatch(InterpolatedOrbit(d, s, date, sample).value.frame,
                                      InterpolatedAttitude(d, s, date, sample).value.referenceFrame))
    ensures r.Ok? ==> InterpolatorsAnswer(d, s, date, sample)
    ensures r.Ok? ==> r.value.orbit == InterpolatedOrbit(d, s, date, sample).value
    ensures r.Ok? ==> r.value.attitude == InterpolatedAttitude(d, s, date, sample).value
    ensures r.Ok? ==> r.value.mass == InterpolatedMass(d, date, sample).value
    ensures InterpolatorsAnswer(d, s, date, sample) && InterpolationLaw(d) && s.IsConsistent() ==>
              r.Ok? && r.value.Date() == date && r.value.Frame() == s.Frame() && r.value.IsConsistent()
  {
    var orbits, attitudes, masses, added := CollectSamples(d, date, sample);
    if added.Fail? {
      return Err(added.error);
    }
    assert orbits == SampleOrbits(sample);
    assert attitudes == SampleAttitudes(sample);
    assert masses == MassSamples(sample, date);
    var orbit := d.orbitInterpolate(s.orbit, date, orbits);
    if orbit.Err? {
      return Err(orbit.error);
    }
    var attitude := d.attitudeInterpolate(s.attitude, date, attitudes);
    if attitude.Err? {
      return Err(attitude.error);
    }
    var mass := d.hermiteValueAtZero(masses);
    if mass.Err? {
      return Err(mass.error);
    }
    r := Create(orbit.value, attitude.value, mass.value);
  }

  /** Every call interpolate makes on s to the interpolators answers without throwing. */
  predicate InterpolatorsAnswer(d: Delegates, s: SpacecraftState, date: AbsoluteDate, sample: seq<SpacecraftState>) {
    AddedMassPoints(d, date, sample).Pass?
    && InterpolatedOrbit(d, s, date, sample).Ok?
    && InterpolatedAttitude(d, s, date, sample).Ok?
    && InterpolatedMass(d, date, sample).Ok?
  }

  /** Orbit.interpolate and Attitude.interpolate, when they answer, answer at the
      requested date, in the receiver's frame. */
  ghost predicate InterpolationLaw(d: Delegates) {
    && (forall o: Orbit, date: AbsoluteDate, os: seq<Orbit> | d.orbitInterpolate(o, date, os).Ok? ::
          d.orbitInterpolate(o, date, os).value.date == date
          && d.orbitInterpolate(o, date, os).value.frame == o.frame)
    && (forall a: Attitude, date: AbsoluteDate, atts: seq<Attitude> | d.attitudeInterpolate(a, date, atts).Ok? ::
          d.attitudeInterpolate(a, date, atts).value.date == date
          && d.attitudeInterpolate(a, date, atts).value.referenceFrame == a.referenceFrame)
  }
}
