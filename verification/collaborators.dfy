/** Values owned by classes outside the modelled core (AbsoluteDate, Frame, Orbit,
    Attitude) and the exceptions the core throws or forwards. The core only ever
    reads their date and frame; everything else about them is carried along
    without being looked at. */
module Collaborators {

  /** An AbsoluteDate, as seconds from a fixed reference epoch. Dates are compared
      by value (`equals`), so two equal reals are the same date. */
  type AbsoluteDate = real

  /** Identity handle of a Frame object. The core compares frames with Java's `==`,
      i.e. by object identity: two handles are the same frame iff they are equal. */
  type FrameId = nat

  /** An orbital state: its epoch, its definition frame, and parameters
      (elements, central attraction coefficient) the core never inspects. */
  datatype Orbit = Orbit(date: AbsoluteDate, frame: FrameId, parameters: seq<real>)

  /** An attitude: its epoch, its reference frame, and an orientation with its
      rotation rate, which the core never inspects. */
  datatype Attitude = Attitude(date: AbsoluteDate, referenceFrame: FrameId, orientation: seq<real>)

  /** Exceptions thrown by the core, or thrown by a collaborator and forwarded unchanged. */
  datatype Error =
    /** IllegalArgumentException with ORBIT_AND_ATTITUDE_DATES_MISMATCH. */
    | DatesMismatch(orbitDate: AbsoluteDate, attitudeDate: AbsoluteDate)
    /** IllegalArgumentException with FRAMES_MISMATCH. The Java message carries the
        two frames' names, so two distinct frames that share a name give a
        message that cannot tell them apart; here the error carries the handles. */
    | FramesMismatch(orbitFrame: FrameId, attitudeFrame: FrameId)
    /** The NullPointerException of asking a sequence with no active provider for an attitude. */
    | NullActiveProvider
    /** An exception raised by a collaborator: the attitude law, an attitude
        provider, an event detector, Orbit.interpolate, Attitude.interpolate,
        or the Hermite interpolator (adding a point or evaluating it). */
    | Delegated(code: nat)
}
