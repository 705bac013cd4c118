/** The attitude-switching state machine of org.orekit.attitudes.AttitudesSequence.
    A sequence keeps a registry mapping each attitude provider to the switch edges
    leaving it, and one active provider. Edges are handed to the propagator as
    event detectors; when one of them sees a qualifying crossing, it makes its
    target provider active. The Java object is mutable; here each operation takes
    the sequence value and returns the updated one. */
module Attitudes {
  import opened Results
  import opened Collaborators
  import opened Propagation

  /** Identity handle of an AttitudeProvider object (providers are map keys compared by identity). */
  type ProviderId = nat

  /** Identity handle of a user EventDetector object. */
  type DetectorId = nat

  /** An EventDetector.Action value; a switch hands it back without looking at it. */
  type Action = nat

  /** What a user event detector answers to the propagator. Every answer that can
      throw is a Result. */
  datatype EventDetector = EventDetector(
    g: SpacecraftState -> Result<real, Error>,
    maxCheckInterval: real,
    maxIterationCount: int,
    threshold: real,
    eventOccurred: (SpacecraftState, bool) -> Result<Action, Error>,
    resetState: SpacecraftState -> Result<SpacecraftState, Error>)

  /** The behaviour of every detector handle. */
  type Detectors = DetectorId -> EventDetector

  /** The inner class Switch: a wrapped detector, the crossing directions that
      trigger the switch, and the provider to activate. */
  datatype Switch = Switch(event: DetectorId, switchOnIncrease: bool, switchOnDecrease: bool, next: ProviderId)
  {
    /** The direction test of eventOccurred. */
    predicate Triggers(increasing: bool) {
      (increasing && switchOnIncrease) || (!increasing && switchOnDecrease)
    }

    /* The five pass-through methods of Switch. */

    function G(detectors: Detectors, s: SpacecraftState): Result<real, Error> {
      detectors(event).g(s)
    }

    function MaxCheckInterval(detectors: Detectors): real {
      detectors(event).maxCheckInterval
    }

    function MaxIterationCount(detectors: Detectors): int {
      detectors(event).maxIterationCount
    }

    function Threshold(detectors: Detectors): real {
      detectors(event).threshold
    }

    function ResetState(detectors: Detectors, s: SpacecraftState): Result<SpacecraftState, Error> {
      detectors(event).resetState(s)
    }
  }

  /** The state of an AttitudesSequence: the active provider (null until first
      set) and the switching map. */
  datatype AttitudesSequence = AttitudesSequence(active: Option<ProviderId>, switchingMap: map<ProviderId, seq<Switch>>)
  {
    /** The active provider is null or registered, and every edge leads to a
        registered provider. */
    ghost predicate Valid() {
      && (active.Some? ==> active.value in switchingMap)
      && forall p, sw | p in switchingMap && sw in switchingMap[p] :: sw.next in switchingMap
    }

    /** Edges leaving p; none for an unregistered provider. */
    function Edges(p: ProviderId): seq<Switch> {
      if p in switchingMap then switchingMap[p] else []
    }

    /** sw is one of the edges the sequence holds. */
    ghost predicate Holds(sw: Switch) {
      exists p :: p in switchingMap && sw in switchingMap[p]
    }
  }

  /** The constructor: no active provider, empty switching map. */
  const Initial: AttitudesSequence := AttitudesSequence(None, map[])

  lemma InitialIsValid()
    ensures Initial.Valid()
  {
  }

  /** Registers p with an empty edge list unless it is already known. */
  function Register(m: map<ProviderId, seq<Switch>>, p: ProviderId): (r: map<ProviderId, seq<Switch>>)
    ensures r.Keys == m.Keys + {p}
    ensures forall k | k in m :: r[k] == m[k]
    ensures p !in m ==> r[p] == []
  {
    if p in m then m else m[p := []]
  }

  /** resetActiveProvider(p): registers p if new and makes it active; nothing
      else changes. */
  function ResetActiveProvider(q: AttitudesSequence, p: ProviderId): (r: AttitudesSequence)
    ensures r.active == Some(p)
    ensures r.switchingMap.Keys == q.switchingMap.Keys + {p}
    ensures forall k | k in q.switchingMap :: r.switchingMap[k] == q.switchingMap[k]
    ensures p !in q.switchingMap ==> r.switchingMap[p] == []
    ensures q.Valid() ==> r.Valid()
  {
    AttitudesSequence(Some(p), Register(q.switchingMap, p))
  }

  /** addSwitchingCondition(before, switchEvent, switchOnIncrease, switchOnDecrease, after).
      `before` is always registered, and becomes active only when it is new and no
      provider is active yet. A null event adds no edge and ignores `after`;
      otherwise `after` is registered and exactly one edge is appended to the
      end of `before`'s list. */
  function AddSwitchingCondition(q: AttitudesSequence, before: ProviderId, switchEvent: Option<DetectorId>,
                                 switchOnIncrease: bool, switchOnDecrease: bool, after: ProviderId)
    : (r: AttitudesSequence)
    ensures before in r.switchingMap
    ensures r.active == (if before !in q.switchingMap && q.active.None? then Some(before) else q.active)
    ensures switchEvent.None? ==> r.switchingMap.Keys == q.switchingMap.Keys + {before}
    ensures switchEvent.None? ==> r.switchingMap[before] == q.Edges(before)
    ensures switchEvent.Some? ==> r.switchingMap.Keys == q.switchingMap.Keys + {before, after}
    ensures switchEvent.Some? ==>
              r.switchingMap[before]
              == q.Edges(before) + [Switch(switchEvent.value, switchOnIncrease, switchOnDecrease, after)]
    ensures forall k | k in r.switchingMap && k != before :: r.switchingMap[k] == q.Edges(k)
    ensures q.Valid() ==> r.Valid()
  {
    var active := if before !in q.switchingMap && q.active.None? then Some(before) else q.active;
    var withBefore := Register(q.switchingMap, before);
    match switchEvent
    case None => AttitudesSequence(active, withBefore)
    case Some(event) =>
      var withAfter := Register(withBefore, after);
      AttitudesSequence(active, withAfter[before := withAfter[before] + [Switch(event, switchOnIncrease, switchOnDecrease, after)]])
  }

  /** Switch.eventOccurred(s, increasing) on edge sw: when the direction test
      passes the sequence switches to sw.next, and this happens before the
      wrapped detector is asked; the wrapped detector's answer (or exception)
      is returned unchanged. The switching map is untouched. */
  function EventOccurred(q: AttitudesSequence, sw: Switch, detectors: Detectors, s: SpacecraftState, increasing: bool)
    : (r: (AttitudesSequence, Result<Action, Error>))
    ensures r.0.switchingMap == q.switchingMap
    ensures sw.Triggers(increasing) ==> r.0.active == Some(sw.next)
    ensures !sw.Triggers(increasing) ==> r.0.active == q.active
    ensures r.1 == detectors(sw.event).eventOccurred(s, increasing)
    ensures q.Valid() && q.Holds(sw) ==> r.0.Valid()
  {
    var switched := if sw.Triggers(increasing) then q.(active := Some(sw.next)) else q;
    (switched, detectors(sw.event).eventOccurred(s, increasing))
  }

  /** Every query the root finder makes of an edge, other than eventOccurred,
      gets exactly the wrapped detector's answer. */
  lemma SwitchIsTransparent(sw: Switch, detectors: Detectors, s: SpacecraftState)
    ensures sw.G(detectors, s) == detectors(sw.event).g(s)
    ensures sw.MaxCheckInterval(detectors) == detectors(sw.event).maxCheckInterval
    ensures sw.MaxIterationCount(detectors) == detectors(sw.event).maxIterationCount
    ensures sw.Threshold(detectors) == detectors(sw.event).threshold
    ensures sw.ResetState(detectors, s) == detectors(sw.event).resetState(s)
  {
  }

  /** getAttitude: delegates to the active provider; with no active provider the
      Java code dereferences null. The provider's answer, exception included, is
      returned unchanged. */
  function GetAttitude<P>(q: AttitudesSequence, providers: (ProviderId, P, AbsoluteDate, FrameId) -> Result<Attitude, Error>,
                          pvProv: P, date: AbsoluteDate, frame: FrameId): (r: Result<Attitude, Error>)
    ensures q.active.None? ==> r == Err(NullActiveProvider)
    ensures q.active.Some? ==> r == providers(q.active.value, pvProv, date, frame)
  {
    match q.active
    case None => Err(NullActiveProvider)
    case Some(p) => providers(p, pvProv, date, frame)
  }

  /** After an edge fires, on a crossing in either direction that triggers it,
      attitudes come from the edge's target provider. */
  lemma AttitudeAfterSwitch<P>(q: AttitudesSequence, sw: Switch, detectors: Detectors, s: SpacecraftState,
                               increasing: bool,
                               providers: (ProviderId, P, AbsoluteDate, FrameId) -> Result<Attitude, Error>,
                               pvProv: P, date: AbsoluteDate, frame: FrameId)
    requires sw.Triggers(increasing)
    ensures GetAttitude(EventOccurred(q, sw, detectors, s, increasing).0, providers, pvProv, date, frame)
            == providers(sw.next, pvProv, date, frame)
  {
  }

  /* ---------------- the edges handed to the propagator ---------------- */

  /** All edges of a switching map, as a multiset: the HashMap's iteration order
      over providers is unspecified, so only the multiset is meaningful. */
  ghost function AllEdges(m: map<ProviderId, seq<Switch>>): multiset<Switch>
    decreases |m|
  {
    if m == map[] then multiset{}
    else
      var p :| p in m;
      assert (m - {p}).Keys == m.Keys - {p};
      multiset(m[p]) + AllEdges(m - {p})
  }

  /** Any registered provider may be taken out first. */
  lemma {:induction false} AllEdgesSplit(m: map<ProviderId, seq<Switch>>, p: ProviderId)
    requires p in m
    ensures AllEdges(m) == multiset(m[p]) + AllEdges(m - {p})
    decreases |m|
  {
    var p' :| p' in m && AllEdges(m) == multiset(m[p']) + AllEdges(m - {p'});
    if p' != p {
      assert (m - {p'}).Keys == m.Keys - {p'};
      assert (m - {p}).Keys == m.Keys - {p};
      AllEdgesSplit(m - {p'}, p);
      AllEdgesSplit(m - {p}, p');
      assert m - {p'} - {p} == m - {p} - {p'};
    }
  }

  /** Replacing one provider's list changes the edges by exactly that list. */
  lemma AllEdgesUpdate(m: map<ProviderId, seq<Switch>>, p: ProviderId, edges: seq<Switch>)
    ensures AllEdges(m[p := edges]) == AllEdges(m - {p}) + multiset(edges)
  {
    AllEdgesSplit(m[p := edges], p);
    assert m[p := edges] - {p} == m - {p};
  }

  /** Registering a provider adds no edge. */
  lemma RegisterKeepsEdges(m: map<ProviderId, seq<Switch>>, p: ProviderId)
    ensures AllEdges(Register(m, p)) == AllEdges(m)
  {
    if p !in m {
      AllEdgesUpdate(m, p, []);
      assert m - {p} == m;
    }
  }

  /** An edge is in the multiset iff some provider's list holds it. */
  lemma {:induction false} AllEdgesMembership(m: map<ProviderId, seq<Switch>>, sw: Switch)
    ensures sw in AllEdges(m) <==> exists p :: p in m && sw in m[p]
    decreases |m|
  {
    if m != map[] {
      var p :| p in m;
      AllEdgesSplit(m, p);
      assert (m - {p}).Keys == m.Keys - {p};
      AllEdgesMembership(m - {p}, sw);
      if sw in AllEdges(m - {p}) {
        var k :| k in m - {p} && sw in (m - {p})[k];
        assert k in m && sw in m[k];
      }
      if exists k :: k in m && sw in m[k] {
        var k :| k in m && sw in m[k];
        if k != p {
          assert k in m - {p} && sw in (m - {p})[k];
        }
      }
    }
  }

  /** addSwitchingCondition adds to the edge multiset exactly the one Switch it
      builds when the event is non-null, and nothing otherwise. */
  lemma AddSwitchingConditionEdges(q: AttitudesSequence, before: ProviderId, switchEvent: Option<DetectorId>,
                                   switchOnIncrease: bool, switchOnDecrease: bool, after: ProviderId)
    ensures AllEdges(AddSwitchingCondition(q, before, switchEvent, switchOnIncrease, switchOnDecrease, after).switchingMap)
            == AllEdges(q.switchingMap)
               + (match switchEvent
                  case None => multiset{}
                  case Some(e) => multiset{Switch(e, switchOnIncrease, switchOnDecrease, after)})
  {
    var withBefore := Register(q.switchingMap, before);
    RegisterKeepsEdges(q.switchingMap, before);
    if switchEvent.Some? {
      var sw := Switch(switchEvent.value, switchOnIncrease, switchOnDecrease, after);
      var withAfter := Register(withBefore, after);
      RegisterKeepsEdges(withBefore, after);
      AllEdgesUpdate(withAfter, before, withAfter[before] + [sw]);
      AllEdgesSplit(withAfter, before);
    }
  }

  /** The inner loop of registerSwitchEvents: propagator.addEventDetector on each
      edge of one provider's list, in list order. */
  method AddEventDetectors(added: seq<Switch>, collection: seq<Switch>) returns (r: seq<Switch>)
    ensures r == added + collection
  {
    r := added;
    var i := 0;
    while i < |collection|
      invariant 0 <= i <= |collection|
      invariant r == added + collection[..i]
    {
      r := r + [collection[i]];
      i := i + 1;
    }
    assert collection[..i] == collection;
  }

  /** The lists of the providers in `order`, concatenated in that order. */
  function ListsInOrder(order: seq<ProviderId>, m: map<ProviderId, seq<Switch>>): seq<Switch>
    requires forall i | 0 <= i < |order| :: order[i] in m
  {
    if |order| == 0 then []
    else ListsInOrder(order[..|order| - 1], m) + m[order[|order| - 1]]
  }

  /** Midway through registerSwitchEvents: `order` lists the providers visited so
      far, each once, and `remaining` is the rest of the map, untouched. */
  ghost predicate Visited(m: map<ProviderId, seq<Switch>>, remaining: map<ProviderId, seq<Switch>>,
                          order: seq<ProviderId>)
  {
    && (forall p :: p in remaining <==> p in m && p !in order)
    && (forall p | p in remaining :: remaining[p] == m[p])
    && (forall i | 0 <= i < |order| :: order[i] in m)
    && (forall i, j | 0 <= i < j < |order| :: order[i] != order[j])
  }

  /** Visiting one more provider keeps the bookkeeping and appends its list. */
  lemma VisitStep(m: map<ProviderId, seq<Switch>>, remaining: map<ProviderId, seq<Switch>>,
                  order: seq<ProviderId>, p: ProviderId)
    requires Visited(m, remaining, order)
    requires p in remaining
    ensures Visited(m, remaining - {p}, order + [p])
    ensures ListsInOrder(order + [p], m) == ListsInOrder(order, m) + remaining[p]
  {
  }

  /** registerSwitchEvents: walks the providers in an unspecified order and, for
      each, hands its edges to the propagator in list order. Returns the edges as
      added: the providers' lists concatenated over an order that visits each
      provider once, hence every edge of the map, each exactly once. */
  method RegisterSwitchEvents(q: AttitudesSequence) returns (added: seq<Switch>, ghost order: seq<ProviderId>)
    ensures forall p :: p in order <==> p in q.switchingMap
    ensures forall i, j | 0 <= i < j < |order| :: order[i] != order[j]
    ensures added == ListsInOrder(order, q.switchingMap)
    ensures multiset(added) == AllEdges(q.switchingMap)
    ensures |added| == |AllEdges(q.switchingMap)|
    ensures forall sw :: sw in added <==> q.Holds(sw)
  {
    added := [];
    order := [];
    var remaining := q.switchingMap;
    while remaining != map[]
      invariant Visited(q.switchingMap, remaining, order)
      invariant added == ListsInOrder(order, q.switchingMap)
      invariant multiset(added) + AllEdges(remaining) == AllEdges(q.switchingMap)
      decreases |remaining|
    {
      var p :| p in remaining;
      added := AddEventDetectors(added, remaining[p]);
      VisitStep(q.switchingMap, remaining, order, p);
      AllEdgesSplit(remaining, p);
      assert (remaining - {p}).Keys == remaining.Keys - {p};
      remaining := remaining - {p};
      order := order + [p];
    }
    forall sw
      ensures sw in added <==> q.Holds(sw)
    {
      AllEdgesMembership(q.switchingMap, sw);
      assert sw in added <==> sw in multiset(added);
    }
  }

  /* ---------------- corrected switching ---------------- */

  /** eventOccurred as the class comment describes it: an edge leaving `before`
      switches only while `before` is the active provider. */
  function GuardedEventOccurred(q: AttitudesSequence, before: ProviderId, sw: Switch, detectors: Detectors,
                                s: SpacecraftState, increasing: bool)
    : (r: (AttitudesSequence, Result<Action, Error>))
    ensures r.0.switchingMap == q.switchingMap
    ensures q.active == Some(before) && sw.Triggers(increasing) ==> r.0.active == Some(sw.next)
    ensures !(q.active == Some(before) && sw.Triggers(increasing)) ==> r.0.active == q.active
    ensures r.1 == detectors(sw.event).eventOccurred(s, increasing)
    ensures q.Valid() && before in q.switchingMap && sw in q.switchingMap[before] ==> r.0.Valid()
    ensures before in q.switchingMap && sw in q.switchingMap[before] ==> Follows(q, q.active, r.0.active)
  {
    var switched := if q.active == Some(before) && sw.Triggers(increasing) then q.(active := Some(sw.next)) else q;
    (switched, detectors(sw.event).eventOccurred(s, increasing))
  }

  /** The active provider may go from `from` to `to`: it stays, or an edge
      leaving `from` leads to `to`. */
  ghost predicate Follows(q: AttitudesSequence, from: Option<ProviderId>, to: Option<ProviderId>) {
    from == to
    || (from.Some? && to.Some? && from.value in q.switchingMap
        && exists sw :: sw in q.switchingMap[from.value] && sw.next == to.value)
  }

  /** The Java eventOccurred does not look at which provider is active: an edge
      leaving provider 3 moves the sequence from provider 1 to provider 4,
      although provider 1 has no edge to provider 4. */
  lemma InactiveEdgeStillSwitches(detectors: Detectors, s: SpacecraftState)
    ensures var q := AttitudesSequence(Some(1), map[1 := [Switch(10, true, false, 2)], 2 := [],
                                                     3 := [Switch(11, true, false, 4)], 4 := []]);
            var r := EventOccurred(q, Switch(11, true, false, 4), detectors, s, true).0;
            && q.Valid() && q.Holds(Switch(11, true, false, 4))
            && r.active == Some(4) && !Follows(q, q.active, r.active)
  {
    var q := AttitudesSequence(Some(1), map[1 := [Switch(10, true, false, 2)], 2 := [],
                                            3 := [Switch(11, true, false, 4)], 4 := []]);
    assert Switch(11, true, false, 4) in q.switchingMap[3];
    assert q.switchingMap[1] == [Switch(10, true, false, 2)];
  }
}
