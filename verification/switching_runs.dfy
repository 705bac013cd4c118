/** Whole runs of an attitude sequence: configuring it with a series of
    addSwitchingCondition calls, then driving it through a series of event
    crossings reported by the propagator. */
module SwitchingRuns {
  import opened Results
  import opened Propagation
  import opened Attitudes

  /** The arguments of one addSwitchingCondition call. */
  datatype Condition = Condition(before: ProviderId, switchEvent: Option<DetectorId>,
                                 switchOnIncrease: bool, switchOnDecrease: bool, after: ProviderId)

  /** The sequence after the given calls, in order. */
  function Configure(q: AttitudesSequence, cs: seq<Condition>): AttitudesSequence
    decreases |cs|
  {
    if |cs| == 0 then q
    else
      var c := cs[0];
      Configure(AddSwitchingCondition(q, c.before, c.switchEvent, c.switchOnIncrease, c.switchOnDecrease, c.after), cs[1..])
  }

  /** The edges the calls declare: one per call with a non-null event. */
  function Declared(cs: seq<Condition>): multiset<Switch>
    decreases |cs|
  {
    if |cs| == 0 then multiset{}
    else
      var c := cs[0];
      (match c.switchEvent
       case None => multiset{}
       case Some(e) => multiset{Switch(e, c.switchOnIncrease, c.switchOnDecrease, c.after)})
      + Declared(cs[1..])
  }

  /** Configuring adds to the edges exactly the declared ones. */
  lemma {:induction false} ConfigureEdges(q: AttitudesSequence, cs: seq<Condition>)
    ensures AllEdges(Configure(q, cs).switchingMap) == AllEdges(q.switchingMap) + Declared(cs)
    decreases |cs|
  {
    if |cs| > 0 {
      var c := cs[0];
      AddSwitchingConditionEdges(q, c.before, c.switchEvent, c.switchOnIncrease, c.switchOnDecrease, c.after);
      ConfigureEdges(AddSwitchingCondition(q, c.before, c.switchEvent, c.switchOnIncrease, c.switchOnDecrease, c.after), cs[1..]);
    }
  }

  /** From a fresh sequence, registerSwitchEvents hands the propagator every
      declared edge exactly once, and nothing else. */
  lemma RegisteredAreDeclared(cs: seq<Condition>)
    ensures AllEdges(Configure(Initial, cs).switchingMap) == Declared(cs)
  {
    ConfigureEdges(Initial, cs);
    assert AllEdges(Initial.switchingMap) == multiset{};
  }

  /** Configuring keeps the invariant, never unregisters a provider, and never
      changes an existing edge: lists only grow at their end. */
  lemma {:induction false} ConfigureValid(q: AttitudesSequence, cs: seq<Condition>)
    requires q.Valid()
    ensures Configure(q, cs).Valid()
    ensures q.switchingMap.Keys <= Configure(q, cs).switchingMap.Keys
    ensures forall p | p in q.switchingMap ::
              q.switchingMap[p] <= Configure(q, cs).switchingMap[p]
    decreases |cs|
  {
    if |cs| > 0 {
      var c := cs[0];
      var q' := AddSwitchingCondition(q, c.before, c.switchEvent, c.switchOnIncrease, c.switchOnDecrease, c.after);
      assert forall p | p in q.switchingMap :: q.switchingMap[p] <= q'.switchingMap[p];
      ConfigureValid(q', cs[1..]);
    }
  }

  /** Once a provider is active, configuring never changes it. */
  lemma {:induction false} ConfigureKeepsActive(q: AttitudesSequence, cs: seq<Condition>)
    requires q.active.Some?
    ensures Configure(q, cs).active == q.active
    decreases |cs|
  {
    if |cs| > 0 {
      var c := cs[0];
      ConfigureKeepsActive(AddSwitchingCondition(q, c.before, c.switchEvent, c.switchOnIncrease, c.switchOnDecrease, c.after), cs[1..]);
    }
  }

  /** resetActiveProvider(p) followed by any switching conditions leaves p active. */
  lemma ResetThenConfigure(q: AttitudesSequence, p: ProviderId, cs: seq<Condition>)
    ensures Configure(ResetActiveProvider(q, p), cs).active == Some(p)
  {
    ConfigureKeepsActive(ResetActiveProvider(q, p), cs);
  }

  /** Without a reset, the first `before` ever mentioned becomes the active provider. */
  lemma FirstBeforeBecomesActive(cs: seq<Condition>)
    requires |cs| > 0
    ensures Configure(Initial, cs).active == Some(cs[0].before)
  {
    var c := cs[0];
    ConfigureKeepsActive(AddSwitchingCondition(Initial, c.before, c.switchEvent, c.switchOnIncrease, c.switchOnDecrease, c.after), cs[1..]);
  }

  /* ---------------- driving a configured sequence ---------------- */

  /** One crossing reported by the propagator: the edge whose detector saw it,
      the provider that edge leaves, and the crossing direction. */
  datatype Crossing = Crossing(owner: ProviderId, edge: Switch, increasing: bool)

  /** The sequence after the crossings, in order, with the Java switching rule
      (`guarded` false) or the corrected one (`guarded` true). The detectors'
      actions are ignored: they never feed back into the active provider. */
  function Drive(q: AttitudesSequence, crossings: seq<Crossing>, detectors: Detectors, s: SpacecraftState, guarded: bool)
    : AttitudesSequence
    decreases |crossings|
  {
    if |crossings| == 0 then q
    else
      var c := crossings[0];
      var q' := if guarded then GuardedEventOccurred(q, c.owner, c.edge, detectors, s, c.increasing).0
                else EventOccurred(q, c.edge, detectors, s, c.increasing).0;
      Drive(q', crossings[1..], detectors, s, guarded)
  }

  /** n orbits, each an eclipse entry then an eclipse exit. */
  function EclipseCycles(sunlit: ProviderId, eclipse: ProviderId, entry: Switch, exit: Switch, n: nat): (r: seq<Crossing>)
    ensures |r| == 2 * n
  {
    if n == 0 then []
    else [Crossing(sunlit, entry, true), Crossing(eclipse, exit, true)] + EclipseCycles(sunlit, eclipse, entry, exit, n - 1)
  }

  /** A two-provider loop (entry edge sunlit to eclipse, exit edge eclipse to
      sunlit, both on increasing crossings) started in sunlit is back in sunlit
      after any number of whole orbits, under either switching rule. */
  lemma {:induction false} CyclesReturnToStart(q: AttitudesSequence, sunlit: ProviderId, eclipse: ProviderId,
                                              entry: Switch, exit: Switch, n: nat,
                                              detectors: Detectors, s: SpacecraftState, guarded: bool)
    requires q.active == Some(sunlit)
    requires entry.next == eclipse && entry.switchOnIncrease
    requires exit.next == sunlit && exit.switchOnIncrease
    ensures Drive(q, EclipseCycles(sunlit, eclipse, entry, exit, n), detectors, s, guarded).active == Some(sunlit)
    ensures Drive(q, EclipseCycles(sunlit, eclipse, entry, exit, n), detectors, s, guarded).switchingMap == q.switchingMap
    decreases n
  {
    if n > 0 {
      var rest := EclipseCycles(sunlit, eclipse, entry, exit, n - 1);
      var crossings := EclipseCycles(sunlit, eclipse, entry, exit, n);
      assert crossings[0] == Crossing(sunlit, entry, true);
      assert crossings[1..] == [Crossing(eclipse, exit, true)] + rest;
      assert crossings[1..][1..] == rest;
      var q1 := if guarded then GuardedEventOccurred(q, sunlit, entry, detectors, s, true).0
                else EventOccurred(q, entry, detectors, s, true).0;
      assert q1.active == Some(eclipse);
      var q2 := if guarded then GuardedEventOccurred(q1, eclipse, exit, detectors, s, true).0
                else EventOccurred(q1, exit, detectors, s, true).0;
      assert q2 == q;
      CyclesReturnToStart(q2, sunlit, eclipse, entry, exit, n - 1, detectors, s, guarded);
    }
  }

  /** The eclipse example of the class comment, configured from scratch. */
  lemma EclipseLoop(sunlit: ProviderId, eclipse: ProviderId, entry: DetectorId, exit: DetectorId, n: nat,
                    detectors: Detectors, s: SpacecraftState, guarded: bool)
    ensures var q := Configure(Initial, [Condition(sunlit, Some(entry), true, false, eclipse),
                                         Condition(eclipse, Some(exit), true, false, sunlit)]);
            var crossings := EclipseCycles(sunlit, eclipse, Switch(entry, true, false, eclipse), Switch(exit, true, false, sunlit), n);
            Drive(q, crossings, detectors, s, guarded).active == Some(sunlit)
  {
    var cs := [Condition(sunlit, Some(entry), true, false, eclipse), Condition(eclipse, Some(exit), true, false, sunlit)];
    FirstBeforeBecomesActive(cs);
    CyclesReturnToStart(Configure(Initial, cs), sunlit, eclipse, Switch(entry, true, false, eclipse),
                        Switch(exit, true, false, sunlit), n, detectors, s, guarded);
  }

  /** An edge that switches on increasing crossings only: an increasing crossing
      activates its target, a decreasing one leaves the source active. */
  lemma DirectionDecidesSwitch(a: ProviderId, b: ProviderId, e: DetectorId, detectors: Detectors, s: SpacecraftState)
    ensures var q := Configure(Initial, [Condition(a, Some(e), true, false, b)]);
            && EventOccurred(q, Switch(e, true, false, b), detectors, s, true).0.active == Some(b)
            && EventOccurred(q, Switch(e, true, false, b), detectors, s, false).0.active == Some(a)
  {
    FirstBeforeBecomesActive([Condition(a, Some(e), true, false, b)]);
  }
}
