/** Runs of the controller server: each call of it is a refresh and a reservation of the
    capacity protocol, so what the protocol keeps holds for the server's tracker. */
module ControllerRuns {
  import opened Sums
  import opened Wrappers
  import opened Ids
  import opened Provenance
  import opened Capacity
  import opened CapacityProtocol

  /** What happens to the server and around it. */
  datatype Event =
    | Call(v: Volume, current: int, target: int, query: FsQuery, listing: Option<seq<PV>>, now: int)
    | Deleted(volumeId: string)
    | Around(step: Step)

  /** The part of the server that its next step depends on. */
  datatype Clock = Clock(hasManager: bool, lastRefresh: int)

  predicate Due(clock: Clock, event: Event)
    requires event.Call?
  {
    event.now - clock.lastRefresh > REFRESH_INTERVAL_SECONDS
  }

  /** Whether a call gets to the tracker at all. */
  predicate Decides(event: Event)
  {
    event.Call? && Reservable(event.v) && event.query.Filesystem?
  }

  function RefreshStep(clock: Clock, event: Event): seq<Step>
    requires event.Call?
  {
    if !Due(clock, event) then []
    else if clock.hasManager && event.listing.Some? then [RefreshSucceeds]
    else [RefreshFails]
  }

  function ReserveStep(event: Event): Step
    requires Decides(event)
  {
    ReserveCapacity(event.v.id, event.v.fs, event.current, event.target, event.query.availableSsd, event.now)
  }

  /** The steps of the protocol that an event takes. */
  function StepsOf(clock: Clock, event: Event): seq<Step>
  {
    match event
    case Call(_, _, _, _, _, _) =>
      if Decides(event) then RefreshStep(clock, event) + [ReserveStep(event)] else []
    case Deleted(volumeId) => [DeleteVolume(volumeId)]
    case Around(step) => [step]
  }

  function Tick(clock: Clock, event: Event): Clock
  {
    if Decides(event) && Due(clock, event) && clock.hasManager && event.listing.Some?
    then clock.(lastRefresh := event.now)
    else clock
  }

  ghost function ApplyAll(w: World, steps: seq<Step>): World
    decreases |steps|
  {
    if steps == [] then w else ApplyAll(Apply(w, steps[0]), steps[1..])
  }

  ghost predicate AllAllowed(w: World, steps: seq<Step>)
    decreases |steps|
  {
    steps == [] || (CapacityProtocol.Allowed(w, steps[0]) && AllAllowed(Apply(w, steps[0]), steps[1..]))
  }

  /** A list shows the cached volumes, each once. */
  ghost predicate Shows(driver: string, event: Event, w: World)
    requires event.Call?
  {
    event.listing.Some? ==>
      DistinctHandles(Entries(driver, event.listing.value)) && Listed(Entries(driver, event.listing.value)) == w.cache
  }

  /** The environment keeps its assumptions, and does nothing that is the server's to do. */
  ghost predicate Legal(driver: string, clock: Clock, event: Event, w: World)
  {
    && AllAllowed(w, StepsOf(clock, event))
    && (event.Call? ==> Shows(driver, event, w))
    && (event.Around? ==>
          !event.step.ReserveCapacity? && !event.step.RefreshSucceeds? && !event.step.RefreshFails?
          && !event.step.DeleteVolume?)
  }

  ghost predicate AllLegal(driver: string, clock: Clock, events: seq<Event>, w: World)
    decreases |events|
  {
    events == []
    || (&& Legal(driver, clock, events[0], w)
        && AllLegal(driver, Tick(clock, events[0]), events[1..], ApplyAll(w, StepsOf(clock, events[0]))))
  }

  ghost function WorldAfter(clock: Clock, events: seq<Event>, w: World): World
    decreases |events|
  {
    if events == [] then w
    else WorldAfter(Tick(clock, events[0]), events[1..], ApplyAll(w, StepsOf(clock, events[0])))
  }

  // ----- one event

  lemma {:induction false} RunExtends(start: World, before: seq<Step>, w: World, step: Step)
    requires Run(start, before, w) && CapacityProtocol.Allowed(w, step)
    ensures Run(start, before + [step], Apply(w, step))
    decreases |before|
  {
    if before == [] {
      var none: seq<Step> := [];
      assert before + [step] == [step] && [step][1..] == none;
      assert Run(Apply(w, step), none, Apply(w, step));
    } else {
      RunExtends(Apply(start, before[0]), before[1..], w, step);
      assert (before + [step])[1..] == before[1..] + [step];
    }
  }

  lemma {:induction false} StaysReachable(w: World, steps: seq<Step>)
    requires Reachable(w) && AllAllowed(w, steps)
    ensures Reachable(ApplyAll(w, steps))
    decreases |steps|
  {
    if steps != [] {
      var start, before :| Initial(start) && Run(start, before, w);
      RunExtends(start, before, w, steps[0]);
      StaysReachable(Apply(w, steps[0]), steps[1..]);
    }
  }

  lemma ApplyOne(w: World, step: Step)
    ensures ApplyAll(w, [step]) == Apply(w, step)
  {
    var none: seq<Step> := [];
    assert [step][1..] == none;
    assert ApplyAll(Apply(w, step), none) == Apply(w, step);
  }

  lemma ApplyTwo(w: World, a: Step, b: Step)
    ensures ApplyAll(w, [a, b]) == Apply(Apply(w, a), b)
  {
    assert [a, b][1..] == [b];
    ApplyOne(Apply(w, a), b);
  }

  /** The ledger that a call decides on is the one after its refresh step. */
  ghost function LedgerSeen(driver: string, clock: Clock, event: Event, l: Ledger): Ledger
    requires event.Call?
  {
    if Due(clock, event) && clock.hasManager && event.listing.Some?
    then Refreshed(l.pending, Entries(driver, event.listing.value))
    else l
  }

  lemma CallTakesItsSteps(driver: string, clock: Clock, event: Event, w: World)
    requires Decides(event) && Shows(driver, event, w)
    ensures var l := LedgerSeen(driver, clock, event, w.ledger);
            ApplyAll(w, StepsOf(clock, event)).ledger
            == Reserve(l, event.v.id, event.v.fs, event.current, event.target, event.query.availableSsd, event.now)
  {
    var reserve := ReserveStep(event);
    if Due(clock, event) {
      var refresh := if clock.hasManager && event.listing.Some? then RefreshSucceeds else RefreshFails;
      assert StepsOf(clock, event) == [refresh, reserve];
      ApplyTwo(w, refresh, reserve);
      if clock.hasManager && event.listing.Some? {
        ApplyIsRefreshed(w, Entries(driver, event.listing.value));
      }
      ApplyIsReserve(Apply(w, refresh), reserve);
    } else {
      assert StepsOf(clock, event) == [reserve];
      ApplyOne(w, reserve);
      ApplyIsReserve(w, reserve);
    }
  }

  lemma AroundKeepsLedger(w: World, step: Step)
    requires !step.ReserveCapacity? && !step.RefreshSucceeds? && !step.DeleteVolume?
    ensures ApplyAll(w, [step]).ledger == w.ledger
  {
    ApplyOne(w, step);
  }

  /** The server's tracker holds the ledger of the world. */
  ghost predicate InStep(server: ControllerServer, clock: Clock, w: World)
    reads server.tracker
  {
    && server.enforce && server.tracker != null
    && server.tracker.State() == w.ledger
    && clock == Clock(server.tracker.hasManager, server.tracker.lastRefresh)
  }

  /** A call of validateAndReserveCapacity is the refresh and the reservation of the protocol. */
  method PerformCall(server: ControllerServer, event: Event, ghost clock: Clock, ghost w: World)
    returns (outcome: Outcome)
    requires InStep(server, clock, w) && event.Call? && Shows(server.driver, event, w)
    modifies server.tracker
    ensures InStep(server, Tick(clock, event), ApplyAll(w, StepsOf(clock, event)))
    ensures Decides(event) ==>
              outcome == Verdict(LedgerSeen(server.driver, clock, event, w.ledger), event.v.id, event.v.fs,
                                 event.current, event.target, event.query.availableSsd)
  {
    outcome := server.ValidateAndReserve(event.v, event.current, event.target, event.query, event.listing, event.now);
    if Decides(event) {
      CallTakesItsSteps(server.driver, clock, event, w);
    }
  }

  method PerformDelete(server: ControllerServer, volumeId: string, ghost clock: Clock, ghost w: World)
    requires InStep(server, clock, w)
    modifies server.tracker
    ensures InStep(server, clock, ApplyAll(w, [DeleteVolume(volumeId)]))
  {
    server.ReleaseReservation(volumeId);
    ApplyOne(w, DeleteVolume(volumeId));
  }

  // ----- runs

  /** Any run of the server among anything the environment may do: its tracker is always in
      step with the protocol, so live directory volumes never exceed what is available. */
  method RunController(server: ControllerServer, events: seq<Event>, ghost clock: Clock, ghost w: World)
    returns (ghost w': World)
    requires InStep(server, clock, w) && Reachable(w) && AllLegal(server.driver, clock, events, w)
    modifies server.tracker
    ensures w' == WorldAfter(clock, events, w)
    ensures server.tracker != null && server.tracker.State() == w'.ledger && Reachable(w')
    ensures forall fs :: Sum(LivePvs(w', fs)) <= Sum(Obligations(w', fs)) <= At(w'.available, fs)
  {
    w' := w;
    ghost var time := clock;
    for n := 0 to |events|
      invariant InStep(server, time, w') && Reachable(w')
      invariant AllLegal(server.driver, time, events[n..], w')
      invariant WorldAfter(time, events[n..], w') == WorldAfter(clock, events, w)
    {
      NextEvent(server.driver, time, events, n, w');
      Perform(server, events[n], time, w');
      w', time := ApplyAll(w', StepsOf(time, events[n])), Tick(time, events[n]);
    }
    WithinAvailable(w');
  }

  lemma WithinAvailable(w: World)
    requires Reachable(w)
    ensures forall fs :: Sum(LivePvs(w, fs)) <= Sum(Obligations(w, fs)) <= At(w.available, fs)
  {
    forall fs
      ensures Sum(LivePvs(w, fs)) <= Sum(Obligations(w, fs)) <= At(w.available, fs)
    {
      NeverOverProvisioned(w, fs);
    }
  }

  lemma NextEvent(driver: string, clock: Clock, events: seq<Event>, n: nat, w: World)
    requires n < |events| && AllLegal(driver, clock, events[n..], w) && Reachable(w)
    ensures var clock', w' := Tick(clock, events[n]), ApplyAll(w, StepsOf(clock, events[n]));
            && Legal(driver, clock, events[n], w) && Reachable(w')
            && AllLegal(driver, clock', events[n + 1..], w')
            && WorldAfter(clock, events[n..], w) == WorldAfter(clock', events[n + 1..], w')
  {
    assert events[n..][0] == events[n] && events[n..][1..] == events[n + 1..];
    StaysReachable(w, StepsOf(clock, events[n]));
  }

  method Perform(server: ControllerServer, event: Event, ghost clock: Clock, ghost w: World)
    requires InStep(server, clock, w) && Legal(server.driver, clock, event, w)
    modifies server.tracker
    ensures InStep(server, Tick(clock, event), ApplyAll(w, StepsOf(clock, event)))
  {
    match event
    case Call(_, _, _, _, _, _) => var outcome := PerformCall(server, event, clock, w);
    case Deleted(volumeId) => PerformDelete(server, volumeId, clock, w);
    case Around(step) => AroundKeepsLedger(w, step);
  }
}
