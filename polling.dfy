/**
 * `pollETAs` (backend/server.js lines 18-38) and the `trackStop` handler
 * that triggers it (lines 59-62). For every tracked stop, in tracking
 * order, the buses come from the mock fixtures or from the upstream body;
 * on success one `etaUpdate` is broadcast and the alerts are checked, and
 * on failure the stop is skipped and the pass goes on. The emitted events
 * are returned as a log instead of being sent on sockets.
 */
module Polling {
  import opened Wrappers
  import opened EtaParser
  import opened Alerts
  import opened AlertEvaluator
  import opened Stops

  /**
   * Where buses come from: the mock fixtures, or the upstream provider,
   * whose request yields the response body or fails (`None`, for a
   * rejected `fetch` or `res.text()`).
   */
  datatype Source = Mock(fixtures: map<string, seq<Bus>>) | Live(fetch: string -> Option<string>)

  /** What the pass emits: a broadcast update, or a targeted alert. */
  datatype Event = EtaUpdate(stop: string, buses: seq<Bus>) | AlertMessage(note: Notification)

  /** `mockData[stopId] || []`. */
  function MockLookup(fixtures: map<string, seq<Bus>>, stop: string): (buses: seq<Bus>)
    ensures stop in fixtures ==> buses == fixtures[stop]
    ensures stop !in fixtures ==> buses == []
  {
    if stop in fixtures then fixtures[stop] else []
  }

  /** The buses the `try` block obtains for a stop, or `None` when it throws. */
  function FetchBuses(source: Source, stop: string): Option<seq<Bus>>
  {
    match source
    case Mock(fixtures) => Some(MockLookup(fixtures, stop))
    case Live(fetch) =>
      match fetch(stop)
      case None => None
      case Some(body) => Some(Parse(body))
  }

  /** The alerts sent for a stop's buses, as events. */
  function AlertEvents(notes: seq<Notification>): (events: seq<Event>)
    ensures |events| == |notes|
  {
    seq(|notes|, i requires 0 <= i < |notes| => AlertMessage(notes[i]))
  }

  /** What a stop emits once its buses were obtained, or not: the update, then the alert check. */
  function Emitted(stop: string, fetched: Option<seq<Bus>>, alerts: map<string, AlertEntry>, minutesAway: Bus -> int)
    : seq<Event>
  {
    match fetched
    case None => []
    case Some(buses) => [EtaUpdate(stop, buses)] + AlertEvents(Notifications(alerts, stop, buses, minutesAway))
  }

  /** The events of one iteration of the `for…of` loop. */
  function StopEvents(source: Source, alerts: map<string, AlertEntry>, minutesAway: Bus -> int, stop: string)
    : seq<Event>
  {
    Emitted(stop, FetchBuses(source, stop), alerts, minutesAway)
  }

  /** The events of one iteration of the loop, for any stop. */
  function StopEventsOf(source: Source, alerts: map<string, AlertEntry>, minutesAway: Bus -> int)
    : string -> seq<Event>
  {
    stop => StopEvents(source, alerts, minutesAway, stop)
  }

  /** The events of each stop in turn. */
  function Concat(stops: seq<string>, perStop: string -> seq<Event>): seq<Event>
  {
    if stops == [] then [] else perStop(stops[0]) + Concat(stops[1..], perStop)
  }

  /** The events of one pass over the given stops, in order. */
  function PollEvents(stops: seq<string>, source: Source, alerts: map<string, AlertEntry>, minutesAway: Bus -> int)
    : seq<Event>
  {
    Concat(stops, StopEventsOf(source, alerts, minutesAway))
  }

  /** The broadcast updates in a log, in order. */
  function Updates(events: seq<Event>): (r: seq<Event>)
    ensures forall e :: e in r <==> e in events && e.EtaUpdate?
  {
    if events == [] then []
    else (if events[0].EtaUpdate? then [events[0]] else []) + Updates(events[1..])
  }

  /** The update a stop should get in a pass: one carrying its buses, or none when they were not obtained. */
  function ExpectedUpdate(source: Source, stop: string): seq<Event>
  {
    match FetchBuses(source, stop)
    case None => []
    case Some(buses) => [EtaUpdate(stop, buses)]
  }

  /** The updates a pass should broadcast, stop by stop. */
  function ExpectedUpdates(stops: seq<string>, source: Source): seq<Event>
  {
    if stops == [] then [] else ExpectedUpdate(source, stops[0]) + ExpectedUpdates(stops[1..], source)
  }

  /** The events of two runs of stops are those of each run, one after the other. */
  lemma {:induction false} ConcatAppend(a: seq<string>, b: seq<string>, perStop: string -> seq<Event>)
    ensures Concat(a + b, perStop) == Concat(a, perStop) + Concat(b, perStop)
  {
    if a == [] {
      assert a + b == b;
    } else {
      assert (a + b)[0] == a[0] && (a + b)[1..] == a[1..] + b;
      ConcatAppend(a[1..], b, perStop);
    }
  }

  /** A pass over two runs of stops is the two passes one after the other. */
  lemma PollEventsAppend(a: seq<string>, b: seq<string>, source: Source,
                         alerts: map<string, AlertEntry>, minutesAway: Bus -> int)
    ensures PollEvents(a + b, source, alerts, minutesAway)
      == PollEvents(a, source, alerts, minutesAway) + PollEvents(b, source, alerts, minutesAway)
  {
    ConcatAppend(a, b, StopEventsOf(source, alerts, minutesAway));
  }

  /** Updates distribute over concatenation. */
  lemma {:induction false} UpdatesAppend(a: seq<Event>, b: seq<Event>)
    ensures Updates(a + b) == Updates(a) + Updates(b)
  {
    if a == [] {
      assert a + b == b;
    } else {
      assert (a + b)[0] == a[0] && (a + b)[1..] == a[1..] + b;
      UpdatesAppend(a[1..], b);
    }
  }

  /** Alert events hold no update. */
  lemma {:induction false} UpdatesOfAlerts(notes: seq<Notification>)
    ensures Updates(AlertEvents(notes)) == []
  {
    if notes != [] {
      assert AlertEvents(notes)[1..] == AlertEvents(notes[1..]);
      UpdatesOfAlerts(notes[1..]);
    }
  }

  /** The updates among one stop's events are the update it should get. */
  lemma StopUpdates(source: Source, alerts: map<string, AlertEntry>, minutesAway: Bus -> int, stop: string)
    ensures Updates(StopEvents(source, alerts, minutesAway, stop)) == ExpectedUpdate(source, stop)
  {
    var fetched := FetchBuses(source, stop);
    if fetched.Some? {
      var notes := Notifications(alerts, stop, fetched.value, minutesAway);
      UpdatesAppend([EtaUpdate(stop, fetched.value)], AlertEvents(notes));
      UpdatesOfAlerts(notes);
    }
  }

  /** Stop by stop, the updates among the events are the expected ones. */
  lemma {:induction false} UpdatesOfConcat(stops: seq<string>, source: Source, perStop: string -> seq<Event>)
    requires forall stop :: stop in stops ==> Updates(perStop(stop)) == ExpectedUpdate(source, stop)
    ensures Updates(Concat(stops, perStop)) == ExpectedUpdates(stops, source)
  {
    if stops != [] {
      UpdatesOfConcat(stops[1..], source, perStop);
      UpdatesAppend(perStop(stops[0]), Concat(stops[1..], perStop));
    }
  }

  /**
   * A pass broadcasts exactly one update per stop whose buses were
   * obtained, carrying those buses, in stop order; a stop that fails
   * gets none and the stops after it are still polled.
   */
  lemma PassUpdates(stops: seq<string>, source: Source, alerts: map<string, AlertEntry>, minutesAway: Bus -> int)
    ensures Updates(PollEvents(stops, source, alerts, minutesAway)) == ExpectedUpdates(stops, source)
  {
    var perStop := StopEventsOf(source, alerts, minutesAway);
    forall stop | stop in stops
      ensures Updates(perStop(stop)) == ExpectedUpdate(source, stop)
    {
      StopUpdates(source, alerts, minutesAway, stop);
    }
    UpdatesOfConcat(stops, source, perStop);
  }

  /** A stop whose buses were obtained gets its update first, then exactly its alerts, in sending order. */
  lemma StopSucceeds(stop: string, buses: seq<Bus>, alerts: map<string, AlertEntry>, minutesAway: Bus -> int)
    ensures var notes := Notifications(alerts, stop, buses, minutesAway);
      var events := Emitted(stop, Some(buses), alerts, minutesAway);
      && |events| == 1 + |notes|
      && events[0] == EtaUpdate(stop, buses)
      && forall k :: 0 <= k < |notes| ==> events[k + 1] == AlertMessage(notes[k])
  {
  }

  /** A stop whose buses were not obtained emits nothing. */
  lemma StopFails(stop: string, alerts: map<string, AlertEntry>, minutesAway: Bus -> int)
    ensures Emitted(stop, None, alerts, minutesAway) == []
  {
  }

  /** In live mode a failed request obtains no buses. */
  lemma LiveFails(fetch: string -> Option<string>, stop: string)
    requires fetch(stop).None?
    ensures FetchBuses(Live(fetch), stop).None?
  {
  }

  /** In live mode a received body is parsed. */
  lemma LiveParses(fetch: string -> Option<string>, stop: string, body: string)
    requires fetch(stop) == Some(body)
    ensures FetchBuses(Live(fetch), stop) == Some(Parse(body))
  {
  }

  /** In mock mode every stop succeeds, and a stop without fixtures has no buses. */
  lemma MockNeverFails(fixtures: map<string, seq<Bus>>, stop: string)
    ensures FetchBuses(Mock(fixtures), stop).Some?
    ensures stop !in fixtures ==> FetchBuses(Mock(fixtures), stop) == Some([])
  {
  }

  /** A stop whose buses were not obtained drops out of the pass; the stops before and after it are polled as before. */
  lemma FailedStopSkipped(before: seq<string>, stop: string, after: seq<string>, source: Source,
                          alerts: map<string, AlertEntry>, minutesAway: Bus -> int)
    requires FetchBuses(source, stop).None?
    ensures PollEvents(before + [stop] + after, source, alerts, minutesAway)
      == PollEvents(before, source, alerts, minutesAway) + PollEvents(after, source, alerts, minutesAway)
  {
    var perStop := StopEventsOf(source, alerts, minutesAway);
    assert perStop(stop) == Emitted(stop, None, alerts, minutesAway) == [];
    assert Concat([stop], perStop) == perStop(stop) + Concat([], perStop);
    ConcatAppend(before + [stop], after, perStop);
    ConcatAppend(before, [stop], perStop);
  }

  /** Every tracked stop whose buses were obtained gets an update in the pass. */
  lemma TrackedStopUpdated(stops: seq<string>, source: Source, alerts: map<string, AlertEntry>,
                           minutesAway: Bus -> int, stop: string)
    requires stop in stops && FetchBuses(source, stop).Some?
    ensures EtaUpdate(stop, FetchBuses(source, stop).value) in PollEvents(stops, source, alerts, minutesAway)
  {
    var i :| 0 <= i < |stops| && stops[i] == stop;
    var perStop := StopEventsOf(source, alerts, minutesAway);
    assert stops == stops[..i] + stops[i..];
    ConcatAppend(stops[..i], stops[i..], perStop);
    assert stops[i..][0] == stop;
    assert perStop(stop)[0] == EtaUpdate(stop, FetchBuses(source, stop).value);
  }

  /** A mock fixture mapping stop X to a single bus, polled for X, broadcasts that bus unchanged. */
  lemma MockFixtureRoundTrip(bus: Bus, alerts: map<string, AlertEntry>, minutesAway: Bus -> int)
    ensures Updates(PollEvents(["X"], Mock(map["X" := [bus]]), alerts, minutesAway)) == [EtaUpdate("X", [bus])]
  {
    PassUpdates(["X"], Mock(map["X" := [bus]]), alerts, minutesAway);
  }

  /** One iteration of the `for…of` loop: the `try` block, or nothing when it throws. */
  method PollStop(stop: string, source: Source, alerts: map<string, AlertEntry>, minutesAway: Bus -> int)
    returns (emitted: seq<Event>)
    ensures emitted == StopEvents(source, alerts, minutesAway, stop)
  {
    var fetched: Option<seq<Bus>>;
    match source {
      case Mock(fixtures) =>
        fetched := Some(if stop in fixtures then fixtures[stop] else []);
      case Live(fetch) =>
        var response := fetch(stop);
        fetched := if response.None? then None else Some(Parse(response.value));
    }
    emitted := [];
    if fetched.Some? {
      var sent := CheckAlerts(alerts, stop, fetched.value, minutesAway);
      emitted := [EtaUpdate(stop, fetched.value)] + AlertEvents(sent);
    }
  }

  /** `pollETAs()`: one pass over the tracked stops, in their tracking order. */
  method PollPass(registry: StopRegistry, alertRegistry: AlertRegistry, source: Source, minutesAway: Bus -> int)
    returns (events: seq<Event>)
    ensures events == PollEvents(registry.order, source, alertRegistry.alerts, minutesAway)
  {
    var stops := registry.order;
    var alerts := alertRegistry.alerts;
    ghost var perStop := StopEventsOf(source, alerts, minutesAway);
    events := [];
    var i := 0;
    while i < |stops|
      invariant 0 <= i <= |stops|
      invariant events == Concat(stops[..i], perStop)
    {
      var emitted := PollStop(stops[i], source, alerts, minutesAway);
      ConcatAppend(stops[..i], [stops[i]], perStop);
      assert stops[..i + 1] == stops[..i] + [stops[i]];
      assert Concat([stops[i]], perStop) == emitted;
      events := events + emitted;
      i := i + 1;
    }
    assert stops[..i] == stops;
  }

  /**
   * The `trackStop` handler: the stop is added to the registry and a pass
   * runs at once over the registry as it now is, so the new stop, when its
   * buses are obtained, gets an update without waiting for the timer.
   */
  method TrackStop(registry: StopRegistry, alertRegistry: AlertRegistry, stop: string, source: Source,
                   minutesAway: Bus -> int)
    returns (events: seq<Event>)
    requires registry.Valid()
    modifies registry
    ensures registry.Valid()
    ensures registry.order == Added(old(registry.order), stop)
    ensures events == PollEvents(registry.order, source, alertRegistry.alerts, minutesAway)
    ensures FetchBuses(source, stop).Some? ==>
      EtaUpdate(stop, FetchBuses(source, stop).value) in events
  {
    registry.Track(stop);
    events := PollPass(registry, alertRegistry, source, minutesAway);
    if FetchBuses(source, stop).Some? {
      TrackedStopUpdated(registry.order, source, alertRegistry.alerts, minutesAway, stop);
    }
  }
}
