# Bus ETA tracker: tracking, parsing and alert engine

This project models, in Dafny, the sequential core of the bus-arrival
server in `backend/server.js`. The server keeps three pieces of state.
The first is a set of tracked stop ids. The second is a table of alert
subscriptions: one threshold per stop and a list of subscriber socket
ids. The third is the timer-driven poll. For every tracked stop, the poll
gets the buses from mock fixtures or from the upstream provider's
`;`/`,`-separated response. It broadcasts one `etaUpdate` per stop and
sends an `alert` to every subscriber for each bus within the stop's
threshold.

Modules, one per component of the server:

- `Wrappers`: `Option`, where JavaScript's `undefined` is `None`.
- `Strings`: `String.prototype.split` on one character (`Split`), with `Join` as its inverse.
- `EtaParser`: the live-mode response parser, a pure function `Parse`
  over `Split`, `filter(Boolean)` and the destructuring of
  `vehicle, type, route, eta`. Each field is an `Option<string>`. The
  field `type` is called `busType`, because `type` is a Dafny keyword.
- `Stops`: the `trackedStops` set, as class `StopRegistry`. It keeps the
  insertion order, because a JavaScript `Set` iterates in that order and
  the poller visits stops in it. `Stops()` is the set view.
- `Alerts`: the `alerts` object, as class `AlertRegistry` over a
  `map<string, AlertEntry>`. `WithAlert` is the pure function that the
  `setAlert` handler is proved against.
- `AlertEvaluator`: `checkAlerts`. `Notifications` is its specification:
  the qualifying buses, fanned out bus-major to the subscribers. The
  methods `Announce`, `SendToAll` and `CheckAlerts` are the two nested
  `forEach` loops, proved equal to it.
- `Polling`: one pass of `pollETAs` over the tracked stops, with the
  `trackStop` handler that starts one. Sockets are replaced by a returned
  event log. The upstream request is an abstract function that yields the
  body or fails.

Behaviours of the code worth knowing before reading the contracts:

- A segment with fewer than four fields is not rejected: the missing
  fields are `None`, and fields after the fourth are dropped (`Record`,
  `RecordOfParts`).
- Stops are polled one after another, not concurrently: each request is
  awaited before the next stop is visited (`PollPass`).
- Untracking then tracking a stop gives the same set as tracking alone,
  but moves the stop to the end of the polling order, so the next pass
  emits its events last (`UntrackThenTrack`).

## Model

| member | source | states |
|---|---|---|
| `Strings.Split` | backend/server.js:27-28 | `split` always yields at least one part |
| `Strings.SplitCount` | backend/server.js:27-28 | `split` yields one part more than there are separators |
| `Strings.SplitPartsSeparatorFree` | backend/server.js:27-28 | no part produced by `split` contains the separator |
| `Strings.JoinSplit` | backend/server.js:27-28 | joining the parts with the separator gives the original string back |
| `Strings.SplitJoin` | backend/server.js:27-28 | splitting separator-free parts joined by the separator gives exactly those parts back |
| `Strings.SplitAt` | backend/server.js:27-28 | splitting at a separator at index k is splitting the prefix and the suffix separately |
| `Strings.SplitAppend` | backend/server.js:27-28 | `split(a + sep + b)` is `split(a)` followed by `split(b)` |
| `Strings.SplitWithoutSeparator` | backend/server.js:27-28 | a string without the separator splits into itself alone |
| `Strings.SplitOnlySeparators` | backend/server.js:27 | a string made only of separators splits into empty parts |
| `EtaParser.Record` | backend/server.js:28-29 | vehicle is always present; type, route and eta are present exactly when the segment has at least 1, 2 and 3 commas |
| `EtaParser.NonEmpty` | backend/server.js:27 | `filter(Boolean)` keeps exactly the non-empty parts, never more than it was given |
| `EtaParser.Records` | backend/server.js:27-29 | one record per segment, the record at position i is that of segment i |
| `EtaParser.Parse` | backend/server.js:27-30 | at most one record per `;`-segment, and every record has a vehicle field |
| `EtaParser.NonEmptyAppend` | backend/server.js:27 | filtering distributes over concatenation, so input order is kept |
| `EtaParser.NonEmptyKeepsAll` | backend/server.js:27 | filtering parts that are all non-empty keeps them all |
| `EtaParser.NonEmptyDropsAll` | backend/server.js:27 | filtering parts that are all empty keeps none |
| `EtaParser.RecordsAppend` | backend/server.js:27-29 | mapping segments to records distributes over concatenation |
| `EtaParser.ParseUnguarded` | backend/server.js:27-30 | the `text ? … : []` guard gives the same result as splitting the empty body |
| `EtaParser.ParseEmpty` | backend/server.js:27-30 | an empty response body parses to no buses |
| `EtaParser.ParseOnlySeparators` | backend/server.js:27 | a body made only of `;` parses to no buses |
| `EtaParser.ParseAppend` | backend/server.js:27 | the records of `a;b` are the records of `a` followed by those of `b` |
| `EtaParser.ParseSegment` | backend/server.js:27-29 | one non-empty segment without `;` parses to exactly its record |
| `EtaParser.ParseJoin` | backend/server.js:27-29 | non-empty segments joined by `;` give one record per segment, in input order |
| `EtaParser.RecordFourFields` | backend/server.js:28-29 | a segment with exactly four fields fills all four, and they join back with `,` to the segment |
| `EtaParser.RecordDropsExtraFields` | backend/server.js:28 | fields after the fourth do not change the record |
| `EtaParser.RecordOfFields` | backend/server.js:28-29 | four comma-free fields joined by `,` land in vehicle, type, route and eta, in that order |
| `EtaParser.RecordOfParts` | backend/server.js:28-29 | comma-free fields joined by `,` fill vehicle, type, route and eta from the first four, `None` for the missing ones |
| `EtaParser.RecordOneField` | backend/server.js:28-29 | a segment without commas is the vehicle alone, the other three fields `None` |
| `EtaParser.RecordTwoFields` | backend/server.js:28-29 | `vehicle,type` fills vehicle and type with those values; route and eta are `None` |
| `EtaParser.RecordThreeFields` | backend/server.js:28-29 | `vehicle,type,route` fills those three with their values; eta is `None` |
| `EtaParser.RecordSegment` | backend/server.js:28-29 | the upstream segment of a bus is non-empty, has no `;`, and parses back to that bus |
| `EtaParser.ParseBody` | backend/server.js:27-30 | round trip: parsing the upstream body of a list of buses gives that list |
| `EtaParser.ParseTwoSegments` | backend/server.js:27-29 | the body of two buses parses to those two buses in order |
| `EtaParser.TwoBusBody` | backend/server.js:27-29 | the example buses V1 and V2 have the segments `V1,T,42,08:00` and `V2,T,43,08:05` |
| `EtaParser.ParseTwoBuses` | backend/server.js:27-29 | `V1,T,42,08:00;V2,T,43,08:05` parses to V1 then V2 with no field transposed |
| `Stops.Added` | backend/server.js:60 | adding keeps ids distinct; a present id leaves the order unchanged, a new one goes last |
| `Stops.Removed` | backend/server.js:64 | deleting keeps every other id and only those, and is a no-op on an absent id |
| `Stops.RemovedAppend` | backend/server.js:64 | deleting distributes over concatenation, so the remaining ids keep their order |
| `Stops.RemovedMiddle` | backend/server.js:64 | deleting a stop that sits between `before` and `after` leaves exactly `before + after` |
| `Stops.RemovedDistinct` | backend/server.js:64 | deleting keeps ids distinct |
| `Stops.AddedElements` | backend/server.js:60 | tracking adds exactly the stop to the set |
| `Stops.RemovedElements` | backend/server.js:64 | untracking removes exactly the stop from the set, whether or not it was present |
| `Stops.AddedIdempotent` | backend/server.js:60 | tracking twice is tracking once |
| `Stops.RemovedIdempotent` | backend/server.js:64 | untracking twice is untracking once |
| `Stops.UntrackThenTrack` | backend/server.js:60-64 | untrack then track gives the same set as track, with the stop last in order |
| `Stops.StopRegistry.constructor` | backend/server.js:15 | the registry starts empty |
| `Stops.StopRegistry.Track` | backend/server.js:59-60 | the new state is `Added(old)`, so the set gains exactly the stop |
| `Stops.StopRegistry.Untrack` | backend/server.js:63-64 | the new state is `Removed(old)`, so the set loses exactly the stop (no reference counting) |
| `Alerts.Lookup` | backend/server.js:43-44 | an entry is found exactly when the stop has one, and it is that entry |
| `Alerts.WithAlert` | backend/server.js:66-70 | the entry exists afterwards, its threshold is the caller's, its users are the old users plus the caller, and other stops are unchanged |
| `Alerts.UsersGrow` | backend/server.js:69 | users only grow by one: the old list is a prefix of the new one |
| `Alerts.LastWriterWins` | backend/server.js:67-69 | two registrations leave the second threshold and both callers in call order |
| `Alerts.SetAlertTwice` | backend/server.js:67-69 | `setAlert(X,5,A)` then `setAlert(X,10,C)` on a new stop gives threshold 10 and users `[A, C]` |
| `Alerts.OtherStopsUnchanged` | backend/server.js:67-69 | registering for one stop leaves every other stop's lookup unchanged |
| `Alerts.AlertRegistry.constructor` | backend/server.js:16 | the alert table starts empty |
| `Alerts.AlertRegistry.SetAlert` | backend/server.js:66-70 | the new table is `WithAlert(old)`, and the entry holds the caller's threshold and the old users plus the caller |
| `AlertEvaluator.Qualifying` | backend/server.js:46-49 | a bus is kept exactly when it is among the buses and lies within `0 < minutes <= threshold` |
| `AlertEvaluator.ToUsers` | backend/server.js:51 | one notification per user |
| `AlertEvaluator.FanOut` | backend/server.js:46-51 | the number of notifications is the number of buses times the number of users |
| `AlertEvaluator.QualifyingSnoc` | backend/server.js:46-49 | filtering keeps bus order: appending a bus appends it exactly when it qualifies |
| `AlertEvaluator.FanOutAppend` | backend/server.js:46-51 | the fan-out of two runs of buses is the fan-out of each, in order |
| `AlertEvaluator.FanOutAt` | backend/server.js:46-51 | bus-major order: notification `i * users + j` is bus i sent to user j |
| `AlertEvaluator.FanOutMembers` | backend/server.js:46-51 | a notification is sent exactly when it names this stop, a subscribed user and one of the buses |
| `AlertEvaluator.NoEntryNoNotifications` | backend/server.js:43 | without an alert entry for the stop, nothing is sent |
| `AlertEvaluator.NotificationCount` | backend/server.js:46-51 | the number sent is the number of qualifying buses times the number of subscribers |
| `AlertEvaluator.NotificationMembers` | backend/server.js:43-51 | exactly the qualifying buses of a stop with an entry are sent, each to exactly its subscribed users |
| `AlertEvaluator.ThresholdExamples` | backend/server.js:49-51 | threshold 5 with users `[A, B]`: 3 minutes sends to A then B, while 7 minutes or -2 minutes sends nothing |
| `AlertEvaluator.SendToAll` | backend/server.js:51 | the `users.forEach` loop sends the bus to every user in order |
| `AlertEvaluator.Announce` | backend/server.js:46-53 | the `buses.forEach` loop sends the fan-out of the qualifying buses |
| `AlertEvaluator.CheckAlerts` | backend/server.js:42-55 | `checkAlerts` sends exactly `Notifications`: nothing without an entry, else the qualifying buses bus-major to the users |
| `Polling.MockLookup` | backend/server.js:23 | the fixture for a known stop, and no buses for an unknown one |
| `Polling.AlertEvents` | backend/server.js:51 | one alert event per notification |
| `Polling.Updates` | backend/server.js:32 | exactly the `etaUpdate` events of a log |
| `Polling.ConcatAppend` | backend/server.js:19-37 | the events of two runs of stops are those of each run, in order |
| `Polling.PollEventsAppend` | backend/server.js:19-37 | a pass over two runs of stops is the first run's pass followed by the second's |
| `Polling.UpdatesOfAlerts` | backend/server.js:51 | alert messages carry no `etaUpdate` |
| `Polling.StopUpdates` | backend/server.js:21-36 | one stop emits one update with its buses when they were obtained, and none otherwise |
| `Polling.UpdatesOfConcat` | backend/server.js:19-37 | when each stop's updates are as expected, so are those of the whole run |
| `Polling.PassUpdates` | backend/server.js:19-37 | a pass broadcasts exactly one update per stop whose buses were obtained, carrying them, in stop order, and none for a failed stop |
| `Polling.StopSucceeds` | backend/server.js:32-33 | a successful stop emits its update first, then exactly its alerts in sending order |
| `Polling.StopFails` | backend/server.js:34-36 | a stop whose buses were not obtained emits nothing |
| `Polling.LiveFails` | backend/server.js:25-36 | in live mode a failed request obtains no buses |
| `Polling.LiveParses` | backend/server.js:25-30 | in live mode a received body is parsed by `Parse` |
| `Polling.MockNeverFails` | backend/server.js:22-23 | in mock mode every stop succeeds, and an unknown stop has no buses |
| `Polling.FailedStopSkipped` | backend/server.js:19-37 | a failing stop drops out, and the stops before and after it are polled as if it were absent |
| `Polling.TrackedStopUpdated` | backend/server.js:19-33 | every tracked stop whose buses were obtained gets its update in the pass |
| `Polling.MockFixtureRoundTrip` | backend/server.js:22-32 | the mock fixture `{X: [bus]}` polled for X broadcasts that one bus unchanged |
| `Polling.PollStop` | backend/server.js:20-36 | one loop iteration emits `StopEvents`: the update and the alerts, or nothing on failure |
| `Polling.PollPass` | backend/server.js:18-38 | `pollETAs` emits `PollEvents` over the tracked stops in tracking order |
| `Polling.TrackStop` | backend/server.js:59-62 | the stop is tracked, a pass runs over the new registry, and the stop gets its update when its buses are obtained |

## Left out

- The HTTP and socket.io setup, the listen call, and connect and disconnect logging (backend/server.js:1-10, 57-58, 71-76) are transport. Emitted events are a returned log instead of `io.emit` and `io.to(user).emit`.
- The upstream request (lines 12, 25-26) is an abstract function from a stop id to an optional response body. The URL and its query string are not modelled. A rejected `fetch` or `res.text()` is `None`.
- The `console.error` in the `catch` block (line 35) is logging. A failed stop emits nothing.
- `setInterval` (line 40) is scheduling. So is the fire-and-forget `pollETAs()` in `trackStop` (line 61), which `TrackStop` runs to completion at once. In mock mode the source has no `await`, so this is exact. In live mode, events of other handlers may interleave with the pass.
- Concurrency: the model iterates a snapshot of the tracked stops and reads the alert table once per pass. A live `for…of` over the `Set` can see stops tracked or untracked during an `await`, and can also see alert changes made meanwhile.
- The clock and the `Date` arithmetic (lines 45, 47-48) are an abstract integer `minutesAway` per bus, the same for the whole pass. The source reads the clock once per `checkAlerts` call and computes a floating-point number of minutes. An unparseable ETA gives `NaN`, which never qualifies; a caller represents that by a value of 0 or less.
- The message text and its `Math.round` (line 50) are not modelled. A notification carries the recipient, the stop and the bus instead.
- The threshold is an `int`. The source accepts any JSON value from the client and compares it with JavaScript's coercions.
- Stop ids are `string`. The socket handlers accept any JSON value, and the model does not capture that a JavaScript `Set` keeps `5` and `"5"` apart while the `alerts` object merges them as the key `"5"`.
- `mockData` (line 6) is an abstract map of fixtures. The keys of a plain JavaScript object that come from its prototype are not modelled in `mockData[stopId]` or in `alerts[stopId]`, for example `constructor`.
- Environment configuration (lines 1, 13, 74): mock or live mode is chosen by the `Source` value given to the pass.
- Strings.Split: its own contract only states that there is at least one part. Its properties are the lemmas `SplitCount`, `SplitPartsSeparatorFree` and `JoinSplit`.
