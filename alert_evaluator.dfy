/**
 * `checkAlerts` (backend/server.js lines 42-55): for a stop that has an
 * alert entry, every bus whose minutes away lie in `(0, threshold]` is
 * announced to every subscribed user, bus by bus and, for each bus, in
 * subscription order. The clock and the date arithmetic are abstracted
 * as `minutesAway`, and the message text as the notification's fields.
 */
module AlertEvaluator {
  import opened Wrappers
  import opened EtaParser
  import opened Alerts

  /** One targeted `alert` message: its recipient, and the stop and bus it announces. */
  datatype Notification = Notification(user: string, stop: string, bus: Bus)

  /** `minutesAway <= threshold && minutesAway > 0`. */
  predicate Qualifies(minutes: int, threshold: int)
  {
    minutes <= threshold && minutes > 0
  }

  /** The buses that trigger an alert, in their original order. */
  function Qualifying(buses: seq<Bus>, threshold: int, minutesAway: Bus -> int): (q: seq<Bus>)
    ensures |q| <= |buses|
    ensures forall b :: b in q <==> b in buses && Qualifies(minutesAway(b), threshold)
  {
    if buses == [] then []
    else
      var rest := Qualifying(buses[1..], threshold, minutesAway);
      if Qualifies(minutesAway(buses[0]), threshold) then [buses[0]] + rest else rest
  }

  /** One bus announced to each user, in user order. */
  function ToUsers(users: seq<string>, stop: string, bus: Bus): (r: seq<Notification>)
    ensures |r| == |users|
  {
    seq(|users|, j requires 0 <= j < |users| => Notification(users[j], stop, bus))
  }

  /** Each bus announced to every user, bus after bus. */
  function FanOut(buses: seq<Bus>, users: seq<string>, stop: string): (r: seq<Notification>)
    ensures |r| == |buses| * |users|
  {
    if buses == [] then []
    else ToUsers(users, stop, buses[0]) + FanOut(buses[1..], users, stop)
  }

  /** What `checkAlerts(stop, buses)` sends, in sending order. */
  function Notifications(alerts: map<string, AlertEntry>, stop: string, buses: seq<Bus>, minutesAway: Bus -> int)
    : seq<Notification>
  {
    match Lookup(alerts, stop)
    case None => []
    case Some(entry) => FanOut(Qualifying(buses, entry.threshold, minutesAway), entry.users, stop)
  }

  /** Qualifying distributes over appending one bus. */
  lemma {:induction false} QualifyingSnoc(buses: seq<Bus>, b: Bus, threshold: int, minutesAway: Bus -> int)
    ensures Qualifying(buses + [b], threshold, minutesAway)
      == Qualifying(buses, threshold, minutesAway) + (if Qualifies(minutesAway(b), threshold) then [b] else [])
  {
    if buses == [] {
      assert buses + [b] == [b];
    } else {
      assert (buses + [b])[0] == buses[0] && (buses + [b])[1..] == buses[1..] + [b];
      QualifyingSnoc(buses[1..], b, threshold, minutesAway);
    }
  }

  /** FanOut distributes over concatenation. */
  lemma {:induction false} FanOutAppend(a: seq<Bus>, b: seq<Bus>, users: seq<string>, stop: string)
    ensures FanOut(a + b, users, stop) == FanOut(a, users, stop) + FanOut(b, users, stop)
  {
    if a == [] {
      assert a + b == b;
    } else {
      assert (a + b)[0] == a[0] && (a + b)[1..] == a[1..] + b;
      FanOutAppend(a[1..], b, users, stop);
    }
  }

  /** The sending order is bus-major: notification `i * |users| + j` is bus `i` to user `j`. */
  lemma {:induction false} FanOutAt(buses: seq<Bus>, users: seq<string>, stop: string, i: nat, j: nat)
    requires i < |buses| && j < |users|
    ensures i * |users| + j < |FanOut(buses, users, stop)|
    ensures FanOut(buses, users, stop)[i * |users| + j] == Notification(users[j], stop, buses[i])
  {
    if i > 0 {
      FanOutAt(buses[1..], users, stop, i - 1, j);
      assert i * |users| + j == |users| + ((i - 1) * |users| + j);
    }
  }

  /** Every notification names a user and a bus of the fan-out. */
  lemma {:induction false} FanOutMembers(buses: seq<Bus>, users: seq<string>, stop: string, n: Notification)
    ensures n in FanOut(buses, users, stop) <==> n.stop == stop && n.user in users && n.bus in buses
  {
    if buses != [] {
      FanOutMembers(buses[1..], users, stop, n);
      assert n in ToUsers(users, stop, buses[0]) <==> n.stop == stop && n.user in users && n.bus == buses[0] by {
        if n.stop == stop && n.bus == buses[0] && n.user in users {
          var j :| 0 <= j < |users| && users[j] == n.user;
          assert ToUsers(users, stop, buses[0])[j] == n;
        }
      }
      assert n.bus in buses <==> n.bus == buses[0] || n.bus in buses[1..];
    }
  }

  /** Without an alert entry for the stop, nothing is sent. */
  lemma NoEntryNoNotifications(alerts: map<string, AlertEntry>, stop: string, buses: seq<Bus>, minutesAway: Bus -> int)
    requires stop !in alerts
    ensures Notifications(alerts, stop, buses, minutesAway) == []
  {
  }

  /** The number sent is the number of qualifying buses times the number of subscribers. */
  lemma NotificationCount(alerts: map<string, AlertEntry>, stop: string, buses: seq<Bus>, minutesAway: Bus -> int)
    requires stop in alerts
    ensures |Notifications(alerts, stop, buses, minutesAway)|
      == |Qualifying(buses, alerts[stop].threshold, minutesAway)| * |alerts[stop].users|
  {
  }

  /**
   * Exactly the qualifying buses are announced, each to exactly the
   * subscribed users, and only for this stop.
   */
  lemma NotificationMembers(alerts: map<string, AlertEntry>, stop: string, buses: seq<Bus>, minutesAway: Bus -> int,
                            n: Notification)
    ensures n in Notifications(alerts, stop, buses, minutesAway) <==>
      && stop in alerts
      && n.stop == stop
      && n.user in alerts[stop].users
      && n.bus in buses
      && Qualifies(minutesAway(n.bus), alerts[stop].threshold)
  {
    if stop in alerts {
      FanOutMembers(Qualifying(buses, alerts[stop].threshold, minutesAway), alerts[stop].users, stop, n);
    }
  }

  /**
   * Threshold 5, users [A, B], one bus: three minutes away sends one
   * alert to A then one to B; seven minutes away, or two minutes past,
   * sends nothing.
   */
  lemma ThresholdExamples(bus: Bus, minutesAway: Bus -> int)
    ensures var alerts := map["X" := AlertEntry(5, ["A", "B"])];
      && (minutesAway(bus) == 3 ==>
            Notifications(alerts, "X", [bus], minutesAway) == [Notification("A", "X", bus), Notification("B", "X", bus)])
      && (minutesAway(bus) == 7 || minutesAway(bus) == -2 ==> Notifications(alerts, "X", [bus], minutesAway) == [])
  {
    var alerts := map["X" := AlertEntry(5, ["A", "B"])];
    if minutesAway(bus) == 3 {
      assert Qualifying([bus], 5, minutesAway) == [bus];
      assert ToUsers(["A", "B"], "X", bus) == [Notification("A", "X", bus), Notification("B", "X", bus)];
    }
  }

  /** The inner loop of `checkAlerts`: `users.forEach(userId => …)` for one bus. */
  method SendToAll(users: seq<string>, stop: string, bus: Bus) returns (sent: seq<Notification>)
    ensures sent == ToUsers(users, stop, bus)
  {
    sent := [];
    var j := 0;
    while j < |users|
      invariant 0 <= j <= |users|
      invariant |sent| == j
      invariant forall k :: 0 <= k < j ==> sent[k] == Notification(users[k], stop, bus)
    {
      sent := sent + [Notification(users[j], stop, bus)];
      j := j + 1;
    }
  }

  /** The outer loop of `checkAlerts`: `buses.forEach(bus => …)` with the entry's threshold and users. */
  method Announce(buses: seq<Bus>, threshold: int, users: seq<string>, stop: string, minutesAway: Bus -> int)
    returns (sent: seq<Notification>)
    ensures sent == FanOut(Qualifying(buses, threshold, minutesAway), users, stop)
  {
    sent := [];
    var i := 0;
    while i < |buses|
      invariant 0 <= i <= |buses|
      invariant sent == FanOut(Qualifying(buses[..i], threshold, minutesAway), users, stop)
    {
      var bus := buses[i];
      var minutes := minutesAway(bus);
      var announced := [];
      if minutes <= threshold && minutes > 0 {
        announced := SendToAll(users, stop, bus);
      }
      ghost var step := if Qualifies(minutes, threshold) then [bus] else [];
      QualifyingSnoc(buses[..i], bus, threshold, minutesAway);
      assert buses[..i + 1] == buses[..i] + [bus];
      FanOutAppend(Qualifying(buses[..i], threshold, minutesAway), step, users, stop);
      assert announced == FanOut(step, users, stop);
      sent := sent + announced;
      i := i + 1;
    }
    assert buses[..i] == buses;
  }

  /** `checkAlerts(stopId, buses)`: nothing without an entry, otherwise the announcements. */
  method CheckAlerts(alerts: map<string, AlertEntry>, stop: string, buses: seq<Bus>, minutesAway: Bus -> int)
    returns (sent: seq<Notification>)
    ensures sent == Notifications(alerts, stop, buses, minutesAway)
  {
    sent := [];
    if stop in alerts {
      var entry := alerts[stop];
      sent := Announce(buses, entry.threshold, entry.users, stop, minutesAway);
    }
  }
}
