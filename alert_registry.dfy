/**
 * The alert subscriptions (`alerts`, backend/server.js line 16) and the
 * `setAlert` handler (lines 66-70): one entry per stop, holding a single
 * threshold shared by all its subscribers and the list of subscriber
 * socket ids, duplicates allowed.
 */
module Alerts {
  import opened Wrappers

  /** `{ threshold, users }`. */
  datatype AlertEntry = AlertEntry(threshold: int, users: seq<string>)

  /** `alerts[stopId]`, which is truthy exactly when an entry exists. */
  function Lookup(alerts: map<string, AlertEntry>, stop: string): (r: Option<AlertEntry>)
    ensures r.Some? <==> stop in alerts
    ensures r.Some? ==> r.value == alerts[stop]
  {
    if stop in alerts then Some(alerts[stop]) else None
  }

  /** The users subscribed to a stop so far (none when it has no entry). */
  function UsersOf(alerts: map<string, AlertEntry>, stop: string): seq<string>
  {
    if stop in alerts then alerts[stop].users else []
  }

  /**
   * The registry after `setAlert({stopId: stop, threshold})` from socket
   * `user`: the entry is created if absent, its threshold is overwritten
   * with the caller's, the caller is appended to its users, and every
   * other stop's entry is left as it was.
   */
  function WithAlert(alerts: map<string, AlertEntry>, stop: string, threshold: int, user: string)
    : (r: map<string, AlertEntry>)
    ensures r.Keys == alerts.Keys + {stop}
    ensures r[stop].threshold == threshold
    ensures r[stop].users == UsersOf(alerts, stop) + [user]
    ensures forall s :: s in alerts && s != stop ==> r[s] == alerts[s]
  {
    var created := if stop in alerts then alerts[stop] else AlertEntry(threshold, []);
    var updated := created.(threshold := threshold);
    alerts[stop := updated.(users := updated.users + [user])]
  }

  /** Users are only ever appended: the earlier list is a prefix of the new one. */
  lemma UsersGrow(alerts: map<string, AlertEntry>, stop: string, threshold: int, user: string)
    ensures var users := WithAlert(alerts, stop, threshold, user)[stop].users;
      |users| == |UsersOf(alerts, stop)| + 1 && UsersOf(alerts, stop) <= users
  {
  }

  /**
   * Two registrations for one stop: the second threshold wins and both
   * callers are subscribed, in call order.
   */
  lemma LastWriterWins(alerts: map<string, AlertEntry>, stop: string, t1: int, u1: string, t2: int, u2: string)
    ensures WithAlert(WithAlert(alerts, stop, t1, u1), stop, t2, u2)[stop]
      == AlertEntry(t2, UsersOf(alerts, stop) + [u1, u2])
  {
    assert UsersOf(alerts, stop) + [u1] + [u2] == UsersOf(alerts, stop) + [u1, u2];
  }

  /** `setAlert(X, 5, A)` then `setAlert(X, 10, C)` on a fresh stop gives threshold 10 and users [A, C]. */
  lemma SetAlertTwice(alerts: map<string, AlertEntry>)
    requires "X" !in alerts
    ensures WithAlert(WithAlert(alerts, "X", 5, "A"), "X", 10, "C")["X"] == AlertEntry(10, ["A", "C"])
  {
    LastWriterWins(alerts, "X", 5, "A", 10, "C");
  }

  /** Registering for one stop leaves every other stop's lookup unchanged. */
  lemma OtherStopsUnchanged(alerts: map<string, AlertEntry>, stop: string, threshold: int, user: string, other: string)
    requires other != stop
    ensures Lookup(WithAlert(alerts, stop, threshold, user), other) == Lookup(alerts, other)
  {
  }

  class AlertRegistry {
    /** Entries by stop id. */
    var alerts: map<string, AlertEntry>

    /** `const alerts = {}`. */
    constructor ()
      ensures alerts == map[]
    {
      alerts := map[];
    }

    /** The entry for a stop, if any. */
    function Get(stop: string): Option<AlertEntry>
      reads this
    {
      Lookup(alerts, stop)
    }

    /** The `setAlert` handler for a request from socket `user`. */
    method SetAlert(stop: string, threshold: int, user: string)
      modifies this
      ensures alerts == WithAlert(old(alerts), stop, threshold, user)
      ensures Get(stop) == Some(AlertEntry(threshold, old(UsersOf(alerts, stop)) + [user]))
    {
      if stop !in alerts {
        alerts := alerts[stop := AlertEntry(threshold, [])];
      }
      var entry := alerts[stop];
      entry := entry.(threshold := threshold);
      entry := entry.(users := entry.users + [user]);
      alerts := alerts[stop := entry];
    }
  }
}
