/**
 * The per-host circuit breaker (feed/fetcher/fetcher.go), and what it is a function of: the
 * history of the host's own events.
 */
module CircuitBreaker {
  import opened Wrappers
  import opened Common

  const THRESHOLD: nat := 6
  const COOLDOWN: int := 5 * MINUTE

  datatype Event =
    | Asked(host: string, at: int)
    | Failed(host: string, at: int)
    | Succeeded(host: string)

  function CountOf(failures: map<string, int>, host: string): int {
    if host in failures then failures[host] else 0
  }

  class Breaker {
    var failures: map<string, int>
    var openAt: map<string, int>

    constructor ()
      ensures failures == map[] && openAt == map[]
      ensures Tracks(failures, openAt, [])
    {
      failures, openAt := map[], map[];
    }

    method Allow(host: string, now: int) returns (refused: bool)
      modifies this
      ensures refused <==> host in old(openAt) && now - old(openAt)[host] < 300_000_000_000
      ensures refused || host !in old(openAt) ==> failures == old(failures) && openAt == old(openAt)
      ensures !refused && host in old(openAt) ==>
                failures == old(failures)[host := 0] && openAt == old(openAt) - {host}
    {
      if host in openAt {
        if now - openAt[host] < COOLDOWN {
          return true;
        }
        openAt := openAt - {host};
        failures := failures[host := 0];
      }
      return false;
    }

    method Failure(host: string, now: int)
      modifies this
      ensures failures == old(failures)[host := CountOf(old(failures), host) + 1]
      ensures openAt == if CountOf(old(failures), host) + 1 >= 6 then old(openAt)[host := now] else old(openAt)
    {
      failures := failures[host := CountOf(failures, host) + 1];
      if failures[host] >= THRESHOLD {
        openAt := openAt[host := now];
      }
    }

    method Success(host: string)
      modifies this
      ensures failures == old(failures)[host := 0] && openAt == old(openAt) - {host}
    {
      failures := failures[host := 0];
      openAt := openAt - {host};
    }

    /** Any event, as a step of the history. */
    method Handle(e: Event, ghost history: seq<Event>) returns (refused: bool)
      requires Tracks(failures, openAt, history)
      modifies this
      ensures Tracks(failures, openAt, history + [e])
      ensures refused <==> e.Asked? && Refuses(history, e.host, e.at)
      ensures forall h | h != e.host :: CountOf(failures, h) == CountOf(old(failures), h)
                                        && (h in openAt <==> h in old(openAt))
    {
      refused := false;
      TracksHost(failures, openAt, history, e.host);
      match e {
        case Asked(host, at) => refused := Allow(host, at);
        case Failed(host, at) => Failure(host, at);
        case Succeeded(host) => Success(host);
      }
      HistoryGrows(history, e);
      TracksStep(old(failures), old(openAt), failures, openAt, history, e);
    }
  }

  // ---------------------------------------------------------------------------------------
  // The host's history
  // ---------------------------------------------------------------------------------------

  /** The time of the host's latest failure. */
  function LastFailure(history: seq<Event>, host: string): Option<int> {
    if history == [] then None
    else
      var e := history[|history| - 1];
      if e.Failed? && e.host == host then Some(e.at) else LastFailure(history[..|history| - 1], host)
  }

  /** The host's failures since its last success or since a question found the cooldown over. */
  function Streak(history: seq<Event>, host: string): nat
    decreases |history|, 0
  {
    if history == [] then 0
    else
      var before, e := history[..|history| - 1], history[|history| - 1];
      if e.host != host then Streak(before, host)
      else if e.Failed? then Streak(before, host) + 1
      else if e.Succeeded? then 0
      else if Resets(before, host, e.at) then 0
      else Streak(before, host)
  }

  /** A question about a host with six failures or more, five minutes or more after the latest. */
  predicate Resets(history: seq<Event>, host: string, now: int)
    decreases |history|, 1
  {
    && Streak(history, host) >= THRESHOLD
    && LastFailure(history, host).Some?
    && now - LastFailure(history, host).value >= COOLDOWN
  }

  /** Six failures or more in the streak, and the latest failure less than five minutes old. */
  predicate Refuses(history: seq<Event>, host: string, now: int) {
    && Streak(history, host) >= THRESHOLD
    && LastFailure(history, host).Some?
    && now - LastFailure(history, host).value < COOLDOWN
  }

  /** The tables hold exactly the streaks, and the latest failure of every host marked open. */
  ghost predicate Tracks(failures: map<string, int>, openAt: map<string, int>, history: seq<Event>) {
    forall h: string :: TracksOne(failures, openAt, history, h)
  }

  predicate TracksOne(failures: map<string, int>, openAt: map<string, int>, history: seq<Event>, h: string) {
    && CountOf(failures, h) == Streak(history, h)
    && (h in openAt <==> Streak(history, h) >= THRESHOLD)
    && (h in openAt ==> LastFailure(history, h) == Some(openAt[h]))
  }

  lemma TracksHost(failures: map<string, int>, openAt: map<string, int>, history: seq<Event>, h: string)
    requires Tracks(failures, openAt, history)
    ensures TracksOne(failures, openAt, history, h)
  {
  }

  lemma HistoryGrows(history: seq<Event>, e: Event)
    ensures (history + [e])[..|history|] == history
  {
  }

  lemma TracksStep(f: map<string, int>, o: map<string, int>, f': map<string, int>, o': map<string, int>,
                   history: seq<Event>, e: Event)
    requires Tracks(f, o, history)
    requires forall h | h != e.host ::
        CountOf(f', h) == CountOf(f, h) && (h in o' <==> h in o) && (h in o' ==> o'[h] == o[h])
    requires TracksOne(f', o', history + [e], e.host)
    ensures Tracks(f', o', history + [e])
  {
    HistoryGrows(history, e);
    forall h: string
      ensures TracksOne(f', o', history + [e], h)
    {
      if h != e.host {
        TracksHost(f, o, history, h);
      }
    }
  }

  // ---------------------------------------------------------------------------------------
  // What follows for whole runs
  // ---------------------------------------------------------------------------------------

  /** How many of the events are failures of the host. */
  function FailuresIn(events: seq<Event>, host: string): nat {
    if events == [] then 0
    else
      var e := events[|events| - 1];
      FailuresIn(events[..|events| - 1], host) + (if e.Failed? && e.host == host then 1 else 0)
  }

  /** The streak never grows faster than failures arrive. */
  lemma {:induction false} StreakGrowth(history: seq<Event>, more: seq<Event>, host: string)
    ensures Streak(history + more, host) <= Streak(history, host) + FailuresIn(more, host)
  {
    if more == [] {
      assert history + more == history;
    } else {
      var n := |more| - 1;
      StreakGrowth(history, more[..n], host);
      assert (history + more)[..|history + more| - 1] == history + more[..n];
    }
  }

  /** A streak has a latest failure, so six failures always either refuse or reset. */
  lemma {:induction false} StreakHasFailure(history: seq<Event>, host: string)
    ensures Streak(history, host) > 0 ==> LastFailure(history, host).Some?
  {
    if history != [] {
      StreakHasFailure(history[..|history| - 1], host);
    }
  }

  /**
   * Once a question has been let through although six failures had accumulated, the host is next
   * refused only after six further failures.
   */
  lemma FreshStreakAfterReset(history: seq<Event>, host: string, at: int, more: seq<Event>, now: int)
    requires Streak(history, host) >= 6 && !Refuses(history, host, at)
    requires Refuses(history + [Asked(host, at)] + more, host, now)
    ensures FailuresIn(more, host) >= 6
  {
    var asked := history + [Asked(host, at)];
    StreakHasFailure(history, host);
    HistoryGrows(history, Asked(host, at));
    assert Streak(asked, host) == 0;
    StreakGrowth(asked, more, host);
  }

  /** The events of one host. */
  function Own(history: seq<Event>, host: string): seq<Event> {
    if history == [] then []
    else
      var e := history[|history| - 1];
      Own(history[..|history| - 1], host) + (if e.host == host then [e] else [])
  }

  /** Hosts do not affect each other: the answer depends on the host's own events only. */
  lemma {:induction false} HostsAreIndependent(history: seq<Event>, host: string)
    ensures Streak(history, host) == Streak(Own(history, host), host)
    ensures LastFailure(history, host) == LastFailure(Own(history, host), host)
    ensures forall now :: Refuses(history, host, now) <==> Refuses(Own(history, host), host, now)
  {
    if history != [] {
      var n := |history| - 1;
      HostsAreIndependent(history[..n], host);
      HistoryGrows(Own(history[..n], host), history[n]);
      assert Own(history, host) == if history[n].host == host then Own(history[..n], host) + [history[n]]
          else Own(history[..n], host);
    }
  }

  /** While a host is refused, questions leave it refused; it takes a success or the cooldown to end. */
  lemma {:induction false} StaysRefused(history: seq<Event>, host: string, more: seq<Event>, now: int)
    requires Refuses(history, host, now)
    requires forall e | e in more && e.host == host :: !e.Succeeded? && (e.at <= now)
    requires forall e | e in more && e.host == host && e.Failed? :: now - e.at < 300_000_000_000
    ensures Refuses(history + more, host, now)
  {
    if more == [] {
      assert history + more == history;
    } else {
      var n := |more| - 1;
      StaysRefused(history, host, more[..n], now);
      assert (history + more)[..|history + more| - 1] == history + more[..n];
      assert more[n] in more;
    }
  }
}
