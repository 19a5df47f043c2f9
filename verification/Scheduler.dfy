/** The bounded window that fetches full station archives in parallel and hands the results over in
    stable order. When a fetch finishes, and when that is noticed, is left open. */
module Scheduler {
  import opened Ordered

  type Station = Key

  const WORKERS: nat := 4

  // ----- the window

  /** How one fetch ends: with a result, without a usable one, or with an exception. */
  datatype Ending<T> = Usable(value: T) | Nothing | Raised

  /** Submission of `station` in round `round`, when `window` was still outstanding. */
  datatype Submission = Submission(round: nat, station: Station, window: seq<Station>)

  /** A failure in the window that is noticed in this round. */
  predicate FailureSeen<T>(ending: Station -> Ending<T>, seen: (nat, Station) -> bool, round: nat, window: seq<Station>) {
    exists i | 0 <= i < |window| :: seen(round, window[i]) && !ending(window[i]).Usable?
  }

  /** Every submission finds fewer than four outstanding, and after the first filling of the window none
      is made while a noticed failure is in it. */
  ghost predicate Disciplined<T>(ending: Station -> Ending<T>, seen: (nat, Station) -> bool, log: seq<Submission>) {
    forall i | 0 <= i < |log| ::
      |log[i].window| < WORKERS && (log[i].round > 0 ==> !FailureSeen(ending, seen, log[i].round, log[i].window))
  }

  /** Stations are submitted in order, each once, the first four before any result is awaited; in round `r` exactly the
      first `r` of them are no longer outstanding. */
  predicate Faithful(sorted: seq<Station>, log: seq<Submission>) {
    |log| <= |sorted| && forall i | 0 <= i < |log| ::
      && log[i].station == sorted[i] && log[i].round <= i && log[i].window == sorted[log[i].round..i]
      && (log[i].round == 0 <==> i < WORKERS)
  }

  lemma Submitted<T>(sorted: seq<Station>, ending: Station -> Ending<T>, seen: (nat, Station) -> bool,
                     log: seq<Submission>, x: Submission)
    requires Faithful(sorted, log) && Disciplined(ending, seen, log) && |log| < |sorted|
    requires x.station == sorted[|log|] && x.round <= |log| && x.window == sorted[x.round..|log|]
    requires x.round == 0 <==> |log| < WORKERS
    requires |x.window| < WORKERS && (x.round > 0 ==> !FailureSeen(ending, seen, x.round, x.window))
    ensures Faithful(sorted, log + [x]) && Disciplined(ending, seen, log + [x])
  {
    hide FailureSeen;
  }

  /** `any(...)` over the window, in order. */
  method Notices<T>(ending: Station -> Ending<T>, seen: (nat, Station) -> bool, round: nat, window: seq<Station>)
    returns (b: bool)
    ensures b == FailureSeen(ending, seen, round, window)
  {
    for i := 0 to |window|
      invariant forall j | 0 <= j < i :: !(seen(round, window[j]) && !ending(window[j]).Usable?)
    {
      if seen(round, window[i]) && !ending(window[i]).Usable? {
        return true;
      }
    }
    b := false;
  }

  /** Which results come out depends on neither the order in which fetches finish nor on when that is
      noticed: they are the endings in station order before the first exception. */
  function Yielded<T>(order: seq<Station>, ending: Station -> Ending<T>): seq<Ending<T>> {
    if order == [] || ending(order[0]).Raised? then [] else [ending(order[0])] + Yielded(order[1..], ending)
  }

  lemma {:induction false} ResultsDetermined<T>(order: seq<Station>, ending: Station -> Ending<T>, results: seq<Ending<T>>)
    requires |results| <= |order| && forall i | 0 <= i < |results| :: results[i] == ending(order[i]) && !results[i].Raised?
    requires |results| < |order| ==> ending(order[|results|]).Raised?
    ensures results == Yielded(order, ending)
  {
    if results != [] {
      ResultsDetermined(order[1..], ending, results[1..]);
    }
  }

  /** MAIN RESULT. `_recompute_stations` over the sorted stations: the results come in station order, each
      station once, up to the first exception and not one further; `log` is what was submitted. */
  method RecomputeStations<T>(sorted: seq<Station>, ending: Station -> Ending<T>, seen: (nat, Station) -> bool)
    returns (results: seq<Ending<T>>, raised: bool, log: seq<Submission>)
    ensures results == Yielded(sorted, ending) && |results| <= |sorted|
    ensures raised <==> |results| < |sorted|
    ensures raised ==> ending(sorted[|results|]).Raised?
    ensures Disciplined(ending, seen, log)
    ensures Faithful(sorted, log)
    ensures |results| <= |log| && (raised ==> |results| < |log|)
  {
    var next := 0;
    var pending: seq<Station> := [];
    results, raised, log := [], false, [];
    assert Faithful(sorted, log) && Disciplined(ending, seen, log);
    hide Faithful, Disciplined, FailureSeen;
    while next < WORKERS && next < |sorted|
      invariant next <= WORKERS && next <= |sorted| && pending == sorted[..next] && |log| == next
      invariant Disciplined(ending, seen, log) && Faithful(sorted, log)
    {
      Submitted(sorted, ending, seen, log, Submission(0, sorted[next], pending));
      log := log + [Submission(0, sorted[next], pending)];
      pending := pending + [sorted[next]];
      next := next + 1;
    }
    var round := 0;
    while pending != []
      invariant |results| <= next <= |sorted| && pending == sorted[|results|..next] && |pending| <= WORKERS
      invariant forall i | 0 <= i < |results| :: results[i] == ending(sorted[i]) && !results[i].Raised?
      invariant |log| == next && Disciplined(ending, seen, log) && Faithful(sorted, log)
      invariant pending == [] ==> next == |sorted|
      invariant round == |results| && (next < |sorted| ==> next >= WORKERS)
      decreases |sorted| - |results|
    {
      round := round + 1;
      var first := pending[0];
      pending := pending[1..];
      assert first == sorted[|results|];
      if ending(first).Raised? {
        raised := true;
        ResultsDetermined(sorted, ending, results);
        return;
      }
      results := results + [ending(first)];
      var stop := Notices(ending, seen, round, pending);
      if stop {
        assert pending != [];
        continue;
      }
      if next < |sorted| {
        Submitted(sorted, ending, seen, log, Submission(round, sorted[next], pending));
        log := log + [Submission(round, sorted[next], pending)];
        pending := pending + [sorted[next]];
        next := next + 1;
      }
    }
    ResultsDetermined(sorted, ending, results);
  }
}
