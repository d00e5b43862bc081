/**
 The in-memory sliding-window rate limiter (app/middleware/rate_limit.py).

 Timestamps are reals. The client address stored beside each timestamp is already part of
 the log's key, so a log is its sequence of timestamps. Whether a path matches a pattern is
 a parameter of the request.
 */
module RateLimit {
  import opened Wrappers

  // One configured limit: at most `maxRequests` in any `window` seconds.
  datatype Limit = Limit(pattern: string, maxRequests: nat, window: real)

  datatype Request = Request(path: string, client: string, matching: set<string>, now: real)

  datatype Verdict = Admitted | Rejected(retryAfter: int)

  type Log = seq<real>
  type Logs = map<string, Log>

  function KeyOf(pattern: string, client: string): string { pattern + ":" + client }

  function LogAt(logs: Logs, key: string): Log { if key in logs then logs[key] else [] }

  /** Entries younger than the window. */
  function Prune(log: Log, cutoff: real): Log {
    if log == [] then [] else (if log[0] > cutoff then [log[0]] else []) + Prune(log[1..], cutoff)
  }

  lemma PruneFirst(log: Log, cutoff: real)
    requires log != []
    ensures Prune(log, cutoff) == (if log[0] > cutoff then [log[0]] else []) + Prune(log[1..], cutoff)
  {
  }

  /** Python's int(): drop the fraction, towards zero. */
  function Truncate(x: real): int { if x >= 0.0 then x.Floor else -(-x).Floor }

  /** One request against one log. */
  function Visit(log: Log, limit: Limit, now: real): (Log, Verdict)
    requires limit.maxRequests >= 1
  {
    var kept := Prune(log, now - limit.window);
    if |kept| >= limit.maxRequests then (kept, Rejected(Truncate(limit.window - (now - kept[0]))))
    else (kept + [now], Admitted)
  }

  predicate Skipped(r: Request) { r.path == "/api/health" || r.client == "unknown" }

  /** Index of the first limit whose pattern matches the path, if any. */
  function FirstMatch(limits: seq<Limit>, r: Request): Option<Limit> {
    if limits == [] then None
    else if limits[0].pattern in r.matching then Some(limits[0])
    else FirstMatch(limits[1..], r)
  }

  predicate GoodLimit(limit: Limit) { limit.maxRequests >= 1 && limit.window > 0.0 && ':' !in limit.pattern }

  predicate GoodLimits(limits: seq<Limit>) {
    && (forall i :: 0 <= i < |limits| ==> GoodLimit(limits[i]))
    && (forall i, j :: 0 <= i < j < |limits| ==> limits[i].pattern != limits[j].pattern)
  }

  lemma {:induction false} FirstMatchIsLimit(limits: seq<Limit>, r: Request)
    ensures FirstMatch(limits, r).Some? ==> FirstMatch(limits, r).value in limits
    decreases |limits|
  {
    if limits != [] { FirstMatchIsLimit(limits[1..], r); }
  }

  /** The limit and key a request is counted under. */
  function Counted(limits: seq<Limit>, r: Request): Option<(Limit, string)> {
    if Skipped(r) then None
    else
      match FirstMatch(limits, r)
      case None => None
      case Some(limit) => Some((limit, KeyOf(limit.pattern, r.client)))
  }

  function Dispatch(limits: seq<Limit>, logs: Logs, r: Request): (Logs, Verdict)
    requires GoodLimits(limits)
  {
    match Counted(limits, r)
    case None => (logs, Admitted)
    case Some((limit, key)) =>
      FirstMatchIsLimit(limits, r);
      var (log, verdict) := Visit(LogAt(logs, key), limit, r.now);
      (logs[key := log], verdict)
  }

  // ---- The middleware object ------------------------------------------------------------------

  class RateLimiter {
    const limits: seq<Limit>
    var requests: Logs

    predicate Valid() { GoodLimits(limits) }

    constructor (limits: seq<Limit>)
      requires GoodLimits(limits)
      ensures Valid() && this.limits == limits && requests == map[]
    {
      this.limits := limits;
      requests := map[];
    }

    method PruneLog(log: Log, cutoff: real) returns (kept: Log)
      ensures kept == Prune(log, cutoff)
    {
      kept := [];
      for i := 0 to |log|
        invariant kept + Prune(log[i..], cutoff) == Prune(log, cutoff)
      {
        PruneFirst(log[i..], cutoff);
        assert log[i..][1..] == log[i + 1..];
        if log[i] > cutoff {
          assert kept + ([log[i]] + Prune(log[i + 1..], cutoff)) == kept + [log[i]] + Prune(log[i + 1..], cutoff);
          kept := kept + [log[i]];
        } else {
          assert [] + Prune(log[i + 1..], cutoff) == Prune(log[i + 1..], cutoff);
        }
      }
      assert log[|log|..] == [];
    }

    method Handle(r: Request) returns (verdict: Verdict)
      requires Valid()
      modifies this
      ensures (requests, verdict) == Dispatch(limits, old(requests), r)
    {
      if r.path == "/api/health" { return Admitted; }
      if r.client == "unknown" { return Admitted; }
      for i := 0 to |limits|
        invariant requests == old(requests)
        invariant FirstMatch(limits, r) == FirstMatch(limits[i..], r)
      {
        assert limits[i..][1..] == limits[i + 1..];
        var limit := limits[i];
        if limit.pattern in r.matching {
          var windowStart := r.now - limit.window;
          var key := KeyOf(limit.pattern, r.client);
          var log := LogAt(requests, key);
          log := PruneLog(log, windowStart);
          requests := requests[key := log];
          if |log| >= limit.maxRequests {
            var oldest := log[0];
            return Rejected(Truncate(limit.window - (r.now - oldest)));
          }
          requests := requests[key := log + [r.now]];
          assert requests == old(requests)[key := log + [r.now]];
          return Admitted;
        }
      }
      return Admitted;
    }
  }

  // ---- Keys -----------------------------------------------------------------------------------

  lemma ColonEndsPattern(p: string, c: string)
    requires ':' !in p
    ensures |KeyOf(p, c)| > |p| && KeyOf(p, c)[|p|] == ':'
    ensures forall i :: 0 <= i < |p| ==> KeyOf(p, c)[i] != ':'
  {
  }

  /** Colon-free patterns give every (pattern, client) pair its own log, even for addresses with colons. */
  lemma KeysAreDistinct(p: string, c: string, p': string, c': string)
    requires ':' !in p && ':' !in p'
    ensures KeyOf(p, c) == KeyOf(p', c') <==> p == p' && c == c'
  {
    if KeyOf(p, c) == KeyOf(p', c') {
      var k := KeyOf(p, c);
      ColonEndsPattern(p, c);
      ColonEndsPattern(p', c');
      assert |p| == |p'|;
      assert p == k[..|p|] == p';
      assert c == k[|p| + 1..] == c';
    }
  }

  // ---- Sorted logs ----------------------------------------------------------------------------

  predicate Sorted(s: Log) { forall i, j :: 0 <= i < j < |s| ==> s[i] <= s[j] }

  lemma {:induction false} PruneMember(s: Log, cutoff: real, x: real)
    ensures x in Prune(s, cutoff) <==> x in s && x > cutoff
    decreases |s|
  {
    if s != [] {
      PruneMember(s[1..], cutoff, x);
      assert s == [s[0]] + s[1..];
    }
  }

  /** Nothing is dropped from a sorted log whose oldest entry is young enough. */
  lemma {:induction false} PruneNothing(s: Log, cutoff: real)
    requires forall i :: 0 <= i < |s| ==> s[i] > cutoff
    ensures Prune(s, cutoff) == s
    decreases |s|
  {
    if s != [] { PruneNothing(s[1..], cutoff); }
  }

  lemma {:induction false} PruneKeepsOrder(s: Log, cutoff: real)
    requires Sorted(s)
    ensures Sorted(Prune(s, cutoff)) && |Prune(s, cutoff)| <= |s|
    decreases |s|
  {
    if s != [] {
      var rest := s[1..];
      PruneKeepsOrder(rest, cutoff);
      var kept := Prune(rest, cutoff);
      forall i | 0 <= i < |kept| ensures s[0] <= kept[i] { PruneMember(rest, cutoff, kept[i]); }
    }
  }

  lemma {:induction false} PruneTwice(s: Log, c1: real, c2: real)
    requires c1 <= c2
    ensures Prune(Prune(s, c1), c2) == Prune(s, c2)
    decreases |s|
  {
    if s != [] {
      PruneTwice(s[1..], c1, c2);
      var tail := Prune(s[1..], c1);
      if s[0] > c1 {
        assert Prune(s, c1) == [s[0]] + tail;
        assert ([s[0]] + tail)[1..] == tail;
      } else {
        assert Prune(s, c1) == tail;
      }
    }
  }

  lemma {:induction false} PruneAppend(s: Log, x: real, cutoff: real)
    ensures Prune(s + [x], cutoff) == Prune(s, cutoff) + (if x > cutoff then [x] else [])
    decreases |s|
  {
    if s == [] {
      assert (s + [x])[1..] == [];
    } else {
      assert (s + [x])[1..] == s[1..] + [x];
      PruneAppend(s[1..], x, cutoff);
    }
  }

  // ---- Runs -----------------------------------------------------------------------------------

  function Run(limits: seq<Limit>, logs: Logs, run: seq<Request>): Logs
    requires GoodLimits(limits)
  {
    if run == [] then logs
    else
      var before := Run(limits, logs, run[..|run| - 1]);
      Dispatch(limits, before, run[|run| - 1]).0
  }

  /**
   The request is counted under limit `i` for this client: it is not exempt, and `i` is the first limit
   whose pattern matches its path.
   */
  predicate CountsUnder(limits: seq<Limit>, i: nat, client: string, r: Request) {
    && i < |limits|
    && r.client == client && client != "unknown" && r.path != "/api/health"
    && limits[i].pattern in r.matching
    && forall j :: 0 <= j < i ==> limits[j].pattern !in r.matching
  }

  lemma {:induction false} FirstMatchIs(limits: seq<Limit>, r: Request, i: nat)
    requires i < |limits| && limits[i].pattern in r.matching
    requires forall j :: 0 <= j < i ==> limits[j].pattern !in r.matching
    ensures FirstMatch(limits, r) == Some(limits[i])
    decreases i
  {
    if i > 0 {
      assert limits[1..][i - 1] == limits[i];
      FirstMatchIs(limits[1..], r, i - 1);
    }
  }

  lemma {:induction false} NoMatch(limits: seq<Limit>, r: Request)
    requires forall j :: 0 <= j < |limits| ==> limits[j].pattern !in r.matching
    ensures FirstMatch(limits, r).None?
    decreases |limits|
  {
    if limits != [] { NoMatch(limits[1..], r); }
  }

  function LeastMatch(limits: seq<Limit>, r: Request, from: nat): (i: nat)
    requires from <= |limits|
    requires forall j :: 0 <= j < from ==> limits[j].pattern !in r.matching
    ensures i <= |limits| && (i < |limits| ==> limits[i].pattern in r.matching)
    ensures forall j :: 0 <= j < i ==> limits[j].pattern !in r.matching
    decreases |limits| - from
  {
    if from == |limits| || limits[from].pattern in r.matching then from else LeastMatch(limits, r, from + 1)
  }

  /** The dispatcher counts a request under the first limit that matches it, for its own client, and under no other. */
  lemma {:induction false} CountedIff(limits: seq<Limit>, r: Request, i: nat, client: string)
    requires GoodLimits(limits) && i < |limits|
    ensures CountsUnder(limits, i, client, r) <==>
            Counted(limits, r).Some? && Counted(limits, r).value.1 == KeyOf(limits[i].pattern, client)
    ensures CountsUnder(limits, i, client, r) ==> Counted(limits, r).value.0 == limits[i]
  {
    var k := LeastMatch(limits, r, 0);
    if k == |limits| {
      NoMatch(limits, r);
    } else {
      FirstMatchIs(limits, r, k);
      KeysAreDistinct(limits[k].pattern, r.client, limits[i].pattern, client);
    }
  }

  /** A request that is exempt, or that no limit matches, is let through and leaves every log alone. */
  lemma {:induction false} UncountedPasses(limits: seq<Limit>, logs: Logs, r: Request)
    requires GoodLimits(limits)
    ensures (forall i :: 0 <= i < |limits| ==> !CountsUnder(limits, i, r.client, r)) ==>
              Dispatch(limits, logs, r) == (logs, Admitted)
    ensures (forall i :: 0 <= i < |limits| ==> !CountsUnder(limits, i, r.client, r)) <==>
            || r.path == "/api/health" || r.client == "unknown"
            || forall i :: 0 <= i < |limits| ==> limits[i].pattern !in r.matching
  {
    var k := LeastMatch(limits, r, 0);
    if k == |limits| {
      NoMatch(limits, r);
    } else if r.path != "/api/health" && r.client != "unknown" {
      assert CountsUnder(limits, k, r.client, r);
    }
  }

  /** Timestamps of the requests of a client that a run admitted under a limit, oldest first; nothing is pruned here. */
  function History(limits: seq<Limit>, run: seq<Request>, i: nat, client: string): Log
    requires GoodLimits(limits)
  {
    if run == [] then []
    else
      var pre, r := run[..|run| - 1], run[|run| - 1];
      History(limits, pre, i, client)
      + (if CountsUnder(limits, i, client, r) && Dispatch(limits, Run(limits, map[], pre), r).1.Admitted?
         then [r.now] else [])
  }

  predicate NonDecreasing(run: seq<Request>) {
    forall i, j :: 0 <= i < j < |run| ==> run[i].now <= run[j].now
  }

  lemma {:induction false} HistoryInPast(limits: seq<Limit>, run: seq<Request>, i: nat, client: string)
    requires GoodLimits(limits) && NonDecreasing(run)
    ensures Sorted(History(limits, run, i, client))
    ensures forall x :: x in History(limits, run, i, client) ==> run != [] && x <= run[|run| - 1].now
    decreases |run|
  {
    if run != [] {
      var pre := run[..|run| - 1];
      HistoryInPast(limits, pre, i, client);
      var h := History(limits, pre, i, client);
      forall x | x in h ensures x <= run[|run| - 1].now { assert x <= pre[|pre| - 1].now; }
      assert forall n :: 0 <= n < |h| ==> h[n] in h;
    }
  }

  /** Last time a client was counted under a limit in a run. */
  function LastVisit(limits: seq<Limit>, run: seq<Request>, i: nat, client: string): Option<real> {
    if run == [] then None
    else if CountsUnder(limits, i, client, run[|run| - 1]) then Some(run[|run| - 1].now)
    else LastVisit(limits, run[..|run| - 1], i, client)
  }

  lemma {:induction false} LastVisitInPast(limits: seq<Limit>, run: seq<Request>, i: nat, client: string)
    requires NonDecreasing(run) && LastVisit(limits, run, i, client).Some?
    ensures run != [] && LastVisit(limits, run, i, client).value <= run[|run| - 1].now
    decreases |run|
  {
    if run != [] && !CountsUnder(limits, i, client, run[|run| - 1]) {
      LastVisitInPast(limits, run[..|run| - 1], i, client);
    }
  }

  /** A request changes the log of the limit and client it is counted under, by one visit, and no other log. */
  lemma {:induction false} OnlyOwnLogChanges(limits: seq<Limit>, logs: Logs, r: Request, i: nat, client: string)
    requires GoodLimits(limits) && i < |limits|
    ensures var key := KeyOf(limits[i].pattern, client);
            var (logs', verdict) := Dispatch(limits, logs, r);
            if CountsUnder(limits, i, client, r)
            then (LogAt(logs', key), verdict) == Visit(LogAt(logs, key), limits[i], r.now)
            else LogAt(logs', key) == LogAt(logs, key)
  {
    CountedIff(limits, r, i, client);
  }

  /** The log of a key is its admission history cut to the window as of the last visit, and never over-full. */
  predicate IsWindow(log: Log, history: Log, last: Option<real>, limit: Limit) {
    match last
    case None => log == [] && history == []
    case Some(at) => log == Prune(history, at - limit.window) && |log| <= limit.maxRequests && Sorted(log)
  }

  /** Refinement: in every run the pruned log of a key stands for its full, never pruned admission history. */
  lemma {:induction false} LogIsWindowOfHistory(limits: seq<Limit>, run: seq<Request>, i: nat, client: string)
    requires GoodLimits(limits) && i < |limits| && NonDecreasing(run)
    ensures IsWindow(LogAt(Run(limits, map[], run), KeyOf(limits[i].pattern, client)),
                     History(limits, run, i, client), LastVisit(limits, run, i, client), limits[i])
    decreases |run|
  {
    if run != [] {
      var key, limit := KeyOf(limits[i].pattern, client), limits[i];
      var pre, r := run[..|run| - 1], run[|run| - 1];
      var logs := Run(limits, map[], pre);
      LogIsWindowOfHistory(limits, pre, i, client);
      HistoryInPast(limits, pre, i, client);
      OnlyOwnLogChanges(limits, logs, r, i, client);
      assert Run(limits, map[], run) == Dispatch(limits, logs, r).0;
      var history, last := History(limits, pre, i, client), LastVisit(limits, pre, i, client);
      if CountsUnder(limits, i, client, r) {
        if last.Some? { LastVisitInPast(limits, pre, i, client); }
        VisitKeepsWindow(LogAt(logs, key), history, last, limit, r.now);
      } else {
        assert History(limits, run, i, client) == history;
      }
    }
  }

  /** One visit keeps the log equal to the window of the history. */
  lemma {:induction false} VisitKeepsWindow(log: Log, history: Log, last: Option<real>, limit: Limit, now: real)
    requires GoodLimit(limit) && Sorted(history)
    requires forall x :: x in history ==> x <= now
    requires IsWindow(log, history, last, limit) && (last.Some? ==> last.value <= now)
    ensures var (log', verdict) := Visit(log, limit, now);
            IsWindow(log', history + (if verdict.Admitted? then [now] else []), Some(now), limit)
  {
    var cutoff := now - limit.window;
    SamePruned(log, history, last, limit, now);
    var kept := Prune(history, cutoff);
    PruneKeepsOrder(history, cutoff);
    PruneShorter(log, cutoff);
    if |kept| >= limit.maxRequests {
      assert history + [] == history;
    } else {
      PushKeepsWindow(history, limit, now);
    }
  }

  lemma {:induction false} PushKeepsWindow(history: Log, limit: Limit, now: real)
    requires GoodLimit(limit) && Sorted(history)
    requires forall x :: x in history ==> x <= now
    ensures var kept := Prune(history, now - limit.window);
            Prune(history + [now], now - limit.window) == kept + [now] && Sorted(kept + [now])
  {
    var cutoff := now - limit.window;
    PruneAppend(history, now, cutoff);
    KeptInOrder(history, cutoff, now);
  }

  lemma {:induction false} KeptInOrder(s: Log, cutoff: real, now: real)
    requires Sorted(s)
    requires forall x :: x in s ==> x <= now
    ensures Sorted(Prune(s, cutoff) + [now])
  {
    var kept := Prune(s, cutoff);
    PruneKeepsOrder(s, cutoff);
    forall i | 0 <= i < |kept| ensures kept[i] <= now { PruneMember(s, cutoff, kept[i]); }
  }

  /** Pruning the log or the whole history leaves the same entries. */
  lemma SamePruned(log: Log, history: Log, last: Option<real>, limit: Limit, now: real)
    requires IsWindow(log, history, last, limit) && (last.Some? ==> last.value <= now)
    ensures Prune(log, now - limit.window) == Prune(history, now - limit.window)
    ensures |log| <= limit.maxRequests
  {
    if last.Some? { PruneTwice(history, last.value - limit.window, now - limit.window); }
  }

  lemma {:induction false} PruneShorter(s: Log, cutoff: real)
    ensures |Prune(s, cutoff)| <= |s|
    decreases |s|
  {
    if s != [] { PruneShorter(s[1..], cutoff); }
  }

  // ---- The bound ------------------------------------------------------------------------------

  /** Admissions in the half-open interval (from, to]. */
  function InWindow(history: Log, from: real, to: real): nat {
    if history == [] then 0
    else InWindow(history[..|history| - 1], from, to)
         + (if from < history[|history| - 1] <= to then 1 else 0)
  }

  lemma {:induction false} InWindowWithin(history: Log, from: real, to: real)
    ensures InWindow(history, from, to) <= |Prune(history, from)|
    decreases |history|
  {
    if history != [] {
      var pre, x := history[..|history| - 1], history[|history| - 1];
      InWindowWithin(pre, from, to);
      PruneAppend(pre, x, from);
      assert history == pre + [x];
    }
  }

  lemma {:induction false} PruneEarlierKeepsMore(s: Log, c1: real, c2: real)
    requires c1 <= c2
    ensures |Prune(s, c2)| <= |Prune(s, c1)|
    decreases |s|
  {
    if s != [] { PruneEarlierKeepsMore(s[1..], c1, c2); }
  }

  /**
   For every limit and client, every run with a non-decreasing clock and every instant t, at most
   `maxRequests` requests of that client that the limit is the first to match were admitted in
   (t - window, t].
   */
  lemma {:induction false} NeverMoreThanAllowed(limits: seq<Limit>, run: seq<Request>, i: nat, client: string, t: real)
    requires GoodLimits(limits) && i < |limits| && NonDecreasing(run)
    ensures InWindow(History(limits, run, i, client), t - limits[i].window, t) <= limits[i].maxRequests
    decreases |run|
  {
    if run != [] {
      var pre, now := run[..|run| - 1], run[|run| - 1].now;
      NeverMoreThanAllowed(limits, pre, i, client, t);
      var before := History(limits, pre, i, client);
      if History(limits, run, i, client) != before {
        AdmissionFillsLog(limits, run, i, client);
        BoundAtAdmission(before, now, limits[i], t);
      }
    }
  }

  /**
   And the limiter is no stricter than that: after any run, a request is admitted if and only if fewer
   than `maxRequests` requests of its client were admitted under its limit in the window up to now.
   */
  lemma {:induction false} AdmittedIffRoom(limits: seq<Limit>, run: seq<Request>, i: nat, client: string, r: Request)
    requires GoodLimits(limits) && NonDecreasing(run) && (run != [] ==> run[|run| - 1].now <= r.now)
    requires CountsUnder(limits, i, client, r)
    ensures Dispatch(limits, Run(limits, map[], run), r).1.Admitted? <==>
            InWindow(History(limits, run, i, client), r.now - limits[i].window, r.now) < limits[i].maxRequests
  {
    var logs, last := Run(limits, map[], run), LastVisit(limits, run, i, client);
    LogIsWindowOfHistory(limits, run, i, client);
    HistoryInPast(limits, run, i, client);
    if last.Some? { LastVisitInPast(limits, run, i, client); }
    OnlyOwnLogChanges(limits, logs, r, i, client);
    VerdictIff(LogAt(logs, KeyOf(limits[i].pattern, client)), History(limits, run, i, client), last, limits[i], r.now);
  }

  lemma {:induction false} VerdictIff(log: Log, history: Log, last: Option<real>, limit: Limit, now: real)
    requires GoodLimit(limit) && IsWindow(log, history, last, limit) && (last.Some? ==> last.value <= now)
    requires forall x :: x in history ==> x <= now
    ensures Visit(log, limit, now).1.Admitted? <==> InWindow(history, now - limit.window, now) < limit.maxRequests
  {
    SamePruned(log, history, last, limit, now);
    InWindowIs(history, now - limit.window, now);
  }

  lemma {:induction false} InWindowIs(history: Log, from: real, to: real)
    requires forall x :: x in history ==> x <= to
    ensures InWindow(history, from, to) == |Prune(history, from)|
    decreases |history|
  {
    if history != [] {
      var pre, x := history[..|history| - 1], history[|history| - 1];
      assert history == pre + [x] && x in history;
      forall y | y in pre ensures y <= to { assert y in history; }
      InWindowIs(pre, from, to);
      PruneAppend(pre, x, from);
    }
  }

  lemma {:induction false} HistoryFits(limits: seq<Limit>, run: seq<Request>, i: nat, client: string, last: real)
    requires GoodLimits(limits) && i < |limits| && NonDecreasing(run)
    requires LastVisit(limits, run, i, client) == Some(last)
    ensures |Prune(History(limits, run, i, client), last - limits[i].window)| <= limits[i].maxRequests
  {
    LogIsWindowOfHistory(limits, run, i, client);
  }

  lemma {:induction false} HistoryStep(limits: seq<Limit>, run: seq<Request>, i: nat, client: string)
    requires GoodLimits(limits) && run != []
    requires History(limits, run, i, client) != History(limits, run[..|run| - 1], i, client)
    ensures History(limits, run, i, client) == History(limits, run[..|run| - 1], i, client) + [run[|run| - 1].now]
    ensures LastVisit(limits, run, i, client) == Some(run[|run| - 1].now)
  {
  }

  lemma {:induction false} AdmissionFillsLog(limits: seq<Limit>, run: seq<Request>, i: nat, client: string)
    requires GoodLimits(limits) && i < |limits| && NonDecreasing(run) && run != []
    requires History(limits, run, i, client) != History(limits, run[..|run| - 1], i, client)
    ensures var now := run[|run| - 1].now;
            && History(limits, run, i, client) == History(limits, run[..|run| - 1], i, client) + [now]
            && |Prune(History(limits, run, i, client), now - limits[i].window)| <= limits[i].maxRequests
  {
    HistoryStep(limits, run, i, client);
    HistoryFits(limits, run, i, client, run[|run| - 1].now);
  }

  lemma BoundAtAdmission(before: Log, now: real, limit: Limit, t: real)
    requires InWindow(before, t - limit.window, t) <= limit.maxRequests
    requires |Prune(before + [now], now - limit.window)| <= limit.maxRequests
    ensures InWindow(before + [now], t - limit.window, t) <= limit.maxRequests
  {
    var history := before + [now];
    assert history[..|history| - 1] == before;
    if now <= t {
      InWindowWithin(history, t - limit.window, t);
      PruneEarlierKeepsMore(history, now - limit.window, t - limit.window);
    }
  }

  // ---- Reopening ------------------------------------------------------------------------------

  /**
   A full log rejects every request before its oldest entry leaves the window and admits every
   request from that instant on; a log with room admits at once.
   */
  lemma FullLogReopensExactly(log: Log, limit: Limit, now: real)
    requires GoodLimit(limit) && Sorted(log) && |log| <= limit.maxRequests
    ensures Visit(log, limit, now).1.Rejected? <==> |log| == limit.maxRequests && now < log[0] + limit.window
  {
    var cutoff := now - limit.window;
    PruneShorter(log, cutoff);
    if log != [] {
      if log[0] > cutoff {
        PruneNothing(log, cutoff);
      } else {
        PruneShorter(log[1..], cutoff);
      }
    }
  }

  /**
   The advertised wait of a full log is the time left, cut to whole seconds: retrying after exactly
   that long succeeds if and only if the time left was a whole number of seconds to begin with.
   */
  lemma RetryAfterSufficesIff(log: Log, limit: Limit, now: real)
    requires GoodLimit(limit) && Sorted(log)
    requires |log| == limit.maxRequests && now < log[0] + limit.window
    ensures var left := log[0] + limit.window - now;
            var (log', verdict) := Visit(log, limit, now);
            && verdict == Rejected(left.Floor)
            && (Visit(log', limit, now + left.Floor as real).1.Admitted? <==> left.Floor as real == left)
  {
    PruneNothing(log, now - limit.window);
    FullLogReopensExactly(log, limit, now + (log[0] + limit.window - now).Floor as real);
  }

  function RequestAt(path: string, pattern: string, client: string, now: real): Request {
    Request(path, client, {pattern}, now)
  }

  /** One request a minute: the second, half a second after the first, is told 59 and rejected once more after 59. */
  lemma AdvertisedWaitTooShort(path: string, pattern: string, client: string)
    requires path != "/api/health" && client != "unknown" && ':' !in pattern
    ensures var limits := [Limit(pattern, 1, 60.0)];
            var logs := Run(limits, map[], [RequestAt(path, pattern, client, 0.0)]);
            var (logs', second) := Dispatch(limits, logs, RequestAt(path, pattern, client, 0.5));
            && second == Rejected(59)
            && Dispatch(limits, logs', RequestAt(path, pattern, client, 59.5)).1.Rejected?
  {
  }
}
