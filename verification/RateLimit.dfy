/**
 The sliding-window limiter over a log of requests, and the pruning of that log.
 The cutoff comes from the clock read under the scope's lock; the time stored with
 a new entry is the start of its transaction, which lies before the lock by some lag.
 */
module RateLimit {
  import opened Prelude

  const DAY := 86_400

  datatype Scope = Scope(workspace: string, user: string, action: string)

  datatype Rule = Rule(maxRequests: int, windowSeconds: int)

  datatype Entry = Entry(scope: Scope, allowed: bool, at: int)

  // ------------------------------------------------------------ one decision

  predicate Hit(e: Entry, scope: Scope, cutoff: int) {
    e.scope == scope && e.allowed && e.at >= cutoff
  }

  // The allowed entries of a scope from the cutoff on.
  function Count(log: seq<Entry>, scope: Scope, cutoff: int): nat {
    if log == [] then 0
    else
      var e := log[|log| - 1];
      Count(log[..|log| - 1], scope, cutoff) + if Hit(e, scope, cutoff) then 1 else 0
  }

  predicate IsLimited(log: seq<Entry>, scope: Scope, rule: Rule, now: int) {
    if rule.maxRequests <= 0 then true
    else if rule.windowSeconds <= 0 then false
    else Count(log, scope, now - rule.windowSeconds) >= rule.maxRequests
  }

  // A refused request is committed at once; an allowed one with the request's own
  // transaction, which may roll back.
  function Enforced(log: seq<Entry>, scope: Scope, rule: Rule, now: int, stamp: int, commits: bool): seq<Entry> {
    var allowed := !IsLimited(log, scope, rule, now);
    if allowed && !commits then log else log + [Entry(scope, allowed, stamp)]
  }

  function Pruned(log: seq<Entry>, cutoff: int): seq<Entry> {
    if log == [] then []
    else Pruned(log[..|log| - 1], cutoff) + if log[|log| - 1].at < cutoff then [] else [log[|log| - 1]]
  }

  lemma CountAppend(log: seq<Entry>, e: Entry, scope: Scope, cutoff: int)
    ensures Count(log + [e], scope, cutoff) ==
            Count(log, scope, cutoff) + if Hit(e, scope, cutoff) then 1 else 0
  {
    assert (log + [e])[..|log|] == log;
  }

  lemma PrunedAppend(log: seq<Entry>, e: Entry, cutoff: int)
    ensures Pruned(log + [e], cutoff) == if e.at < cutoff then Pruned(log, cutoff) else Pruned(log, cutoff) + [e]
  {
    assert (log + [e])[..|log|] == log;
  }

  // The positions of the allowed entries of a scope from the cutoff on.
  function Hits(log: seq<Entry>, scope: Scope, cutoff: int): set<int> {
    set i | 0 <= i < |log| && Hit(log[i], scope, cutoff)
  }

  lemma HitsAppend(log: seq<Entry>, e: Entry, scope: Scope, cutoff: int)
    ensures |Hits(log + [e], scope, cutoff)| == |Hits(log, scope, cutoff)| + if Hit(e, scope, cutoff) then 1 else 0
  {
    var n := |log|;
    var before, after := Hits(log, scope, cutoff), Hits(log + [e], scope, cutoff);
    assert n !in before;
    if Hit(e, scope, cutoff) {
      assert after == before + {n};
    } else {
      assert after == before;
    }
  }

  lemma {:induction false} CountIsHits(log: seq<Entry>, scope: Scope, cutoff: int)
    ensures Count(log, scope, cutoff) == |Hits(log, scope, cutoff)|
  {
    if log == [] {
      assert Hits(log, scope, cutoff) == {};
    } else {
      var front, last := log[..|log| - 1], log[|log| - 1];
      CountIsHits(front, scope, cutoff);
      HitsAppend(front, last, scope, cutoff);
      assert log == front + [last];
    }
  }

  lemma OneMore(log: seq<Entry>, last: Entry, e: Entry)
    ensures multiset(log + [last])[e] == multiset(log)[e] + if e == last then 1 else 0
  {
  }

  // How often an entry survives a pruning.
  predicate Keeps(log: seq<Entry>, kept: seq<Entry>, cutoff: int, e: Entry) {
    multiset(kept)[e] == if e.at < cutoff then 0 else multiset(log)[e]
  }

  ghost predicate KeepsYounger(log: seq<Entry>, kept: seq<Entry>, cutoff: int) {
    forall e :: Keeps(log, kept, cutoff, e)
  }

  lemma KeepsOneMore(log: seq<Entry>, kept: seq<Entry>, last: Entry, cutoff: int, e: Entry)
    requires Keeps(log, kept, cutoff, e)
    ensures Keeps(log + [last], if last.at < cutoff then kept else kept + [last], cutoff, e)
  {
    OneMore(log, last, e);
    OneMore(kept, last, e);
  }

  // Pruning removes every older entry and keeps the others as often as they were there.
  lemma {:induction false} PrunedKeeps(log: seq<Entry>, cutoff: int, e: Entry)
    ensures Keeps(log, Pruned(log, cutoff), cutoff, e)
  {
    if log != [] {
      var front, last := log[..|log| - 1], log[|log| - 1];
      PrunedKeeps(front, cutoff, e);
      KeepsOneMore(front, Pruned(front, cutoff), last, cutoff, e);
      PrunedAppend(front, last, cutoff);
      assert log == front + [last];
    }
  }

  datatype MaintenanceError = TooYoung

  datatype MaintenanceResult = MaintenanceResult(candidates: nat, changed: nat)

  class RateLimiter {
    var log: seq<Entry>

    constructor ()
      ensures log == []
    {
      log := [];
    }

    method CountRequests(scope: Scope, cutoff: int) returns (count: nat)
      ensures count == |Hits(log, scope, cutoff)|
    {
      count := 0;
      for i := 0 to |log|
        invariant count == Count(log[..i], scope, cutoff)
      {
        CountAppend(log[..i], log[i], scope, cutoff);
        assert log[..i] + [log[i]] == log[..i + 1];
        if Hit(log[i], scope, cutoff) {
          count := count + 1;
        }
      }
      assert log[..|log|] == log;
      CountIsHits(log, scope, cutoff);
    }

    // Granted below the limit of the window, and logged either way unless the granted
    // request rolls back.
    method EnforceApiRateLimit(scope: Scope, rule: Rule, now: int, stamp: int, commits: bool) returns (allowed: bool)
      modifies this
      ensures allowed <==>
                && rule.maxRequests > 0
                && (rule.windowSeconds > 0 ==> |Hits(old(log), scope, now - rule.windowSeconds)| < rule.maxRequests)
      ensures log == old(log) + (if allowed && !commits then [] else [Entry(scope, allowed, stamp)])
      ensures log == Enforced(old(log), scope, rule, now, stamp, commits)
    {
      allowed := rule.maxRequests > 0;
      if allowed && rule.windowSeconds > 0 {
        var count := CountRequests(scope, now - rule.windowSeconds);
        allowed := count < rule.maxRequests;
      }
      CountIsHits(log, scope, now - rule.windowSeconds);
      if !allowed || commits {
        log := log + [Entry(scope, allowed, stamp)];
      }
    }

    // The older entries are counted, and deleted only when asked to.
    method PruneOperationalData(olderThanDays: int, apply: bool, now: int)
      returns (r: Result<MaintenanceResult, MaintenanceError>)
      modifies this
      ensures r.Err? <==> olderThanDays < 1
      ensures r.Err? || !apply ==> log == old(log)
      ensures r.Ok? ==> r.value.changed == |old(log)| - |log|
      ensures r.Ok? ==> |old(log)| - r.value.candidates == |Pruned(old(log), now - olderThanDays * DAY)|
      ensures r.Ok? && apply ==> log == Pruned(old(log), now - olderThanDays * DAY)
      ensures r.Ok? && apply ==> KeepsYounger(old(log), log, now - olderThanDays * DAY)
    {
      if olderThanDays < 1 {
        return Err(TooYoung);
      }
      var cutoff := now - olderThanDays * DAY;
      var kept: seq<Entry> := [];
      for i := 0 to |log|
        invariant log == old(log)
        invariant kept == Pruned(log[..i], cutoff) && |kept| <= i
      {
        PrunedAppend(log[..i], log[i], cutoff);
        assert log[..i] + [log[i]] == log[..i + 1];
        if log[i].at >= cutoff {
          kept := kept + [log[i]];
        }
      }
      assert log[..|log|] == log;
      var candidates := |log| - |kept|;
      if !apply {
        return Ok(MaintenanceResult(candidates, 0));
      }
      forall e
        ensures Keeps(log, kept, cutoff, e)
      {
        PrunedKeeps(log, cutoff, e);
      }
      log := kept;
      return Ok(MaintenanceResult(candidates, candidates));
    }
  }

  // ------------------------------------------------------------ runs

  datatype Request = Enforce(scope: Scope, stamp: int, commits: bool) | Prune(days: int)

  datatype Event = Event(now: int, request: Request)

  function Step(log: seq<Entry>, rules: Scope -> Rule, e: Event): seq<Entry> {
    match e.request
    case Enforce(scope, stamp, commits) => Enforced(log, scope, rules(scope), e.now, stamp, commits)
    case Prune(days) => if days < 1 then log else Pruned(log, e.now - days * DAY)
  }

  function Exec(rules: Scope -> Rule, events: seq<Event>): seq<Entry> {
    if events == [] then []
    else Step(Exec(rules, events[..|events| - 1]), rules, events[|events| - 1])
  }

  // The decision on a request that follows a run.
  predicate LimitedAfter(rules: Scope -> Rule, events: seq<Event>, scope: Scope, now: int) {
    IsLimited(Exec(rules, events), scope, rules(scope), now)
  }

  // ------------------------------------------------------------ the window

  // The allowed entries of a scope in a closed interval.
  function CountWithin(log: seq<Entry>, scope: Scope, from: int, to: int): nat {
    if log == [] then 0
    else
      var e := log[|log| - 1];
      CountWithin(log[..|log| - 1], scope, from, to)
      + if e.scope == scope && e.allowed && from <= e.at <= to then 1 else 0
  }

  ghost predicate LagWithin(events: seq<Event>, lag: int) {
    forall i :: 0 <= i < |events| && events[i].request.Enforce? ==> events[i].now - events[i].request.stamp <= lag
  }

  lemma {:induction false} WithinIsCounted(log: seq<Entry>, scope: Scope, from: int, to: int, cutoff: int)
    requires cutoff <= from
    ensures CountWithin(log, scope, from, to) <= Count(log, scope, cutoff)
  {
    if log != [] {
      WithinIsCounted(log[..|log| - 1], scope, from, to, cutoff);
    }
  }

  lemma WithinAppend(log: seq<Entry>, e: Entry, scope: Scope, from: int, to: int)
    ensures CountWithin(log + [e], scope, from, to) ==
            CountWithin(log, scope, from, to) + if e.scope == scope && e.allowed && from <= e.at <= to then 1 else 0
  {
    assert (log + [e])[..|log|] == log;
  }

  lemma {:induction false} PruningCountsLess(log: seq<Entry>, scope: Scope, from: int, to: int, cutoff: int)
    ensures CountWithin(Pruned(log, cutoff), scope, from, to) <= CountWithin(log, scope, from, to)
  {
    if log != [] {
      var n := |log| - 1;
      var front, last := log[..n], log[n];
      PruningCountsLess(front, scope, from, to, cutoff);
      assert log == front + [last];
      PrunedAppend(front, last, cutoff);
      WithinAppend(front, last, scope, from, to);
      WithinAppend(Pruned(front, cutoff), last, scope, from, to);
    }
  }

  // With a lag of at most lag seconds, every closed interval of the window length
  // less the lag holds at most the allowed number of the entries that are still logged.
  lemma {:induction false} WindowHoldsAtMost(rules: Scope -> Rule, events: seq<Event>, scope: Scope, lag: int, from: int)
    requires LagWithin(events, lag)
    requires rules(scope).maxRequests >= 1 && rules(scope).windowSeconds >= 1
    ensures CountWithin(Exec(rules, events), scope, from, from + rules(scope).windowSeconds - lag) <= rules(scope).maxRequests
  {
    if events != [] {
      var n := |events| - 1;
      var e := events[n];
      var before := Exec(rules, events[..n]);
      WindowHoldsAtMost(rules, events[..n], scope, lag, from);
      var to := from + rules(scope).windowSeconds - lag;
      match e.request
      case Prune(days) =>
        PruningCountsLess(before, scope, from, to, e.now - days * DAY);
      case Enforce(s, stamp, commits) =>
        var after := Exec(rules, events);
        if after != before {
          assert after[..|before|] == before;
          if s == scope && from <= stamp <= to {
            WithinIsCounted(before, scope, from, to, e.now - rules(scope).windowSeconds);
          }
        }
    }
  }

  ghost predicate AllAre<T(!new)>(s: seq<T>, x: T) {
    forall i :: 0 <= i < |s| ==> s[i] == x
  }

  lemma {:induction false} CountSame(log: seq<Entry>, e: Entry, cutoff: int)
    requires AllAre(log, e) && e.allowed
    ensures Count(log, e.scope, cutoff) == if cutoff <= e.at then |log| else 0
  {
    if log != [] {
      CountSame(log[..|log| - 1], e, cutoff);
    }
  }

  lemma {:induction false} CountSameWithin(log: seq<Entry>, e: Entry, from: int, to: int)
    requires AllAre(log, e) && e.allowed && from <= e.at <= to
    ensures CountWithin(log, e.scope, from, to) == |log|
  {
    if log != [] {
      CountSameWithin(log[..|log| - 1], e, from, to);
    }
  }

  lemma ExecAppend(rules: Scope -> Rule, events: seq<Event>, e: Event)
    ensures Exec(rules, events + [e]) == Step(Exec(rules, events), rules, e)
  {
    assert (events + [e])[..|events|] == events;
  }

  lemma StepAllowed(log: seq<Entry>, rules: Scope -> Rule, scope: Scope, now: int, stamp: int)
    requires rules(scope).windowSeconds >= 1
    requires Count(log, scope, now - rules(scope).windowSeconds) < rules(scope).maxRequests
    ensures Step(log, rules, Event(now, Enforce(scope, stamp, true))) == log + [Entry(scope, true, stamp)]
  {
  }

  // As many requests at one time as the limit allows are all in the log.
  lemma {:induction false} BurstIsLogged(rules: Scope -> Rule, scope: Scope, at: int, events: seq<Event>)
    requires rules(scope).windowSeconds >= 1 && |events| <= rules(scope).maxRequests
    requires AllAre(events, Event(at, Enforce(scope, at, true)))
    ensures |Exec(rules, events)| == |events| && AllAre(Exec(rules, events), Entry(scope, true, at))
  {
    if events != [] {
      var before := events[..|events| - 1];
      BurstIsLogged(rules, scope, at, before);
      CountSame(Exec(rules, before), Entry(scope, true, at), at - rules(scope).windowSeconds);
      StepAllowed(Exec(rules, before), rules, scope, at, at);
    }
  }

  // The limit is used up at once, and another request is allowed as soon as the burst
  // has left the window.
  lemma LateEntry(rules: Scope -> Rule, scope: Scope, burst: seq<Event>, stamp: int)
    requires rules(scope).maxRequests == |burst| >= 1 && rules(scope).windowSeconds >= 1 && stamp >= 0
    requires AllAre(burst, Event(0, Enforce(scope, 0, true)))
    ensures CountWithin(Exec(rules, burst + [Event(rules(scope).windowSeconds + 1, Enforce(scope, stamp, true))]),
                        scope, 0, stamp) == |burst| + 1
  {
    var late := Event(rules(scope).windowSeconds + 1, Enforce(scope, stamp, true));
    var log := Exec(rules, burst);
    BurstIsLogged(rules, scope, 0, burst);
    ExecAppend(rules, burst, late);
    CountSame(log, Entry(scope, true, 0), 1);
    StepAllowed(log, rules, scope, late.now, stamp);
    CountSameWithin(log, Entry(scope, true, 0), 0, stamp);
    WithinAppend(log, Entry(scope, true, stamp), scope, 0, stamp);
  }

  // The bound is tight: an interval one second longer can hold one entry more.
  lemma LongerWindowHoldsMore(rules: Scope -> Rule, scope: Scope, lag: int)
    requires rules(scope).maxRequests >= 1 && 0 <= lag <= rules(scope).windowSeconds && rules(scope).windowSeconds >= 1
    ensures exists events ::
              && LagWithin(events, lag)
              && CountWithin(Exec(rules, events), scope, 0, rules(scope).windowSeconds - lag + 1)
                 == rules(scope).maxRequests + 1
  {
    var w := rules(scope).windowSeconds;
    var burst := seq(rules(scope).maxRequests, _ => Event(0, Enforce(scope, 0, true)));
    var late := Event(w + 1, Enforce(scope, w + 1 - lag, true));
    LateEntry(rules, scope, burst, w + 1 - lag);
    assert LagWithin(burst + [late], lag);
  }

  // ------------------------------------------------------------ pruning

  ghost predicate Monotone(events: seq<Event>, clock: int) {
    && (forall i, j :: 0 <= i < j < |events| ==> events[i].now <= events[j].now)
    && (forall i :: 0 <= i < |events| ==> events[i].now <= clock)
  }

  function WithoutPruning(events: seq<Event>): seq<Event> {
    if events == [] then []
    else
      var e := events[|events| - 1];
      WithoutPruning(events[..|events| - 1]) + if e.request.Prune? then [] else [e]
  }

  // Every pruning keeps at least the given number of seconds.
  ghost predicate KeepsSeconds(events: seq<Event>, seconds: int) {
    forall i :: 0 <= i < |events| && events[i].request.Prune? && events[i].request.days >= 1 ==>
      events[i].request.days * DAY >= seconds
  }

  lemma {:induction false} PrunedCount(log: seq<Entry>, scope: Scope, bound: int, cutoff: int)
    requires bound <= cutoff
    ensures Count(Pruned(log, bound), scope, cutoff) == Count(log, scope, cutoff)
  {
    if log != [] {
      var n := |log| - 1;
      var front, last := log[..n], log[n];
      PrunedCount(front, scope, bound, cutoff);
      assert log == front + [last];
      PrunedAppend(front, last, bound);
      CountAppend(front, last, scope, cutoff);
      CountAppend(Pruned(front, bound), last, scope, cutoff);
    }
  }

  lemma EnforcedCount(log: seq<Entry>, s: Scope, rule: Rule, now: int, stamp: int, commits: bool, scope: Scope, cutoff: int)
    ensures Count(Enforced(log, s, rule, now, stamp, commits), scope, cutoff) ==
            Count(log, scope, cutoff)
            + if !IsLimited(log, s, rule, now) && commits && s == scope && stamp >= cutoff then 1 else 0
  {
    CountAppend(log, Entry(s, !IsLimited(log, s, rule, now), stamp), scope, cutoff);
  }

  // Two logs that count alike decide alike and go on counting alike.
  lemma EnforceCountsAlike(log: seq<Entry>, full: seq<Entry>, s: Scope, rule: Rule, now: int, stamp: int, commits: bool,
                           scope: Scope, cutoff: int)
    requires Count(log, s, now - rule.windowSeconds) == Count(full, s, now - rule.windowSeconds)
    requires Count(log, scope, cutoff) == Count(full, scope, cutoff)
    ensures Count(Enforced(log, s, rule, now, stamp, commits), scope, cutoff) ==
            Count(Enforced(full, s, rule, now, stamp, commits), scope, cutoff)
  {
    var allowed := !IsLimited(log, s, rule, now);
    assert IsLimited(full, s, rule, now) == !allowed;
    EnforcedCount(log, s, rule, now, stamp, commits, scope, cutoff);
    EnforcedCount(full, s, rule, now, stamp, commits, scope, cutoff);
  }

  lemma StepCountsAlike(rules: Scope -> Rule, log: seq<Entry>, full: seq<Entry>, e: Event, scope: Scope, cutoff: int)
    requires e.request.Enforce? && Count(log, scope, cutoff) == Count(full, scope, cutoff)
    requires var s := e.request.scope;
             Count(log, s, e.now - rules(s).windowSeconds) == Count(full, s, e.now - rules(s).windowSeconds)
    ensures Count(Step(log, rules, e), scope, cutoff) == Count(Step(full, rules, e), scope, cutoff)
  {
    var r := e.request;
    EnforceCountsAlike(log, full, r.scope, rules(r.scope), e.now, r.stamp, r.commits, scope, cutoff);
  }

  lemma WithoutPruningStep(events: seq<Event>)
    requires events != []
    ensures var before := WithoutPruning(events[..|events| - 1]);
            WithoutPruning(events) == if events[|events| - 1].request.Prune? then before else before + [events[|events| - 1]]
  {
    assert WithoutPruning(events[..|events| - 1]) + [] == WithoutPruning(events[..|events| - 1]);
  }

  lemma EarlierEvents(events: seq<Event>, seconds: int, clock: int)
    requires events != [] && Monotone(events, clock) && KeepsSeconds(events, seconds)
    ensures var before, e := events[..|events| - 1], events[|events| - 1];
            && Monotone(before, e.now) && KeepsSeconds(before, seconds) && e.now <= clock
            && (e.request.Prune? && e.request.days >= 1 ==> e.request.days * DAY >= seconds)
  {
  }

  lemma {:induction false} SameRecentCounts(rules: Scope -> Rule, events: seq<Event>, seconds: int, clock: int,
                                            scope: Scope, cutoff: int)
    requires Monotone(events, clock) && KeepsSeconds(events, seconds) && cutoff >= clock - seconds
    requires forall s :: rules(s).windowSeconds <= seconds
    ensures Count(Exec(rules, events), scope, cutoff) == Count(Exec(rules, WithoutPruning(events)), scope, cutoff)
    decreases |events|
  {
    if events != [] {
      var before, e := events[..|events| - 1], events[|events| - 1];
      var log, full := Exec(rules, before), Exec(rules, WithoutPruning(before));
      EarlierEvents(events, seconds, clock);
      SameRecentCounts(rules, before, seconds, e.now, scope, cutoff);
      WithoutPruningStep(events);
      assert Exec(rules, events) == Step(log, rules, e);
      if e.request.Prune? {
        PrunedRecently(rules, log, e, scope, cutoff);
      } else {
        SameRecentCounts(rules, before, seconds, e.now, e.request.scope, e.now - rules(e.request.scope).windowSeconds);
        StepCountsAlike(rules, log, full, e, scope, cutoff);
        ExecAppend(rules, WithoutPruning(before), e);
      }
    }
  }

  lemma PrunedRecently(rules: Scope -> Rule, log: seq<Entry>, e: Event, scope: Scope, cutoff: int)
    requires e.request.Prune? && (e.request.days >= 1 ==> e.now - e.request.days * DAY <= cutoff)
    ensures Count(Step(log, rules, e), scope, cutoff) == Count(log, scope, cutoff)
  {
    if e.request.days >= 1 {
      PrunedCount(log, scope, e.now - e.request.days * DAY, cutoff);
    }
  }

  // As long as every pruning keeps the longest window, no later decision changes.
  lemma PruningChangesNothing(rules: Scope -> Rule, events: seq<Event>, seconds: int, scope: Scope, now: int)
    requires Monotone(events, now) && KeepsSeconds(events, seconds)
    requires forall s :: rules(s).windowSeconds <= seconds
    ensures LimitedAfter(rules, events, scope, now) == LimitedAfter(rules, WithoutPruning(events), scope, now)
  {
    SameRecentCounts(rules, events, seconds, now, scope, now - rules(scope).windowSeconds);
  }

  // The requests of a scope that were granted and committed with times in an interval,
  // each decided on the log as it was then.
  function Granted(rules: Scope -> Rule, events: seq<Event>, scope: Scope, from: int, to: int): nat {
    if events == [] then 0
    else
      var before, e := events[..|events| - 1], events[|events| - 1];
      Granted(rules, before, scope, from, to)
      + if e.request.Enforce? && e.request.scope == scope && e.request.commits && from <= e.request.stamp <= to
           && !LimitedAfter(rules, before, scope, e.now) then 1 else 0
  }

  lemma EnforcedWithin(log: seq<Entry>, s: Scope, rule: Rule, now: int, stamp: int, commits: bool, scope: Scope, from: int,
                       to: int)
    ensures CountWithin(Enforced(log, s, rule, now, stamp, commits), scope, from, to) ==
            CountWithin(log, scope, from, to)
            + if !IsLimited(log, s, rule, now) && commits && s == scope && from <= stamp <= to then 1 else 0
  {
    WithinAppend(log, Entry(s, !IsLimited(log, s, rule, now), stamp), scope, from, to);
  }

  // Without pruning every granted request is still in the log.
  lemma {:induction false} GrantedIsLogged(rules: Scope -> Rule, events: seq<Event>, seconds: int, clock: int, scope: Scope,
                                           from: int, to: int)
    requires Monotone(events, clock) && KeepsSeconds(events, seconds)
    requires forall s :: rules(s).windowSeconds <= seconds
    ensures Granted(rules, events, scope, from, to) ==
            CountWithin(Exec(rules, WithoutPruning(events)), scope, from, to)
  {
    if events != [] {
      var before, e := events[..|events| - 1], events[|events| - 1];
      GrantedIsLogged(rules, before, seconds, e.now, scope, from, to);
      WithoutPruningStep(events);
      match e.request
      case Prune(days) =>
      case Enforce(s, stamp, commits) =>
        var full := WithoutPruning(before);
        PruningChangesNothing(rules, before, seconds, s, e.now);
        ExecAppend(rules, full, e);
        EnforcedWithin(Exec(rules, full), s, rules(s), e.now, stamp, commits, scope, from, to);
    }
  }

  lemma {:induction false} LagWithoutPruning(events: seq<Event>, lag: int)
    requires LagWithin(events, lag)
    ensures LagWithin(WithoutPruning(events), lag)
  {
    if events != [] {
      LagWithoutPruning(events[..|events| - 1], lag);
    }
  }

  // However the log is pruned, as long as every pruning keeps the longest window: every
  // closed interval of the window length less the lag grants at most the allowed number
  // of requests.
  lemma WindowGrantsAtMost(rules: Scope -> Rule, events: seq<Event>, seconds: int, clock: int, scope: Scope, lag: int,
                           from: int)
    requires Monotone(events, clock) && KeepsSeconds(events, seconds) && LagWithin(events, lag)
    requires forall s :: rules(s).windowSeconds <= seconds
    requires rules(scope).maxRequests >= 1 && rules(scope).windowSeconds >= 1
    ensures Granted(rules, events, scope, from, from + rules(scope).windowSeconds - lag) <= rules(scope).maxRequests
  {
    GrantedIsLogged(rules, events, seconds, clock, scope, from, from + rules(scope).windowSeconds - lag);
    LagWithoutPruning(events, lag);
    WindowHoldsAtMost(rules, WithoutPruning(events), scope, lag, from);
  }

  lemma {:induction false} AllPruned(log: seq<Entry>, cutoff: int)
    requires forall i :: 0 <= i < |log| ==> log[i].at < cutoff
    ensures Pruned(log, cutoff) == []
  {
    if log != [] {
      AllPruned(log[..|log| - 1], cutoff);
    }
  }

  lemma {:induction false} NothingToRemove(events: seq<Event>)
    requires forall i :: 0 <= i < |events| ==> !events[i].request.Prune?
    ensures WithoutPruning(events) == events
  {
    if events != [] {
      NothingToRemove(events[..|events| - 1]);
    }
  }

  lemma RemovePrune(events: seq<Event>, e: Event)
    requires e.request.Prune? && forall i :: 0 <= i < |events| ==> !events[i].request.Prune?
    ensures WithoutPruning(events + [e]) == events
  {
    var all := events + [e];
    assert all[..|all| - 1] == events && all[|all| - 1] == e;
    WithoutPruningStep(all);
    NothingToRemove(events);
  }

  lemma PruneEmpties(rules: Scope -> Rule, burst: seq<Event>, days: int)
    requires days >= 1 && forall i :: 0 <= i < |Exec(rules, burst)| ==> Exec(rules, burst)[i].at == 0
    ensures Exec(rules, burst + [Event(days * DAY + 1, Prune(days))]) == []
  {
    ExecAppend(rules, burst, Event(days * DAY + 1, Prune(days)));
    AllPruned(Exec(rules, burst), 1);
  }

  lemma BurstUsesUp(rules: Scope -> Rule, scope: Scope, burst: seq<Event>, now: int)
    requires rules(scope).maxRequests == |burst| >= 1 && 1 <= now <= rules(scope).windowSeconds
    requires AllAre(burst, Event(0, Enforce(scope, 0, true)))
    ensures LimitedAfter(rules, burst, scope, now) && AllAre(Exec(rules, burst), Entry(scope, true, 0))
  {
    BurstIsLogged(rules, scope, 0, burst);
    CountSame(Exec(rules, burst), Entry(scope, true, 0), now - rules(scope).windowSeconds);
  }

  // A pruning that keeps less than the window can free a limit that was used up.
  lemma PruningTooSoon(rules: Scope -> Rule, scope: Scope, days: int) returns (burst: seq<Event>, prune: Event)
    requires rules(scope).maxRequests >= 1 && 1 <= days && days * DAY < rules(scope).windowSeconds
    ensures Monotone(burst + [prune], prune.now) && prune.request == Prune(days)
    ensures !LimitedAfter(rules, burst + [prune], scope, prune.now)
    ensures LimitedAfter(rules, WithoutPruning(burst + [prune]), scope, prune.now)
  {
    burst := seq(rules(scope).maxRequests, _ => Event(0, Enforce(scope, 0, true)));
    prune := Event(days * DAY + 1, Prune(days));
    BurstUsesUp(rules, scope, burst, prune.now);
    RemovePrune(burst, prune);
    PruneEmpties(rules, burst, days);
  }
}
