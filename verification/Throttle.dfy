// The throttled function and the timers it sets.

module Throttles {
  import opened Wrappers

  /** `timers` are the ones the runtime will still fire, with the time each is due. */
  datatype State = State(now: int, lastCall: int, timeoutId: Option<nat>, timers: map<nat, int>, nextId: nat, runs: seq<int>)

  /** A call at `at`, or the runtime firing a timer. */
  datatype Event = Call(at: int) | Fire(id: nat, at: int)

  function Initial(now: nat): State {
    State(now, 0, None, map[], 0, [])
  }

  /** Time does not run backwards, and no timer fires early. */
  predicate Enabled(s: State, e: Event) {
    && s.now <= e.at
    && (e.Fire? ==> e.id in s.timers && s.timers[e.id] <= e.at)
  }

  function Next(limit: int, s: State, e: Event): State {
    match e
    case Call(now) =>
      var remaining := limit - (now - s.lastCall);
      if remaining <= 0 then
        State(now, now, None, if s.timeoutId.Some? then s.timers - {s.timeoutId.value} else s.timers, s.nextId, s.runs + [now])
      else if s.timeoutId.None? then
        State(now, s.lastCall, Some(s.nextId), s.timers[s.nextId := now + remaining], s.nextId + 1, s.runs)
      else s.(now := now)
    case Fire(id, now) =>
      State(now, now, None, s.timers - {id}, s.nextId, s.runs + [now])
  }

  // ---------------------------------------------------------------- the closure

  class Throttle {
    const limit: int
    var lastCall: int
    var timeoutId: Option<nat>
    var timers: map<nat, int>
    var nextId: nat
    ghost var runs: seq<int>

    constructor (limit: int)
      ensures this.limit == limit && forall now: nat :: At(now) == Initial(now)
    {
      this.limit := limit;
      lastCall, timeoutId, timers, nextId, runs := 0, None, map[], 0, [];
    }

    ghost function At(now: int): State
      reads this
    {
      State(now, lastCall, timeoutId, timers, nextId, runs)
    }

    /** A call of the throttled function; `executed` tells whether the wrapped one ran. */
    method Invoke(ghost was: int, now: int) returns (executed: bool)
      modifies this
      ensures At(now) == Next(limit, old(At(was)), Call(now))
      ensures runs == if executed then old(runs) + [now] else old(runs)
    {
      var remaining := limit - (now - lastCall);
      executed := remaining <= 0;
      if executed {
        if timeoutId.Some? {
          timers := timers - {timeoutId.value};
          timeoutId := None;
        }
        lastCall := now;
        runs := runs + [now];
      } else if timeoutId.None? {
        timeoutId := Some(nextId);
        timers := timers[nextId := now + remaining];
        nextId := nextId + 1;
      }
    }

    /** The timer's callback. */
    method OnTimer(ghost was: int, id: nat, now: int)
      modifies this
      ensures At(now) == Next(limit, old(At(was)), Fire(id, now))
    {
      timers := timers - {id};
      lastCall := now;
      timeoutId := None;
      runs := runs + [now];
    }
  }

  // ---------------------------------------------------------------- the invariant

  predicate Spaced(runs: seq<int>, limit: int) {
    forall k :: 0 < k < |runs| ==> runs[k] - runs[k - 1] >= limit
  }

  /** At most one timer, the one remembered, due one limit after the last execution. */
  ghost predicate Inv(limit: int, s: State) {
    && Spaced(s.runs, limit)
    && s.lastCall == (if s.runs == [] then 0 else s.runs[|s.runs| - 1])
    && s.lastCall <= s.now
    && s.timers == (match s.timeoutId case None => map[] case Some(id) => map[id := s.lastCall + limit])
    && (s.timeoutId.Some? ==> s.timeoutId.value < s.nextId)
  }

  lemma NextKeepsInv(limit: int, s: State, e: Event)
    requires Inv(limit, s) && Enabled(s, e)
    ensures Inv(limit, Next(limit, s, e))
  {
    var t := Next(limit, s, e);
    if t.runs != s.runs {
      assert t.runs[|s.runs|] - s.lastCall >= limit;
      forall k | 0 < k < |t.runs| ensures t.runs[k] - t.runs[k - 1] >= limit {
        if k < |s.runs| {
          assert s.runs[k] - s.runs[k - 1] >= limit;
        }
      }
    }
  }

  ghost predicate Run(limit: int, s: State, events: seq<Event>)
    decreases |events|
  {
    events == [] || (Enabled(s, events[0]) && Run(limit, Next(limit, s, events[0]), events[1..]))
  }

  function After(limit: int, s: State, events: seq<Event>): State
    decreases |events|
  {
    if events == [] then s else After(limit, Next(limit, s, events[0]), events[1..])
  }

  lemma {:induction false} RunKeepsInv(limit: int, s: State, events: seq<Event>)
    requires Inv(limit, s) && Run(limit, s, events)
    ensures Inv(limit, After(limit, s, events)) && s.runs <= After(limit, s, events).runs
    decreases |events|
  {
    if events != [] {
      NextKeepsInv(limit, s, events[0]);
      RunKeepsInv(limit, Next(limit, s, events[0]), events[1..]);
    }
  }

  /** In every run: executions at least `limit` apart, and never more than one timer. */
  lemma ExecutionsAreSpaced(limit: int, start: nat, events: seq<Event>)
    requires Run(limit, Initial(start), events)
    ensures var s := After(limit, Initial(start), events);
            && Spaced(s.runs, limit)
            && |s.timers| <= 1 && (forall id :: id in s.timers ==> s.timers[id] == s.lastCall + limit)
  {
    RunKeepsInv(limit, Initial(start), events);
    var s := After(limit, Initial(start), events);
    if s.timeoutId.Some? {
      assert s.timers == map[s.timeoutId.value := s.lastCall + limit];
    }
  }

  /** A call is executed at once, or an execution is pending for one limit after the last. */
  lemma CallIsCovered(limit: int, s: State, now: int)
    requires Inv(limit, s) && Enabled(s, Call(now))
    ensures var t := Next(limit, s, Call(now));
            || t.runs == s.runs + [now]
            || (t.runs == s.runs && t.timeoutId.Some? && t.timers == map[t.timeoutId.value := s.lastCall + limit]
                && now < s.lastCall + limit)
  {
    NextKeepsInv(limit, s, Call(now));
  }

  /** A pending execution is never dropped: the event that ends it executes. */
  lemma {:induction false} PendingIsServed(limit: int, s: State, events: seq<Event>)
    requires Inv(limit, s) && Run(limit, s, events) && s.timeoutId.Some?
    ensures var t := After(limit, s, events);
            || |t.runs| > |s.runs|
            || (t.timeoutId == s.timeoutId && t.timers == s.timers && t.lastCall == s.lastCall)
    decreases |events|
  {
    if events != [] {
      var next := Next(limit, s, events[0]);
      NextKeepsInv(limit, s, events[0]);
      if next.timeoutId.Some? {
        PendingIsServed(limit, next, events[1..]);
      }
      RunKeepsInv(limit, next, events[1..]);
    }
  }
}
