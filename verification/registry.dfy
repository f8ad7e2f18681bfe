/**
 The profiler's registry of events: the events still running, keyed by the
 token `start` handed out, and the finished events grouped by name in the
 order they were stopped. The wall clock and the unique-identifier generator
 are inputs: every operation that reads the clock takes the current time
 `now` in integer microseconds, and tokens come from a counter that is only
 ever incremented.
 */
module Registry {
  import opened Wrappers

  type Token = nat

  const MicrosPerSecond: int := 1000000

  /** The `microseconds` attribute of a `timedelta` spanning `elapsed`
      microseconds. Python normalises a `timedelta` so that this attribute
      lies in [0, 10^6) and the whole seconds go to `seconds` and `days`;
      the profiler keeps only this attribute as the duration. */
  function MicrosecondsOf(elapsed: int): (us: int)
    ensures 0 <= us < MicrosPerSecond
    ensures (elapsed - us) % MicrosPerSecond == 0
    ensures 0 <= elapsed < MicrosPerSecond ==> us == elapsed
  {
    elapsed % MicrosPerSecond
  }

  /** Adding whole seconds to the elapsed time does not change the duration
      the profiler records. */
  lemma WholeSecondsDiscarded(elapsed: int, seconds: int)
    ensures MicrosecondsOf(elapsed + seconds * MicrosPerSecond) == MicrosecondsOf(elapsed)
  {
  }

  /** A tracked event. While it runs, `endTime` and `duration` are None. */
  datatype Event = Event(name: string, startTime: int, endTime: Option<int>, duration: Option<int>)
  {
    predicate IsRunning()
    {
      endTime.None? && duration.None?
    }

    /** Stopped: both the end time and the duration are set, and the duration
        is the microsecond part of the time between start and end. */
    predicate IsFinished()
    {
      && endTime.Some?
      && duration.Some?
      && duration.value == MicrosecondsOf(endTime.value - startTime)
    }
  }

  /** The registry state: running events by token, finished events by name,
      and the next token the counter will hand out. */
  datatype Profiler = Profiler(running: map<Token, Event>, finished: map<string, seq<Event>>, nextToken: Token)

  datatype Started = Started(state: Profiler, token: Token)

  datatype Stopped = Stopped(state: Profiler, event: Option<Event>)

  /** Invariant of every state reachable from `Init`: running events are
      running and carry tokens already handed out; every name in `finished`
      has at least one event, all of them finished and filed under their own
      name. */
  ghost predicate Valid(p: Profiler)
  {
    RunningValid(p.running, p.nextToken) && FinishedValid(p.finished)
  }

  ghost predicate RunningValid(running: map<Token, Event>, nextToken: Token)
  {
    forall t :: t in running ==> t < nextToken && running[t].IsRunning()
  }

  ghost predicate FinishedValid(finished: map<string, seq<Event>>)
  {
    && (forall n :: n in finished ==> |finished[n]| > 0)
    && (forall n, i :: n in finished && 0 <= i < |finished[n]| ==>
          finished[n][i].name == n && finished[n][i].IsFinished())
  }

  /** A new profiler has no running and no finished events. */
  function Init(): (p: Profiler)
    ensures Valid(p)
    ensures EventCount(p) == 0
  {
    Profiler(map[], map[], 0)
  }

  /** The events filed under `name`; none when the name was never stopped. */
  function EventsNamed(finished: map<string, seq<Event>>, name: string): seq<Event>
  {
    if name in finished then finished[name] else []
  }

  /** Starts tracking a new event called `name` at time `now` and returns the
      token to stop it with. */
  function Start(p: Profiler, name: string, now: int): (r: Started)
    ensures r.state.running.Keys == p.running.Keys + {r.token}
    ensures r.state.running[r.token] == Event(name, now, None, None)
    ensures forall t :: t in p.running && t != r.token ==> r.state.running[t] == p.running[t]
    ensures r.state.finished == p.finished
    ensures p.nextToken <= r.token < r.state.nextToken
    ensures Valid(p) ==> r.token !in p.running && |r.state.running| == |p.running| + 1 && Valid(r.state)
  {
    var token := p.nextToken;
    var e := Event(name, now, None, None);
    AddRunning(p.running, token, e);
    Started(p.(running := p.running[token := e], nextToken := token + 1), token)
  }

  /** Filing a running event under the counter's token and bumping the
      counter keeps the running events valid and adds one entry. */
  lemma AddRunning(running: map<Token, Event>, token: Token, e: Event)
    requires e.IsRunning()
    ensures RunningValid(running, token) ==>
      && token !in running
      && |running[token := e]| == |running| + 1
      && RunningValid(running[token := e], token + 1)
  {
  }

  /** Sets the end time `now` of a running event and its duration. */
  function Finish(e: Event, now: int): (f: Event)
    ensures f.name == e.name && f.startTime == e.startTime
    ensures f.endTime == Some(now)
    ensures f.IsFinished()
  {
    e.(endTime := Some(now), duration := Some(MicrosecondsOf(now - e.startTime)))
  }

  /** Appends a finished event to the list of its name, creating the list
      for a name seen for the first time. */
  function SaveFinishedEvent(finished: map<string, seq<Event>>, e: Event): (f: map<string, seq<Event>>)
    ensures f.Keys == finished.Keys + {e.name}
    ensures |f[e.name]| == |EventsNamed(finished, e.name)| + 1
    ensures f[e.name][..|f[e.name]| - 1] == EventsNamed(finished, e.name)
    ensures f[e.name][|f[e.name]| - 1] == e
    ensures forall n :: n in finished && n != e.name ==> f[n] == finished[n]
  {
    if e.name in finished then finished[e.name := finished[e.name] + [e]]
    else finished[e.name := [e]]
  }

  /** Stops the event `token` at time `now`: unknown or already stopped
      tokens give None and leave the state alone; otherwise the event leaves
      `running`, gets its end time and duration, and is appended to the
      finished events of its name. */
  function Stop(p: Profiler, token: Token, now: int): (r: Stopped)
    ensures token !in p.running ==> r.event == None && r.state == p
    ensures token in p.running ==>
      var e := p.running[token];
      && r.event.Some?
      && r.event.value.name == e.name
      && r.event.value.startTime == e.startTime
      && r.event.value.endTime == Some(now)
      && r.event.value.IsFinished()
      && r.state.running == p.running - {token}
      && r.state.finished.Keys == p.finished.Keys + {e.name}
      && r.state.finished[e.name] == EventsNamed(p.finished, e.name) + [r.event.value]
      && (forall n :: n in p.finished && n != e.name ==> r.state.finished[n] == p.finished[n])
      && r.state.nextToken == p.nextToken
    ensures Valid(p) && token in p.running ==> |r.state.running| == |p.running| - 1
    ensures Valid(p) ==> Valid(r.state)
  {
    if token !in p.running then Stopped(p, None)
    else
      var e := Finish(p.running[token], now);
      var finished := SaveFinishedEvent(p.finished, e);
      assert finished[e.name] == EventsNamed(p.finished, e.name) + [e];
      RemoveRunning(p.running, p.nextToken, token);
      SaveKeepsValid(p.finished, e);
      Stopped(p.(running := p.running - {token}, finished := finished), Some(e))
  }

  /** Removing a running event keeps the running events valid and removes
      one entry. */
  lemma RemoveRunning(running: map<Token, Event>, nextToken: Token, token: Token)
    requires token in running
    ensures |running - {token}| == |running| - 1
    ensures RunningValid(running, nextToken) ==> RunningValid(running - {token}, nextToken)
  {
    assert (running - {token}).Keys == running.Keys - {token};
  }

  /** Filing a finished event under its own name keeps the finished events
      valid. */
  lemma SaveKeepsValid(finished: map<string, seq<Event>>, e: Event)
    requires e.IsFinished()
    ensures FinishedValid(finished) ==> FinishedValid(SaveFinishedEvent(finished, e))
  {
    var f: map<string, seq<Event>> := SaveFinishedEvent(finished, e);
    if FinishedValid(finished) {
      forall n: string, i: int | n in f && 0 <= i < |f[n]|
        ensures f[n][i].name == n && f[n][i].IsFinished()
      {
        if n == e.name && i < |f[n]| - 1 {
          assert f[n][i] == EventsNamed(finished, n)[i];
        }
      }
    }
  }

  /** The finished events grouped by name (the `finished_events` property):
      the full record of the profiler, every name with its events in stop
      order. */
  function FinishedEvents(p: Profiler): (f: map<string, seq<Event>>)
    requires Valid(p)
    ensures f == p.finished
    ensures forall n :: n in f ==> |f[n]| > 0
    ensures forall n, i :: n in f && 0 <= i < |f[n]| ==> f[n][i].name == n && f[n][i].IsFinished()
  {
    p.finished
  }

  /** The durations of a list of finished events, in order (the
      `map(lambda e: e.duration, events)` both versions feed the reducer). */
  function Durations(events: seq<Event>): (d: seq<int>)
    requires forall i :: 0 <= i < |events| ==> events[i].duration.Some?
    ensures |d| == |events|
    ensures forall i :: 0 <= i < |events| ==> events[i].duration == Some(d[i])
  {
    if |events| == 0 then []
    else [events[0].duration.value] + Durations(events[1..])
  }

  /** Total number of finished events over all names. */
  ghost function FinishedCount(finished: map<string, seq<Event>>): nat
    decreases |finished|
  {
    if |finished| == 0 then 0
    else
      var n := SomeName(finished);
      RemoveShrinks(finished, n);
      |finished[n]| + FinishedCount(finished - {n})
  }

  /** An arbitrary name of a non-empty map, fixed once and for all. */
  ghost function SomeName(finished: map<string, seq<Event>>): (n: string)
    requires |finished| > 0
    ensures n in finished
  {
    var keys := finished.Keys;
    assert |keys| > 0;
    var n :| n in keys;
    n
  }

  lemma RemoveShrinks(finished: map<string, seq<Event>>, n: string)
    requires n in finished
    ensures |finished - {n}| == |finished| - 1
  {
    assert (finished - {n}).Keys == finished.Keys - {n};
  }

  /** Number of events the profiler holds, running or finished. */
  ghost function EventCount(p: Profiler): nat
  {
    |p.running| + FinishedCount(p.finished)
  }

  /** The count does not depend on which name the definition picks first. */
  lemma {:induction false} FinishedCountRemove(finished: map<string, seq<Event>>, k: string)
    requires k in finished
    ensures FinishedCount(finished) == |finished[k]| + FinishedCount(finished - {k})
    decreases |finished|
  {
    var n := SomeName(finished);
    RemoveShrinks(finished, n);
    if n != k {
      var rest := finished - {n};
      var other := finished - {k};
      RemoveShrinks(finished, k);
      FinishedCountRemove(rest, k);
      FinishedCountRemove(other, n);
      assert rest - {k} == other - {n};
    }
  }

  /** Saving a finished event adds exactly one event to the count. */
  lemma SaveFinishedEventCount(finished: map<string, seq<Event>>, e: Event)
    ensures FinishedCount(SaveFinishedEvent(finished, e)) == FinishedCount(finished) + 1
  {
    var f := SaveFinishedEvent(finished, e);
    FinishedCountRemove(f, e.name);
    SameOutside(finished, f, e.name);
    FinishedCountWithout(finished, e.name);
  }

  /** The count splits into one name's events and the rest, also for a name
      that has no events. */
  lemma FinishedCountWithout(finished: map<string, seq<Event>>, n: string)
    ensures FinishedCount(finished) == |EventsNamed(finished, n)| + FinishedCount(finished - {n})
  {
    if n in finished {
      FinishedCountRemove(finished, n);
    } else {
      assert finished - {n} == finished;
    }
  }

  lemma SameOutside(finished: map<string, seq<Event>>, f: map<string, seq<Event>>, name: string)
    requires f.Keys == finished.Keys + {name}
    requires forall n :: n in finished && n != name ==> f[n] == finished[n]
    ensures f - {name} == finished - {name}
  {
  }

  /** A call a client makes on the profiler, with the time the clock reads. */
  datatype Call = StartCall(name: string, now: int) | StopCall(token: Token, now: int)

  function Step(p: Profiler, c: Call): Profiler
  {
    match c
    case StartCall(name, now) => Start(p, name, now).state
    case StopCall(token, now) => Stop(p, token, now).state
  }

  /** The state after making `calls` in order. */
  function Run(p: Profiler, calls: seq<Call>): Profiler
    decreases |calls|
  {
    if |calls| == 0 then p else Run(Step(p, calls[0]), calls[1..])
  }

  /** The tokens the `start` calls among `calls` return, in order. */
  function IssuedTokens(p: Profiler, calls: seq<Call>): seq<Token>
    decreases |calls|
  {
    if |calls| == 0 then []
    else
      var c := calls[0];
      (if c.StartCall? then [Start(p, c.name, c.now).token] else [])
        + IssuedTokens(Step(p, c), calls[1..])
  }

  function StartCount(calls: seq<Call>): nat
  {
    if |calls| == 0 then 0 else (if calls[0].StartCall? then 1 else 0) + StartCount(calls[1..])
  }

  lemma StepKeepsValid(p: Profiler, c: Call)
    requires Valid(p)
    ensures Valid(Step(p, c))
    ensures p.nextToken <= Step(p, c).nextToken
  {
  }

  /** Every state reachable by calls from a valid state is valid. */
  lemma {:induction false} RunKeepsValid(p: Profiler, calls: seq<Call>)
    requires Valid(p)
    ensures Valid(Run(p, calls))
    decreases |calls|
  {
    if |calls| > 0 {
      StepKeepsValid(p, calls[0]);
      RunKeepsValid(Step(p, calls[0]), calls[1..]);
    }
  }

  /** `finished` only grows: no name disappears and each list of events
      is a prefix of the list it becomes. */
  ghost predicate Extends(before: map<string, seq<Event>>, after: map<string, seq<Event>>)
  {
    forall n :: n in before ==> n in after && before[n] <= after[n]
  }

  lemma StepExtendsFinished(p: Profiler, c: Call)
    ensures Extends(p.finished, Step(p, c).finished)
  {
    if c.StopCall? && c.token in p.running {
      var name := p.running[c.token].name;
      var after := Step(p, c).finished;
      assert after[name] == EventsNamed(p.finished, name) + [Finish(p.running[c.token], c.now)];
    }
  }

  lemma {:induction false} RunExtendsFinished(p: Profiler, calls: seq<Call>)
    ensures Extends(p.finished, Run(p, calls).finished)
    decreases |calls|
  {
    if |calls| > 0 {
      var q := Step(p, calls[0]);
      StepExtendsFinished(p, calls[0]);
      RunExtendsFinished(q, calls[1..]);
      forall n | n in p.finished
        ensures n in Run(p, calls).finished && p.finished[n] <= Run(p, calls).finished[n]
      {
        PrefixTransitive(p.finished[n], q.finished[n], Run(q, calls[1..]).finished[n]);
      }
    }
  }

  lemma PrefixTransitive<T>(a: seq<T>, b: seq<T>, c: seq<T>)
    requires a <= b && b <= c
    ensures a <= c
  {
    assert a == b[..|a|] && b == c[..|b|];
    assert a == c[..|a|];
  }

  predicate Increasing(s: seq<Token>)
  {
    forall i, j :: 0 <= i < j < |s| ==> s[i] < s[j]
  }

  predicate Within(s: seq<Token>, lo: int, hi: int)
  {
    forall i :: 0 <= i < |s| ==> lo <= s[i] < hi
  }

  /** The tokens handed out by successive `start` calls are strictly
      increasing, so no token is ever handed out twice, and each lies at or
      above the counter before the calls and below the counter after them. */
  lemma {:induction false} IssuedTokensIncrease(p: Profiler, calls: seq<Call>)
    ensures Increasing(IssuedTokens(p, calls))
    ensures Within(IssuedTokens(p, calls), p.nextToken, Run(p, calls).nextToken)
    ensures p.nextToken <= Run(p, calls).nextToken
    decreases |calls|
  {
    if |calls| > 0 {
      var c := calls[0];
      var next := Step(p, c);
      var hi := Run(p, calls).nextToken;
      IssuedTokensIncrease(next, calls[1..]);
      var rest := IssuedTokens(next, calls[1..]);
      if c.StartCall? {
        var token := Start(p, c.name, c.now).token;
        assert IssuedTokens(p, calls) == [token] + rest;
        ConsToken(token, rest, p.nextToken, next.nextToken, hi);
      } else {
        assert IssuedTokens(p, calls) == rest;
        WithinWider(rest, next.nextToken, p.nextToken, hi);
      }
    }
  }

  lemma ConsToken(t: Token, rest: seq<Token>, lo: int, mid: int, hi: int)
    requires lo <= t < mid <= hi
    requires Increasing(rest) && Within(rest, mid, hi)
    ensures Increasing([t] + rest) && Within([t] + rest, lo, hi)
  {
    var s := [t] + rest;
    assert forall i :: 0 < i < |s| ==> s[i] == rest[i - 1];
  }

  lemma WithinWider(s: seq<Token>, lo: int, lo2: int, hi: int)
    requires Within(s, lo, hi) && lo2 <= lo
    ensures Within(s, lo2, hi)
  {
  }

  /** Every `start` call adds one event and every other call keeps the
      number of events: the events held, running plus finished, number the
      `start` calls made. */
  lemma {:induction false} RunCountsStarts(p: Profiler, calls: seq<Call>)
    requires Valid(p)
    ensures EventCount(Run(p, calls)) == EventCount(p) + StartCount(calls)
    decreases |calls|
  {
    if |calls| > 0 {
      var c := calls[0];
      if c.StopCall? && c.token in p.running {
        SaveFinishedEventCount(p.finished, Finish(p.running[c.token], c.now));
      }
      StepKeepsValid(p, c);
      RunCountsStarts(Step(p, c), calls[1..]);
    }
  }

  /** From a new profiler, the number of events held is the number of
      `start` calls made. */
  lemma EventsFromInit(calls: seq<Call>)
    ensures EventCount(Run(Init(), calls)) == StartCount(calls)
    ensures Valid(Run(Init(), calls))
  {
    RunCountsStarts(Init(), calls);
    RunKeepsValid(Init(), calls);
  }

  /** Stopping the same token a second time returns None and files nothing. */
  lemma StopTwice(p: Profiler, token: Token, now1: int, now2: int)
    requires token in p.running
    ensures var first := Stop(p, token, now1);
      var second := Stop(first.state, token, now2);
      && first.event.Some?
      && second.event == None
      && second.state == first.state
      && |second.state.finished[first.event.value.name]| == |EventsNamed(p.finished, first.event.value.name)| + 1
  {
  }

  /** A token the counter has not handed out yet is not running: stopping
      it returns None and changes nothing. */
  lemma StopUnissued(p: Profiler, token: Token, now: int)
    requires Valid(p) && token >= p.nextToken
    ensures Stop(p, token, now) == Stopped(p, None)
  {
  }

  /** `start` followed by `stop` of the returned token files the event at
      the end of its name's list; its duration is the elapsed time exactly
      when that is under a second, and has lost the whole seconds otherwise. */
  lemma StartThenStop(p: Profiler, name: string, t1: int, t2: int)
    requires Valid(p)
    ensures var started := Start(p, name, t1);
      var stopped := Stop(started.state, started.token, t2);
      && stopped.event.Some?
      && stopped.event.value.endTime == Some(t2)
      && stopped.state.finished[name] == EventsNamed(p.finished, name) + [stopped.event.value]
      && stopped.state.running == p.running
      && var d := stopped.event.value.duration.value;
         && 0 <= d < MicrosPerSecond
         && (t1 <= t2 < t1 + MicrosPerSecond ==> d == t2 - t1)
         && (t2 >= t1 + MicrosPerSecond ==> d < t2 - t1)
  {
    var started := Start(p, name, t1);
    assert started.state.running - {started.token} == p.running;
  }

  /** Two running events stopped one after the other are filed in the order
      they were stopped: under a shared name the list gains the first and then
      the second; under different names each list gains its own event. */
  lemma StopsFileInStopOrder(p: Profiler, t1: Token, t2: Token, now1: int, now2: int)
    requires t1 in p.running && t2 in p.running && t1 != t2
    ensures var first := Stop(p, t1, now1);
      var second := Stop(first.state, t2, now2);
      var n1, n2 := p.running[t1].name, p.running[t2].name;
      && first.event.Some? && second.event.Some?
      && (n1 == n2 ==>
            second.state.finished[n1] == EventsNamed(p.finished, n1) + [first.event.value, second.event.value])
      && (n1 != n2 ==>
            && second.state.finished[n1] == EventsNamed(p.finished, n1) + [first.event.value]
            && second.state.finished[n2] == EventsNamed(p.finished, n2) + [second.event.value])
      && second.state.finished.Keys == p.finished.Keys + {n1, n2}
  {
    var first := Stop(p, t1, now1);
    var n1 := p.running[t1].name;
    assert EventsNamed(first.state.finished, n1) == EventsNamed(p.finished, n1) + [first.event.value];
  }
}
