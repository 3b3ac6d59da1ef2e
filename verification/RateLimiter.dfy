/** The sliding-window rate limiter against its plain definition: count the permitted events in the window. */
module RateLimiter {

  // ---- One bucket ----

  /** How many events are popped from the left: all those before the first that is not before the cutoff. */
  function Popped(bucket: seq<real>, cutoff: real, i: nat): (n: nat)
    requires i <= |bucket|
    ensures i <= n <= |bucket|
    decreases |bucket| - i
  {
    if i < |bucket| && bucket[i] < cutoff then Popped(bucket, cutoff, i + 1) else i
  }

  function Trim(bucket: seq<real>, cutoff: real): seq<real> {
    bucket[Popped(bucket, cutoff, 0)..]
  }

  /** The code's decision, and the bucket it leaves. */
  function Decide(bucket: seq<real>, max: nat, window: real, now: real): (bool, seq<real>) {
    var kept := Trim(bucket, now - window);
    if |kept| >= max then (false, kept) else (true, kept + [now])
  }

  function Dropped(bucket: seq<real>, cutoff: real): seq<real> {
    bucket[..Popped(bucket, cutoff, 0)]
  }

  /** A bucket together with the permitted events it has lost. */
  datatype History = History(lost: seq<real>, bucket: seq<real>) {
    /** All events ever permitted, in order. */
    function Log(): seq<real> { lost + bucket }
  }

  function Record(h: History, max: nat, window: real, now: real): History {
    History(h.lost + Dropped(h.bucket, now - window), Decide(h.bucket, max, window, now).1)
  }

  function RunOne(times: seq<real>, max: nat, window: real): History {
    if times == [] then History([], [])
    else Record(RunOne(times[..|times| - 1], max, window), max, window, times[|times| - 1])
  }

  // ---- The plain definition ----

  function CountFrom(log: seq<real>, cutoff: real): nat {
    if log == [] then 0
    else (if log[0] >= cutoff then 1 else 0) + CountFrom(log[1..], cutoff)
  }

  /** The log of permitted events: an event is permitted if fewer than `max` of those before it lie in its window. */
  function PlainLog(times: seq<real>, max: nat, window: real): seq<real> {
    if times == [] then []
    else
      var log, now := PlainLog(times[..|times| - 1], max, window), times[|times| - 1];
      if CountFrom(log, now - window) < max then log + [now] else log
  }

  predicate NonDecreasing(times: seq<real>) {
    forall i, j :: 0 <= i <= j < |times| ==> times[i] <= times[j]
  }

  /** Call times that never go back. */
  predicate InOrder(times: seq<real>) {
    times == [] || (InOrder(times[..|times| - 1]) && AtMost(times[..|times| - 1], times[|times| - 1]))
  }

  // ---- Refinement ----

  predicate Before(xs: seq<real>, cutoff: real) {
    forall i :: 0 <= i < |xs| ==> xs[i] < cutoff
  }

  predicate AtMost(xs: seq<real>, bound: real) {
    forall i :: 0 <= i < |xs| ==> xs[i] <= bound
  }

  predicate From(xs: seq<real>, cutoff: real) {
    forall i :: 0 <= i < |xs| ==> xs[i] >= cutoff
  }

  lemma {:induction false} CountConcat(a: seq<real>, b: seq<real>, cutoff: real)
    ensures CountFrom(a + b, cutoff) == CountFrom(a, cutoff) + CountFrom(b, cutoff)
  {
    if a == [] {
      assert a + b == b;
    } else {
      CountConcat(a[1..], b, cutoff);
      assert (a + b)[1..] == a[1..] + b;
    }
  }

  lemma {:induction false} CountNone(xs: seq<real>, cutoff: real)
    requires Before(xs, cutoff)
    ensures CountFrom(xs, cutoff) == 0
  {
    if xs != [] { CountNone(xs[1..], cutoff); }
  }

  lemma {:induction false} CountEvery(xs: seq<real>, cutoff: real)
    requires From(xs, cutoff)
    ensures CountFrom(xs, cutoff) == |xs|
  {
    if xs != [] { CountEvery(xs[1..], cutoff); }
  }

  lemma {:induction false} PoppedAreOld(bucket: seq<real>, cutoff: real, i: nat)
    requires NonDecreasing(bucket) && i <= |bucket|
    ensures var n := Popped(bucket, cutoff, i);
            && (forall j :: i <= j < n ==> bucket[j] < cutoff)
            && (forall j :: n <= j < |bucket| ==> bucket[j] >= cutoff)
    decreases |bucket| - i
  {
    if i < |bucket| && bucket[i] < cutoff { PoppedAreOld(bucket, cutoff, i + 1); }
  }

  /** What the bucket has lost lies before the last window, and the bucket is in order. */
  ghost predicate Tracks(h: History, max: nat, window: real, last: real) {
    && |h.bucket| <= max && NonDecreasing(h.bucket) && AtMost(h.bucket, last)
    && Before(h.lost, last - window)
  }

  /** What a check keeps is the number of logged events in the window. */
  lemma KeptIsCount(h: History, max: nat, window: real, last: real, now: real)
    requires Tracks(h, max, window, last) && last <= now
    ensures CountFrom(h.Log(), now - window) == |Trim(h.bucket, now - window)|
  {
    var cutoff := now - window;
    PoppedAreOld(h.bucket, cutoff, 0);
    var kept, dropped := Trim(h.bucket, cutoff), Dropped(h.bucket, cutoff);
    assert h.bucket == dropped + kept;
    CountConcat(h.lost, h.bucket, cutoff);
    CountConcat(dropped, kept, cutoff);
    CountNone(h.lost, cutoff);
    CountNone(dropped, cutoff);
    CountEvery(kept, cutoff);
  }

  lemma RecordTracks(h: History, max: nat, window: real, last: real, now: real)
    requires Tracks(h, max, window, last) && last <= now && max > 0
    ensures Tracks(Record(h, max, window, now), max, window, now)
  {
    PoppedAreOld(h.bucket, now - window, 0);
  }

  lemma RecordLogs(h: History, max: nat, window: real, now: real)
    ensures Record(h, max, window, now).Log() == h.Log() + (if Decide(h.bucket, max, window, now).0 then [now] else [])
  {
    var kept, dropped := Trim(h.bucket, now - window), Dropped(h.bucket, now - window);
    assert h.bucket == dropped + kept;
    assert h.lost + dropped + kept == h.lost + (dropped + kept);
    assert h.lost + dropped + (kept + [now]) == h.lost + (dropped + kept) + [now];
  }

  /** One check: the code counts exactly the events in the window. */
  lemma CheckTracks(h: History, max: nat, window: real, last: real, now: real)
    requires Tracks(h, max, window, last) && last <= now && max > 0
    ensures Decide(h.bucket, max, window, now).0 <==> CountFrom(h.Log(), now - window) < max
    ensures !Decide(h.bucket, max, window, now).0 ==> CountFrom(h.Log(), now - window) == max
  {
    KeptIsCount(h, max, window, last, now);
  }

  lemma {:induction false} RunTracks(times: seq<real>, max: nat, window: real, now: real)
    requires InOrder(times) && max > 0 && AtMost(times, now)
    ensures Tracks(RunOne(times, max, window), max, window, if times == [] then now else times[|times| - 1])
    ensures RunOne(times, max, window).Log() == PlainLog(times, max, window)
  {
    if times != [] {
      var init, t := times[..|times| - 1], times[|times| - 1];
      RunTracks(init, max, window, t);
      var h, last := RunOne(init, max, window), if init == [] then t else init[|init| - 1];
      CheckTracks(h, max, window, last, t);
      RecordTracks(h, max, window, last, t);
      RecordLogs(h, max, window, t);
    }
  }

  /**
   Main result: for times in order, the limiter permits what the plain definition permits, and denies only
   when `max` permitted events lie in the window.
   */
  lemma RefinesPlainLog(times: seq<real>, max: nat, window: real, now: real)
    requires InOrder(times) && AtMost(times, now) && max > 0
    ensures var h := RunOne(times, max, window);
            && h.Log() == PlainLog(times, max, window) && |h.bucket| <= max
            && (Decide(h.bucket, max, window, now).0 <==> CountFrom(h.Log(), now - window) < max)
            && (!Decide(h.bucket, max, window, now).0 ==> CountFrom(h.Log(), now - window) == max)
  {
    RunTracks(times, max, window, now);
    CheckTracks(RunOne(times, max, window), max, window, if times == [] then now else times[|times| - 1], now);
  }

  /** Main result: any `max + 1` successive permitted events span more than the window. */
  lemma {:induction false} PermittedSpread(times: seq<real>, max: nat, window: real, i: nat)
    requires InOrder(times) && max > 0
    requires i + max < |RunOne(times, max, window).Log()|
    ensures RunOne(times, max, window).Log()[i + max] - RunOne(times, max, window).Log()[i] > window
    decreases |times|
  {
    if times != [] {
      var init, now := times[..|times| - 1], times[|times| - 1];
      var h, h' := RunOne(init, max, window), RunOne(times, max, window);
      RunTracks(init, max, window, now);
      var last := if init == [] then now else init[|init| - 1];
      CheckTracks(h, max, window, last, now);
      RecordTracks(h, max, window, last, now);
      RecordLogs(h, max, window, now);
      if i + max < |h.Log()| {
        PermittedSpread(init, max, window, i);
      } else {
        assert i < |h'.lost| && h'.lost[i] < now - window;
      }
    }
  }

  // ---- All keys ----

  datatype Call = Call(key: string, now: real)

  function Times(calls: seq<Call>, key: string): seq<real> {
    if calls == [] then []
    else
      var last := calls[|calls| - 1];
      Times(calls[..|calls| - 1], key) + (if last.key == key then [last.now] else [])
  }

  function BucketOf(events: map<string, seq<real>>, key: string): seq<real> {
    if key in events then events[key] else []
  }

  function CheckAll(events: map<string, seq<real>>, max: nat, window: real, c: Call): map<string, seq<real>> {
    events[c.key := Decide(BucketOf(events, c.key), max, window, c.now).1]
  }

  function RunAll(calls: seq<Call>, max: nat, window: real): map<string, seq<real>> {
    if calls == [] then map[]
    else CheckAll(RunAll(calls[..|calls| - 1], max, window), max, window, calls[|calls| - 1])
  }

  /** Keys do not affect each other: each bucket is that of its own calls alone. */
  lemma {:induction false} KeysIndependent(calls: seq<Call>, max: nat, window: real, key: string)
    ensures BucketOf(RunAll(calls, max, window), key) == RunOne(Times(calls, key), max, window).bucket
  {
    if calls != [] {
      var init, last := calls[..|calls| - 1], calls[|calls| - 1];
      KeysIndependent(init, max, window, key);
      if last.key == key {
        var times := Times(calls, key);
        assert times[..|times| - 1] == Times(init, key);
      } else {
        assert Times(init, key) + [] == Times(init, key);
      }
    }
  }

  /** Calls of any keys whose times never go back. */
  predicate CallsInOrder(calls: seq<Call>) {
    calls == [] || (CallsInOrder(calls[..|calls| - 1]) && CallsAtMost(calls[..|calls| - 1], calls[|calls| - 1].now))
  }

  predicate CallsAtMost(calls: seq<Call>, bound: real) {
    forall i :: 0 <= i < |calls| ==> calls[i].now <= bound
  }

  lemma {:induction false} TimesAtMost(calls: seq<Call>, key: string, bound: real)
    requires CallsAtMost(calls, bound)
    ensures AtMost(Times(calls, key), bound)
  {
    if calls != [] { TimesAtMost(calls[..|calls| - 1], key, bound); }
  }

  lemma {:induction false} TimesInOrder(calls: seq<Call>, key: string)
    requires CallsInOrder(calls)
    ensures InOrder(Times(calls, key))
  {
    if calls != [] {
      var init, last := calls[..|calls| - 1], calls[|calls| - 1];
      TimesInOrder(init, key);
      TimesAtMost(init, key, last.now);
      if last.key == key {
        assert Times(calls, key)[..|Times(calls, key)| - 1] == Times(init, key);
      } else {
        assert Times(init, key) + [] == Times(init, key);
      }
    }
  }

  /**
   Main result, for calls of all keys as they come: the limiter permits a call exactly when the plain
   definition, applied to the permitted calls of its own key, does.
   */
  lemma InterleavedDecisions(calls: seq<Call>, max: nat, window: real, c: Call)
    requires CallsInOrder(calls) && CallsAtMost(calls, c.now) && max > 0
    ensures var permitted := Decide(BucketOf(RunAll(calls, max, window), c.key), max, window, c.now).0;
            var count := CountFrom(PlainLog(Times(calls, c.key), max, window), c.now - window);
            (permitted <==> count < max) && (!permitted ==> count == max)
  {
    KeysIndependent(calls, max, window, c.key);
    DecisionOnTimes(Times(calls, c.key), max, window, c.now) by {
      TimesInOrder(calls, c.key);
      TimesAtMost(calls, c.key, c.now);
    }
  }

  lemma DecisionOnTimes(times: seq<real>, max: nat, window: real, now: real)
    requires InOrder(times) && AtMost(times, now) && max > 0
    ensures var permitted := Decide(RunOne(times, max, window).bucket, max, window, now).0;
            var count := CountFrom(PlainLog(times, max, window), now - window);
            (permitted <==> count < max) && (!permitted ==> count == max)
  {
    RefinesPlainLog(times, max, window, now);
  }

  // ---- The code ----

  class InMemoryRateLimiter {
    const max: nat
    const window: real
    var events: map<string, seq<real>>

    constructor (max: nat, window: real)
      ensures this.max == max && this.window == window && events == RunAll([], max, window)
    {
      this.max, this.window, events := max, window, map[];
    }

    /** Construction with `max_events <= 0` is a `ValueError`. */
    static method Create(maxEvents: int, window: real) returns (limiter: InMemoryRateLimiter?)
      ensures limiter == null <==> maxEvents <= 0
      ensures limiter != null ==>
          fresh(limiter) && limiter.max == maxEvents && limiter.window == window && limiter.events == map[]
    {
      if maxEvents <= 0 { return null; }
      limiter := new InMemoryRateLimiter(maxEvents, window);
    }

    method Check(key: string, now: real) returns (permitted: bool)
      modifies this
      ensures permitted == Decide(BucketOf(old(events), key), max, window, now).0
      ensures events == CheckAll(old(events), max, window, Call(key, now))
    {
      var cutoff := now - window;
      if key !in events { events := events[key := []]; }
      ghost var bucket, popped := events[key], 0;
      while events[key] != [] && events[key][0] < cutoff
        invariant popped <= |bucket| && events == old(events)[key := bucket[popped..]]
        invariant Popped(bucket, cutoff, 0) == Popped(bucket, cutoff, popped)
        decreases |bucket| - popped
      {
        events := events[key := events[key][1..]];
        popped := popped + 1;
      }
      if |events[key]| >= max { return false; }
      events := events[key := events[key] + [now]];
      return true;
    }

    /** Forget one key, or all. */
    method Reset(key: string, all: bool)
      modifies this
      ensures events == if all then map[] else old(events) - {key}
    {
      events := if all then map[] else events - {key};
    }
  }
}
