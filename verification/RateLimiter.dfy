/**
 The in-memory sliding-window rate limiter (common/rate-limit.go).

 The limiter keeps, per key, only the last few accepted timestamps and a
 background sweep drops idle keys. The reference keeps every accepted timestamp
 for ever and never sweeps. The main theorems say that the two give the same
 answers on every run, and that the answers bound every window.
 */
module RateLimiter {

  /** A caller's key: a mark followed by an address or a user id. */
  datatype Key = Key(text: string)

  type Store = map<Key, seq<int>>

  /** The parameters every call for a key uses. */
  datatype Limit = Limit(max: nat, duration: int)

  datatype Event =
    | Request(key: Key, now: int)
    | Sweep(now: int)

  ghost predicate QueuesNonempty(store: Store) {
    forall key :: key in store ==> |store[key]| > 0
  }

  /** The answer the code gives. */
  predicate Accepts(store: Store, key: Key, limit: Limit, now: int)
    requires key in store ==> |store[key]| > 0
  {
    || key !in store
    || |store[key]| < limit.max
    || now - store[key][0] >= limit.duration
  }

  function AfterRequest(store: Store, key: Key, limit: Limit, now: int): (after: Store)
    requires key in store ==> |store[key]| > 0
  {
    if !Accepts(store, key, limit, now) then store
    else if key !in store then store[key := [now]]
    else if |store[key]| < limit.max then store[key := store[key] + [now]]
    else store[key := store[key][1..] + [now]]
  }

  predicate Idle(queue: seq<int>, expiry: int, now: int) {
    |queue| == 0 || now - queue[|queue| - 1] > expiry
  }

  function AfterSweep(store: Store, expiry: int, now: int): (after: Store) {
    map key | key in store && !Idle(store[key], expiry, now) :: store[key]
  }

  class InMemoryRateLimiter {
    var store: Store
    /** The expiration duration in whole seconds. */
    const expirySeconds: int

    ghost predicate Valid()
      reads this
    {
      QueuesNonempty(store)
    }

    constructor (expirySeconds: int)
      ensures Valid() && store == map[] && this.expirySeconds == expirySeconds
    {
      this.expirySeconds := expirySeconds;
      store := map[];
    }

    /** A negative `max` is outside the contract: allocating the queue would panic. */
    method Request(key: Key, limit: Limit, now: int) returns (ok: bool)
      requires Valid()
      modifies this`store
      ensures Valid()
      ensures ok == Accepts(old(store), key, limit, now)
      ensures store == AfterRequest(old(store), key, limit, now)
    {
      if key in store {
        var queue := store[key];
        if |queue| < limit.max {
          store := store[key := queue + [now]];
          return true;
        } else if now - queue[0] >= limit.duration {
          queue := queue[1..];
          store := store[key := queue + [now]];
          return true;
        } else {
          return false;
        }
      }
      store := store[key := []];
      store := store[key := store[key] + [now]];
      assert store[key] == [now];
      return true;
    }

    /** One pass of the background sweep. */
    method ClearExpiredItems(now: int)
      requires Valid()
      modifies this`store
      ensures Valid()
      ensures store == AfterSweep(old(store), expirySeconds, now)
    {
      var pending := store.Keys;
      while pending != {}
        invariant pending <= store.Keys <= old(store).Keys
        invariant forall key :: key in store ==> store[key] == old(store)[key]
        invariant forall key :: key in old(store) && key !in pending ==>
                                  (key in store <==> !Idle(old(store)[key], expirySeconds, now))
        decreases pending
      {
        var key :| key in pending;
        var queue := store[key];
        if |queue| == 0 || now - queue[|queue| - 1] > expirySeconds {
          store := store - {key};
        }
        pending := pending - {key};
      }
    }
  }

  // ---------------------------------------------------------------------------
  // Runs of the limiter and of the reference
  // ---------------------------------------------------------------------------

  type Limits = map<Key, Limit>
  type History = map<Key, seq<int>>

  /** The clock never runs backwards and every key has its fixed parameters. */
  ghost predicate Runnable(events: seq<Event>, limits: Limits, clock: int) {
    |events| == 0 || (
      && clock <= events[0].now
      && (events[0].Request? ==> events[0].key in limits)
      && Runnable(events[1..], limits, events[0].now))
  }

  /** The answers of the limiter to the requests of a run. */
  ghost function Answers(store: Store, limits: Limits, expiry: int, events: seq<Event>, clock: int): seq<bool>
    requires QueuesNonempty(store) && Runnable(events, limits, clock)
    decreases |events|
  {
    if |events| == 0 then []
    else
      match events[0]
      case Sweep(now) =>
        Answers(AfterSweep(store, expiry, now), limits, expiry, events[1..], now)
      case Request(key, now) =>
        [Accepts(store, key, limits[key], now)]
        + Answers(AfterRequest(store, key, limits[key], now), limits, expiry, events[1..], now)
  }

  /** A limit of zero behaves as a limit of one: the first request of a key is always let in. */
  function EffectiveMax(limit: Limit): (m: nat)
    ensures m >= 1 && (limit.max >= 1 ==> m == limit.max)
  {
    if limit.max == 0 then 1 else limit.max
  }

  /** How many timestamps are younger than `duration` at `now`. */
  function Younger(times: seq<int>, now: int, duration: int): (n: nat)
    ensures n <= |times|
  {
    if |times| == 0 then 0
    else
      var last := times[|times| - 1];
      Younger(times[..|times| - 1], now, duration) + (if now - last < duration then 1 else 0)
  }

  function Past(history: History, key: Key): seq<int> {
    if key in history then history[key] else []
  }

  /** The reference answer: fewer than the limit of all accepted requests are young. */
  predicate ReferenceAccepts(history: History, key: Key, limit: Limit, now: int) {
    Younger(Past(history, key), now, limit.duration) < EffectiveMax(limit)
  }

  function AfterReference(history: History, key: Key, limit: Limit, now: int): History {
    if ReferenceAccepts(history, key, limit, now)
    then history[key := Past(history, key) + [now]]
    else history
  }

  ghost function ReferenceAnswers(history: History, limits: Limits, events: seq<Event>, clock: int): seq<bool>
    requires Runnable(events, limits, clock)
    decreases |events|
  {
    if |events| == 0 then []
    else
      match events[0]
      case Sweep(now) => ReferenceAnswers(history, limits, events[1..], now)
      case Request(key, now) =>
        [ReferenceAccepts(history, key, limits[key], now)]
        + ReferenceAnswers(AfterReference(history, key, limits[key], now), limits, events[1..], now)
  }

  // ---------------------------------------------------------------------------
  // Counting
  // ---------------------------------------------------------------------------

  ghost predicate Ordered(times: seq<int>) {
    forall i, j :: 0 <= i <= j < |times| ==> times[i] <= times[j]
  }

  lemma {:induction false} YoungerConcat(a: seq<int>, b: seq<int>, now: int, duration: int)
    ensures Younger(a + b, now, duration) == Younger(a, now, duration) + Younger(b, now, duration)
  {
    if b == [] {
      assert a + b == a;
    } else {
      YoungerConcat(a, b[..|b| - 1], now, duration);
      assert (a + b)[..|a + b| - 1] == a + b[..|b| - 1];
    }
  }

  lemma {:induction false} YoungerNone(times: seq<int>, now: int, duration: int)
    requires forall i :: 0 <= i < |times| ==> now - times[i] >= duration
    ensures Younger(times, now, duration) == 0
  {
    if |times| > 0 {
      YoungerNone(times[..|times| - 1], now, duration);
    }
  }

  lemma {:induction false} YoungerAll(times: seq<int>, now: int, duration: int)
    requires forall i :: 0 <= i < |times| ==> now - times[i] < duration
    ensures Younger(times, now, duration) == |times|
  {
    if |times| > 0 {
      YoungerAll(times[..|times| - 1], now, duration);
    }
  }

  // ---------------------------------------------------------------------------
  // The queue of one key against its full history
  // ---------------------------------------------------------------------------

  /** `queue` ends the history; what was forgotten cannot influence an answer any more. */
  ghost predicate Keeps(queue: seq<int>, past: seq<int>, limit: Limit, clock: int) {
    && |queue| <= |past| && |queue| <= EffectiveMax(limit)
    && queue == past[|past| - |queue|..]
    && Ordered(past)
    && (forall i :: 0 <= i < |past| ==> past[i] <= clock)
    && (|queue| == EffectiveMax(limit)
        || forall i :: 0 <= i < |past| - |queue| ==> clock - past[i] >= limit.duration)
  }

  /** An absent key is represented by the empty queue. */
  function Queue(store: Store, key: Key): seq<int> {
    if key in store then store[key] else []
  }

  ghost predicate Simulates(store: Store, history: History, limits: Limits, clock: int) {
    && QueuesNonempty(store)
    && store.Keys <= limits.Keys && history.Keys <= limits.Keys
    && forall key :: key in limits ==> Keeps(Queue(store, key), Past(history, key), limits[key], clock)
  }

  lemma KeepsLater(queue: seq<int>, past: seq<int>, limit: Limit, clock: int, now: int)
    requires Keeps(queue, past, limit, clock) && clock <= now
    ensures Keeps(queue, past, limit, now)
  {
  }

  /** The bounded queue decides as the full history does. */
  lemma SameAnswer(queue: seq<int>, past: seq<int>, limit: Limit, now: int)
    requires Keeps(queue, past, limit, now)
    ensures Younger(past, now, limit.duration) < EffectiveMax(limit)
       <==> (|queue| == 0 || |queue| < limit.max || now - queue[0] >= limit.duration)
  {
    hide Younger;
    var forgotten := past[..|past| - |queue|];
    assert past == forgotten + queue;
    YoungerConcat(forgotten, queue, now, limit.duration);
    if |queue| < EffectiveMax(limit) {
      YoungerNone(forgotten, now, limit.duration);
    } else if now - queue[0] >= limit.duration {
      assert queue[0] == past[|past| - |queue|];
      YoungerNone(forgotten, now, limit.duration);
      YoungerConcat(queue[..1], queue[1..], now, limit.duration);
      assert queue == queue[..1] + queue[1..];
      YoungerNone(queue[..1], now, limit.duration);
    } else {
      YoungerAll(queue, now, limit.duration);
    }
  }

  /** What one request does to the queue of its own key. */
  function QueueAfter(queue: seq<int>, limit: Limit, now: int): seq<int> {
    if |queue| == 0 then [now]
    else if |queue| < limit.max then queue + [now]
    else if now - queue[0] >= limit.duration then queue[1..] + [now]
    else queue
  }

  lemma KeepsAfterAccept(queue: seq<int>, past: seq<int>, limit: Limit, now: int)
    requires Keeps(queue, past, limit, now)
    requires |queue| == 0 || |queue| < limit.max || now - queue[0] >= limit.duration
    ensures Keeps(QueueAfter(queue, limit, now), past + [now], limit, now)
  {
    var queue', past' := QueueAfter(queue, limit, now), past + [now];
    assert queue' == past'[|past'| - |queue'|..];
  }

  lemma RequestOwnKey(store: Store, history: History, limit: Limit, key: Key, now: int)
    requires key in store ==> |store[key]| > 0
    requires Keeps(Queue(store, key), Past(history, key), limit, now)
    ensures Accepts(store, key, limit, now) == ReferenceAccepts(history, key, limit, now)
    ensures Keeps(Queue(AfterRequest(store, key, limit, now), key),
                  Past(AfterReference(history, key, limit, now), key), limit, now)
  {
    hide Keeps, Younger;
    var queue, past := Queue(store, key), Past(history, key);
    SameAnswer(queue, past, limit, now);
    if Accepts(store, key, limit, now) {
      assert Queue(AfterRequest(store, key, limit, now), key) == QueueAfter(queue, limit, now);
      assert Past(AfterReference(history, key, limit, now), key) == past + [now];
      KeepsAfterAccept(queue, past, limit, now);
    }
  }

  lemma RequestKeepsSimulation(store: Store, history: History, limits: Limits, key: Key, now: int)
    requires Simulates(store, history, limits, now) && key in limits
    ensures Accepts(store, key, limits[key], now) == ReferenceAccepts(history, key, limits[key], now)
    ensures Simulates(AfterRequest(store, key, limits[key], now),
                      AfterReference(history, key, limits[key], now), limits, now)
  {
    hide Keeps, Younger;
    RequestOwnKey(store, history, limits[key], key, now);
  }

  lemma SweepKeepsSimulation(store: Store, history: History, limits: Limits, expiry: int, now: int)
    requires Simulates(store, history, limits, now)
    requires forall key :: key in limits ==> limits[key].duration <= expiry + 1
    ensures Simulates(AfterSweep(store, expiry, now), history, limits, now)
  {
    var store' := AfterSweep(store, expiry, now);
    forall key | key in limits
      ensures Keeps(Queue(store', key), Past(history, key), limits[key], now)
    {
      var queue, past := Queue(store, key), Past(history, key);
      if key in store && Idle(queue, expiry, now) {
        assert queue[|queue| - 1] == past[|past| - 1];
      }
    }
  }

  lemma SimulatesLater(store: Store, history: History, limits: Limits, clock: int, now: int)
    requires Simulates(store, history, limits, clock) && clock <= now
    ensures Simulates(store, history, limits, now)
  {
    forall key | key in limits
      ensures Keeps(Queue(store, key), Past(history, key), limits[key], now)
    {
      KeepsLater(Queue(store, key), Past(history, key), limits[key], clock, now);
    }
  }

  lemma {:induction false} SimulationRuns(store: Store, history: History, limits: Limits, expiry: int,
                                          events: seq<Event>, clock: int)
    requires Simulates(store, history, limits, clock) && Runnable(events, limits, clock)
    requires forall key :: key in limits ==> limits[key].duration <= expiry + 1
    ensures Answers(store, limits, expiry, events, clock) == ReferenceAnswers(history, limits, events, clock)
    decreases |events|
  {
    if |events| > 0 {
      var now := events[0].now;
      SimulatesLater(store, history, limits, clock, now);
      match events[0]
      case Sweep(_) =>
        SweepKeepsSimulation(store, history, limits, expiry, now);
        SimulationRuns(AfterSweep(store, expiry, now), history, limits, expiry, events[1..], now);
      case Request(key, _) =>
        RequestKeepsSimulation(store, history, limits, key, now);
        SimulationRuns(AfterRequest(store, key, limits[key], now), AfterReference(history, key, limits[key], now),
                       limits, expiry, events[1..], now);
    }
  }

  /**
   On every run, with sweeps anywhere, the limiter answers exactly as the
   reference that remembers every accepted request and never sweeps.
   */
  lemma BoundedQueueMatchesHistory(limits: Limits, expiry: int, events: seq<Event>, clock: int)
    requires Runnable(events, limits, clock)
    requires forall key :: key in limits ==> limits[key].duration <= expiry + 1
    ensures Answers(map[], limits, expiry, events, clock) == ReferenceAnswers(map[], limits, events, clock)
  {
    EmptySimulates(limits, clock);
    SimulationRuns(map[], map[], limits, expiry, events, clock);
  }

  lemma EmptySimulates(limits: Limits, clock: int)
    ensures QueuesNonempty(map[])
    ensures Simulates(map[], map[], limits, clock)
    ensures forall key :: Past(map[], key) == []
  {
  }

  // ---------------------------------------------------------------------------
  // No window holds more than the limit
  // ---------------------------------------------------------------------------

  function CountIn(times: seq<int>, from: int, to: int): nat {
    if |times| == 0 then 0
    else
      var last := times[|times| - 1];
      CountIn(times[..|times| - 1], from, to) + (if from <= last < to then 1 else 0)
  }

  /** The times at which a run let requests of `key` through. */
  ghost function AcceptedTimes(store: Store, limits: Limits, expiry: int, events: seq<Event>, clock: int,
      key: Key): seq<int>
    requires QueuesNonempty(store) && Runnable(events, limits, clock)
    decreases |events|
  {
    if |events| == 0 then []
    else
      match events[0]
      case Sweep(now) =>
        AcceptedTimes(AfterSweep(store, expiry, now), limits, expiry, events[1..], now, key)
      case Request(k, now) =>
        var rest := AcceptedTimes(AfterRequest(store, k, limits[k], now), limits, expiry, events[1..], now, key);
        if k == key && Accepts(store, k, limits[k], now) then [now] + rest else rest
  }

  /** Every acceptance found fewer than the limit of young predecessors. */
  ghost predicate Legal(times: seq<int>, limit: Limit) {
    && Ordered(times)
    && forall i :: 0 <= i < |times| ==> Younger(times[..i], times[i], limit.duration) < EffectiveMax(limit)
  }

  lemma {:induction false} InWindowIsYoung(times: seq<int>, now: int, duration: int, from: int)
    requires from > now - duration
    ensures CountIn(times, from, from + duration) <= Younger(times, now, duration)
  {
    if |times| > 0 {
      InWindowIsYoung(times[..|times| - 1], now, duration, from);
    }
  }

  lemma {:induction false} LegalBoundsWindow(times: seq<int>, limit: Limit, from: int)
    requires Legal(times, limit)
    ensures CountIn(times, from, from + limit.duration) <= EffectiveMax(limit)
  {
    if |times| > 0 {
      var before, last := times[..|times| - 1], times[|times| - 1];
      assert Legal(before, limit) by {
        forall i | 0 <= i < |before|
          ensures Younger(before[..i], before[i], limit.duration) < EffectiveMax(limit)
        {
          assert before[..i] == times[..i];
        }
      }
      LegalBoundsWindow(before, limit, from);
      if from <= last < from + limit.duration {
        InWindowIsYoung(before, last, limit.duration, from);
        assert Younger(times[..|times| - 1], times[|times| - 1], limit.duration) < EffectiveMax(limit);
      }
    }
  }

  lemma LegalExtends(times: seq<int>, limit: Limit, now: int)
    requires Legal(times, limit)
    requires forall i :: 0 <= i < |times| ==> times[i] <= now
    requires Younger(times, now, limit.duration) < EffectiveMax(limit)
    ensures Legal(times + [now], limit)
  {
    var longer := times + [now];
    forall i | 0 <= i < |longer|
      ensures Younger(longer[..i], longer[i], limit.duration) < EffectiveMax(limit)
    {
      if i < |times| {
        assert longer[..i] == times[..i];
      } else {
        assert longer[..i] == times;
      }
    }
  }

  lemma PrependOne(past: seq<int>, now: int, rest: seq<int>)
    ensures past + ([now] + rest) == (past + [now]) + rest
  {
  }

  lemma EmptyConcat(times: seq<int>)
    ensures [] + times == times
  {
  }

  lemma AcceptKeepsLegal(store: Store, history: History, limits: Limits, key: Key, now: int)
    requires Simulates(store, history, limits, now) && key in limits
    requires Legal(Past(history, key), limits[key])
    requires ReferenceAccepts(history, key, limits[key], now)
    ensures Past(AfterReference(history, key, limits[key], now), key) == Past(history, key) + [now]
    ensures Legal(Past(history, key) + [now], limits[key])
  {
    assert Keeps(Queue(store, key), Past(history, key), limits[key], now);
    LegalExtends(Past(history, key), limits[key], now);
  }

  lemma {:induction false} AcceptedTimesAreLegal(store: Store, history: History, limits: Limits, expiry: int,
                                                 events: seq<Event>, clock: int, key: Key)
    requires Simulates(store, history, limits, clock) && Runnable(events, limits, clock)
    requires forall k :: k in limits ==> limits[k].duration <= expiry + 1
    requires key in limits && Legal(Past(history, key), limits[key])
    ensures Legal(Past(history, key) + AcceptedTimes(store, limits, expiry, events, clock, key), limits[key])
    decreases |events|
  {
    hide Legal, Keeps, Younger;
    var past := Past(history, key);
    if |events| == 0 {
      assert past + [] == past;
    } else {
      var now := events[0].now;
      SimulatesLater(store, history, limits, clock, now);
      match events[0]
      case Sweep(_) =>
        SweepKeepsSimulation(store, history, limits, expiry, now);
        AcceptedTimesAreLegal(AfterSweep(store, expiry, now), history, limits, expiry, events[1..], now, key);
      case Request(k, _) =>
        RequestKeepsSimulation(store, history, limits, k, now);
        var store', history' := AfterRequest(store, k, limits[k], now), AfterReference(history, k, limits[k], now);
        var rest := AcceptedTimes(store', limits, expiry, events[1..], now, key);
        if k == key && Accepts(store, k, limits[k], now) {
          AcceptKeepsLegal(store, history, limits, key, now);
          AcceptedTimesAreLegal(store', history', limits, expiry, events[1..], now, key);
          PrependOne(past, now, rest);
        } else {
          assert Past(history', key) == past;
          AcceptedTimesAreLegal(store', history', limits, expiry, events[1..], now, key);
        }
    }
  }

  lemma RunsAreLegal(limits: Limits, expiry: int, events: seq<Event>, clock: int, key: Key)
    requires Runnable(events, limits, clock) && key in limits
    requires forall k :: k in limits ==> limits[k].duration <= expiry + 1
    ensures Legal(AcceptedTimes(map[], limits, expiry, events, clock, key), limits[key])
  {
    EmptySimulates(limits, clock);
    assert Legal([], limits[key]);
    hide *;
    AcceptedTimesAreLegal(map[], map[], limits, expiry, events, clock, key);
    EmptyConcat(AcceptedTimes(map[], limits, expiry, events, clock, key));
  }

  /** No half-open window of the key's duration ever holds more acceptances than the limit. */
  lemma NoWindowExceedsLimit(limits: Limits, expiry: int, events: seq<Event>, clock: int, key: Key, from: int)
    requires Runnable(events, limits, clock) && key in limits
    requires forall k :: k in limits ==> limits[k].duration <= expiry + 1
    ensures CountIn(AcceptedTimes(map[], limits, expiry, events, clock, key), from, from + limits[key].duration)
            <= EffectiveMax(limits[key])
  {
    EmptySimulates(limits, clock);
    hide *;
    RunsAreLegal(limits, expiry, events, clock, key);
    LegalBoundsWindow(AcceptedTimes(map[], limits, expiry, events, clock, key), limits[key], from);
  }

  // ---------------------------------------------------------------------------
  // When sweeping is invisible: exactly when no duration exceeds expiry + 1
  // ---------------------------------------------------------------------------

  /** A run of `n` requests at time 0, an optional sweep, and one more request. */
  function Burst(key: Key, n: nat, tail: seq<Event>): seq<Event> {
    if n == 0 then tail else [Request(key, 0)] + Burst(key, n - 1, tail)
  }

  lemma {:induction false} BurstRunnable(key: Key, n: nat, tail: seq<Event>, limits: Limits)
    requires key in limits && Runnable(tail, limits, 0)
    ensures Runnable(Burst(key, n, tail), limits, 0)
  {
    if n > 0 {
      BurstRunnable(key, n - 1, tail, limits);
      assert Burst(key, n, tail)[1..] == Burst(key, n - 1, tail);
    }
  }

  function Zeros(n: nat): (s: seq<int>)
    ensures |s| == n && forall i :: 0 <= i < n ==> s[i] == 0
  {
    if n == 0 then [] else Zeros(n - 1) + [0]
  }

  function Trues(n: nat): (s: seq<bool>)
    ensures |s| == n
  {
    if n == 0 then [] else [true] + Trues(n - 1)
  }

  lemma OneMoreZero(key: Key, limit: Limit, size: nat)
    requires 0 < size < EffectiveMax(limit)
    ensures var store := map[key := Zeros(size)];
            Accepts(store, key, limit, 0) && AfterRequest(store, key, limit, 0) == map[key := Zeros(size + 1)]
  {
    assert Zeros(size) + [0] == Zeros(size + 1);
  }

  /** Filling the window is accepted throughout and leaves `max` zeros, whatever follows. */
  lemma {:induction false} BurstAnswers(key: Key, n: nat, tail: seq<Event>, limit: Limit, expiry: int, size: nat)
    requires Runnable(tail, map[key := limit], 0)
    requires size > 0 && size + n == EffectiveMax(limit)
    ensures Runnable(Burst(key, n, tail), map[key := limit], 0)
    ensures Answers(map[key := Zeros(size)], map[key := limit], expiry, Burst(key, n, tail), 0)
         == Trues(n) + Answers(map[key := Zeros(size + n)], map[key := limit], expiry, tail, 0)
  {
    hide Runnable;
    BurstRunnable(key, n, tail, map[key := limit]);
    if n == 0 {
      assert Trues(0) + Answers(map[key := Zeros(size)], map[key := limit], expiry, tail, 0)
          == Answers(map[key := Zeros(size)], map[key := limit], expiry, tail, 0);
    } else {
      BurstAnswers(key, n - 1, tail, limit, expiry, size + 1);
      OneMoreZero(key, limit, size);
      hide Accepts, AfterRequest;
      assert Burst(key, n, tail)[1..] == Burst(key, n - 1, tail);
    }
  }

  /** A run and the same run with its sweeps removed. */
  function WithoutSweeps(events: seq<Event>): seq<Event> {
    if |events| == 0 then []
    else if events[0].Sweep? then WithoutSweeps(events[1..])
    else [events[0]] + WithoutSweeps(events[1..])
  }

  lemma {:induction false} WithoutSweepsRunnable(events: seq<Event>, limits: Limits, clock: int, start: int)
    requires Runnable(events, limits, clock) && start <= clock
    ensures Runnable(WithoutSweeps(events), limits, start)
    decreases |events|
  {
    if |events| > 0 {
      if events[0].Sweep? {
        WithoutSweepsRunnable(events[1..], limits, events[0].now, start);
      } else {
        WithoutSweepsRunnable(events[1..], limits, events[0].now, events[0].now);
      }
    }
  }

  lemma {:induction false} ReferenceIgnoresSweeps(history: History, limits: Limits, events: seq<Event>, clock: int,
      start: int)
    requires Runnable(events, limits, clock) && start <= clock
    ensures Runnable(WithoutSweeps(events), limits, start)
    ensures ReferenceAnswers(history, limits, WithoutSweeps(events), start) ==
        ReferenceAnswers(history, limits, events, clock)
    decreases |events|
  {
    WithoutSweepsRunnable(events, limits, clock, start);
    if |events| > 0 {
      match events[0]
      case Sweep(now) =>
        ReferenceIgnoresSweeps(history, limits, events[1..], now, start);
      case Request(key, now) =>
        ReferenceIgnoresSweeps(AfterReference(history, key, limits[key], now), limits, events[1..], now, now);
        assert WithoutSweeps(events)[1..] == WithoutSweeps(events[1..]);
    }
  }

  /** Removing the sweeps of this run changes no answer. */
  ghost predicate SweepsInvisible(limits: Limits, expiry: int, events: seq<Event>, clock: int)
    requires Runnable(events, limits, clock)
  {
    && Runnable(WithoutSweeps(events), limits, clock)
    && Answers(map[], limits, expiry, events, clock) == Answers(map[], limits, expiry, WithoutSweeps(events), clock)
  }

  lemma ShortDurationsHideSweeps(limits: Limits, expiry: int, events: seq<Event>, clock: int)
    requires Runnable(events, limits, clock)
    requires forall key :: key in limits ==> limits[key].duration <= expiry + 1
    ensures SweepsInvisible(limits, expiry, events, clock)
  {
    ReferenceIgnoresSweeps(map[], limits, events, clock, clock);
    BoundedQueueMatchesHistory(limits, expiry, events, clock);
    BoundedQueueMatchesHistory(limits, expiry, WithoutSweeps(events), clock);
  }

  /** Fill the window at time 0, sweep as soon as the key is idle, and ask again. */
  function RevealingRun(key: Key, limit: Limit, expiry: nat): seq<Event> {
    [Request(key, 0)] + Burst(key, EffectiveMax(limit) - 1, [Sweep(expiry + 1), Request(key, expiry + 1)])
  }

  lemma {:induction false} BurstWithoutSweeps(key: Key, n: nat, tail: seq<Event>)
    ensures WithoutSweeps(Burst(key, n, tail)) == Burst(key, n, WithoutSweeps(tail))
  {
    if n > 0 {
      BurstWithoutSweeps(key, n - 1, tail);
      assert Burst(key, n, tail)[1..] == Burst(key, n - 1, tail);
    }
  }

  lemma FirstThenBurst(key: Key, limit: Limit, expiry: int, tail: seq<Event>)
    requires Runnable(tail, map[key := limit], 0)
    ensures var events := [Request(key, 0)] + Burst(key, EffectiveMax(limit) - 1, tail);
            && Runnable(events, map[key := limit], 0)
            && Answers(map[], map[key := limit], expiry, events, 0)
               == [true] + (Trues(EffectiveMax(limit) - 1)
                            + Answers(map[key := Zeros(EffectiveMax(limit))], map[key := limit], expiry, tail, 0))
  {
    var n := EffectiveMax(limit) - 1;
    BurstAnswers(key, n, tail, limit, expiry, 1);
    var events := [Request(key, 0)] + Burst(key, n, tail);
    assert events[1..] == Burst(key, n, tail);
    assert Zeros(1) == [0];
    assert AfterRequest(map[], key, limit, 0) == map[key := Zeros(1)];
  }

  /** After the window is full, the same question is answered yes with the sweep and no without. */
  lemma SweepFlipsAnswer(key: Key, limit: Limit, expiry: nat)
    requires limit.duration > expiry + 1
    ensures var limits, full, now := map[key := limit], map[key := Zeros(EffectiveMax(limit))], expiry + 1;
            && Runnable([Request(key, now)], limits, 0)
            && Runnable([Sweep(now), Request(key, now)], limits, 0)
            && Answers(full, limits, expiry, [Sweep(now), Request(key, now)], 0) == [true]
            && Answers(full, limits, expiry, [Request(key, now)], 0) == [false]
  {
    var limits, full, now := map[key := limit], map[key := Zeros(EffectiveMax(limit))], expiry + 1;
    var ask: seq<Event> := [Request(key, now)];
    var swept: seq<Event> := [Sweep(now), Request(key, now)];
    assert ask[1..] == [] && swept[1..] == ask;
    assert Runnable(ask, limits, now) && Runnable(ask, limits, 0);
    assert AfterSweep(full, expiry, now) == map[];
    assert Answers(map[], limits, expiry, ask, now) == [true];
  }

  lemma LongDurationShowsSweep(key: Key, limit: Limit, expiry: nat)
    requires limit.duration > expiry + 1
    ensures Runnable(RevealingRun(key, limit, expiry), map[key := limit], 0)
    ensures !SweepsInvisible(map[key := limit], expiry, RevealingRun(key, limit, expiry), 0)
  {
    var now, n := expiry + 1, EffectiveMax(limit) - 1;
    var ask: seq<Event> := [Request(key, now)];
    var swept: seq<Event> := [Sweep(now), Request(key, now)];
    SweepFlipsAnswer(key, limit, expiry);
    FirstThenBurst(key, limit, expiry, swept);
    FirstThenBurst(key, limit, expiry, ask);
    var events := RevealingRun(key, limit, expiry);
    assert WithoutSweeps(events) == [Request(key, 0)] + Burst(key, n, ask) by {
      BurstWithoutSweeps(key, n, swept);
      assert events[1..] == Burst(key, n, swept);
      assert swept[1..] == ask && ask[1..] == [];
      assert WithoutSweeps(ask) == ask;
    }
    assert ([true] + (Trues(n) + [true]))[n + 1] != ([true] + (Trues(n) + [false]))[n + 1];
  }

  /** A run that asks for one key is answered by that key's parameters alone. */
  lemma {:induction false} OtherLimitsIrrelevant(store: Store, limits: Limits, key: Key, expiry: int,
      events: seq<Event>, clock: int)
    requires key in limits && QueuesNonempty(store) && Runnable(events, map[key := limits[key]], clock)
    ensures Runnable(events, limits, clock)
    ensures Answers(store, limits, expiry, events, clock) ==
        Answers(store, map[key := limits[key]], expiry, events, clock)
    decreases |events|
  {
    if events != [] {
      match events[0]
      case Sweep(now) =>
        OtherLimitsIrrelevant(AfterSweep(store, expiry, now), limits, key, expiry, events[1..], now);
      case Request(k, now) =>
        OtherLimitsIrrelevant(AfterRequest(store, k, limits[k], now), limits, key, expiry, events[1..], now);
    }
  }

  lemma LongDurationShowsSweepAmong(limits: Limits, key: Key, expiry: nat)
    requires key in limits && limits[key].duration > expiry + 1
    ensures exists events, clock :: Runnable(events, limits, clock) && !SweepsInvisible(limits, expiry, events, clock)
  {
    var limit := limits[key];
    var events := RevealingRun(key, limit, expiry);
    LongDurationShowsSweep(key, limit, expiry);
    WithoutSweepsRunnable(events, map[key := limit], 0, 0);
    OtherLimitsIrrelevant(map[], limits, key, expiry, events, 0);
    OtherLimitsIrrelevant(map[], limits, key, expiry, WithoutSweeps(events), 0);
    hide Answers, Runnable, RevealingRun, WithoutSweeps;
    assert !SweepsInvisible(limits, expiry, events, 0);
  }

  /**
   Sweeping is invisible on every run exactly when each key's duration is at most one
   second above the expiry. The documented rule, a duration not above the expiry, is
   therefore sufficient and one second stricter than needed.
   */
  lemma SweepsInvisibleIff(limits: Limits, expiry: nat)
    ensures (forall events, clock | Runnable(events, limits, clock) :: SweepsInvisible(limits, expiry, events, clock))
       <==> forall key :: key in limits ==> limits[key].duration <= expiry + 1
  {
    if forall key :: key in limits ==> limits[key].duration <= expiry + 1 {
      forall events, clock | Runnable(events, limits, clock)
        ensures SweepsInvisible(limits, expiry, events, clock)
      {
        ShortDurationsHideSweeps(limits, expiry, events, clock);
      }
    } else {
      var key :| key in limits && limits[key].duration > expiry + 1;
      LongDurationShowsSweepAmong(limits, key, expiry);
    }
  }
}
