/** The per-client token bucket in front of the expensive requests. */
module RateLimiter {
  import opened Basics

  /** Times are in seconds, tokens are exact numbers. */
  datatype Bucket = Bucket(tokens: real, last: real)

  /** What the constructor is given: tokens a second, and the most a bucket holds. */
  datatype Rates = Rates(rate: real, burst: real)

  type Buckets = map<Id, Bucket>

  function Capped(x: real, cap: real): real {
    if x > cap then cap else x
  }

  /** What a span of time adds. */
  function Gain(l: Rates, span: real): real {
    span * l.rate
  }

  /** What a bucket holds at `now`. */
  function Filled(b: Bucket, l: Rates, now: real): real {
    Capped(b.tokens + Gain(l, now - b.last), l.burst)
  }

  /** The answer to one client's request, and its bucket afterwards; no bucket yet means a full one. */
  function Answer(b: Option<Bucket>, l: Rates, now: real): (Bucket, bool) {
    match b
    case None => (Bucket(l.burst - 1.0, now), true)
    case Some(b) =>
      var t := Filled(b, l, now);
      if t < 1.0 then (Bucket(t, now), false) else (Bucket(t - 1.0, now), true)
  }

  function Held(m: Buckets, key: Id): Option<Bucket> {
    if key in m then Some(m[key]) else None
  }

  predicate Stale(b: Bucket, now: real, idle: real) {
    now - b.last > idle
  }

  function Purged(m: Buckets, now: real, idle: real): Buckets {
    map key | key in m && !Stale(m[key], now, idle) :: m[key]
  }

  class Limiter {
    const l: Rates
    var buckets: Buckets

    constructor (rate: real, burst: real)
      ensures l == Rates(rate, burst) && buckets == map[]
    {
      l, buckets := Rates(rate, burst), map[];
    }

    method Allow(key: Id, now: real) returns (ok: bool)
      modifies this
      ensures var (b, yes) := Answer(Held(old(buckets), key), l, now);
              buckets == old(buckets)[key := b] && ok == yes
    {
      if key !in buckets {
        buckets := buckets[key := Bucket(l.burst - 1.0, now)];
        return true;
      }
      var b := buckets[key];
      var tokens := b.tokens + (now - b.last) * l.rate;
      assert Gain(l, now - b.last) == (now - b.last) * l.rate;
      if tokens > l.burst {
        tokens := l.burst;
      }
      if tokens < 1.0 {
        buckets := buckets[key := Bucket(tokens, now)];
        return false;
      }
      buckets := buckets[key := Bucket(tokens - 1.0, now)];
      ok := true;
    }

    method Purge(now: real, idle: real)
      modifies this
      ensures buckets == Purged(old(buckets), now, idle)
    {
      var todo := buckets.Keys;
      while todo != {}
        invariant todo <= old(buckets).Keys
        invariant buckets == map key | key in old(buckets) && (key in todo || !Stale(old(buckets)[key], now, idle)) ::
                               old(buckets)[key]
        decreases |todo|
      {
        var key :| key in todo;
        todo := todo - {key};
        if now - buckets[key].last > idle {
          buckets := buckets - {key};
        }
      }
    }
  }

  /** Requests of any clients, and purges, as they come. */
  datatype Event = Request(at: real, key: Id) | Sweep(at: real, idle: real)

  function Next(m: Buckets, l: Rates, e: Event): Buckets {
    match e
    case Request(at, key) => m[key := Answer(Held(m, key), l, at).0]
    case Sweep(at, idle) => Purged(m, at, idle)
  }

  predicate Admits(m: Buckets, l: Rates, e: Event) {
    e.Request? && Answer(Held(m, e.key), l, e.at).1
  }

  /** A purge that waits long enough for any bucket to have filled up again. */
  predicate Patient(l: Rates, e: Event) {
    e.Sweep? ==> Gain(l, e.idle) >= l.burst
  }

  /** The clock does not go back, and purges are patient. */
  predicate Orderly(l: Rates, clock: real, events: seq<Event>)
    decreases |events|
  {
    events == [] || (clock <= events[0].at && Patient(l, events[0]) && Orderly(l, events[0].at, events[1..]))
  }

  function LastAt(clock: real, events: seq<Event>): real
    decreases |events|
  {
    if events == [] then clock else LastAt(events[0].at, events[1..])
  }

  function After(m: Buckets, l: Rates, events: seq<Event>): Buckets
    decreases |events|
  {
    if events == [] then m else After(Next(m, l, events[0]), l, events[1..])
  }

  /** How many of one client's requests are let through. */
  function Admitted(m: Buckets, l: Rates, events: seq<Event>, key: Id): nat
    decreases |events|
  {
    if events == [] then 0
    else
      (if Admits(m, l, events[0]) && events[0].key == key then 1 else 0)
      + Admitted(Next(m, l, events[0]), l, events[1..], key)
  }

  predicate Sensible(l: Rates) {
    l.rate >= 0.0 && l.burst >= 1.0
  }

  ghost predicate BucketsOk(m: Buckets, l: Rates, clock: real) {
    forall key :: key in m ==> 0.0 <= m[key].tokens <= l.burst && m[key].last <= clock
  }

  /** What a client could spend at `now`: all the bucket means, whether it is there or has been purged. */
  function Level(m: Buckets, l: Rates, key: Id, now: real): real {
    if key in m then Filled(m[key], l, now) else l.burst
  }

  lemma Refill(l: Rates, span: real)
    requires l.rate >= 0.0 && span >= 0.0
    ensures Gain(l, span) >= 0.0
  {
  }

  lemma RefillAdds(l: Rates, a: real, b: real, c: real)
    ensures Gain(l, c - a) == Gain(l, c - b) + Gain(l, b - a)
  {
  }

  lemma NoRefill(l: Rates)
    ensures Gain(l, 0.0) == 0.0
  {
  }

  lemma FilledNow(b: Bucket, l: Rates)
    ensures Filled(b, l, b.last) == Capped(b.tokens, l.burst)
  {
    NoRefill(l);
    assert b.last - b.last == 0.0;
  }

  lemma FilledBounds(b: Bucket, l: Rates, now: real)
    requires Sensible(l) && 0.0 <= b.tokens <= l.burst && b.last <= now
    ensures 0.0 <= Filled(b, l, now) <= l.burst
  {
    Refill(l, now - b.last);
  }

  lemma FilledRises(b: Bucket, l: Rates, clock: real, now: real)
    requires Sensible(l) && clock <= now
    ensures Filled(b, l, clock) <= Filled(b, l, now) <= Filled(b, l, clock) + Gain(l, now - clock)
  {
    Refill(l, now - clock);
    RefillAdds(l, b.last, clock, now);
  }

  lemma FilledAgain(b: Bucket, l: Rates, idle: real, now: real)
    requires Sensible(l) && 0.0 <= b.tokens && now - b.last >= idle && Gain(l, idle) >= l.burst
    ensures Filled(b, l, now) == l.burst
  {
    Refill(l, now - (b.last + idle));
    RefillAdds(l, b.last, b.last + idle, now);
    assert (b.last + idle) - b.last == idle;
  }

  lemma LevelBounds(m: Buckets, l: Rates, key: Id, clock: real, now: real)
    requires Sensible(l) && BucketsOk(m, l, clock) && clock <= now
    ensures 0.0 <= Level(m, l, key, now) <= l.burst
  {
    if key in m { FilledBounds(m[key], l, now); }
  }

  /** Waiting adds at most the rate. */
  lemma LevelRises(m: Buckets, l: Rates, key: Id, clock: real, now: real)
    requires Sensible(l) && BucketsOk(m, l, clock) && clock <= now
    ensures Level(m, l, key, clock) <= Level(m, l, key, now) <= Level(m, l, key, clock) + Gain(l, now - clock)
  {
    Refill(l, now - clock);
    if key in m { FilledRises(m[key], l, clock, now); }
  }

  /** A request is answered by the client's level alone, and leaves a bucket that holds what is left of it. */
  lemma AnswerByLevel(m: Buckets, l: Rates, clock: real, at: real, key: Id)
    requires Sensible(l) && BucketsOk(m, l, clock) && clock <= at
    ensures var level, yes := Level(m, l, key, at), Admits(m, l, Request(at, key));
            && (yes <==> level >= 1.0)
            && Answer(Held(m, key), l, at).0 == Bucket(if yes then level - 1.0 else level, at)
            && 0.0 <= Answer(Held(m, key), l, at).0.tokens <= l.burst
  {
    LevelBounds(m, l, key, clock, at);
  }

  /** A request is let through exactly when a whole token is there, and takes it; nobody else loses anything. */
  lemma RequestLevel(m: Buckets, l: Rates, clock: real, at: real, key: Id, other: Id)
    requires Sensible(l) && BucketsOk(m, l, clock) && clock <= at
    ensures var e := Request(at, key);
            && (Admits(m, l, e) <==> Level(m, l, key, at) >= 1.0)
            && BucketsOk(Next(m, l, e), l, at)
            && Level(Next(m, l, e), l, other, at) ==
                 Level(m, l, other, at) - if other == key && Admits(m, l, e) then 1.0 else 0.0
  {
    AnswerByLevel(m, l, clock, at, key);
    FilledNow(Answer(Held(m, key), l, at).0, l);
  }

  /** A patient purge takes away only full buckets, so nobody's level changes, then or later. */
  lemma SweepLevel(m: Buckets, l: Rates, clock: real, at: real, idle: real, key: Id, now: real)
    requires Sensible(l) && BucketsOk(m, l, clock) && clock <= at <= now && Gain(l, idle) >= l.burst
    ensures BucketsOk(Purged(m, at, idle), l, at)
    ensures Level(Purged(m, at, idle), l, key, now) == Level(m, l, key, now)
  {
    if key in m && Stale(m[key], at, idle) {
      FilledAgain(m[key], l, idle, now);
    }
  }

  /** One event: what it spends and what it leaves are no more than what there was and what waiting added. */
  lemma SpentByOne(m: Buckets, l: Rates, clock: real, e: Event, key: Id)
    requires Sensible(l) && BucketsOk(m, l, clock) && clock <= e.at && Patient(l, e)
    ensures BucketsOk(Next(m, l, e), l, e.at)
    ensures Level(Next(m, l, e), l, key, e.at) + (if Admits(m, l, e) && e.key == key then 1.0 else 0.0)
              <= Level(m, l, key, clock) + Gain(l, e.at - clock)
  {
    LevelRises(m, l, key, clock, e.at);
    match e {
      case Request(at, who) => RequestLevel(m, l, clock, at, who, key);
      case Sweep(at, idle) => SweepLevel(m, l, clock, at, idle, key, at);
    }
  }

  lemma SpendingAdds(one: nat, more: nat, before: real, mid: real, end: real, gain: real, rest: real)
    requires mid + one as real <= before + gain && more as real + end <= mid + rest
    ensures (one + more) as real + end <= before + (rest + gain)
  {
  }

  lemma {:induction false} RunKeepsBuckets(m: Buckets, l: Rates, clock: real, events: seq<Event>)
    requires Sensible(l) && BucketsOk(m, l, clock) && Orderly(l, clock, events)
    ensures clock <= LastAt(clock, events) && BucketsOk(After(m, l, events), l, LastAt(clock, events))
    decreases |events|
  {
    if events != [] {
      SpentByOne(m, l, clock, events[0], NOBODY);
      RunKeepsBuckets(Next(m, l, events[0]), l, events[0].at, events[1..]);
    }
  }

  /** What one client is let through, and what is left to it at the end, are no more than what it could spend at the
      start and what the time added. */
  lemma {:induction false} SpentAtMost(m: Buckets, l: Rates, clock: real, events: seq<Event>, key: Id, end: real)
    requires Sensible(l) && BucketsOk(m, l, clock) && Orderly(l, clock, events) && end == LastAt(clock, events)
    ensures Admitted(m, l, events, key) as real + Level(After(m, l, events), l, key, end)
              <= Level(m, l, key, clock) + Gain(l, end - clock)
    decreases |events|
  {
    if events == [] {
      NoRefill(l);
      assert end - clock == 0.0;
    } else {
      var e := events[0];
      var next := Next(m, l, e);
      SpentByOne(m, l, clock, e, key);
      SpentAtMost(next, l, e.at, events[1..], key, end);
      SpentAndMore(m, l, clock, events, key, end);
    }
  }

  lemma SpentAndMore(m: Buckets, l: Rates, clock: real, events: seq<Event>, key: Id, end: real)
    requires events != [] && end == LastAt(clock, events)
    requires var e, next := events[0], Next(m, l, events[0]);
             && Level(next, l, key, e.at) + (if Admits(m, l, e) && e.key == key then 1.0 else 0.0)
                  <= Level(m, l, key, clock) + Gain(l, e.at - clock)
             && Admitted(next, l, events[1..], key) as real + Level(After(next, l, events[1..]), l, key, end)
                  <= Level(next, l, key, e.at) + Gain(l, end - e.at)
    ensures Admitted(m, l, events, key) as real + Level(After(m, l, events), l, key, end)
              <= Level(m, l, key, clock) + Gain(l, end - clock)
  {
    var e, next := events[0], Next(m, l, events[0]);
    var one: nat := if Admits(m, l, e) && e.key == key then 1 else 0;
    RefillAdds(l, clock, e.at, end);
    SpendingAdds(one, Admitted(next, l, events[1..], key), Level(m, l, key, clock), Level(next, l, key, e.at),
                 Level(After(next, l, events[1..]), l, key, end), Gain(l, e.at - clock), Gain(l, end - e.at));
    assert Admitted(m, l, events, key) == one + Admitted(next, l, events[1..], key);
  }

  lemma WindowFrom(m: Buckets, l: Rates, clock: real, window: seq<Event>, key: Id, end: real)
    requires Sensible(l) && BucketsOk(m, l, clock) && Orderly(l, clock, window) && end == LastAt(clock, window)
    ensures Admitted(m, l, window, key) as real <= l.burst + Gain(l, end - clock)
  {
    RunKeepsBuckets(m, l, clock, window);
    SpentAtMost(m, l, clock, window, key, end);
    LevelBounds(m, l, key, clock, clock);
    LevelBounds(After(m, l, window), l, key, end, end);
    var got, gain := Admitted(m, l, window, key) as real, Gain(l, end - clock);
    assert got + Level(After(m, l, window), l, key, end) <= Level(m, l, key, clock) + gain;
  }

  /** In any window of any run, one client gets through at most the burst and the rate for the length of the window. */
  lemma WindowBound(l: Rates, clock: real, before: seq<Event>, window: seq<Event>, key: Id, m: Buckets, end: real)
    requires Sensible(l) && window != [] && Orderly(l, clock, before + window)
    requires m == After(map[], l, before) && end == LastAt(clock, before + window)
    ensures Admitted(m, l, window, key) as real <= l.burst + Gain(l, end - window[0].at)
  {
    OrderSplits(l, clock, before, window);
    RunKeepsBuckets(map[], l, clock, before);
    WindowFromFirst(l, LastAt(clock, before), window);
    WindowFrom(m, l, window[0].at, window, key, end);
  }

  lemma WindowFromFirst(l: Rates, clock: real, window: seq<Event>)
    requires window != [] && Orderly(l, clock, window)
    ensures Orderly(l, window[0].at, window) && LastAt(window[0].at, window) == LastAt(clock, window)
  {
  }

  lemma {:induction false} OrderSplits(l: Rates, clock: real, before: seq<Event>, window: seq<Event>)
    requires Orderly(l, clock, before + window)
    ensures Orderly(l, clock, before) && Orderly(l, LastAt(clock, before), window)
    ensures LastAt(clock, before + window) == LastAt(LastAt(clock, before), window)
    decreases |before|
  {
    if before == [] {
      assert before + window == window;
    } else {
      assert (before + window)[1..] == before[1..] + window;
      OrderSplits(l, before[0].at, before[1..], window);
    }
  }

  /** The bound needs the burst to be at least one: below that the very first request already breaks it. */
  lemma BoundNeedsAWholeToken(l: Rates, key: Id, at: real)
    requires l.rate >= 0.0
    ensures Admitted(map[], l, [Request(at, key)], key) as real <= l.burst + Gain(l, at - at) <==> l.burst >= 1.0
  {
    var events := [Request(at, key)];
    assert events[1..] == [];
    assert Admitted(map[], l, events, key) == 1;
  }

  /** A client that waits for a token's worth of time between requests is never refused, whatever others do. */
  lemma {:induction false} SteadyClientNeverRefused(m: Buckets, l: Rates, clock: real, events: seq<Event>, key: Id,
      i: nat)
    requires Sensible(l) && BucketsOk(m, l, clock) && Orderly(l, clock, events)
    requires i < |events| && events[i].Request? && events[i].key == key
    requires Level(m, l, key, events[i].at) >= 1.0
    requires forall j :: 0 <= j < i && events[j].Request? && events[j].key == key ==>
                           Gain(l, events[i].at - events[j].at) >= 1.0
    ensures Admits(After(m, l, events[..i]), l, events[i])
    decreases i
  {
    OrderedAt(l, clock, events, i);
    if i == 0 {
      assert events[..0] == [];
      RequestLevel(m, l, clock, events[0].at, key, key);
    } else {
      var e := events[0];
      LevelAfterOne(m, l, clock, e, events[i].at, key);
      assert events[..i][1..] == events[1..][..i - 1];
      forall j | 0 <= j < i - 1 && events[1..][j].Request? && events[1..][j].key == key
        ensures Gain(l, events[i].at - events[1..][j].at) >= 1.0
      {
        assert events[1..][j] == events[j + 1];
      }
      OrderedAt(l, e.at, events[1..], i - 1);
      SteadyClientNeverRefused(Next(m, l, e), l, e.at, events[1..], key, i - 1);
    }
  }

  lemma {:induction false} OrderedAt(l: Rates, clock: real, events: seq<Event>, i: nat)
    requires Orderly(l, clock, events) && i < |events|
    ensures clock <= events[0].at <= events[i].at
    decreases i
  {
    if i > 0 {
      OrderedAt(l, events[0].at, events[1..], i - 1);
    }
  }

  lemma LevelAfterSpending(m: Buckets, l: Rates, key: Id, at: real, now: real)
    requires Sensible(l) && key in m && m[key].last == at && m[key].tokens >= 0.0 && Gain(l, now - at) >= 1.0
    ensures Level(m, l, key, now) >= 1.0
  {
  }

  /** What one event leaves for a later moment: a request of the client's own at least a token's worth of time before
      leaves a token again; nothing else costs the client anything. */
  lemma LevelAfterOne(m: Buckets, l: Rates, clock: real, e: Event, now: real, key: Id)
    requires Sensible(l) && BucketsOk(m, l, clock) && clock <= e.at <= now && Patient(l, e)
    requires e.Request? && e.key == key ==> Gain(l, now - e.at) >= 1.0
    requires Level(m, l, key, now) >= 1.0
    ensures BucketsOk(Next(m, l, e), l, e.at) && Level(Next(m, l, e), l, key, now) >= 1.0
  {
    match e {
      case Request(at, who) =>
        RequestLevel(m, l, clock, at, who, key);
        if who == key {
          LevelAfterSpending(Next(m, l, e), l, key, at, now);
        } else {
          LevelOfOther(m, l, e, key, now);
        }
      case Sweep(at, idle) => SweepLevel(m, l, clock, at, idle, key, now);
    }
  }

  function Requests(events: seq<Event>): seq<Event> {
    if events == [] then []
    else (if events[0].Request? then [events[0]] else []) + Requests(events[1..])
  }

  function Answers(m: Buckets, l: Rates, events: seq<Event>): seq<bool>
    decreases |events|
  {
    if events == [] then []
    else (if events[0].Request? then [Admits(m, l, events[0])] else []) + Answers(Next(m, l, events[0]), l, events[1..])
  }

  ghost predicate SameLevels(m: Buckets, n: Buckets, l: Rates, clock: real) {
    forall key, now :: clock <= now ==> Level(m, l, key, now) == Level(n, l, key, now)
  }

  lemma RequestKeepsSameLevels(m: Buckets, n: Buckets, l: Rates, clock: real, e: Event)
    requires Sensible(l) && BucketsOk(m, l, clock) && BucketsOk(n, l, clock) && SameLevels(m, n, l, clock)
    requires e.Request? && clock <= e.at
    ensures Admits(m, l, e) == Admits(n, l, e)
    ensures SameLevels(Next(m, l, e), Next(n, l, e), l, e.at)
    ensures BucketsOk(Next(m, l, e), l, e.at) && BucketsOk(Next(n, l, e), l, e.at)
  {
    assert Level(m, l, e.key, e.at) == Level(n, l, e.key, e.at);
    AnswerByLevel(m, l, clock, e.at, e.key);
    AnswerByLevel(n, l, clock, e.at, e.key);
    forall key, now | e.at <= now ensures Level(Next(m, l, e), l, key, now) == Level(Next(n, l, e), l, key, now) {
      if key != e.key {
        LevelOfOther(m, l, e, key, now);
        LevelOfOther(n, l, e, key, now);
        assert Level(m, l, key, now) == Level(n, l, key, now);
      }
    }
  }

  lemma LevelOfOther(m: Buckets, l: Rates, e: Event, key: Id, now: real)
    requires e.Request? && key != e.key
    ensures Level(Next(m, l, e), l, key, now) == Level(m, l, key, now)
  {
  }

  /** Purges that wait long enough are never noticed: every answer is the one there would have been without them. */
  lemma {:induction false} PatientPurgeUnnoticed(m: Buckets, n: Buckets, l: Rates, clock: real, events: seq<Event>)
    requires Sensible(l) && BucketsOk(m, l, clock) && BucketsOk(n, l, clock) && SameLevels(m, n, l, clock)
    requires Orderly(l, clock, events)
    ensures Answers(m, l, events) == Answers(n, l, Requests(events))
    decreases |events|
  {
    if events != [] {
      var e := events[0];
      if e.Request? {
        RequestKeepsSameLevels(m, n, l, clock, e);
        PatientPurgeUnnoticed(Next(m, l, e), Next(n, l, e), l, e.at, events[1..]);
        assert ([e] + Requests(events[1..]))[1..] == Requests(events[1..]);
      } else {
        forall key, now | e.at <= now ensures Level(Next(m, l, e), l, key, now) == Level(n, l, key, now) {
          SweepLevel(m, l, clock, e.at, e.idle, key, now);
        }
        SweepLevel(m, l, clock, e.at, e.idle, NOBODY, e.at);
        PatientPurgeUnnoticed(Next(m, l, e), n, l, e.at, events[1..]);
        assert Answers(m, l, events) == Answers(Next(m, l, e), l, events[1..]);
        assert Requests(events) == Requests(events[1..]);
      }
    }
  }

  /** How patient a purge must be: a bucket forgotten is as good as one kept exactly when it would have filled. */
  lemma ForgettingExactly(b: Bucket, l: Rates, now: real)
    requires Sensible(l)
    ensures Answer(None, l, now) == Answer(Some(b), l, now) <==> b.tokens + Gain(l, now - b.last) >= l.burst
  {
  }

  lemma GainGrows(l: Rates, a: real, b: real)
    requires l.rate > 0.0 && a < b
    ensures Gain(l, a) < Gain(l, b)
  {
    var d := b - a;
    assert d * l.rate > 0.0;
    RefillAdds(l, 0.0, a, b);
  }

  lemma IdleBelow(l: Rates, a: real, b: real)
    requires l.rate > 0.0 && Gain(l, a) < Gain(l, b)
    ensures a < b
  {
    if b < a { GainGrows(l, b, a); }
  }

  /** So an idle time never shows, for any bucket and any later moment, exactly when it is long enough to fill one. */
  lemma IdleExactly(l: Rates, idle: real)
    requires Sensible(l) && l.rate > 0.0 && idle >= 0.0
    ensures (forall b: Bucket, now: real :: 0.0 <= b.tokens <= l.burst && Stale(b, now, idle) ==>
               Answer(None, l, now) == Answer(Some(b), l, now))
            <==> Gain(l, idle) >= l.burst
  {
    if Gain(l, idle) >= l.burst {
      forall b: Bucket, now: real | 0.0 <= b.tokens <= l.burst && Stale(b, now, idle)
        ensures Answer(None, l, now) == Answer(Some(b), l, now)
      {
        FilledAgain(b, l, idle, now);
        ForgettingExactly(b, l, now);
      }
    } else {
      var full := l.burst / l.rate;
      assert Gain(l, full) == l.burst;
      IdleBelow(l, idle, full);
      var now := (idle + full) / 2.0;
      GainGrows(l, now, full);
      var b := Bucket(0.0, 0.0);
      assert Stale(b, now, idle) && now - b.last == now;
      ForgettingExactly(b, l, now);
    }
  }
}
