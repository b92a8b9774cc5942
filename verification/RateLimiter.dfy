/**
 * The per-route rate limiter: a shared map of windowed counters that is swept lazily once it
 * grows past a threshold. Requests carry the clock value they read.
 */
module RateLimiter {
  import opened Wrappers
  import opened Arithmetic

  datatype Bucket = Bucket(count: int, resetAt: int)

  type Buckets = map<string, Bucket>

  datatype Request = Request(key: string, limit: int, windowMs: int, now: int)

  const SWEEP_ABOVE := 10_000

  // ---- one counter ----

  predicate Expired(b: Option<Bucket>, now: int) {
    b.None? || b.value.resetAt <= now
  }

  function Hit(b: Option<Bucket>, windowMs: int, now: int): Bucket {
    if Expired(b, now) then Bucket(1, now + windowMs) else Bucket(b.value.count + 1, b.value.resetAt)
  }

  predicate Admits(b: Option<Bucket>, limit: int, now: int) {
    Expired(b, now) || b.value.count + 1 <= limit
  }

  // ---- the shared map ----

  function Lookup(m: Buckets, key: string): Option<Bucket> {
    if key in m then Some(m[key]) else None
  }

  /** Deletes the buckets whose window is over. */
  function Sweep(m: Buckets, now: int): Buckets {
    map k | k in m && m[k].resetAt > now :: m[k]
  }

  function After(m: Buckets, r: Request): Buckets {
    var b := Lookup(m, r.key);
    var next := m[r.key := Hit(b, r.windowMs, r.now)];
    if Expired(b, r.now) && |next| > SWEEP_ABOVE then Sweep(next, r.now) else next
  }

  class Limiter {
    var buckets: Buckets

    constructor ()
      ensures buckets == map[]
    {
      buckets := map[];
    }

    method RateLimit(key: string, limit: int, windowMs: int, now: int) returns (ok: bool)
      modifies this
      ensures buckets == After(old(buckets), Request(key, limit, windowMs, now))
      ensures ok == Admits(Lookup(old(buckets), key), limit, now)
    {
      if key !in buckets || buckets[key].resetAt <= now {
        buckets := buckets[key := Bucket(1, now + windowMs)];
        if |buckets| > SWEEP_ABOVE {
          SweepExpired(now);
        }
        return true;
      }
      var b := buckets[key];
      buckets := buckets[key := b.(count := b.count + 1)];
      ok := b.count + 1 <= limit;
    }

    method SweepExpired(now: int)
      modifies this
      ensures buckets == Sweep(old(buckets), now)
    {
      var todo := buckets.Keys;
      while todo != {}
        invariant todo <= buckets.Keys
        invariant forall k :: k in buckets ==> k in old(buckets) && buckets[k] == old(buckets)[k]
        invariant forall k :: k in old(buckets) && (k in todo || old(buckets)[k].resetAt > now) ==> k in buckets
        invariant forall k :: k in buckets && k !in todo ==> buckets[k].resetAt > now
        decreases todo
      {
        var k :| k in todo;
        if buckets[k].resetAt <= now {
          buckets := buckets - {k};
        }
        todo := todo - {k};
      }
    }
  }

  // ---- histories ----

  predicate ClockMonotone(history: seq<Request>) {
    forall i, j :: 0 <= i <= j < |history| ==> history[i].now <= history[j].now
  }

  function Play(m: Buckets, history: seq<Request>): Buckets
    decreases |history|
  {
    if history == [] then m else Play(After(m, history[0]), history[1..])
  }

  /** The answers of the shared, swept map. */
  function Answers(m: Buckets, history: seq<Request>): (a: seq<bool>)
    ensures |a| == |history|
    decreases |history|
  {
    if history == [] then []
    else
      var r := history[0];
      [Admits(Lookup(m, r.key), r.limit, r.now)] + Answers(After(m, r), history[1..])
  }

  /** The reference: one counter per key that is never evicted. */
  function PrivateAnswers(counters: Buckets, history: seq<Request>): (a: seq<bool>)
    ensures |a| == |history|
    decreases |history|
  {
    if history == [] then []
    else
      var r := history[0];
      var b := Lookup(counters, r.key);
      [Admits(b, r.limit, r.now)] + PrivateAnswers(counters[r.key := Hit(b, r.windowMs, r.now)], history[1..])
  }

  /** The swept map holds a part of the counters, and what it lost is over. */
  predicate Agrees(m: Buckets, counters: Buckets, now: int) {
    && (forall k :: k in m ==> k in counters && counters[k] == m[k])
    && (forall k :: k in counters && k !in m ==> counters[k].resetAt <= now)
  }

  lemma {:induction false} SweepTransparentFrom(m: Buckets, counters: Buckets, history: seq<Request>, now: int)
    requires ClockMonotone(history) && Agrees(m, counters, now)
    requires history != [] ==> now <= history[0].now
    ensures Answers(m, history) == PrivateAnswers(counters, history)
    decreases |history|
  {
    if history == [] {
    } else {
      var r := history[0];
      var b := Lookup(counters, r.key);
      var next := counters[r.key := Hit(b, r.windowMs, r.now)];
      assert Agrees(After(m, r), next, r.now);
      RestIsMonotone(history);
      SweepTransparentFrom(After(m, r), next, history[1..], r.now);
    }
  }

  /**
   * Sweeping is transparent: under a non-decreasing clock the shared map answers every request
   * history exactly as one never-evicting counter per key, whatever the limits and windows.
   */
  lemma SweepTransparent(history: seq<Request>)
    requires ClockMonotone(history)
    ensures Answers(map[], history) == PrivateAnswers(map[], history)
  {
    SweepTransparentFrom(map[], map[], history, if history == [] then 0 else history[0].now);
  }

  // ---- what one key sees ----

  /** Requests admitted for one key in a run of its own requests, from a given counter. */
  function Admitted(b: Option<Bucket>, times: seq<int>, limit: int, windowMs: int): nat
    decreases |times|
  {
    if times == [] then 0
    else
      (if Admits(b, limit, times[0]) then 1 else 0)
      + Admitted(Some(Hit(b, windowMs, times[0])), times[1..], limit, windowMs)
  }

  predicate Sorted(times: seq<int>) {
    forall i, j :: 0 <= i <= j < |times| ==> times[i] <= times[j]
  }

  /** While a window stays open it admits exactly what is left of the limit. */
  lemma {:induction false} OpenWindow(b: Bucket, times: seq<int>, limit: nat, windowMs: int)
    requires 1 <= b.count
    requires forall i :: 0 <= i < |times| ==> times[i] < b.resetAt
    ensures Admitted(Some(b), times, limit, windowMs) == Max(0, Min(|times|, limit - b.count))
    decreases |times|
  {
    if times == [] {
    } else {
      OpenWindow(Hit(Some(b), windowMs, times[0]), times[1..], limit, windowMs);
    }
  }

  /** Each window, from the request that opens it, admits exactly min(requests, limit). */
  lemma WindowAdmitsMin(b: Option<Bucket>, times: seq<int>, limit: nat, windowMs: int)
    requires limit >= 1 && times != [] && Expired(b, times[0])
    requires forall i :: 1 <= i < |times| ==> times[i] < times[0] + windowMs
    ensures Admitted(b, times, limit, windowMs) == Min(|times|, limit)
  {
    OpenWindow(Hit(b, windowMs, times[0]), times[1..], limit, windowMs);
  }

  /** A counter met in the middle of a window has counted at least the request that opened it. */
  predicate Started(b: Option<Bucket>) {
    b.Some? ==> b.value.count >= 1
  }

  /** How many of a sorted run of times fall before a deadline. */
  function CountBefore(times: seq<int>, deadline: int): (n: nat)
    ensures n <= |times|
  {
    if times == [] || times[0] >= deadline then 0 else 1 + CountBefore(times[1..], deadline)
  }

  /** Requests that still meet the window that is open when the run starts. */
  function Early(b: Option<Bucket>, times: seq<int>): (n: nat)
    ensures n <= |times|
  {
    if b.None? then 0 else CountBefore(times, b.value.resetAt)
  }

  /** What that window still has to give them. */
  function EarlyAdmitted(b: Option<Bucket>, times: seq<int>, limit: int): nat {
    if b.None? then 0 else Max(0, Min(Early(b, times), limit - b.value.count))
  }

  /**
   * Any run of requests shorter than a window meets at most two windows: the one that is open when
   * it starts admits what is left of its limit, the next one a full limit, and each no more than
   * it is asked for.
   */
  lemma {:induction false} SlidingCount(b: Option<Bucket>, times: seq<int>, limit: nat, windowMs: int)
    requires limit >= 1 && Sorted(times) && Started(b)
    requires times != [] ==> times[|times| - 1] < times[0] + windowMs
    ensures Admitted(b, times, limit, windowMs)
            == EarlyAdmitted(b, times, limit) + Min(|times| - Early(b, times), limit)
    decreases |times|
  {
    if times == [] {
    } else if Expired(b, times[0]) {
      WindowAdmitsMin(b, times, limit, windowMs);
    } else {
      var rest := times[1..];
      forall i, j | 0 <= i <= j < |rest| ensures rest[i] <= rest[j] {
        assert times[i + 1] <= times[j + 1];
      }
      if rest != [] {
        assert times[0] <= times[1];
      }
      SlidingCount(Some(Hit(b, windowMs, times[0])), rest, limit, windowMs);
    }
  }

  /** A started counter keeps such a run within 2 limit - 1, and within the limit if it has expired. */
  lemma SlidingBound(b: Option<Bucket>, times: seq<int>, limit: nat, windowMs: int)
    requires limit >= 1 && Sorted(times) && Started(b)
    requires times != [] ==> times[|times| - 1] < times[0] + windowMs
    ensures Admitted(b, times, limit, windowMs) <= 2 * limit - 1
    ensures times != [] && Expired(b, times[0]) ==> Admitted(b, times, limit, windowMs) <= limit
  {
    SlidingCount(b, times, limit, windowMs);
  }

  /** The clock values of the requests that carry a key. */
  function TimesOf(key: string, history: seq<Request>): seq<int>
    decreases |history|
  {
    if history == [] then []
    else (if history[0].key == key then [history[0].now] else []) + TimesOf(key, history[1..])
  }

  /** How many of the requests of a history that carry a key were admitted. */
  function AdmittedFor(key: string, history: seq<Request>, answers: seq<bool>): nat
    requires |answers| == |history|
    decreases |history|
  {
    if history == [] then 0
    else
      (if history[0].key == key && answers[0] then 1 else 0) + AdmittedFor(key, history[1..], answers[1..])
  }

  predicate FixedSetting(key: string, limit: int, windowMs: int, history: seq<Request>) {
    forall i :: 0 <= i < |history| && history[i].key == key ==>
                  history[i].limit == limit && history[i].windowMs == windowMs
  }

  /** In the reference, one key's admissions depend on its own requests only. */
  lemma {:induction false} KeysAreIndependent(key: string, counters: Buckets, history: seq<Request>, limit: int,
                                              windowMs: int)
    requires FixedSetting(key, limit, windowMs, history)
    ensures AdmittedFor(key, history, PrivateAnswers(counters, history))
            == Admitted(Lookup(counters, key), TimesOf(key, history), limit, windowMs)
    decreases |history|
  {
    if history == [] {
    } else {
      var r, rest := history[0], history[1..];
      var next := counters[r.key := Hit(Lookup(counters, r.key), r.windowMs, r.now)];
      assert FixedSetting(key, limit, windowMs, rest) by {
        assert forall i :: 0 <= i < |rest| ==> rest[i] == history[i + 1];
      }
      KeysAreIndependent(key, next, rest, limit, windowMs);
      assert PrivateAnswers(counters, history)[1..] == PrivateAnswers(next, rest);
      if r.key == key {
        assert TimesOf(key, history) == [r.now] + TimesOf(key, rest);
        assert TimesOf(key, history)[1..] == TimesOf(key, rest);
      } else {
        assert TimesOf(key, history) == TimesOf(key, rest);
      }
    }
  }

  lemma RestIsMonotone(history: seq<Request>)
    requires ClockMonotone(history) && history != []
    ensures ClockMonotone(history[1..])
    ensures forall i :: 0 <= i < |history| ==> history[0].now <= history[i].now <= history[|history| - 1].now
  {
    forall i, j | 0 <= i <= j < |history[1..]| ensures history[1..][i].now <= history[1..][j].now {
      assert history[i + 1].now <= history[j + 1].now;
    }
  }

  predicate Within(times: seq<int>, low: int, high: int) {
    forall i :: 0 <= i < |times| ==> low <= times[i] <= high
  }

  lemma EarlierFirst(hit: bool, first: int, times: seq<int>, high: int)
    requires Sorted(times) && Within(times, first, high) && first <= high
    ensures var all := (if hit then [first] else []) + times;
            Sorted(all) && Within(all, first, high)
  {
    if !hit {
      assert [] + times == times;
    }
  }

  lemma WidenedWithin(times: seq<int>, low: int, mid: int, high: int)
    requires Within(times, mid, high) && low <= mid
    ensures Within(times, low, high)
  {}

  lemma {:induction false} TimesWithin(key: string, history: seq<Request>)
    requires ClockMonotone(history)
    ensures Sorted(TimesOf(key, history))
    ensures history == [] ==> TimesOf(key, history) == []
    ensures history != [] ==> Within(TimesOf(key, history), history[0].now, history[|history| - 1].now)
    decreases |history|
  {
    if history == [] {
    } else {
      var first, rest, high := history[0], history[1..], history[|history| - 1].now;
      var times := TimesOf(key, rest);
      RestIsMonotone(history);
      TimesWithin(key, rest);
      if rest != [] {
        assert rest[|rest| - 1] == history[|history| - 1];
        WidenedWithin(times, first.now, rest[0].now, high);
      }
      EarlierFirst(first.key == key, first.now, times, high);
      assert TimesOf(key, history) == (if first.key == key then [first.now] else []) + times;
    }
  }

  lemma {:induction false} CountersStarted(m: Buckets, history: seq<Request>)
    requires forall k :: k in m ==> m[k].count >= 1
    ensures forall k :: k in Play(m, history) ==> Play(m, history)[k].count >= 1
    decreases |history|
  {
    if history == [] {
    } else {
      CountersStarted(After(m, history[0]), history[1..]);
    }
  }

  lemma {:induction false} AnswersAppend(m: Buckets, past: seq<Request>, stretch: seq<Request>)
    ensures Answers(m, past + stretch) == Answers(m, past) + Answers(Play(m, past), stretch)
    decreases |past|
  {
    if past == [] {
      assert past + stretch == stretch;
    } else {
      assert (past + stretch)[1..] == past[1..] + stretch;
      AnswersAppend(After(m, past[0]), past[1..], stretch);
    }
  }

  /** How many requests for a key the shared, swept map admits in a stretch that follows a past. */
  function AdmittedIn(key: string, past: seq<Request>, stretch: seq<Request>): nat {
    AdmittedFor(key, stretch, Answers(map[], past + stretch)[|past|..])
  }

  /** The bucket that the shared map holds for a key after a past. */
  function Bucketed(key: string, past: seq<Request>): Option<Bucket> {
    Lookup(Play(map[], past), key)
  }

  /** What the shared map admits is decided by the key's bucket and the times of its own requests. */
  lemma StretchCounts(past: seq<Request>, stretch: seq<Request>, key: string, limit: nat, windowMs: int)
    requires ClockMonotone(past + stretch) && FixedSetting(key, limit, windowMs, stretch)
    ensures AdmittedIn(key, past, stretch)
            == Admitted(Bucketed(key, past), TimesOf(key, stretch), limit, windowMs)
    ensures Sorted(TimesOf(key, stretch)) && Started(Bucketed(key, past))
  {
    var m := Play(map[], past);
    forall i, j | 0 <= i <= j < |stretch| ensures stretch[i].now <= stretch[j].now {
      assert (past + stretch)[|past| + i].now <= (past + stretch)[|past| + j].now;
    }
    AnswersAppend(map[], past, stretch);
    SweepTransparentFrom(m, m, stretch, if stretch == [] then 0 else stretch[0].now);
    KeysAreIndependent(key, m, stretch, limit, windowMs);
    TimesWithin(key, stretch);
    CountersStarted(map[], past);
  }

  /** In the shared map too, a window admits exactly min(requests, limit) from the request that opens it. */
  lemma SharedWindowAdmitsMin(past: seq<Request>, stretch: seq<Request>, key: string, limit: nat, windowMs: int)
    requires limit >= 1 && ClockMonotone(past + stretch) && FixedSetting(key, limit, windowMs, stretch)
    requires var times := TimesOf(key, stretch);
             && times != [] && Expired(Bucketed(key, past), times[0])
             && times[|times| - 1] < times[0] + windowMs
    ensures AdmittedIn(key, past, stretch) == Min(|TimesOf(key, stretch)|, limit)
  {
    var times := TimesOf(key, stretch);
    StretchCounts(past, stretch, key, limit, windowMs);
    assert forall i :: 0 <= i < |times| ==> times[i] <= times[|times| - 1];
    WindowAdmitsMin(Bucketed(key, past), times, limit, windowMs);
  }

  /**
   * The sliding count over whole histories: whatever came before and however the keys interleave,
   * a stretch of requests whose clock values span less than one window admits, of a key with a fixed
   * limit and window, what the open window has left and then at most one more limit.
   */
  lemma SlidingIntervalCount(past: seq<Request>, stretch: seq<Request>, key: string, limit: nat, windowMs: int)
    requires limit >= 1 && ClockMonotone(past + stretch) && FixedSetting(key, limit, windowMs, stretch)
    requires stretch != [] ==> stretch[|stretch| - 1].now < stretch[0].now + windowMs
    ensures var b, times := Bucketed(key, past), TimesOf(key, stretch);
            AdmittedIn(key, past, stretch)
            == EarlyAdmitted(b, times, limit) + Min(|times| - Early(b, times), limit)
  {
    StretchCounts(past, stretch, key, limit, windowMs);
    StretchSpan(past, stretch, key);
    SlidingCount(Bucketed(key, past), TimesOf(key, stretch), limit, windowMs);
  }

  lemma StretchSpan(past: seq<Request>, stretch: seq<Request>, key: string)
    requires ClockMonotone(past + stretch)
    ensures var times := TimesOf(key, stretch);
            times != [] ==>
              stretch != [] && stretch[0].now <= times[0] && times[|times| - 1] <= stretch[|stretch| - 1].now
  {
    forall i, j | 0 <= i <= j < |stretch| ensures stretch[i].now <= stretch[j].now {
      assert (past + stretch)[|past| + i].now <= (past + stretch)[|past| + j].now;
    }
    TimesWithin(key, stretch);
  }

  /** No stretch shorter than a window admits more than 2 limit - 1 requests of a key. */
  lemma SlidingIntervalBound(past: seq<Request>, stretch: seq<Request>, key: string, limit: nat, windowMs: int)
    requires limit >= 1 && ClockMonotone(past + stretch) && FixedSetting(key, limit, windowMs, stretch)
    requires stretch != [] ==> stretch[|stretch| - 1].now < stretch[0].now + windowMs
    ensures AdmittedIn(key, past, stretch) <= 2 * limit - 1
  {
    SlidingIntervalCount(past, stretch, key, limit, windowMs);
    StretchCounts(past, stretch, key, limit, windowMs);
  }

  /**
   * When a stretch shorter than a window stays within the limit: unless the open window admits some of
   * its requests, and together with the requests that come after that window they are more than the limit.
   */
  lemma StaysWithinLimitIff(past: seq<Request>, stretch: seq<Request>, key: string, limit: nat, windowMs: int)
    requires limit >= 1 && ClockMonotone(past + stretch) && FixedSetting(key, limit, windowMs, stretch)
    requires stretch != [] ==> stretch[|stretch| - 1].now < stretch[0].now + windowMs
    ensures var b, times := Bucketed(key, past), TimesOf(key, stretch);
            AdmittedIn(key, past, stretch) <= limit
            <==> || b.None? || Early(b, times) == 0 || limit <= b.value.count
                 || Min(Early(b, times), limit - b.value.count) + (|times| - Early(b, times)) <= limit
  {
    SlidingIntervalCount(past, stretch, key, limit, windowMs);
  }

  /**
   * The bound is attained, for every key, limit and window of at least two: a window filled at its
   * very end is followed at once by a full new one.
   */
  lemma SlidingBoundIsTight(key: string, limit: nat, windowMs: int)
    requires limit >= 1 && windowMs >= 2
    ensures var past, stretch := [Request(key, limit, windowMs, 0)], Burst(key, limit, windowMs);
            && ClockMonotone(past + stretch)
            && stretch[|stretch| - 1].now < stretch[0].now + windowMs
            && AdmittedIn(key, past, stretch) == 2 * limit - 1
  {
    var past, stretch := [Request(key, limit, windowMs, 0)], Burst(key, limit, windowMs);
    SlidingIntervalCount(past, stretch, key, limit, windowMs);
    OpensBucket(key, limit, windowMs);
    BurstCounts(key, limit, windowMs);
  }

  lemma OpensBucket(key: string, limit: nat, windowMs: int)
    ensures Bucketed(key, [Request(key, limit, windowMs, 0)]) == Some(Bucket(1, windowMs))
  {
    var past := [Request(key, limit, windowMs, 0)];
    assert Play(map[], past) == Play(After(map[], past[0]), []);
  }

  lemma BurstCounts(key: string, limit: nat, windowMs: int)
    requires limit >= 1
    ensures var times := TimesOf(key, Burst(key, limit, windowMs));
            |times| == 2 * limit - 1 && CountBefore(times, windowMs) == limit - 1
  {
    TimesOfAll(key, Burst(key, limit, windowMs));
    CountUpTo(TimesOf(key, Burst(key, limit, windowMs)), limit - 1, windowMs);
  }

  /** One request short of a limit at the end of the first window, and a limit at the start of the next. */
  function Burst(key: string, limit: nat, windowMs: int): (s: seq<Request>)
    requires limit >= 1
  {
    seq(2 * limit - 1, i => Request(key, limit, windowMs, if i < limit - 1 then windowMs - 1 else windowMs))
  }

  lemma {:induction false} TimesOfAll(key: string, history: seq<Request>)
    requires forall i :: 0 <= i < |history| ==> history[i].key == key
    ensures |TimesOf(key, history)| == |history|
    ensures forall i :: 0 <= i < |history| ==> TimesOf(key, history)[i] == history[i].now
    decreases |history|
  {
    if history == [] {
    } else {
      TimesOfAll(key, history[1..]);
    }
  }

  lemma {:induction false} CountUpTo(times: seq<int>, n: nat, deadline: int)
    requires n <= |times|
    requires forall i :: 0 <= i < |times| ==> (times[i] < deadline <==> i < n)
    ensures CountBefore(times, deadline) == n
    decreases n
  {
    if n == 0 {
    } else {
      CountUpTo(times[1..], n - 1, deadline);
    }
  }

  // ---- windows end on time ----

  /** While its window is open, a key's bucket keeps its end, whatever requests come and whatever is swept. */
  lemma {:induction false} WindowKeepsItsEnd(m: Buckets, stretch: seq<Request>, key: string, end: int)
    requires key in m && m[key].resetAt == end
    requires forall i :: 0 <= i < |stretch| ==> stretch[i].now < end
    ensures Lookup(Play(m, stretch), key).Some? && Lookup(Play(m, stretch), key).value.resetAt == end
    decreases |stretch|
  {
    if stretch == [] {
    } else {
      WindowKeepsItsEnd(After(m, stretch[0]), stretch[1..], key, end);
    }
  }

  lemma {:induction false} PlayAppend(m: Buckets, past: seq<Request>, stretch: seq<Request>)
    ensures Play(m, past + stretch) == Play(Play(m, past), stretch)
    decreases |past|
  {
    if past == [] {
      assert past + stretch == stretch;
    } else {
      assert (past + stretch)[1..] == past[1..] + stretch;
      PlayAppend(After(m, past[0]), past[1..], stretch);
    }
  }

  /**
   * A window lasts exactly as long as the request that after it asked: the key's requests are counted
   * against it until then, and the first one from then on is admitted and opens the next.
   */
  lemma WindowEndsOnTime(past: seq<Request>, opening: Request, stretch: seq<Request>, next: Request)
    requires Expired(Bucketed(opening.key, past), opening.now) && opening.windowMs >= 1 && next.key == opening.key
    requires forall i :: 0 <= i < |stretch| ==> stretch[i].now < opening.now + opening.windowMs
    ensures var b := Bucketed(opening.key, past + [opening] + stretch);
            && b.Some?
            && (next.now >= opening.now + opening.windowMs ==>
                  && Admits(b, next.limit, next.now)
                  && Hit(b, next.windowMs, next.now) == Bucket(1, next.now + next.windowMs))
            && (next.now < opening.now + opening.windowMs ==>
                  (Admits(b, next.limit, next.now) <==> b.value.count < next.limit)
                  && Hit(b, next.windowMs, next.now).resetAt == opening.now + opening.windowMs)
  {
    var m := Play(map[], past);
    var after := After(m, opening);
    PlayAppend(map[], past, [opening]);
    PlayAppend(map[], past + [opening], stretch);
    assert Play(m, [opening]) == Play(after, []);
    WindowKeepsItsEnd(after, stretch, opening.key, opening.now + opening.windowMs);
  }
}
