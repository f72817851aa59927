/**
 The in-memory rate limiter (app/services/rate_limit.py): a map from bucket to the
 recent hits in it, filtered and evicted in place, and the unbounded log of
 admitted hits that it stands for.

 Clock readings are integers here; the code only compares and subtracts them.
 */
module RateLimit {

  const MAX_BUCKETS: nat := 10_000

  type Hits = seq<int>

  /** The hits less than a window before `now`. */
  function Recent(hits: Hits, now: int, window: int): Hits {
    if hits == [] then []
    else (if now - hits[0] < window then [hits[0]] else []) + Recent(hits[1..], now, window)
  }

  ghost predicate Sorted(hits: Hits) {
    forall i, j :: 0 <= i < j < |hits| ==> hits[i] <= hits[j]
  }

  function HitsOf(m: map<string, Hits>, bucket: string): Hits {
    if bucket in m then m[bucket] else []
  }

  // ------------------------------------------------------------------- filtering

  lemma {:induction false} RecentConcat(xs: Hits, ys: Hits, now: int, window: int)
    ensures Recent(xs + ys, now, window) == Recent(xs, now, window) + Recent(ys, now, window)
  {
    if xs == [] {
      assert xs + ys == ys;
    } else {
      assert (xs + ys)[1..] == xs[1..] + ys;
      RecentConcat(xs[1..], ys, now, window);
    }
  }

  /** Filtering now and again later is the same as filtering later. */
  lemma {:induction false} RecentLater(hits: Hits, now: int, later: int, window: int)
    requires now <= later
    ensures Recent(Recent(hits, now, window), later, window) == Recent(hits, later, window)
  {
    if hits != [] {
      RecentLater(hits[1..], now, later, window);
      RecentConcat(if now - hits[0] < window then [hits[0]] else [], Recent(hits[1..], now, window), later, window);
    }
  }

  /** Of a sorted list the filter keeps exactly the hits from some place on. */
  lemma {:induction false} RecentIsTail(hits: Hits, now: int, window: int) returns (k: nat)
    requires Sorted(hits)
    ensures k <= |hits| && Recent(hits, now, window) == hits[k..]
    ensures k > 0 ==> now - hits[k - 1] >= window
    ensures k < |hits| ==> now - hits[k] < window
  {
    if hits == [] {
      k := 0;
    } else if now - hits[0] < window {
      AllRecent(hits, now, window);
      k := 0;
    } else {
      k := RecentIsTail(hits[1..], now, window);
      assert hits[1..][k..] == hits[k + 1..];
      k := k + 1;
    }
  }

  lemma {:induction false} AllRecent(hits: Hits, now: int, window: int)
    requires Sorted(hits) && (hits != [] ==> now - hits[0] < window)
    ensures Recent(hits, now, window) == hits
  {
    if |hits| > 1 {
      assert hits[0] <= hits[1] == hits[1..][0];
      AllRecent(hits[1..], now, window);
      assert [hits[0]] + hits[1..] == hits;
    } else if |hits| == 1 {
      assert hits[1..] == [];
    }
  }

  // ------------------------------------------------------------------ the limit

  /** Any hit is at least a window away from the hit `limit` places before it. */
  ghost predicate Spaced(hits: Hits, limit: int, window: int) {
    forall i, j :: 0 <= i < j < |hits| && j - i >= limit ==> hits[j] - hits[i] >= window
  }

  /** The hits that fall into the span from `start`, of the length of a window. */
  function InSpan(hits: Hits, start: int, window: int): nat {
    if hits == [] then 0
    else (if start <= hits[0] < start + window then 1 else 0) + InSpan(hits[1..], start, window)
  }

  lemma {:induction false} SpacedSpan(hits: Hits, limit: int, start: int, window: int)
    requires Sorted(hits) && Spaced(hits, limit, window) && limit >= 1
    ensures InSpan(hits, start, window) <= limit
  {
    if hits != [] {
      if start <= hits[0] < start + window {
        SpanOfFront(hits, limit, start, window);
      } else {
        SpacedSpan(hits[1..], limit, start, window);
      }
    }
  }

  /** When the first hit is in the span, only hits closer than a window to it can be. */
  lemma SpanOfFront(hits: Hits, limit: int, start: int, window: int)
    requires hits != [] && Sorted(hits) && Spaced(hits, limit, window) && limit >= 1
    requires start <= hits[0] < start + window
    ensures InSpan(hits, start, window) <= limit
  {
    if |hits| <= limit {
      SpanAtMostLength(hits, start, window);
    } else {
      assert hits == hits[..limit] + hits[limit..];
      SpanConcat(hits[..limit], hits[limit..], start, window);
      SpanAtMostLength(hits[..limit], start, window);
      SpanEmpty(hits[limit..], start, window);
    }
  }

  lemma {:induction false} SpanConcat(xs: Hits, ys: Hits, start: int, window: int)
    ensures InSpan(xs + ys, start, window) == InSpan(xs, start, window) + InSpan(ys, start, window)
  {
    if xs == [] {
      assert xs + ys == ys;
    } else {
      assert (xs + ys)[1..] == xs[1..] + ys;
      SpanConcat(xs[1..], ys, start, window);
    }
  }

  function PlacesInSpan(hits: Hits, start: int, window: int): set<nat> {
    set i: nat | i < |hits| && start <= hits[i] < start + window
  }

  /** It is the number of places whose hit is in the span. */
  lemma {:induction false} SpanIsCounted(hits: Hits, start: int, window: int)
    ensures InSpan(hits, start, window) == |PlacesInSpan(hits, start, window)|
  {
    if hits != [] {
      var last := |hits| - 1;
      var init := hits[..last];
      assert hits == init + [hits[last]];
      SpanConcat(init, [hits[last]], start, window);
      SpanIsCounted(init, start, window);
      assert PlacesInSpan(hits, start, window)
          == PlacesInSpan(init, start, window) + if start <= hits[last] < start + window then {last} else {};
    }
  }

  lemma {:induction false} SpanAtMostLength(hits: Hits, start: int, window: int)
    ensures InSpan(hits, start, window) <= |hits|
  {
    if hits != [] { SpanAtMostLength(hits[1..], start, window); }
  }

  lemma {:induction false} SpanEmpty(hits: Hits, start: int, window: int)
    requires forall i :: 0 <= i < |hits| ==> hits[i] >= start + window
    ensures InSpan(hits, start, window) == 0
  {
    if hits != [] { SpanEmpty(hits[1..], start, window); }
  }

  // ---------------------------------------------------------------- the invariant

  ghost predicate Tail(xs: Hits, ys: Hits) {
    |xs| <= |ys| && xs == ys[|ys| - |xs|..]
  }

  lemma TailRecent(xs: Hits, ys: Hits, now: int, window: int)
    requires Tail(xs, ys)
    ensures Tail(Recent(xs, now, window), Recent(ys, now, window))
  {
  }

  function LastHit(hits: Hits): int {
    if hits == [] then 0 else hits[|hits| - 1]
  }

  /** Sorted, and not from the future. */
  ghost predicate UpTo(hits: Hits, now: int) {
    Sorted(hits) && (hits != [] ==> LastHit(hits) <= now)
  }

  /** How a stored list stands for the log of its bucket at time `now`: the stored
      hits that still count are the last ones of the log; all of them, unless the
      backstop has dropped buckets. */
  ghost predicate Stands(stored: Hits, log: Hits, now: int, window: int, dropped: bool) {
    && UpTo(stored, now) && UpTo(log, now)
    && Tail(Recent(stored, now, window), Recent(log, now, window))
    && (!dropped ==> Recent(stored, now, window) == Recent(log, now, window))
  }

  lemma StandsLater(stored: Hits, log: Hits, now: int, later: int, window: int, dropped: bool)
    requires now <= later && Stands(stored, log, now, window, dropped)
    ensures Stands(stored, log, later, window, dropped)
  {
    RecentLater(stored, now, later, window);
    RecentLater(log, now, later, window);
    TailRecent(Recent(stored, now, window), Recent(log, now, window), later, window);
  }

  lemma RecentUpTo(hits: Hits, now: int, window: int)
    requires UpTo(hits, now)
    ensures UpTo(Recent(hits, now, window), now)
  {
    var k := RecentIsTail(hits, now, window);
    SuffixUpTo(hits, k, now);
  }

  lemma SuffixUpTo(hits: Hits, k: nat, now: int)
    requires UpTo(hits, now) && k <= |hits|
    ensures UpTo(hits[k..], now)
  {
  }

  /** Filtering the stored list in place does not change what it stands for. */
  lemma StandsFiltered(stored: Hits, log: Hits, now: int, window: int, dropped: bool)
    requires Stands(stored, log, now, window, dropped)
    ensures Stands(Recent(stored, now, window), log, now, window, dropped)
  {
    RecentLater(stored, now, now, window);
    RecentUpTo(stored, now, window);
    var kept, counted := Recent(stored, now, window), Recent(log, now, window);
    StandsIf(kept, log, kept, counted, now, window, dropped);
  }

  lemma StandsIf(stored: Hits, log: Hits, kept: Hits, counted: Hits, now: int, window: int, dropped: bool)
    requires UpTo(stored, now) && UpTo(log, now)
    requires Recent(stored, now, window) == kept && Recent(log, now, window) == counted
    requires Tail(kept, counted) && (!dropped ==> kept == counted)
    ensures Stands(stored, log, now, window, dropped)
  {
  }

  predicate Lapsed(hits: Hits, now: int, window: int) {
    hits == [] || now - LastHit(hits) >= window
  }

  /** A bucket whose last hit has lapsed can go: nothing in it counts any more. */
  lemma LapsedIsEmpty(stored: Hits, now: int, window: int)
    requires Sorted(stored) && Lapsed(stored, now, window)
    ensures Recent(stored, now, window) == []
  {
  }

  /** A bucket stays in the map exactly when some hit in it still counts. */
  lemma KeptCounts(attempts: Buckets, now: int, window: int, b: string)
    requires b in attempts && Sorted(attempts[b])
    ensures b in WithoutLapsed(attempts, now, window) <==> Recent(attempts[b], now, window) != []
  {
    if !Lapsed(attempts[b], now, window) {
      var hits := attempts[b];
      assert hits == hits[..|hits| - 1] + [LastHit(hits)];
      RecentConcat(hits[..|hits| - 1], [LastHit(hits)], now, window);
    } else {
      LapsedIsEmpty(attempts[b], now, window);
    }
  }

  lemma StandsWithout(stored: Hits, log: Hits, now: int, window: int, dropped: bool)
    requires Stands(stored, log, now, window, dropped)
    ensures Stands([], log, now, window, true)
    ensures Recent(stored, now, window) == [] ==> Stands([], log, now, window, dropped)
  {
  }

  lemma UpToAppend(hits: Hits, now: int)
    requires UpTo(hits, now)
    ensures UpTo(hits + [now], now)
  {
  }

  /** Recording an admitted hit on both sides. */
  lemma StandsAdmitted(stored: Hits, log: Hits, now: int, window: int, dropped: bool)
    requires Stands(stored, log, now, window, dropped)
    ensures Stands(stored + [now], log + [now], now, window, dropped)
  {
    UpToAppend(stored, now);
    UpToAppend(log, now);
    RecentConcat(stored, [now], now, window);
    RecentConcat(log, [now], now, window);
    TailAppend(Recent(stored, now, window), Recent(log, now, window), Recent([now], now, window));
  }

  lemma TailAppend(xs: Hits, ys: Hits, zs: Hits)
    requires Tail(xs, ys)
    ensures Tail(xs + zs, ys + zs)
  {
  }

  /** The log keeps its distance when a hit is admitted with fewer than `limit`
      hits in its window. */
  lemma AdmittedSpaced(log: Hits, now: int, limit: int, window: int)
    requires UpTo(log, now) && Spaced(log, limit, window) && |Recent(log, now, window)| < limit
    ensures Spaced(log + [now], limit, window)
  {
    var k := RecentIsTail(log, now, window);
    var more := log + [now];
    forall i, j | 0 <= i < j < |more| && j - i >= limit
      ensures more[j] - more[i] >= window
    {
      if j == |log| {
        assert i < k && log[i] <= log[k - 1];
      }
    }
  }

  // -------------------------------------------------------------------- the map

  type Buckets = map<string, Hits>

  ghost predicate BucketStands(attempts: Buckets, log: Buckets, b: string, now: int, window: int, dropped: bool) {
    Stands(HitsOf(attempts, b), HitsOf(log, b), now, window, dropped)
  }

  /** Every bucket's stored list stands for its log. */
  ghost predicate AllStand(attempts: Buckets, log: Buckets, now: int, window: int, dropped: bool) {
    && attempts.Keys <= log.Keys
    && forall b {:trigger BucketStands(attempts, log, b, now, window, dropped)} ::
         BucketStands(attempts, log, b, now, window, dropped)
  }

  ghost predicate BucketSpaced(log: Buckets, b: string, limit: int, window: int) {
    Spaced(HitsOf(log, b), limit, window)
  }

  ghost predicate AllSpaced(log: Buckets, limit: int, window: int) {
    forall b {:trigger BucketSpaced(log, b, limit, window)} :: BucketSpaced(log, b, limit, window)
  }

  function WithoutLapsed(attempts: Buckets, now: int, window: int): Buckets {
    map b | b in attempts && !Lapsed(attempts[b], now, window) :: attempts[b]
  }

  lemma AllStandLater(attempts: Buckets, log: Buckets, now: int, later: int, window: int, dropped: bool)
    requires now <= later && AllStand(attempts, log, now, window, dropped)
    ensures AllStand(attempts, log, later, window, dropped)
  {
    forall b ensures BucketStands(attempts, log, b, later, window, dropped) {
      assert BucketStands(attempts, log, b, now, window, dropped);
      StandsLater(HitsOf(attempts, b), HitsOf(log, b), now, later, window, dropped);
    }
  }

  lemma AllStandWithoutLapsed(attempts: Buckets, log: Buckets, now: int, window: int, dropped: bool)
    requires AllStand(attempts, log, now, window, dropped)
    ensures AllStand(WithoutLapsed(attempts, now, window), log, now, window, dropped)
  {
    var live := WithoutLapsed(attempts, now, window);
    forall b ensures BucketStands(live, log, b, now, window, dropped) {
      assert BucketStands(attempts, log, b, now, window, dropped);
      var hits := HitsOf(attempts, b);
      if b in attempts && Lapsed(hits, now, window) { LapsedIsEmpty(hits, now, window); }
      StandsWithout(hits, HitsOf(log, b), now, window, dropped);
    }
  }

  /** One bucket's list and log are replaced by a pair that belongs together. */
  lemma AllStandUpdate(attempts: Buckets, log: Buckets, bucket: string, stored: Hits, logged: Hits,
                       now: int, window: int, dropped: bool)
    requires AllStand(attempts, log, now, window, dropped) && Stands(stored, logged, now, window, dropped)
    ensures AllStand(attempts[bucket := stored], log[bucket := logged], now, window, dropped)
  {
    var touched, logs := attempts[bucket := stored], log[bucket := logged];
    forall b ensures BucketStands(touched, logs, b, now, window, dropped) {
      if b == bucket {
        assert HitsOf(touched, b) == stored && HitsOf(logs, b) == logged;
      } else {
        assert BucketStands(attempts, log, b, now, window, dropped);
        assert HitsOf(touched, b) == HitsOf(attempts, b) && HitsOf(logs, b) == HitsOf(log, b);
      }
    }
  }

  lemma AllSpacedUpdate(log: Buckets, bucket: string, logged: Hits, limit: int, window: int)
    requires AllSpaced(log, limit, window) && Spaced(logged, limit, window)
    ensures AllSpaced(log[bucket := logged], limit, window)
  {
    var logs := log[bucket := logged];
    forall b ensures BucketSpaced(logs, b, limit, window) {
      assert BucketSpaced(log, b, limit, window);
      assert b != bucket ==> HitsOf(logs, b) == HitsOf(log, b);
    }
  }

  /** What the log says about a hit: it is over the limit exactly when so many
      admitted hits are still in the window. */
  ghost predicate AnswersLike(over: bool, log: Hits, now: int, limit: int, window: int, dropped: bool) {
    && (over ==> |Recent(log, now, window)| >= limit)
    && (!dropped && |Recent(log, now, window)| >= limit ==> over)
  }

  /** A hit: the list is filtered in place, and extended if there is room. */
  lemma HitStands(attempts: Buckets, log: Buckets, bucket: string, now: int, limit: int, window: int, dropped: bool)
    requires AllStand(attempts, log, now, window, dropped) && (!dropped ==> AllSpaced(log, limit, window))
    ensures var kept := Recent(HitsOf(attempts, bucket), now, window);
            var over := |kept| >= limit;
            var logged := Logged(log, bucket, now, over);
            && AnswersLike(over, HitsOf(log, bucket), now, limit, window, dropped)
            && AllStand(attempts[bucket := if over then kept else kept + [now]], logged, now, window, dropped)
            && (!dropped ==> AllSpaced(logged, limit, window))
  {
    var stored, was := HitsOf(attempts, bucket), HitsOf(log, bucket);
    var kept := Recent(stored, now, window);
    assert BucketStands(attempts, log, bucket, now, window, dropped);
    StandsFiltered(stored, was, now, window, dropped);
    if !dropped { assert BucketSpaced(log, bucket, limit, window); }
    if |kept| >= limit {
      assert was + [] == was;
      AllStandUpdate(attempts, log, bucket, kept, was, now, window, dropped);
      if !dropped { AllSpacedUpdate(log, bucket, was, limit, window); }
    } else {
      StandsAdmitted(kept, was, now, window, dropped);
      AllStandUpdate(attempts, log, bucket, kept + [now], was + [now], now, window, dropped);
      if !dropped {
        AdmittedSpaced(was, now, limit, window);
        AllSpacedUpdate(log, bucket, was + [now], limit, window);
      }
    }
  }

  /** The log after a hit: an admitted one is added to it. */
  function Logged(log: Buckets, bucket: string, now: int, over: bool): Buckets {
    log[bucket := HitsOf(log, bucket) + (if over then [] else [now])]
  }

  ghost predicate SubMap(small: Buckets, large: Buckets) {
    small.Keys <= large.Keys && forall b :: b in small ==> small[b] == large[b]
  }

  lemma AllStandFewer(fewer: Buckets, attempts: Buckets, log: Buckets, now: int, window: int, dropped: bool)
    requires AllStand(attempts, log, now, window, dropped) && SubMap(fewer, attempts)
    ensures AllStand(fewer, log, now, window, true)
  {
    forall b ensures BucketStands(fewer, log, b, now, window, true) {
      assert BucketStands(attempts, log, b, now, window, dropped);
      StandsWithout(HitsOf(attempts, b), HitsOf(log, b), now, window, dropped);
    }
  }

  /** What `sorted(...)[:n]` removes: as many buckets as are too many, and none with
      a younger last hit than a bucket that stays. */
  ghost predicate OldestDropped(before: Buckets, after: Buckets) {
    && SubMap(after, before)
    && (|before| <= MAX_BUCKETS ==> after == before)
    && (|before| > MAX_BUCKETS ==> |after| == MAX_BUCKETS)
    && forall b, c :: b in before && b !in after && c in after ==> LastHit(before[b]) <= LastHit(before[c])
  }

  lemma OneMoreAtMost(attempts: Buckets, bucket: string, hits: Hits)
    ensures |attempts[bucket := hits]| <= |attempts| + 1
  {
    assert attempts[bucket := hits].Keys == attempts.Keys + {bucket};
    assert |attempts[bucket := hits].Keys| == |attempts[bucket := hits]| && |attempts.Keys| == |attempts|;
  }

  class MemoryLimiter {
    var attempts: Buckets
    const window: int
    const limit: int

    ghost var log: Buckets   // every admitted hit, for ever
    ghost var clock: int     // the last reading of the clock
    ghost var dropped: bool  // the backstop has removed live buckets

    ghost predicate Valid()
      reads this
    {
      && AllStand(attempts, log, clock, window, dropped)
      && (!dropped ==> AllSpaced(log, limit, window))
      && |attempts| <= MAX_BUCKETS + 1
    }

    constructor (limit: int, window: int)
      ensures Valid() && this.limit == limit && this.window == window
      ensures attempts == map[] && log == map[] && !dropped
    {
      this.limit, this.window := limit, window;
      attempts, log, dropped := map[], map[], false;
    }

    /** The entry point without a shared store: a limit that is not positive switches
        limiting off, and nothing is recorded; and only the backstop, with too many buckets
        that still count, ever makes answers differ from those of the log. */
    method Hit(bucket: string, now: int) returns (over: bool)
      requires Valid() && now >= clock
      modifies this
      ensures Valid()
      ensures limit <= 0 ==>
                !over && attempts == old(attempts) && log == old(log) && clock == old(clock) && dropped == old(dropped)
      ensures limit > 0 ==>
                && clock == now
                && (dropped <==> old(dropped) || |WithoutLapsed(old(attempts), now, window)| > MAX_BUCKETS)
                && AnswersLike(over, HitsOf(old(log), bucket), now, limit, window, dropped)
                && log == Logged(old(log), bucket, now, over)
    {
      if limit <= 0 { return false; }
      over := MemoryHit(bucket, now);
    }

    /** One hit. The answer says whether the bucket is over its limit. As long as
        the backstop has not fired, it is the answer that the full log gives; after
        that, a hit may be admitted that the log would refuse, never the reverse. */
    method MemoryHit(bucket: string, now: int) returns (over: bool)
      requires Valid() && now >= clock
      modifies this
      ensures Valid() && clock == now
      ensures dropped <==> old(dropped) || |WithoutLapsed(old(attempts), now, window)| > MAX_BUCKETS
      ensures AnswersLike(over, HitsOf(old(log), bucket), now, limit, window, dropped)
      ensures log == Logged(old(log), bucket, now, over)
      ensures bucket in attempts && (!over ==> LastHit(attempts[bucket]) == now)
    {
      EvictStale(now);
      over := Touch(bucket, now);
    }

    /** The bucket's list is filtered in place, and extended if there is room. */
    method Touch(bucket: string, now: int) returns (over: bool)
      requires Valid() && clock == now && |attempts| <= MAX_BUCKETS
      modifies this`attempts, this`log
      ensures Valid() && log == Logged(old(log), bucket, now, over)
      ensures AnswersLike(over, HitsOf(old(log), bucket), now, limit, window, dropped)
      ensures bucket in attempts && (!over ==> LastHit(attempts[bucket]) == now)
    {
      HitStands(attempts, log, bucket, now, limit, window, dropped);
      var hits := Filtered(HitsOf(attempts, bucket), now);
      over := |hits| >= limit;
      if !over { hits := hits + [now]; }
      OneMoreAtMost(attempts, bucket, hits);
      attempts := attempts[bucket := hits];
      log := Logged(log, bucket, now, over);
    }

    /** The list comprehension over a bucket's hits. */
    method Filtered(hits: Hits, now: int) returns (kept: Hits)
      ensures kept == Recent(hits, now, window)
    {
      kept := [];
      var i := 0;
      while i < |hits|
        invariant i <= |hits| && kept == Recent(hits[..i], now, window)
      {
        assert hits[..i + 1] == hits[..i] + [hits[i]];
        RecentConcat(hits[..i], [hits[i]], now, window);
        if now - hits[i] < window { kept := kept + [hits[i]]; }
        i := i + 1;
      }
      assert hits[..i] == hits;
    }

    /** Drops lapsed buckets, and the oldest ones while there are too many. */
    method EvictStale(now: int)
      requires Valid() && now >= clock
      modifies this`attempts, this`clock, this`dropped
      ensures Valid() && clock == now && |attempts| <= MAX_BUCKETS
      ensures OldestDropped(WithoutLapsed(old(attempts), now, window), attempts)
      ensures dropped <==> old(dropped) || |WithoutLapsed(old(attempts), now, window)| > MAX_BUCKETS
    {
      AllStandLater(attempts, log, clock, now, window, dropped);
      clock := now;
      AllStandWithoutLapsed(attempts, log, now, window, dropped);
      DropLapsed(now);
      ghost var live := attempts;
      DropOldest();
      if |live| > MAX_BUCKETS {
        AllStandFewer(attempts, live, log, now, window, dropped);
        dropped := true;
      }
    }

    method DropLapsed(now: int)
      modifies this`attempts
      ensures attempts == WithoutLapsed(old(attempts), now, window)
    {
      ghost var before := attempts;
      var keys := attempts.Keys;
      while keys != {}
        invariant keys <= attempts.Keys && SubMap(attempts, before)
        invariant forall b :: b in before && b !in keys ==> (b in attempts <==> !Lapsed(before[b], now, window))
        decreases keys
      {
        var key :| key in keys;
        keys := keys - {key};
        if Lapsed(attempts[key], now, window) { Remove(key); }
      }
    }

    method DropOldest()
      modifies this`attempts
      ensures OldestDropped(old(attempts), attempts)
    {
      ghost var before := attempts;
      while |attempts| > MAX_BUCKETS
        invariant SubMap(attempts, before)
        invariant |before| <= MAX_BUCKETS ==> attempts == before
        invariant |before| > MAX_BUCKETS ==> |attempts| >= MAX_BUCKETS
        invariant forall b, c :: b in before && b !in attempts && c in attempts ==>
                    LastHit(before[b]) <= LastHit(before[c])
        decreases |attempts|
      {
        var key := OldestBucket();
        Remove(key);
      }
    }

    method Remove(key: string)
      requires key in attempts
      modifies this`attempts
      ensures attempts == old(attempts) - {key} && |attempts| == |old(attempts)| - 1
    {
      ghost var rest := attempts - {key};
      assert rest.Keys == attempts.Keys - {key};
      assert |rest.Keys| == |attempts.Keys| - 1;
      attempts := map b | b in attempts && b != key :: attempts[b];
      assert attempts == rest;
    }

    /** The bucket whose last hit is the oldest. */
    method OldestBucket() returns (key: string)
      requires attempts != map[]
      ensures key in attempts
      ensures forall b :: b in attempts ==> LastHit(attempts[key]) <= LastHit(attempts[b])
    {
      key :| key in attempts;
      var todo := attempts.Keys - {key};
      while todo != {}
        invariant todo <= attempts.Keys && key in attempts
        invariant forall b :: b in attempts && b !in todo ==> LastHit(attempts[key]) <= LastHit(attempts[b])
        decreases todo
      {
        var b :| b in todo;
        if LastHit(attempts[b]) < LastHit(attempts[key]) { key := b; }
        todo := todo - {b};
      }
    }
  }

  /** Until the backstop fires, no span of the length of a window holds more than
      `limit` admitted hits of a bucket. */
  lemma NoSpanOverLimit(limiter: MemoryLimiter, bucket: string, start: int)
    requires limiter.Valid() && !limiter.dropped && limiter.limit >= 1
    ensures |PlacesInSpan(HitsOf(limiter.log, bucket), start, limiter.window)| <= limiter.limit
  {
    SpanIsCounted(HitsOf(limiter.log, bucket), start, limiter.window);
    assert BucketStands(limiter.attempts, limiter.log, bucket, limiter.clock, limiter.window, false);
    assert BucketSpaced(limiter.log, bucket, limiter.limit, limiter.window);
    SpacedSpan(HitsOf(limiter.log, bucket), limiter.limit, start, limiter.window);
  }
}
