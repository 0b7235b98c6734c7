/** The notification rate limiter: a token bucket in a Lua script, kept under a key that expires (ratelimit.go). */
module RateLimit {
  import opened Common

  datatype Bucket = Bucket(tokens: int, lastRefill: int)

  /** A bucket under a key with its expiry time, in seconds like everything here. */
  datatype Stored = Stored(bucket: Bucket, expiresAt: int)

  /** What HMGET finds at `now`: nothing once the key has expired. */
  function Found(e: Option<Stored>, now: int): Option<Bucket> {
    if e.Some? && now < e.value.expiresAt then Some(e.value.bucket) else None
  }

  /** The bucket after the script's refill rule. */
  function Refilled(b: Option<Bucket>, max: int, window: int, now: int): Bucket {
    if b.None? || now - b.value.lastRefill >= window then Bucket(max, now) else b.value
  }

  /** Key of a contact's bucket. */
  function Key(tenantId: string, userId: string, channel: string): string {
    "oncall:ratelimit:notif:" + tenantId + ":" + userId + ":" + channel
  }

  /** What a key holds behind the tenant. */
  function Tail(userId: string, channel: string): string { userId + [':'] + channel }

  lemma KeyParts(tenantId: string, userId: string, channel: string)
    ensures Key(tenantId, userId, channel)[23..] == tenantId + [':'] + Tail(userId, channel)
  {
    assert Key(tenantId, userId, channel) == "oncall:ratelimit:notif:" + (tenantId + [':'] + Tail(userId, channel));
  }

  /** Tenants and users without colons have a bucket of their own for each channel. */
  lemma KeyExact(tenantId: string, userId: string, channel: string, tenantId': string, userId': string, channel': string)
    requires ':' !in tenantId && ':' !in userId && ':' !in tenantId' && ':' !in userId'
    ensures Key(tenantId, userId, channel) == Key(tenantId', userId', channel')
            <==> tenantId == tenantId' && userId == userId' && channel == channel'
  {
    KeyParts(tenantId, userId, channel);
    KeyParts(tenantId', userId', channel');
    if Key(tenantId, userId, channel) == Key(tenantId', userId', channel') {
      SplitsOnce(tenantId, Tail(userId, channel), tenantId', Tail(userId', channel'), ':');
      SplitsOnce(userId, channel, userId', channel', ':');
    }
  }

  /** A colon moved from the tenant to the user does not show in the key. */
  lemma KeyCollision(tenantId: string, x: string, userId: string, channel: string)
    ensures Key(tenantId + ":" + x, userId, channel) == Key(tenantId, x + ":" + userId, channel)
  {
    var a, b := tenantId + ":" + x, x + ":" + userId;
    assert a + ":" + userId == tenantId + ":" + b;
    assert Key(a, userId, channel) == "oncall:ratelimit:notif:" + (a + ":" + userId) + ":" + channel;
    assert Key(tenantId, b, channel) == "oncall:ratelimit:notif:" + (tenantId + ":" + b) + ":" + channel;
  }

  class Limiter {
    const max: int
    const window: int
    var entries: map<string, Stored>

    constructor (max: int, window: int)
      ensures this.max == max && this.window == window && entries == map[]
    {
      this.max := max;
      this.window := window;
      entries := map[];
    }

    function Entry(key: string): Option<Stored>
      reads this`entries
    {
      if key in entries then Some(entries[key]) else None
    }

    /** Allow: one run of the script. A non-positive expiry deletes the key. */
    method Allow(tenantId: string, userId: string, channel: string, now: int) returns (allowed: bool)
      modifies this`entries
      ensures allowed == AllowedNow(Found(old(Entry(Key(tenantId, userId, channel))), now), max, window, now)
      ensures Entry(Key(tenantId, userId, channel)) == AfterCall(old(Entry(Key(tenantId, userId, channel))), max, window, now)
      ensures forall key | key != Key(tenantId, userId, channel) :: Entry(key) == old(Entry(key))
      ensures var key := "oncall:ratelimit:notif:" + tenantId + ":" + userId + ":" + channel;
              var full := key !in old(entries) || old(entries)[key].expiresAt <= now
                          || now - old(entries)[key].bucket.lastRefill >= window;
              var tokens := if full then max else old(entries)[key].bucket.tokens;
              var refill := if full then now else old(entries)[key].bucket.lastRefill;
              && (allowed <==> tokens > 0)
              && entries == if !allowed then old(entries)
                            else if window <= 0 then old(entries) - {key}
                            else old(entries)[key := Stored(Bucket(tokens - 1, refill), now + 2 * window)]
    {
      var key := Key(tenantId, userId, channel);
      var found := Found(Entry(key), now);
      var tokens, lastRefill;
      if found.None? {
        tokens, lastRefill := max, now;
      } else {
        tokens, lastRefill := found.value.tokens, found.value.lastRefill;
        if now - lastRefill >= window {
          tokens, lastRefill := max, now;
        }
      }
      if tokens > 0 {
        tokens := tokens - 1;
        if window * 2 > 0 {
          entries := entries[key := Stored(Bucket(tokens, lastRefill), now + window * 2)];
        } else {
          entries := entries - {key};
        }
        return true;
      }
      return false;
    }
  }

  function AllowedNow(b: Option<Bucket>, max: int, window: int, now: int): bool {
    Refilled(b, max, window, now).tokens > 0
  }

  /** The entry a call leaves behind: rewritten when it sends, untouched when it does not. */
  function AfterCall(e: Option<Stored>, max: int, window: int, now: int): Option<Stored> {
    var b := Refilled(Found(e, now), max, window, now);
    if b.tokens <= 0 then e
    else if window <= 0 then None
    else Some(Stored(b.(tokens := b.tokens - 1), now + 2 * window))
  }

  ghost predicate Nondecreasing(times: seq<int>) { forall i, j | 0 <= i < j < |times| :: times[i] <= times[j] }

  /** The answers to a sequence of calls on one key. */
  function Answers(e: Option<Stored>, max: int, window: int, times: seq<int>): seq<bool>
    decreases |times|
  {
    if times == [] then []
    else [AllowedNow(Found(e, times[0]), max, window, times[0])]
         + Answers(AfterCall(e, max, window, times[0]), max, window, times[1..])
  }

  // ---- A bucket that never expires ----

  function Take(b: Option<Bucket>, max: int, window: int, now: int): Option<Bucket> {
    var r := Refilled(b, max, window, now);
    if r.tokens > 0 then Some(r.(tokens := r.tokens - 1)) else b
  }

  function AnswersForever(b: Option<Bucket>, max: int, window: int, times: seq<int>): seq<bool>
    decreases |times|
  {
    if times == [] then []
    else [AllowedNow(b, max, window, times[0])] + AnswersForever(Take(b, max, window, times[0]), max, window, times[1..])
  }

  /** Same bucket, and its key outlives the refill period. */
  ghost predicate SameBucket(e: Option<Stored>, b: Option<Bucket>, window: int) {
    if e.None? then b.None?
    else b == Some(e.value.bucket) && e.value.bucket.lastRefill + window <= e.value.expiresAt
  }

  /** The refill time of a bucket never lies ahead of the clock. */
  ghost predicate RefilledBefore(e: Option<Stored>, times: seq<int>) {
    e.Some? && times != [] ==> e.value.bucket.lastRefill <= times[0]
  }

  /** Key expiry is invisible: a key can only vanish when the bucket would be refilled anyway. */
  lemma {:induction false} ExpiryInvisible(e: Option<Stored>, b: Option<Bucket>, max: int, window: int, times: seq<int>)
    requires window > 0 && SameBucket(e, b, window) && Nondecreasing(times) && RefilledBefore(e, times)
    ensures Answers(e, max, window, times) == AnswersForever(b, max, window, times)
    decreases |times|
  {
    if times != [] {
      var now := times[0];
      assert Refilled(Found(e, now), max, window, now) == Refilled(b, max, window, now);
      assert times[1..] != [] ==> now <= times[1];
      ExpiryInvisible(AfterCall(e, max, window, now), Take(b, max, window, now), max, window, times[1..]);
    }
  }

  // ---- How many sends a window can hold ----

  /** Sends at instants of [lo, hi). */
  function Sends(b: Option<Bucket>, max: int, window: int, times: seq<int>, lo: int, hi: int): nat
    decreases |times|
  {
    if times == [] then 0
    else (if AllowedNow(b, max, window, times[0]) && lo <= times[0] < hi then 1 else 0)
         + Sends(Take(b, max, window, times[0]), max, window, times[1..], lo, hi)
  }

  lemma {:induction false} NoSendsLater(b: Option<Bucket>, max: int, window: int, times: seq<int>, lo: int, hi: int)
    requires Nondecreasing(times) && (times != [] ==> hi <= times[0])
    ensures Sends(b, max, window, times, lo, hi) == 0
    decreases |times|
  {
    if times != [] {
      assert times[1..] != [] ==> times[0] <= times[1];
      NoSendsLater(Take(b, max, window, times[0]), max, window, times[1..], lo, hi);
    }
  }

  /** Up to the end of the refill period only the bucket's tokens can be spent. */
  lemma {:induction false} SendsOfOnePeriod(b: Bucket, max: int, window: int, times: seq<int>, lo: int, hi: int)
    requires Nondecreasing(times) && 0 <= b.tokens && hi <= b.lastRefill + window
    ensures Sends(Some(b), max, window, times, lo, hi) <= b.tokens
    decreases |times|
  {
    if times != [] {
      if hi <= times[0] {
        NoSendsLater(Some(b), max, window, times, lo, hi);
      } else if b.tokens > 0 {
        SendsOfOnePeriod(b.(tokens := b.tokens - 1), max, window, times[1..], lo, hi);
      } else {
        SendsOfOnePeriod(b, max, window, times[1..], lo, hi);
      }
    }
  }

  /** Up to the end of the next period one refill at most is added. */
  lemma {:induction false} SendsOfTwoPeriods(b: Bucket, max: int, window: int, times: seq<int>, lo: int, hi: int)
    requires Nondecreasing(times) && 0 <= b.tokens && max > 0 && window > 0 && hi <= b.lastRefill + 2 * window
    ensures Sends(Some(b), max, window, times, lo, hi) <= b.tokens + max
    decreases |times|
  {
    if times != [] {
      var now := times[0];
      if hi <= now {
        NoSendsLater(Some(b), max, window, times, lo, hi);
      } else if now - b.lastRefill >= window {
        SendsOfOnePeriod(Bucket(max - 1, now), max, window, times[1..], lo, hi);
      } else if b.tokens > 0 {
        SendsOfTwoPeriods(b.(tokens := b.tokens - 1), max, window, times[1..], lo, hi);
      } else {
        SendsOfTwoPeriods(b, max, window, times[1..], lo, hi);
      }
    }
  }

  /** Token counts of stored buckets: the send that created or refilled one has already taken a token. */
  predicate WithinBounds(b: Option<Bucket>, max: int) { b.Some? ==> 0 <= b.value.tokens < max }

  /** The entry after a sequence of calls. */
  function AfterCalls(e: Option<Stored>, max: int, window: int, times: seq<int>): Option<Stored>
    decreases |times|
  {
    if times == [] then e else AfterCalls(AfterCall(e, max, window, times[0]), max, window, times[1..])
  }

  /** Whatever the clock does, a stored bucket holds at least no tokens and less than the allowance. */
  lemma {:induction false} TokensWithinAllowance(e: Option<Stored>, max: int, window: int, times: seq<int>)
    requires e.Some? ==> 0 <= e.value.bucket.tokens < max
    ensures var after := AfterCalls(e, max, window, times); after.Some? ==> 0 <= after.value.bucket.tokens < max
    decreases |times|
  {
    if times != [] {
      TokensWithinAllowance(AfterCall(e, max, window, times[0]), max, window, times[1..]);
    }
  }

  /** Any half-open interval of one window's length holds at most 2 * max - 1 sends, for every call history. */
  lemma {:induction false} WindowBound(b: Option<Bucket>, max: int, window: int, times: seq<int>, x: int)
    requires max > 0 && window > 0 && Nondecreasing(times) && WithinBounds(b, max)
    ensures Sends(b, max, window, times, x, x + window) <= 2 * max - 1
    decreases |times|
  {
    if times != [] {
      var now := times[0];
      if now < x {
        WindowBound(Take(b, max, window, now), max, window, times[1..], x);
      } else if b.None? || now - b.value.lastRefill >= window {
        SendsOfOnePeriod(Bucket(max - 1, now), max, window, times[1..], x, x + window);
      } else {
        SendsOfTwoPeriods(b.value, max, window, times, x, x + window);
      }
    }
  }

  /** In a single second at most the allowance is sent, whatever the window. */
  lemma {:induction false} OneSecondBound(b: Option<Bucket>, max: int, window: int, times: seq<int>, x: int)
    requires max > 0 && window > 0 && Nondecreasing(times) && WithinBounds(b, max)
    ensures Sends(b, max, window, times, x, x + 1) <= max
    decreases |times|
  {
    if times != [] {
      var now := times[0];
      if now < x {
        OneSecondBound(Take(b, max, window, now), max, window, times[1..], x);
      } else if x < now {
        NoSendsLater(b, max, window, times, x, x + 1);
      } else if b.None? || now - b.value.lastRefill >= window {
        SendsOfOnePeriod(Bucket(max - 1, now), max, window, times[1..], x, x + 1);
      } else {
        SendsOfOnePeriod(b.value, max, window, times, x, x + 1);
      }
    }
  }

  /** Positive answers among the calls of [lo, hi). */
  function CountSent(answers: seq<bool>, times: seq<int>, lo: int, hi: int): nat
    requires |answers| == |times|
  {
    if times == [] then 0
    else (if answers[0] && lo <= times[0] < hi then 1 else 0) + CountSent(answers[1..], times[1..], lo, hi)
  }

  lemma {:induction false} SendsAreAnswers(b: Option<Bucket>, max: int, window: int, times: seq<int>, lo: int, hi: int)
    ensures |AnswersForever(b, max, window, times)| == |times|
    ensures CountSent(AnswersForever(b, max, window, times), times, lo, hi) == Sends(b, max, window, times, lo, hi)
    decreases |times|
  {
    if times != [] {
      SendsAreAnswers(Take(b, max, window, times[0]), max, window, times[1..], lo, hi);
    }
  }

  /** The limiter as deployed, with expiring keys and a fresh contact: at most 2 * max - 1 sends in any window's length. */
  lemma LimiterBound(max: int, window: int, times: seq<int>, x: int)
    requires max > 0 && window > 0 && Nondecreasing(times)
    ensures |Answers(None, max, window, times)| == |times|
    ensures CountSent(Answers(None, max, window, times), times, x, x + window) <= 2 * max - 1
  {
    ExpiryInvisible(None, None, max, window, times);
    SendsAreAnswers(None, max, window, times, x, x + window);
    WindowBound(None, max, window, times, x);
  }

  /** With no allowance nothing is ever sent. */
  lemma {:induction false} NoAllowance(b: Option<Bucket>, max: int, window: int, times: seq<int>, x: int)
    requires max <= 0 && (b.Some? ==> b.value.tokens <= 0)
    ensures Sends(b, max, window, times, x, x + window) == 0
    decreases |times|
  {
    if times != [] {
      NoAllowance(Take(b, max, window, times[0]), max, window, times[1..], x);
    }
  }

  function Repeat(t: int, n: nat): seq<int> { seq(n, _ => t) }

  /** Calls at one instant spend the tokens one by one. */
  lemma {:induction false} SpendAll(b: Bucket, max: int, window: int, t: int, n: nat, rest: seq<int>, lo: int, hi: int)
    requires n <= b.tokens && t - b.lastRefill < window && lo <= t < hi
    ensures Sends(Some(b), max, window, Repeat(t, n) + rest, lo, hi)
         == n + Sends(Some(b.(tokens := b.tokens - n)), max, window, rest, lo, hi)
    decreases n
  {
    var calls := Repeat(t, n) + rest;
    if n == 0 {
      assert calls == rest;
    } else {
      assert calls[0] == t && calls[1..] == Repeat(t, n - 1) + rest;
      SpendAll(b.(tokens := b.tokens - 1), max, window, t, n - 1, rest, lo, hi);
    }
  }

  /** A full bucket's worth of calls at the instant of a refill. */
  function FullBurst(max: int, window: int): seq<int>
    requires max > 0
  {
    [window] + (Repeat(window, max - 1) + [])
  }

  lemma BurstAfterRefill(max: int, window: int)
    requires max > 0 && window > 1
    ensures Sends(Some(Bucket(0, 0)), max, window, FullBurst(max, window), 1, 1 + window) == max
  {
    var calls := FullBurst(max, window);
    assert calls[0] == window && calls[1..] == Repeat(window, max - 1) + [];
    SpendAll(Bucket(max - 1, window), max, window, window, max - 1, [], 1, 1 + window);
  }

  lemma FirstCallUncounted(max: int, window: int, times: seq<int>)
    requires max > 0 && times != [] && times[0] == 0
    ensures Sends(None, max, window, times, 1, 1 + window) == Sends(Some(Bucket(max - 1, 0)), max, window, times[1..], 1, 1 + window)
  {
  }

  /** One early call, the rest of the allowance at the end of the window, and a full burst at the refill. */
  function LateThenFull(max: int, window: int): seq<int>
    requires max > 0
  {
    [0] + (Repeat(window - 1, max - 1) + FullBurst(max, window))
  }

  lemma LateThenFullInOrder(max: int, window: int)
    requires max > 0 && window > 1
    ensures Nondecreasing(LateThenFull(max, window))
  {
    var times := LateThenFull(max, window);
    forall i | 0 <= i < |times| ensures times[i] == if i == 0 then 0 else if i < max then window - 1 else window {
    }
  }

  /** The bound is reached: for every allowance and every window of at least two seconds. */
  lemma BoundReached(max: int, window: int) returns (times: seq<int>)
    requires max > 0 && window > 1
    ensures Nondecreasing(times)
    ensures Sends(None, max, window, times, 1, 1 + window) == 2 * max - 1
  {
    times := LateThenFull(max, window);
    LateThenFullInOrder(max, window);
    FirstCallUncounted(max, window, times);
    assert times[1..] == Repeat(window - 1, max - 1) + FullBurst(max, window);
    SpendAll(Bucket(max - 1, 0), max, window, window - 1, max - 1, FullBurst(max, window), 1, 1 + window);
    BurstAfterRefill(max, window);
  }
}
