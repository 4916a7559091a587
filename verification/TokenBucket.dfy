/** The token bucket of the rate limiter, with the expiry of its keys. */
module TokenBucket {

  datatype Option<+T> = None | Some(value: T)

  /** The hash stored under a key. It expires `LIFETIME` seconds after it was written. */
  datatype Bucket = Bucket(tokens: real, lastRefill: real)

  datatype Request = Request(now: real, tokens: real)

  /** The limiter's parameters. `expires` is false for a store that never drops a key. */
  datatype Limits = Limits(capacity: real, rate: real, expires: bool)

  const LIFETIME: real := 60.0

  /** The configured limiter. */
  const CONFIGURED := Limits(10.0, 0.5, true)

  /** The tokens that come in over some time. */
  function Earned(rate: real, time: real): real {
    time * rate
  }

  predicate Sensible(c: Limits) {
    c.capacity >= 0.0 && c.rate >= 0.0
  }

  /** A bucket refills within the lifetime of its key. */
  predicate RefillsInTime(c: Limits) {
    Earned(c.rate, LIFETIME) >= c.capacity
  }

  /** What hgetall finds. */
  function Found(c: Limits, b: Option<Bucket>, now: real): Option<Bucket> {
    if c.expires && b.Some? && now > b.value.lastRefill + LIFETIME then None else b
  }

  /** The tokens there are now. */
  function Level(c: Limits, b: Option<Bucket>, now: real): real {
    var tokens := if b.Some? then b.value.tokens else c.capacity;
    var last := if b.Some? then b.value.lastRefill else now;
    var delta := if now > last then now - last else 0.0;
    var level := tokens + Earned(c.rate, delta);
    if level < c.capacity then level else c.capacity
  }

  predicate Grants(c: Limits, b: Option<Bucket>, r: Request) {
    Level(c, Found(c, b, r.now), r.now) >= r.tokens
  }

  function After(c: Limits, b: Option<Bucket>, r: Request): Option<Bucket> {
    if Grants(c, b, r) then Some(Bucket(Level(c, Found(c, b, r.now), r.now) - r.tokens, r.now)) else b
  }

  /** The limiter of one store, for any number of keys. */
  class TokenBucketRateLimiter {
    const limits: Limits
    var store: map<string, Bucket>

    constructor (limits: Limits)
      ensures this.limits == limits && store == map[]
    {
      this.limits, store := limits, map[];
    }

    function Stored(key: string): Option<Bucket>
      reads this
    {
      if key in store then Some(store[key]) else None
    }

    /** consume: the script, run atomically. A denied request writes nothing. */
    method Consume(key: string, r: Request) returns (granted: bool)
      modifies this
      ensures granted == Grants(limits, old(Stored(key)), r)
      ensures Stored(key) == After(limits, old(Stored(key)), r)
      ensures !granted ==> store == old(store)
      ensures forall k :: k != key ==> Stored(k) == old(Stored(k))
    {
      var bucket := Found(limits, Stored(key), r.now);
      var lastTokens, lastRefill := limits.capacity, r.now;
      if bucket.Some? {
        lastTokens := bucket.value.tokens;
        lastRefill := bucket.value.lastRefill;
      }
      var delta := if r.now - lastRefill > 0.0 then r.now - lastRefill else 0.0;
      var current := lastTokens + delta * limits.rate;
      if current > limits.capacity {
        current := limits.capacity;
      }
      granted := current >= r.tokens;
      if granted {
        store := store[key := Bucket(current - r.tokens, r.now)];
      }
    }
  }

  // ---- runs of one key ----

  /** Requests with a clock that does not go back. */
  ghost predicate Timely(rs: seq<Request>) {
    && (forall i :: 0 <= i < |rs| ==> rs[i].tokens >= 0.0)
    && forall i, j :: 0 <= i <= j < |rs| ==> rs[i].now <= rs[j].now
  }

  /** The bucket after the first `n` requests. */
  function BucketAfter(c: Limits, rs: seq<Request>, n: nat): Option<Bucket>
    requires n <= |rs|
  {
    if n == 0 then None else After(c, BucketAfter(c, rs, n - 1), rs[n - 1])
  }

  /** The tokens granted by requests `i` to `n`. */
  function Granted(c: Limits, rs: seq<Request>, i: nat, n: nat): real
    requires i <= n <= |rs|
  {
    if i == n then 0.0
    else Granted(c, rs, i, n - 1) + if Grants(c, BucketAfter(c, rs, n - 1), rs[n - 1]) then rs[n - 1].tokens else 0.0
  }

  ghost predicate BucketOk(c: Limits, b: Option<Bucket>, now: real) {
    b.Some? ==> 0.0 <= b.value.tokens <= c.capacity && b.value.lastRefill <= now
  }

  lemma EarnedIs(rate: real, time: real)
    ensures Earned(rate, time) == rate * time
  {}

  lemma EarnedPositive(rate: real, time: real)
    requires rate >= 0.0 && time >= 0.0
    ensures Earned(rate, time) >= 0.0
    ensures rate > 0.0 && time > 0.0 ==> Earned(rate, time) > 0.0
  {}

  lemma EarnedAdds(rate: real, t: real, u: real)
    ensures Earned(rate, t + u) == Earned(rate, t) + Earned(rate, u)
  {}

  lemma EarnedNothing(rate: real)
    ensures Earned(rate, 0.0) == 0.0
  {}

  lemma EarnedFull(rate: real, capacity: real)
    requires rate > 0.0
    ensures Earned(rate, capacity / rate) == capacity
  {
    var full := capacity / rate;
    assert full * rate == capacity;
  }

  lemma LevelInRange(c: Limits, b: Option<Bucket>, now: real)
    requires Sensible(c) && BucketOk(c, b, now)
    ensures 0.0 <= Level(c, b, now) <= c.capacity
  {
    hide Earned;
    EarnedNothing(c.rate);
    if b.Some? {
      EarnedPositive(c.rate, now - b.value.lastRefill);
    }
  }

  /** The stored level is always between zero and the capacity. */
  lemma {:induction false} StoredLevelInRange(c: Limits, rs: seq<Request>, n: nat)
    requires Sensible(c) && Timely(rs) && n <= |rs|
    ensures n > 0 ==> BucketOk(c, BucketAfter(c, rs, n), rs[n - 1].now)
    ensures n == 0 ==> BucketAfter(c, rs, n) == None
  {
    hide Level;
    if n > 0 {
      StoredLevelInRange(c, rs, n - 1);
      var b, r := BucketAfter(c, rs, n - 1), rs[n - 1];
      assert BucketOk(c, b, r.now);
      LevelInRange(c, Found(c, b, r.now), r.now);
    }
  }

  // ---- expiry ----

  lemma Enough(rate: real, capacity: real, time: real)
    requires rate >= 0.0 && time > LIFETIME && Earned(rate, LIFETIME) >= capacity
    ensures Earned(rate, time) >= capacity
  {
    hide Earned;
    EarnedPositive(rate, time - LIFETIME);
    EarnedAdds(rate, LIFETIME, time - LIFETIME);
    assert LIFETIME + (time - LIFETIME) == time;
  }

  /** A key that refills within its lifetime may as well be dropped when that is over. */
  lemma ExpiredIsFull(c: Limits, b: Option<Bucket>, now: real)
    requires Sensible(c) && RefillsInTime(c) && BucketOk(c, b, now)
    ensures Level(c, Found(c, b, now), now) == Level(c, b, now)
  {
    hide Earned;
    EarnedNothing(c.rate);
    if c.expires && b.Some? && now > b.value.lastRefill + LIFETIME {
      Enough(c.rate, c.capacity, now - b.value.lastRefill);
    }
  }

  lemma {:induction false} ExpiryChangesNothing(c: Limits, rs: seq<Request>, n: nat)
    requires Sensible(c) && RefillsInTime(c) && Timely(rs) && n <= |rs|
    ensures BucketAfter(c, rs, n) == BucketAfter(c.(expires := false), rs, n)
    ensures n < |rs| ==>
              (Grants(c, BucketAfter(c, rs, n), rs[n]) <==>
               Grants(c.(expires := false), BucketAfter(c.(expires := false), rs, n), rs[n]))
  {
    hide Level;
    SameLevel(c);
    if n > 0 {
      ExpiryChangesNothing(c, rs, n - 1);
    }
    StoredLevelInRange(c, rs, n);
    if n < |rs| {
      ExpiredIsFull(c, BucketAfter(c, rs, n), rs[n].now);
    }
    if n > 0 {
      StoredLevelInRange(c, rs, n - 1);
      ExpiredIsFull(c, BucketAfter(c, rs, n - 1), rs[n - 1].now);
    }
  }

  lemma SameLevel(c: Limits)
    ensures forall b, now :: Level(c.(expires := false), b, now) == Level(c, b, now)
  {}

  /** Two requests for the whole capacity, a little more than the lifetime apart, but less than refilling takes. */
  function TooSoon(c: Limits): seq<Request> {
    var wait := if c.rate > 0.0 then (LIFETIME + c.capacity / c.rate) / 2.0 else LIFETIME + 1.0;
    [Request(0.0, c.capacity), Request(wait, c.capacity)]
  }

  lemma Half(x: real, y: real)
    requires x < y
    ensures x < (x + y) / 2.0 < y
  {}

  lemma WaitIsBetween(c: Limits)
    requires Sensible(c) && !RefillsInTime(c)
    ensures var wait := TooSoon(c)[1].now; wait > LIFETIME && Earned(c.rate, wait) < c.capacity
  {
    hide Earned;
    if c.rate > 0.0 {
      var full := c.capacity / c.rate;
      EarnedFull(c.rate, c.capacity);
      MoreEarned(c.rate, full, LIFETIME);
      Half(LIFETIME, full);
      MoreEarned(c.rate, (LIFETIME + full) / 2.0, full);
    } else {
      EarnedByNone(c.rate, LIFETIME);
      EarnedByNone(c.rate, LIFETIME + 1.0);
    }
  }

  lemma MoreEarned(rate: real, t: real, u: real)
    requires rate > 0.0
    ensures t <= u ==> Earned(rate, t) <= Earned(rate, u)
    ensures t < u ==> Earned(rate, t) < Earned(rate, u)
  {
    hide Earned;
    if t <= u {
      EarnedPositive(rate, u - t);
      EarnedAdds(rate, t, u - t);
      assert t + (u - t) == u;
    }
  }

  lemma EarnedByNone(rate: real, time: real)
    requires rate == 0.0
    ensures Earned(rate, time) == 0.0
  {}

  /** The limiter decides every request as it would if keys did not expire. */
  ghost predicate SameDecisions(c: Limits, rs: seq<Request>) {
    forall n: nat :: n < |rs| ==>
      (Grants(c, BucketAfter(c, rs, n), rs[n]) <==>
       Grants(c.(expires := false), BucketAfter(c.(expires := false), rs, n), rs[n]))
  }

  /** The script decides the two requests of TooSoon differently with and without expiry. */
  lemma TooSoonDiffers(c: Limits)
    requires Sensible(c) && !RefillsInTime(c) && c.expires
    ensures Timely(TooSoon(c)) && !SameDecisions(c, TooSoon(c))
    ensures Granted(c, TooSoon(c), 0, 2) == c.capacity + c.capacity
  {
    hide Earned;
    var rs, never := TooSoon(c), c.(expires := false);
    WaitIsBetween(c);
    EarnedNothing(c.rate);
    FirstIsGranted(c, rs);
    FirstIsGranted(never, rs);
    assert Grants(c, BucketAfter(c, rs, 1), rs[1]);
    assert !Grants(never, BucketAfter(never, rs, 1), rs[1]);
    GrantedTwo(c, rs);
  }

  lemma FirstIsGranted(c: Limits, rs: seq<Request>)
    requires Sensible(c) && |rs| == 2 && rs[0] == Request(0.0, c.capacity)
    ensures Grants(c, BucketAfter(c, rs, 0), rs[0]) && BucketAfter(c, rs, 1) == Some(Bucket(0.0, 0.0))
  {
    hide Earned;
    EarnedNothing(c.rate);
  }

  lemma GrantedTwo(c: Limits, rs: seq<Request>)
    requires |rs| == 2 && Grants(c, BucketAfter(c, rs, 0), rs[0]) && Grants(c, BucketAfter(c, rs, 1), rs[1])
    ensures Granted(c, rs, 0, 2) == rs[0].tokens + rs[1].tokens
  {
    hide Grants, BucketAfter;
    assert Granted(c, rs, 0, 1) == rs[0].tokens;
  }

  /** Key expiry changes no decision of any run exactly if a bucket refills within the lifetime of its key. */
  lemma ExpiryHarmlessIff(c: Limits)
    requires Sensible(c) && c.expires
    ensures (forall rs: seq<Request> :: Timely(rs) ==> SameDecisions(c, rs)) <==> 60.0 * c.rate >= c.capacity
  {
    hide Grants, BucketAfter, Timely;
    if RefillsInTime(c) {
      forall rs: seq<Request> | Timely(rs) ensures SameDecisions(c, rs) {
        forall n: nat | n < |rs|
          ensures Grants(c, BucketAfter(c, rs, n), rs[n]) <==>
                  Grants(c.(expires := false), BucketAfter(c.(expires := false), rs, n), rs[n])
        {
          ExpiryChangesNothing(c, rs, n);
        }
      }
    } else {
      TooSoonDiffers(c);
    }
  }

  /** The configured limiter refills in time. */
  lemma ConfiguredIsHarmless()
    ensures Sensible(CONFIGURED) && RefillsInTime(CONFIGURED)
  {}

  // ---- the rate bound ----

  /** Waiting adds at most the refill. */
  lemma LevelGrowsByRefill(c: Limits, b: Option<Bucket>, t: real, u: real)
    requires Sensible(c) && BucketOk(c, b, t) && t <= u
    ensures Level(c, b, u) <= Level(c, b, t) + Earned(c.rate, u - t)
  {
    hide Earned;
    EarnedNothing(c.rate);
    EarnedPositive(c.rate, u - t);
    if b.Some? {
      var last := b.value.lastRefill;
      EarnedAdds(c.rate, t - last, u - t);
      assert (t - last) + (u - t) == u - last;
    }
  }

  /** A granted request takes its tokens out of the level, a denied one none. */
  lemma GrantTakes(c: Limits, b: Option<Bucket>, r: Request)
    requires Sensible(c) && BucketOk(c, b, r.now) && Level(c, Found(c, b, r.now), r.now) == Level(c, b, r.now)
    requires r.tokens >= 0.0
    ensures Level(c, After(c, b, r), r.now) == Level(c, b, r.now) - if Grants(c, b, r) then r.tokens else 0.0
  {
    hide Earned;
    EarnedNothing(c.rate);
    assert Level(c, b, r.now) <= c.capacity;
  }

  ghost predicate Within(c: Limits, rs: seq<Request>, i: nat, n: nat)
    requires i < n <= |rs|
  {
    Granted(c, rs, i, n) <= c.capacity + c.rate * (rs[n - 1].now - rs[i].now)
  }

  lemma WithinIs(c: Limits, rs: seq<Request>, i: nat, n: nat)
    requires i < n <= |rs|
    ensures Within(c, rs, i, n) <==> Granted(c, rs, i, n) <= c.capacity + Earned(c.rate, rs[n - 1].now - rs[i].now)
  {
    hide Granted, Earned;
    EarnedIs(c.rate, rs[n - 1].now - rs[i].now);
  }

  /** In any window, what was granted and what is left fit the capacity and the refill. */
  lemma {:induction false} WindowPotential(c: Limits, rs: seq<Request>, i: nat, n: nat)
    requires Sensible(c) && (RefillsInTime(c) || !c.expires) && Timely(rs) && i < n <= |rs|
    ensures Granted(c, rs, i, n) + Level(c, BucketAfter(c, rs, n), rs[n - 1].now) <=
            c.capacity + Earned(c.rate, rs[n - 1].now - rs[i].now)
    decreases n
  {
    hide Level, Grants, After, Earned;
    var b, r := BucketAfter(c, rs, n - 1), rs[n - 1];
    StoredLevelInRange(c, rs, n - 1);
    assert BucketOk(c, b, r.now);
    FoundLevel(c, b, r.now);
    GrantTakes(c, b, r);
    LevelInRange(c, b, r.now);
    if n == i + 1 {
      assert Granted(c, rs, i, i) == 0.0;
      EarnedNothing(c.rate);
    } else {
      var p := rs[n - 2];
      WindowPotential(c, rs, i, n - 1);
      StoredLevelInRange(c, rs, n - 1);
      LevelGrowsByRefill(c, b, p.now, r.now);
      EarnedAdds(c.rate, p.now - rs[i].now, r.now - p.now);
      assert (p.now - rs[i].now) + (r.now - p.now) == r.now - rs[i].now;
    }
  }

  lemma FoundLevel(c: Limits, b: Option<Bucket>, now: real)
    requires Sensible(c) && (RefillsInTime(c) || !c.expires) && BucketOk(c, b, now)
    ensures Level(c, Found(c, b, now), now) == Level(c, b, now)
  {
    if c.expires {
      ExpiredIsFull(c, b, now);
    }
  }

  /** Tokens granted in any window are at most the capacity and the refill over it. */
  lemma GrantsAreBounded(c: Limits, rs: seq<Request>, i: nat, n: nat)
    requires Sensible(c) && (RefillsInTime(c) || !c.expires) && Timely(rs) && i < n <= |rs|
    ensures Within(c, rs, i, n)
  {
    hide Earned, Level, Within;
    WindowPotential(c, rs, i, n);
    WithinIs(c, rs, i, n);
    StoredLevelInRange(c, rs, n);
    LevelInRange(c, BucketAfter(c, rs, n), rs[n - 1].now);
  }

  /** With expiry, the bound holds in every run exactly if a bucket refills within the lifetime of its key. */
  lemma BoundHoldsIff(c: Limits)
    requires Sensible(c) && c.expires
    ensures (forall rs: seq<Request>, i: nat, n: nat :: i < n <= |rs| && Timely(rs) ==> Within(c, rs, i, n)) <==>
            60.0 * c.rate >= c.capacity
  {
    hide Timely, Within;
    if RefillsInTime(c) {
      forall rs: seq<Request>, i: nat, n: nat | i < n <= |rs| && Timely(rs) ensures Within(c, rs, i, n) {
        GrantsAreBounded(c, rs, i, n);
      }
    } else {
      TooSoonDiffers(c);
      TooMuch(c);
    }
  }

  // ---- which requests are granted ----

  /** The request keeps every window that ends with it within the capacity and what came in over the window. */
  ghost predicate FitsEveryWindow(c: Limits, rs: seq<Request>, n: nat)
    requires n < |rs|
  {
    forall i: nat :: i <= n ==> FitsWindow(c, rs, i, n)
  }

  ghost predicate FitsWindow(c: Limits, rs: seq<Request>, i: nat, n: nat)
    requires i <= n < |rs|
  {
    Granted(c, rs, i, n) + rs[n].tokens <= c.capacity + c.rate * (rs[n].now - rs[i].now)
  }

  /** The level is what the tightest window leaves. */
  ghost predicate Tightest(c: Limits, rs: seq<Request>, n: nat, level: real)
    requires n < |rs|
  {
    && (forall i: nat :: i <= n ==> Room(c, rs, i, n) >= level)
    && exists i: nat :: i <= n && Room(c, rs, i, n) == level
  }

  function Room(c: Limits, rs: seq<Request>, i: nat, n: nat): real
    requires i <= n < |rs|
  {
    c.capacity + Earned(c.rate, rs[n].now - rs[i].now) - Granted(c, rs, i, n)
  }

  lemma RoomLater(c: Limits, rs: seq<Request>, i: nat, n: nat)
    requires i <= n && n + 1 < |rs|
    ensures Room(c, rs, i, n + 1) == Room(c, rs, i, n) + Earned(c.rate, rs[n + 1].now - rs[n].now)
              - if Grants(c, BucketAfter(c, rs, n), rs[n]) then rs[n].tokens else 0.0
  {
    hide Grants, Earned, BucketAfter;
    EarnedAdds(c.rate, rs[n].now - rs[i].now, rs[n + 1].now - rs[n].now);
    assert rs[n].now - rs[i].now + (rs[n + 1].now - rs[n].now) == rs[n + 1].now - rs[i].now;
  }

  lemma RoomNow(c: Limits, rs: seq<Request>, n: nat)
    requires n < |rs|
    ensures Room(c, rs, n, n) == c.capacity
  {
    EarnedNothing(c.rate);
  }

  /** The level when the next request comes: what is left, and the refill up to the capacity. */
  lemma LevelAtNext(c: Limits, b: Option<Bucket>, r: Request, next: real)
    requires Sensible(c) && BucketOk(c, b, r.now) && r.now <= next && r.tokens >= 0.0
    requires Level(c, Found(c, b, r.now), r.now) == Level(c, b, r.now)
    ensures var left := Level(c, b, r.now) - (if Grants(c, b, r) then r.tokens else 0.0) + Earned(c.rate, next - r.now);
            Level(c, After(c, b, r), next) == if left < c.capacity then left else c.capacity
  {
    hide Earned;
    EarnedNothing(c.rate);
    EarnedPositive(c.rate, next - r.now);
    if b.Some? && !Grants(c, b, r) {
      var last := b.value.lastRefill;
      EarnedAdds(c.rate, r.now - last, next - r.now);
      assert (r.now - last) + (next - r.now) == next - last;
    }
  }

  lemma {:induction false} LevelIsTightest(c: Limits, rs: seq<Request>, n: nat)
    requires Sensible(c) && (RefillsInTime(c) || !c.expires) && Timely(rs) && n < |rs|
    ensures Tightest(c, rs, n, Level(c, BucketAfter(c, rs, n), rs[n].now))
  {
    hide Level, Grants, After, Earned, Found, Room, Granted;
    RoomNow(c, rs, n);
    if n == 0 {
      LevelOfNone(c, rs[0].now);
    } else {
      var b, r := BucketAfter(c, rs, n - 1), rs[n - 1];
      LevelIsTightest(c, rs, n - 1);
      StoredLevelInRange(c, rs, n - 1);
      FoundLevel(c, b, r.now);
      LevelAtNext(c, b, r, rs[n].now);
      TightestMoves(c, rs, n - 1, Level(c, b, r.now), Level(c, BucketAfter(c, rs, n), rs[n].now));
    }
  }

  lemma TightestMoves(c: Limits, rs: seq<Request>, n: nat, level: real, level': real)
    requires n + 1 < |rs| && Tightest(c, rs, n, level)
    requires var left := level - (if Grants(c, BucketAfter(c, rs, n), rs[n]) then rs[n].tokens else 0.0)
                         + Earned(c.rate, rs[n + 1].now - rs[n].now);
             level' == if left < c.capacity then left else c.capacity
    ensures Tightest(c, rs, n + 1, level')
  {
    hide Grants, Earned, Room, Granted, BucketAfter;
    RoomNow(c, rs, n + 1);
    forall i: nat | i <= n
      ensures Room(c, rs, i, n + 1) == Room(c, rs, i, n) + Earned(c.rate, rs[n + 1].now - rs[n].now)
                - if Grants(c, BucketAfter(c, rs, n), rs[n]) then rs[n].tokens else 0.0 {
      RoomLater(c, rs, i, n);
    }
    var j: nat :| j <= n && Room(c, rs, j, n) == level;
    if level' == c.capacity {
      assert Room(c, rs, n + 1, n + 1) == level';
    } else {
      assert Room(c, rs, j, n + 1) == level';
    }
    var m := n + 1;
    forall i: nat | i <= m ensures Room(c, rs, i, m) >= level' {
      assert i <= n ==> Room(c, rs, i, n) >= level;
    }
  }

  lemma LevelOfNone(c: Limits, now: real)
    requires Sensible(c)
    ensures Level(c, None, now) == c.capacity && BucketAfter(c, [], 0) == None
  {
    EarnedNothing(c.rate);
  }

  /**
   The limiter is the greedy one: a request is granted exactly if that keeps every window of time within the capacity
   and what came in over it, so it refuses nothing that the bound would allow.
   */
  lemma GrantedIffFits(c: Limits, rs: seq<Request>, n: nat)
    requires Sensible(c) && (RefillsInTime(c) || !c.expires) && Timely(rs) && n < |rs|
    ensures Grants(c, BucketAfter(c, rs, n), rs[n]) <==> FitsEveryWindow(c, rs, n)
  {
    hide Level, After, Earned, Found, Granted, BucketAfter, FitsWindow, Room;
    LevelIsTightest(c, rs, n);
    StoredLevelInRange(c, rs, n);
    FoundLevel(c, BucketAfter(c, rs, n), rs[n].now);
    forall i: nat | i <= n ensures FitsWindow(c, rs, i, n) <==> Room(c, rs, i, n) >= rs[n].tokens {
      FitsIsRoom(c, rs, i, n);
    }
  }

  lemma FitsIsRoom(c: Limits, rs: seq<Request>, i: nat, n: nat)
    requires i <= n < |rs|
    ensures FitsWindow(c, rs, i, n) <==> Room(c, rs, i, n) >= rs[n].tokens
  {
    hide Granted, Earned;
    EarnedIs(c.rate, rs[n].now - rs[i].now);
  }

  lemma TooMuch(c: Limits)
    requires Sensible(c) && !RefillsInTime(c) && Granted(c, TooSoon(c), 0, 2) == c.capacity + c.capacity
    ensures !Within(c, TooSoon(c), 0, 2)
  {
    hide Granted, Earned, Within;
    WaitIsBetween(c);
    WithinIs(c, TooSoon(c), 0, 2);
  }
}
