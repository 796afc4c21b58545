/**
 Token buckets (pairing_admission.rs, and http.rs for client reports) and the limiter that remembers every key for
 ever: the standard the bounded maps are held to. Times are seconds.
 */
module Limiter {
  import opened Basics

  datatype Limits = Limits(burst: int, refill: real)

  /** `BucketPolicy`: at least one token, and a positive time to gain one. */
  type Policy = p: Limits | p.burst > 0 && p.refill > 0.0
    witness Limits(1, 1.0)

  datatype Bucket = Bucket(tokens: real, lastRefill: real, lastSeen: real)

  /** The code returns the delay alone in both refusals; which of the two it was is kept apart here. */
  datatype Answer = Admitted | Throttled(delay: real) | NoRoom(delay: real)

  const NANOSECOND: real := 0.000000001

  /** `saturating_duration_since`. */
  function Since(now: real, earlier: real): real {
    if now >= earlier then now - earlier else 0.0
  }

  /** The time an empty bucket takes to fill. */
  function FillTime(p: Policy): real {
    p.burst as real * p.refill
  }

  function FullBucket(p: Policy, now: real): Bucket {
    Bucket(p.burst as real, now, now)
  }

  function TokensAt(b: Bucket, p: Policy, now: real): real {
    MinReal(b.tokens + Since(now, b.lastRefill) / p.refill, p.burst as real)
  }

  predicate IsFull(b: Bucket, p: Policy, now: real) {
    TokensAt(b, p, now) >= p.burst as real
  }

  /** `Bucket::check`, from the level the bucket has now. */
  function Spend(tokens: real, p: Policy, now: real): (Bucket, Answer) {
    if tokens < 1.0 then (Bucket(tokens, now, now), Throttled((1.0 - tokens) * p.refill))
    else (Bucket(tokens - 1.0, now, now), Admitted)
  }

  function Checked(b: Bucket, p: Policy, now: real): (Bucket, Answer) {
    Spend(TokensAt(b, p, now), p, now)
  }

  // ---- Arithmetic of one bucket ----

  /** What every bucket satisfies once it has been checked, up to the last reading of the clock. */
  predicate Sound(b: Bucket, p: Policy, clock: real) {
    0.0 <= b.tokens <= p.burst as real && b.lastRefill == b.lastSeen <= clock
  }

  lemma Share(x: real, r: real, y: real)
    requires r > 0.0
    ensures x / r >= y <==> x >= y * r
  {
    var q := x / r;
    assert q * r == x;
    if q >= y {
      assert (q - y) * r >= 0.0;
    } else {
      assert (y - q) * r > 0.0;
    }
  }

  lemma SplitShare(x: real, y: real, r: real)
    requires r > 0.0
    ensures (x + y) / r == x / r + y / r
  {
    assert (x / r + y / r) * r == x / r * r + y / r * r == x + y;
    var s := x / r + y / r;
    assert s * r == x + y;
    assert s == (x + y) / r;
  }

  lemma PositiveShare(x: real, r: real)
    requires r > 0.0 && x >= 0.0
    ensures x / r >= 0.0
  {
    Share(x, r, 0.0);
  }

  /** Time adds at most its share of tokens, and never takes any away. */
  lemma TokensGrow(b: Bucket, p: Policy, from: real, to: real)
    requires Sound(b, p, from) && from <= to
    ensures TokensAt(b, p, from) <= TokensAt(b, p, to) <= TokensAt(b, p, from) + (to - from) / p.refill
    ensures 0.0 <= TokensAt(b, p, from) <= p.burst as real
  {
    SplitShare(from - b.lastRefill, to - from, p.refill);
    PositiveShare(to - from, p.refill);
    PositiveShare(from - b.lastRefill, p.refill);
  }

  /** A bucket holds `level` tokens from exactly the moment the missing ones have been refilled. */
  lemma ReachesLevel(b: Bucket, p: Policy, now: real, later: real, level: real)
    requires Sound(b, p, now) && now <= later && level <= p.burst as real
    requires TokensAt(b, p, now) < level
    ensures TokensAt(b, p, later) >= level <==> later >= now + (level - TokensAt(b, p, now)) * p.refill
  {
    var tokens := TokensAt(b, p, now);
    SplitShare(now - b.lastRefill, later - now, p.refill);
    assert b.tokens + (later - b.lastRefill) / p.refill == tokens + (later - now) / p.refill;
    Share(later - now, p.refill, level - tokens);
  }

  /** Long enough untouched means full. */
  lemma FullAfter(b: Bucket, p: Policy, now: real)
    requires Sound(b, p, now) && now - b.lastSeen >= FillTime(p)
    ensures IsFull(b, p, now)
  {
    Share(now - b.lastRefill, p.refill, p.burst as real);
  }

  lemma StaysFull(b: Bucket, p: Policy, from: real, to: real)
    requires Sound(b, p, from) && from <= to && IsFull(b, p, from)
    ensures IsFull(b, p, to) && TokensAt(b, p, to) == p.burst as real
  {
    TokensGrow(b, p, from, to);
  }

  lemma CheckedSound(b: Bucket, p: Policy, now: real)
    requires Sound(b, p, now)
    ensures Sound(Checked(b, p, now).0, p, now)
  {
    TokensGrow(b, p, now, now);
  }

  lemma PositiveProduct(x: real, r: real)
    requires r > 0.0
    ensures x > 0.0 <==> x * r > 0.0
  {
    if x > 0.0 {
      assert x * r > 0.0;
    } else {
      assert -x * r >= 0.0;
    }
  }

  lemma AtMostTimes(x: real, y: real, r: real)
    requires r > 0.0 && x <= y
    ensures x * r <= y * r
  {
    assert (y - x) * r >= 0.0;
  }

  lemma Proportion(x: real, r: real)
    requires 0.0 < x <= 1.0 && r > 0.0
    ensures 0.0 < x * r <= r
  {
    AtMostTimes(x, 1.0, r);
  }

  lemma SpendBounds(tokens: real, p: Policy, now: real)
    requires 0.0 <= tokens < 1.0
    ensures 0.0 < Spend(tokens, p, now).1.delay <= p.refill
  {
    Proportion(1.0 - tokens, p.refill);
  }

  lemma LevelInRange(b: Bucket, p: Policy, now: real)
    requires Sound(b, p, now)
    ensures 0.0 <= TokensAt(b, p, now) <= p.burst as real
  {
    PositiveShare(now - b.lastRefill, p.refill);
  }

  lemma DelayBounds(b: Bucket, p: Policy, now: real)
    requires Sound(b, p, now) && Checked(b, p, now).1.Throttled?
    ensures 0.0 < Checked(b, p, now).1.delay <= p.refill
    ensures 0.0 <= TokensAt(b, p, now) < 1.0
  {
    LevelInRange(b, p, now);
    SpendBounds(TokensAt(b, p, now), p, now);
  }

  lemma TtlCovers(p: Policy, ttl: real, d: real)
    requires ttl >= FillTime(p) && d <= p.refill
    ensures d <= ttl
  {
    AtMostTimes(1.0, p.burst as real, p.refill);
  }

  /** A throttled bucket has a token again after exactly its delay. */
  lemma TokenWait(b: Bucket, p: Policy, now: real, later: real)
    requires Sound(b, p, now) && now <= later && Checked(b, p, now).1.Throttled?
    ensures var (after, answer) := Checked(b, p, now);
            && after.lastSeen == now
            && (TokensAt(after, p, later) >= 1.0 <==> later >= now + answer.delay)
  {
    var after := Checked(b, p, now).0;
    DelayBounds(b, p, now);
    JustChecked(after, p, now);
    ReachesLevel(after, p, now, later, 1.0);
  }

  lemma JustChecked(b: Bucket, p: Policy, now: real)
    requires b.lastRefill == now && b.tokens <= p.burst as real
    ensures TokensAt(b, p, now) == b.tokens
  {
    assert 0.0 / p.refill == 0.0;
  }

  // ---- The unbounded limiter ----

  datatype Call<K> = Call(key: K, now: real, answer: Answer)

  function BucketFor<K(==)>(m: map<K, Bucket>, p: Policy, key: K, now: real): Bucket {
    if key in m then m[key] else FullBucket(p, now)
  }

  /** The buckets of a limiter that forgets nothing, after the calls that were not turned away for lack of room. */
  function Ideal<K(==)>(p: Policy, log: seq<Call<K>>): map<K, Bucket> {
    if log == [] then map[]
    else
      var m, c := Ideal(p, log[..|log| - 1]), log[|log| - 1];
      if c.answer.NoRoom? then m else m[c.key := Checked(BucketFor(m, p, c.key, c.now), p, c.now).0]
  }

  /** Every answer is the unbounded limiter's, except refusals for lack of room. */
  predicate Faithful<K(==)>(p: Policy, log: seq<Call<K>>) {
    forall n :: 0 <= n < |log| ==>
      var m := Ideal(p, log[..n]);
      log[n].answer.NoRoom? || log[n].answer == Checked(BucketFor(m, p, log[n].key, log[n].now), p, log[n].now).1
  }

  predicate Chronological<K>(log: seq<Call<K>>) {
    forall i, j :: 0 <= i < j < |log| ==> log[i].now <= log[j].now
  }

  function LastTime<K>(log: seq<Call<K>>, start: real): real {
    if log == [] then start else log[|log| - 1].now
  }

  lemma FaithfulSnoc<K>(p: Policy, log: seq<Call<K>>, c: Call<K>)
    requires Faithful(p, log)
    requires c.answer.NoRoom? || c.answer == Checked(BucketFor(Ideal(p, log), p, c.key, c.now), p, c.now).1
    ensures Faithful(p, log + [c])
    ensures Ideal(p, log + [c]) == if c.answer.NoRoom? then Ideal(p, log)
                                   else Ideal(p, log)[c.key := Checked(BucketFor(Ideal(p, log), p, c.key, c.now), p, c.now).0]
  {
    var all := log + [c];
    assert all[..|log|] == log;
    forall n | 0 <= n < |log|
      ensures all[..n] == log[..n]
    {
    }
  }

  predicate AllSound<K>(m: map<K, Bucket>, p: Policy, clock: real) {
    forall k <- m :: Sound(m[k], p, clock)
  }

  lemma {:induction false} IdealSound<K>(p: Policy, log: seq<Call<K>>, clock: real)
    requires Chronological(log) && LastTime(log, clock) <= clock
    ensures AllSound(Ideal(p, log), p, clock)
  {
    if log != [] {
      var n := |log| - 1;
      var c := log[n];
      IdealSound(p, log[..n], c.now);
      CheckedSound(BucketFor(Ideal(p, log[..n]), p, c.key, c.now), p, c.now);
    }
  }

  // ---- The rate bound ----

  /** How many calls for `key` were admitted with a clock reading in [from, to]. */
  function Count<K(==)>(log: seq<Call<K>>, key: K, from: real, to: real): nat {
    if log == [] then 0
    else
      var c := log[|log| - 1];
      Count(log[..|log| - 1], key, from, to) + if c.key == key && c.answer == Admitted && from <= c.now <= to then 1 else 0
  }

  function Level<K(==)>(p: Policy, log: seq<Call<K>>, key: K, now: real): real {
    TokensAt(BucketFor(Ideal(p, log), p, key, now), p, now)
  }

  lemma {:induction false} NoneBefore<K>(log: seq<Call<K>>, key: K, from: real, to: real)
    requires Chronological(log) && LastTime(log, from - 1.0) < from
    ensures Count(log, key, from, to) == 0
  {
    if log != [] {
      NoneBefore(log[..|log| - 1], key, from, to);
    }
  }

  lemma FaithfulPrefix<K>(p: Policy, log: seq<Call<K>>, n: nat)
    requires Faithful(p, log) && Chronological(log) && n <= |log|
    ensures Faithful(p, log[..n]) && Chronological(log[..n])
  {
    forall m | 0 <= m < n
      ensures log[..n][..m] == log[..m]
    {
    }
  }

  /** One call moves the level of a key by the token it takes, if any; time adds at most its share. */
  lemma LevelAfter<K>(p: Policy, log: seq<Call<K>>, key: K, to: real)
    requires Faithful(p, log) && Chronological(log) && log != []
    requires log[|log| - 1].now <= to
    ensures var c, front := log[|log| - 1], log[..|log| - 1];
            Level(p, log, key, to) <= Level(p, front, key, c.now) + (to - c.now) / p.refill
                                      - if c.key == key && c.answer == Admitted then 1.0 else 0.0
  {
    var n := |log| - 1;
    var c, front := log[n], log[..n];
    FaithfulPrefix(p, log, n);
    IdealSound(p, front, c.now);
    var b := BucketFor(Ideal(p, front), p, key, c.now);
    PositiveShare(to - c.now, p.refill);
    TokensGrow(b, p, c.now, to);
    assert 0.0 / p.refill == 0.0;
    if c.key == key && !c.answer.NoRoom? {
      var after := Checked(b, p, c.now).0;
      CheckedSound(b, p, c.now);
      TokensGrow(after, p, c.now, to);
      assert Ideal(p, log)[key] == after;
      assert c.answer == Checked(b, p, c.now).1;
    } else if key !in Ideal(p, front) {
      assert key !in Ideal(p, log);
    } else {
      assert Ideal(p, log)[key] == b;
    }
  }

  /** Tokens taken since `from` and tokens still there never exceed a full bucket plus what time has added. */
  lemma {:induction false} Budget<K>(p: Policy, log: seq<Call<K>>, key: K, from: real, to: real)
    requires Faithful(p, log) && Chronological(log)
    requires from <= to && LastTime(log, to) <= to
    ensures Count(log, key, from, to) as real + Level(p, log, key, to) <= p.burst as real + (to - from) / p.refill
  {
    PositiveShare(to - from, p.refill);
    if log != [] {
      var n := |log| - 1;
      var c := log[n];
      FaithfulPrefix(p, log, n);
      if c.now < from {
        NoneBefore(log, key, from, to);
      } else {
        Budget(p, log[..n], key, from, c.now);
        SameCount(log[..n], key, from, c.now, to);
        LevelAfter(p, log, key, to);
        SplitShare(c.now - from, to - c.now, p.refill);
      }
    }
  }

  lemma {:induction false} SameCount<K>(log: seq<Call<K>>, key: K, from: real, mid: real, to: real)
    requires mid <= to && forall n :: 0 <= n < |log| ==> log[n].now <= mid
    ensures Count(log, key, from, mid) == Count(log, key, from, to)
  {
    if log != [] {
      SameCount(log[..|log| - 1], key, from, mid, to);
    }
  }

  lemma {:induction false} LevelNotNegative<K>(p: Policy, log: seq<Call<K>>, key: K, to: real)
    requires Chronological(log) && LastTime(log, to) <= to
    ensures Level(p, log, key, to) >= 0.0
  {
    IdealSound(p, log, to);
    TokensGrow(BucketFor(Ideal(p, log), p, key, to), p, to, to);
  }

  /** In any window a key gets at most its burst plus what the window refills. */
  lemma {:induction false} RateBound<K>(p: Policy, log: seq<Call<K>>, key: K, from: real, to: real)
    requires Faithful(p, log) && Chronological(log) && from <= to
    ensures Count(log, key, from, to) as real <= p.burst as real + (to - from) / p.refill
  {
    if LastTime(log, to) <= to {
      Budget(p, log, key, from, to);
      LevelNotNegative(p, log, key, to);
    } else {
      FaithfulPrefix(p, log, |log| - 1);
      RateBound(p, log[..|log| - 1], key, from, to);
    }
  }

  function Taken<K(==)>(log: seq<Call<K>>, key: K): nat {
    if log == [] then 0
    else
      var c := log[|log| - 1];
      Taken(log[..|log| - 1], key) + if c.key == key && c.answer == Admitted then 1 else 0
  }

  /** The time a key's bucket was refilled for: every forward move of its readings, however they go back in between. */
  function Refilled<K(==)>(p: Policy, log: seq<Call<K>>, key: K): real {
    if log == [] then 0.0
    else
      var c, front := log[|log| - 1], log[..|log| - 1];
      Refilled(p, front, key)
      + if c.key == key && !c.answer.NoRoom? && key in Ideal(p, front) then Since(c.now, Ideal(p, front)[key].lastRefill) else 0.0
  }

  /** Whatever the order of the readings, a limiter that forgets nothing admits the burst plus what forward moves refill. */
  lemma {:induction false} BoundInAnyOrder<K>(p: Policy, log: seq<Call<K>>, key: K)
    requires Faithful(p, log)
    ensures Taken(log, key) as real + (if key in Ideal(p, log) then Ideal(p, log)[key].tokens else p.burst as real)
            <= p.burst as real + Refilled(p, log, key) / p.refill
    ensures key in Ideal(p, log) ==> Ideal(p, log)[key].tokens >= 0.0
    ensures Refilled(p, log, key) >= 0.0
  {
    assert 0.0 / p.refill == 0.0;
    if log != [] {
      var n := |log| - 1;
      var c, front := log[n], log[..n];
      forall m | 0 <= m < n
        ensures front[..m] == log[..m]
      {
      }
      BoundInAnyOrder(p, front, key);
      if c.key == key && !c.answer.NoRoom? && key in Ideal(p, front) {
        var gap := Since(c.now, Ideal(p, front)[key].lastRefill);
        SplitShare(Refilled(p, front, key), gap, p.refill);
        PositiveShare(gap, p.refill);
      }
    }
  }
}
