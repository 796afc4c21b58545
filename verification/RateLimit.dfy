/** When the bounded maps keep the rate they promise, decided exactly, and what they keep in any case. */
module RateLimit {
  import opened Basics
  import opened Limiter
  import opened Bounded

  /** In every window a key is admitted at most the burst plus what the window refills. */
  ghost predicate WithinRate<K(!new)>(p: Policy, log: seq<Call<K>>) {
    forall key: K, from: real, to: real :: from <= to ==>
      Count(log, key, from, to) as real <= p.burst as real + (to - from) / p.refill
  }

  /** No call brings a reading more than `slack` before an earlier call's. */
  ghost predicate GoesBackBy<K>(log: seq<Call<K>>, slack: real) {
    forall i, j :: 0 <= i < j < |log| ==> log[i].now <= log[j].now + slack
  }

  /** The rate holds in every run of the map whose readings go back by at most `slack`. */
  ghost predicate RateHolds<K(!new)>(c: Settings, slack: real) {
    forall log: seq<Call<K>>, states: seq<map<K, Bucket>> ::
      MapRun(c, log, states) && GoesBackBy(log, slack) ==> WithinRate(c.policy, log)
  }

  /** For every policy, capacity and time to live: exactly when readings never go back and entries are kept long enough. */
  lemma RateHoldsExactly<K(!new)>(c: Settings, slack: real, key: K)
    requires slack >= 0.0
    ensures RateHolds<K>(c, slack) <==> slack == 0.0 && KeepsLongEnough(c)
  {
    if slack == 0.0 && KeepsLongEnough(c) {
      forall log: seq<Call<K>>, states: seq<map<K, Bucket>> | MapRun(c, log, states) && GoesBackBy(log, slack)
        ensures WithinRate(c.policy, log)
      {
        InOrderHolds(c, log, states);
      }
    }
    if slack > 0.0 {
      var log, states := EarlierReadingOverAdmits(c, slack, key);
      assert MapRun(c, log, states) && GoesBackBy(log, slack) && !WithinRate(c.policy, log);
    }
    if !KeepsLongEnough(c) {
      var log, states := ShortMemoryOverAdmits(c, key);
      assert MapRun(c, log, states) && GoesBackBy(log, slack) && !WithinRate(c.policy, log);
    }
  }

  lemma InOrderHolds<K(!new)>(c: Settings, log: seq<Call<K>>, states: seq<map<K, Bucket>>)
    requires MapRun(c, log, states) && Chronological(log) && KeepsLongEnough(c)
    ensures WithinRate(c.policy, log)
  {
    BoundedIsIdeal(c, log, states, LastTime(log, 0.0));
    forall key: K, from: real, to: real | from <= to
      ensures Count(log, key, from, to) as real <= c.policy.burst as real + (to - from) / c.policy.refill
    {
      RateBound(c.policy, log, key, from, to);
    }
  }

  // ---- Runs that exceed the rate ----

  /** A key that has an entry, or finds room for one, is answered from its own bucket. */
  lemma OpenStep<K(!new)>(c: Settings, before: map<K, Bucket>, key: K, now: real)
    requires key in Retained(before, c.ttl, now) || |Retained(before, c.ttl, now)| < c.capacity
    ensures var live := Retained(before, c.ttl, now);
            var (b, answer) := Checked(BucketFor(live, c.policy, key, now), c.policy, now);
            !answer.NoRoom? && MapStep(c, before, Call(key, now, answer), live[key := b])
  {
    var live := Retained(before, c.ttl, now);
    assert RoomMade(live, live, c.policy, c.capacity, key, now);
  }

  /** A map that holds at most this key answers it alone. */
  lemma LoneStep<K(!new)>(c: Settings, before: map<K, Bucket>, key: K, now: real)
    requires before.Keys <= {key}
    ensures var (b, answer) := Checked(BucketFor(Retained(before, c.ttl, now), c.policy, key, now), c.policy, now);
            !answer.NoRoom? && MapStep(c, before, Call(key, now, answer), map[key := b])
  {
    var live := Retained(before, c.ttl, now);
    if key !in live {
      assert live == map[];
    }
    OpenStep(c, before, key, now);
    var b := Checked(BucketFor(live, c.policy, key, now), c.policy, now).0;
    assert live[key := b] == map[key := b];
  }

  lemma CountSnoc<K>(log: seq<Call<K>>, call: Call<K>, key: K, from: real, to: real)
    ensures Count(log + [call], key, from, to)
            == Count(log, key, from, to) + if call.key == key && call.answer == Admitted && from <= call.now <= to then 1 else 0
  {
    assert (log + [call])[..|log|] == log;
  }

  /** The calls after `log`, all the same. */
  predicate Extends<K(==)>(log: seq<Call<K>>, calls: seq<Call<K>>, call: Call<K>) {
    log <= calls && forall i :: |log| <= i < |calls| ==> calls[i] == call
  }

  /** One more call at the moment the only bucket was last checked. */
  lemma DrainOne<K(!new)>(c: Settings, log: seq<Call<K>>, states: seq<map<K, Bucket>>, key: K, now: real, level: real)
    returns (calls: seq<Call<K>>, after: seq<map<K, Bucket>>)
    requires MapRun(c, log, states) && Last(states).Keys <= {key}
    requires level == TokensAt(BucketFor(Retained(Last(states), c.ttl, now), c.policy, key, now), c.policy, now) >= 1.0
    ensures MapRun(c, calls, after) && calls == log + [Call(key, now, Admitted)]
    ensures Last(after) == map[key := Bucket(level - 1.0, now, now)]
  {
    var call, left := Call(key, now, Admitted), map[key := Bucket(level - 1.0, now, now)];
    LoneStep(c, Last(states), key, now);
    RunSnoc(c, log, states, call, left);
    calls, after := log + [call], states + [left];
  }

  /** `n` calls at one moment take `n` tokens, if there are that many. */
  lemma {:induction false} Drain<K(!new)>(c: Settings, log: seq<Call<K>>, states: seq<map<K, Bucket>>, key: K, now: real, level: real, n: nat)
    returns (calls: seq<Call<K>>, after: seq<map<K, Bucket>>)
    requires MapRun(c, log, states) && Last(states).Keys <= {key}
    requires level == TokensAt(BucketFor(Retained(Last(states), c.ttl, now), c.policy, key, now), c.policy, now)
    requires n as real <= level && n > 0
    ensures MapRun(c, calls, after) && |calls| == |log| + n && Extends(log, calls, Call(key, now, Admitted))
    ensures Last(after) == map[key := Bucket(level - n as real, now, now)]
    ensures forall from: real, to: real :: from <= now <= to ==> Count(calls, key, from, to) == Count(log, key, from, to) + n
    decreases n
  {
    if n == 1 {
      calls, after := DrainOne(c, log, states, key, now, level);
      CountAll(log, Call(key, now, Admitted));
    } else {
      var front, mid := Drain(c, log, states, key, now, level, n - 1);
      JustChecked(Last(mid)[key], c.policy, now);
      calls, after := DrainOne(c, front, mid, key, now, level - (n - 1) as real);
      CountAll(front, Call(key, now, Admitted));
    }
  }

  lemma CountAll<K>(log: seq<Call<K>>, call: Call<K>)
    requires call.answer == Admitted
    ensures forall from: real, to: real :: from <= call.now <= to ==> Count(log + [call], call.key, from, to) == Count(log, call.key, from, to) + 1
  {
    forall from: real, to: real | from <= call.now <= to
      ensures Count(log + [call], call.key, from, to) == Count(log, call.key, from, to) + 1
    {
      CountSnoc(log, call, call.key, from, to);
    }
  }

  lemma Exceeds<K(!new)>(p: Policy, log: seq<Call<K>>, key: K, from: real, to: real)
    requires from <= to && Count(log, key, from, to) as real > p.burst as real + (to - from) / p.refill
    ensures !WithinRate(p, log)
  {
  }

  lemma ShareOf(x: real, r: real)
    requires 0.0 <= x < r
    ensures x / r < 1.0
  {
    Share(x, r, 1.0);
  }

  /** The whole burst of a new key, taken at one moment. */
  lemma DrainFresh<K(!new)>(c: Settings, key: K, now: real) returns (log: seq<Call<K>>, states: seq<map<K, Bucket>>)
    ensures MapRun(c, log, states) && Extends([], log, Call(key, now, Admitted))
    ensures Last(states) == map[key := Bucket(0.0, now, now)]
    ensures forall from: real, to: real :: from <= now <= to ==> Count(log, key, from, to) == c.policy.burst
  {
    var none: map<K, Bucket> := map[];
    RunStart<K>(c);
    JustChecked(FullBucket(c.policy, now), c.policy, now);
    log, states := Drain(c, [], [none], key, now, c.policy.burst as real, c.policy.burst);
  }

  /**
   A refused call that brings an earlier reading lets the time after it be refilled twice: the burst is taken at
   `d`, a call that read the clock at 0 is refused, and the next one is admitted before a refill interval has passed.
   */
  lemma EarlierReadingOverAdmits<K(!new)>(c: Settings, slack: real, key: K)
    returns (log: seq<Call<K>>, states: seq<map<K, Bucket>>)
    requires slack > 0.0
    ensures MapRun(c, log, states) && GoesBackBy(log, slack) && !WithinRate(c.policy, log)
  {
    var d := MinReal(slack, c.policy.refill);
    log, states := RefilledTwice(c, d, key);
    ShareOf(c.policy.refill - d, c.policy.refill);
    Exceeds(c.policy, log, key, d, c.policy.refill);
  }

  lemma RefilledTwice<K(!new)>(c: Settings, d: real, key: K)
    returns (log: seq<Call<K>>, states: seq<map<K, Bucket>>)
    requires 0.0 < d <= c.policy.refill
    ensures MapRun(c, log, states) && GoesBackBy(log, d) && Count(log, key, d, c.policy.refill) == c.policy.burst + 1
  {
    var p := c.policy;
    var burst, states0 := DrainFresh(c, key, d);
    var refused, admitted := Call(key, 0.0, Throttled(p.refill)), Call(key, p.refill, Admitted);
    var empty := map[key := Bucket(0.0, 0.0, 0.0)];
    LateAndEarly(c, key, d);
    RunSnoc(c, burst, states0, refused, empty);
    var after := AfterWait(c, key);
    RunSnoc(c, burst + [refused], states0 + [empty], admitted, after);
    log, states := burst + [refused] + [admitted], states0 + [empty] + [after];
    CountSnoc(burst, refused, key, d, p.refill);
    CountSnoc(burst + [refused], admitted, key, d, p.refill);
  }

  lemma LateAndEarly<K(!new)>(c: Settings, key: K, d: real)
    requires d > 0.0
    ensures MapStep(c, map[key := Bucket(0.0, d, d)], Call(key, 0.0, Throttled(c.policy.refill)), map[key := Bucket(0.0, 0.0, 0.0)])
  {
    var before := map[key := Bucket(0.0, d, d)];
    assert Retained(before, c.ttl, 0.0) == before;
    assert 0.0 / c.policy.refill == 0.0;
    assert Spend(0.0, c.policy, 0.0) == (Bucket(0.0, 0.0, 0.0), Throttled(c.policy.refill));
    LoneStep(c, before, key, 0.0);
  }

  /** One refill interval after the empty reading the key is admitted, from its entry or, if that expired, from a new one. */
  lemma AfterWait<K(!new)>(c: Settings, key: K) returns (after: map<K, Bucket>)
    ensures MapStep(c, map[key := Bucket(0.0, 0.0, 0.0)], Call(key, c.policy.refill, Admitted), after)
  {
    var p, before := c.policy, map[key := Bucket(0.0, 0.0, 0.0)];
    var b := BucketFor(Retained(before, c.ttl, p.refill), p, key, p.refill);
    assert TokensAt(b, p, p.refill) >= 1.0 by {
      Share(p.refill, p.refill, 1.0);
      JustChecked(FullBucket(p, p.refill), p, p.refill);
    }
    LoneStep(c, before, key, p.refill);
    after := map[key := Checked(b, p, p.refill).0];
  }

  /** An entry dropped before its bucket is full is replaced by a full one. */
  lemma ShortMemoryOverAdmits<K(!new)>(c: Settings, key: K) returns (log: seq<Call<K>>, states: seq<map<K, Bucket>>)
    requires !KeepsLongEnough(c)
    ensures MapRun(c, log, states) && Chronological(log) && !WithinRate(c.policy, log)
  {
    log, states := BurstTwice(c, key);
    Share(c.ttl, c.policy.refill, c.policy.burst as real);
    Exceeds(c.policy, log, key, 0.0, c.ttl);
  }

  lemma BurstTwice<K(!new)>(c: Settings, key: K) returns (log: seq<Call<K>>, states: seq<map<K, Bucket>>)
    ensures MapRun(c, log, states) && Chronological(log) && Count(log, key, 0.0, c.ttl) == 2 * c.policy.burst
  {
    var burst, states0 := DrainFresh(c, key, 0.0);
    assert Retained(Last(states0), c.ttl, c.ttl) == map[];
    JustChecked(FullBucket(c.policy, c.ttl), c.policy, c.ttl);
    log, states := Drain(c, burst, states0, key, c.ttl, c.policy.burst as real, c.policy.burst);
    TwoMoments(burst, log, Call(key, 0.0, Admitted), Call(key, c.ttl, Admitted));
  }

  lemma TwoMoments<K>(front: seq<Call<K>>, log: seq<Call<K>>, early: Call<K>, late: Call<K>)
    requires Extends([], front, early) && Extends(front, log, late) && early.now <= late.now
    ensures Chronological(log)
  {
    forall i | 0 <= i < |log|
      ensures log[i] == if i < |front| then early else late
    {
    }
  }

  // ---- What the maps keep in any order ----

  predicate Mine<K(==)>(call: Call<K>, key: K) {
    call.key == key && !call.answer.NoRoom?
  }

  /** The call gives the key a new bucket. */
  predicate Renews<K(==)>(c: Settings, before: map<K, Bucket>, call: Call<K>, key: K) {
    Mine(call, key) && key !in Retained(before, c.ttl, call.now)
  }

  /** The time the call refills an entry for. */
  function Gap<K(==)>(c: Settings, before: map<K, Bucket>, call: Call<K>, key: K): real {
    if Mine(call, key) && key in Retained(before, c.ttl, call.now) then Since(call.now, before[key].lastRefill) else 0.0
  }

  /** How often a key was given a new bucket: at first, and after each expiry or eviction. */
  function Renewals<K(==)>(c: Settings, log: seq<Call<K>>, states: seq<map<K, Bucket>>, key: K): nat
    requires |states| == |log| + 1
  {
    if log == [] then 0
    else
      var n := |log| - 1;
      Renewals(c, log[..n], states[..n + 1], key)
      + if Renews(c, states[n], log[n], key) then 1 else 0
  }

  /** The time its entries were refilled for: every forward move of the readings that found one. */
  function RefilledTime<K(==)>(c: Settings, log: seq<Call<K>>, states: seq<map<K, Bucket>>, key: K): real
    requires |states| == |log| + 1
  {
    if log == [] then 0.0
    else
      var n := |log| - 1;
      RefilledTime(c, log[..n], states[..n + 1], key) + Gap(c, states[n], log[n], key)
  }

  function Held<K(==)>(m: map<K, Bucket>, key: K): real {
    if key in m then m[key].tokens else 0.0
  }

  /** What one call supplies: a full bucket, or the share of the time it refills an entry for. */
  function Supplied<K(==)>(c: Settings, before: map<K, Bucket>, call: Call<K>, key: K): real {
    (if Renews(c, before, call, key) then c.policy.burst as real else 0.0) + Gap(c, before, call, key) / c.policy.refill
  }

  function Supply<K(==)>(c: Settings, log: seq<Call<K>>, states: seq<map<K, Bucket>>, key: K): real
    requires |states| == |log| + 1
  {
    if log == [] then 0.0
    else Supply(c, log[..|log| - 1], states[..|log|], key) + Supplied(c, states[|log| - 1], log[|log| - 1], key)
  }

  /** One call: the tokens it takes and leaves are at most those there were and those it supplies. */
  lemma StepHolds<K(!new)>(c: Settings, before: map<K, Bucket>, call: Call<K>, after: map<K, Bucket>, key: K)
    requires MapStep(c, before, call, after) && forall k <- before :: before[k].tokens >= 0.0
    ensures forall k <- after :: after[k].tokens >= 0.0
    ensures Held(after, key) + (if call.key == key && call.answer == Admitted then 1.0 else 0.0)
            <= Held(before, key) + Supplied(c, before, call, key)
  {
    var p, live := c.policy, Retained(before, c.ttl, call.now);
    assert 0.0 / p.refill == 0.0;
    if !call.answer.NoRoom? {
      var found := BucketFor(live, p, call.key, call.now);
      PositiveShare(Since(call.now, found.lastRefill), p.refill);
      var base :| RoomMade(live, base, p, c.capacity, call.key, call.now) && after == base[call.key := Checked(found, p, call.now).0];
      assert forall k <- base :: k in before && base[k] == before[k];
      if call.key == key && key !in live {
        JustChecked(found, p, call.now);
      }
    }
  }

  lemma {:induction false} SupplyCovers<K(!new)>(c: Settings, log: seq<Call<K>>, states: seq<map<K, Bucket>>, key: K)
    requires MapRun(c, log, states)
    ensures forall k <- Last(states) :: Last(states)[k].tokens >= 0.0
    ensures Taken(log, key) as real + Held(Last(states), key) <= Supply(c, log, states, key)
  {
    if log != [] {
      var n := |log| - 1;
      RunFront(c, log, states);
      SupplyCovers(c, log[..n], states[..n + 1], key);
      StepHolds(c, states[n], log[n], states[n + 1], key);
    }
  }

  lemma AddUp(burst: real, refill: real, renewals: nat, renewed: bool, time: real, more: real)
    requires refill > 0.0
    ensures burst * (renewals + if renewed then 1 else 0) as real + (time + more) / refill
            == burst * renewals as real + time / refill + ((if renewed then burst else 0.0) + more / refill)
  {
    SplitShare(time, more, refill);
    assert burst * (renewals + 1) as real == burst * renewals as real + burst;
  }

  lemma {:induction false} SupplyIs<K>(c: Settings, log: seq<Call<K>>, states: seq<map<K, Bucket>>, key: K)
    requires |states| == |log| + 1
    ensures Supply(c, log, states, key)
            == c.policy.burst as real * Renewals(c, log, states, key) as real + RefilledTime(c, log, states, key) / c.policy.refill
  {
    if log == [] {
      assert 0.0 / c.policy.refill == 0.0;
    } else {
      var n := |log| - 1;
      SupplyIs(c, log[..n], states[..n + 1], key);
      AddUp(c.policy.burst as real, c.policy.refill, Renewals(c, log[..n], states[..n + 1], key), Renews(c, states[n], log[n], key),
            RefilledTime(c, log[..n], states[..n + 1], key), Gap(c, states[n], log[n], key));
    }
  }

  /** A new bucket for each renewal and a token for each interval refilled bound what a key gets, in any order of readings. */
  lemma MapBoundInAnyOrder<K(!new)>(c: Settings, log: seq<Call<K>>, states: seq<map<K, Bucket>>, key: K)
    requires MapRun(c, log, states)
    ensures Taken(log, key) as real
            <= c.policy.burst as real * Renewals(c, log, states, key) as real + RefilledTime(c, log, states, key) / c.policy.refill
  {
    SupplyCovers(c, log, states, key);
    SupplyIs(c, log, states, key);
  }
}
