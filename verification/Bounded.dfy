/**
 The bounded maps of token buckets (pairing_admission.rs, and http.rs for client reports): a capacity, expiry and
 eviction. Read in order, they answer like a limiter that forgets nothing; how much that needs is decided exactly.
 */
module Bounded {
  import opened Basics
  import opened Limiter

  function Retained<K>(m: map<K, Bucket>, ttl: real, now: real): map<K, Bucket> {
    map k | k in m && Since(now, m[k].lastSeen) < ttl :: m[k]
  }

  /** The time until a bucket is full again. */
  function Missing(b: Bucket, p: Policy, now: real): real {
    (p.burst as real - TokensAt(b, p, now)) * p.refill
  }

  predicate IsShortest<K>(m: map<K, Bucket>, p: Policy, now: real, d: real) {
    && (exists k <- m :: Missing(m[k], p, now) == d)
    && forall k <- m :: d <= Missing(m[k], p, now)
  }

  /** No entry can be evicted for a new key. */
  predicate Crowded<K>(m: map<K, Bucket>, p: Policy, capacity: nat, now: real) {
    |m| >= capacity && forall k <- m :: !IsFull(m[k], p, now)
  }

  predicate IsOldestFull<K>(m: map<K, Bucket>, p: Policy, now: real, victim: K) {
    && victim in m && IsFull(m[victim], p, now)
    && forall k <- m :: IsFull(m[k], p, now) ==> m[victim].lastSeen <= m[k].lastSeen
  }

  /** The bounded map against the unbounded one: what is present is the same, what is absent is full. */
  ghost predicate Agrees<K>(m: map<K, Bucket>, ideal: map<K, Bucket>, p: Policy, clock: real) {
    && (forall k <- m :: k in ideal && m[k] == ideal[k])
    && (forall k <- ideal :: k !in m ==> IsFull(ideal[k], p, clock))
    && AllSound(ideal, p, clock)
  }

  /** Expiry drops only full buckets. */
  lemma ExpiryAgrees<K>(m: map<K, Bucket>, ideal: map<K, Bucket>, p: Policy, ttl: real, clock: real, now: real)
    requires Agrees(m, ideal, p, clock) && clock <= now && ttl >= FillTime(p)
    ensures Agrees(Retained(m, ttl, now), ideal, p, now)
  {
    forall k | k in ideal && k !in Retained(m, ttl, now)
      ensures IsFull(ideal[k], p, now)
    {
      if k in m {
        FullAfter(ideal[k], p, now);
      } else {
        StaysFull(ideal[k], p, clock, now);
      }
    }
  }

  /** Dropping an expired entry forgets nothing, whatever the entry. */
  ghost predicate ExpiryIsSafe(p: Policy, ttl: real) {
    forall b: Bucket, clock: real, now: real ::
      Sound(b, p, clock) && clock <= now && Since(now, b.lastSeen) >= ttl ==> IsFull(b, p, now)
  }

  /** That is so exactly when entries are kept for at least the time a bucket takes to fill. */
  lemma SafeExactlyWhenKeptLongEnough(p: Policy, ttl: real)
    requires ttl > 0.0
    ensures ExpiryIsSafe(p, ttl) <==> ttl >= FillTime(p)
  {
    if ttl >= FillTime(p) {
      forall b: Bucket, clock: real, now: real | Sound(b, p, clock) && clock <= now && Since(now, b.lastSeen) >= ttl
        ensures IsFull(b, p, now)
      {
        FullAfter(b, p, now);
      }
    } else {
      var empty := Bucket(0.0, 0.0, 0.0);
      assert Sound(empty, p, 0.0);
      Share(ttl, p.refill, p.burst as real);
      assert !IsFull(empty, p, ttl);
    }
  }

  lemma EvictionAgrees<K>(m: map<K, Bucket>, ideal: map<K, Bucket>, p: Policy, clock: real, victim: K)
    requires Agrees(m, ideal, p, clock) && victim in m && IsFull(m[victim], p, clock)
    ensures Agrees(m - {victim}, ideal, p, clock)
  {
  }

  /** A key the bounded map has lost answers as if it had kept it. */
  lemma SameCheck<K>(m: map<K, Bucket>, ideal: map<K, Bucket>, p: Policy, clock: real, key: K)
    requires Agrees(m, ideal, p, clock)
    ensures Checked(BucketFor(m, p, key, clock), p, clock) == Checked(BucketFor(ideal, p, key, clock), p, clock)
  {
    if key !in m && key in ideal {
      StaysFull(ideal[key], p, clock, clock);
    }
  }

  lemma CheckAgrees<K>(m: map<K, Bucket>, ideal: map<K, Bucket>, p: Policy, clock: real, key: K)
    requires Agrees(m, ideal, p, clock)
    ensures var b := Checked(BucketFor(ideal, p, key, clock), p, clock).0;
            Agrees(m[key := b], ideal[key := b], p, clock)
  {
    CheckedSound(BucketFor(ideal, p, key, clock), p, clock);
  }

  /** What `check_at` answers once expired entries are gone. */
  ghost predicate Answers<K>(live: map<K, Bucket>, p: Policy, capacity: nat, key: K, now: real, answer: Answer) {
    if key !in live && Crowded(live, p, capacity, now) then
      answer.NoRoom? && exists d :: IsShortest(live, p, now, d) && answer.delay == if d < NANOSECOND then NANOSECOND else d
    else
      answer == Checked(BucketFor(live, p, key, now), p, now).1
  }

  /** Only a new key in a map at capacity evicts, and then the full entry that was seen least recently. */
  ghost predicate RoomMade<K(!new)>(live: map<K, Bucket>, base: map<K, Bucket>, p: Policy, capacity: nat, key: K, now: real) {
    if key in live || |live| < capacity then base == live
    else exists victim :: IsOldestFull(live, p, now, victim) && base == live - {victim}
  }

  /** The entries `check_at` leaves behind. */
  ghost predicate Leaves<K(!new)>(live: map<K, Bucket>, p: Policy, capacity: nat, key: K, now: real, answer: Answer, after: map<K, Bucket>) {
    if answer.NoRoom? then after == live
    else exists base :: RoomMade(live, base, p, capacity, key, now)
                        && after == base[key := Checked(BucketFor(live, p, key, now), p, now).0]
  }

  // ---- Runs of one map ----

  datatype Limited = Limited(policy: Policy, capacity: nat, ttl: real)

  /** What `BoundedBuckets::new` demands. */
  type Settings = c: Limited | c.capacity > 0 && c.ttl > 0.0
    witness Limited(Limits(1, 1.0), 1, 1.0)

  /** Entries are kept for at least the time a bucket takes to fill. */
  predicate KeepsLongEnough(c: Settings) {
    c.ttl >= FillTime(c.policy)
  }

  /** One call of `check_at`, whatever the reading it brings. */
  ghost predicate MapStep<K(!new)>(c: Settings, before: map<K, Bucket>, call: Call<K>, after: map<K, Bucket>) {
    var live := Retained(before, c.ttl, call.now);
    && Answers(live, c.policy, c.capacity, call.key, call.now, call.answer)
    && Leaves(live, c.policy, c.capacity, call.key, call.now, call.answer, after)
  }

  /** The calls since the map was empty, and the entries before and after each. */
  ghost predicate MapRun<K(!new)>(c: Settings, log: seq<Call<K>>, states: seq<map<K, Bucket>>) {
    && |states| == |log| + 1 && states[0] == map[]
    && forall n :: 0 <= n < |log| ==> MapStep(c, states[n], log[n], states[n + 1])
  }

  function Last<K>(states: seq<map<K, Bucket>>): map<K, Bucket>
    requires states != []
  {
    states[|states| - 1]
  }

  lemma RunStart<K(!new)>(c: Settings)
    ensures var none: map<K, Bucket> := map[]; MapRun(c, [], [none])
  {
  }

  lemma RunSnoc<K(!new)>(c: Settings, log: seq<Call<K>>, states: seq<map<K, Bucket>>, call: Call<K>, after: map<K, Bucket>)
    requires MapRun(c, log, states) && MapStep(c, Last(states), call, after)
    ensures MapRun(c, log + [call], states + [after]) && Last(states + [after]) == after
  {
    var calls, all := log + [call], states + [after];
    forall n | 0 <= n < |calls|
      ensures MapStep(c, all[n], calls[n], all[n + 1])
    {
      if n < |log| {
        assert all[n] == states[n] && all[n + 1] == states[n + 1] && calls[n] == log[n];
      } else {
        assert all[n] == Last(states) && calls[n] == call && all[n + 1] == after;
      }
    }
  }

  lemma RunFront<K(!new)>(c: Settings, log: seq<Call<K>>, states: seq<map<K, Bucket>>)
    requires MapRun(c, log, states) && log != []
    ensures MapRun(c, log[..|log| - 1], states[..|log|])
    ensures MapStep(c, Last(states[..|log|]), log[|log| - 1], Last(states))
  {
  }

  lemma StepSize<K(!new)>(c: Settings, before: map<K, Bucket>, call: Call<K>, after: map<K, Bucket>)
    requires |before| <= c.capacity && MapStep(c, before, call, after)
    ensures |after| <= c.capacity
  {
    var live := Retained(before, c.ttl, call.now);
    RetainedSmaller(before, c.ttl, call.now);
    if !call.answer.NoRoom? {
      var b := Checked(BucketFor(live, c.policy, call.key, call.now), c.policy, call.now).0;
      var base :| RoomMade(live, base, c.policy, c.capacity, call.key, call.now) && after == base[call.key := b];
      if !(call.key in live || |live| < c.capacity) {
        var victim :| IsOldestFull(live, c.policy, call.now, victim) && base == live - {victim};
        RemovedSmaller(live, victim);
      }
      PutSmaller(base, call.key, b, c.capacity);
    }
  }

  /** An entry that one call drops although it has not expired. */
  predicate Evicted<K(==)>(c: Settings, before: map<K, Bucket>, call: Call<K>, after: map<K, Bucket>, victim: K) {
    victim in before && victim !in after && Since(call.now, before[victim].lastSeen) < c.ttl
  }

  /** The bucket has all its tokens back. */
  predicate Refilled(b: Bucket, p: Policy, now: real) {
    b.tokens + Since(now, b.lastRefill) / p.refill >= p.burst as real
  }

  /**
   A call evicts at most one entry, and only to admit a new key to a map at capacity: one that is full, and of the full
   ones the one seen longest ago.
   */
  lemma EvictsOldest<K(!new)>(c: Settings, before: map<K, Bucket>, call: Call<K>, after: map<K, Bucket>, victim: K)
    requires MapStep(c, before, call, after) && Evicted(c, before, call, after, victim)
    ensures call.key in after && (call.key !in before || Since(call.now, before[call.key].lastSeen) >= c.ttl)
    ensures |set k | k in before && Since(call.now, before[k].lastSeen) < c.ttl| >= c.capacity
    ensures Refilled(before[victim], c.policy, call.now)
    ensures forall k <- before :: Since(call.now, before[k].lastSeen) < c.ttl && Refilled(before[k], c.policy, call.now) ==>
              before[victim].lastSeen <= before[k].lastSeen
    ensures forall other: K :: Evicted(c, before, call, after, other) ==> other == victim
  {
    var live := Retained(before, c.ttl, call.now);
    assert live.Keys == set k | k in before && Since(call.now, before[k].lastSeen) < c.ttl;
    var base :| RoomMade(live, base, c.policy, c.capacity, call.key, call.now)
                && after == base[call.key := Checked(BucketFor(live, c.policy, call.key, call.now), c.policy, call.now).0];
    var gone :| IsOldestFull(live, c.policy, call.now, gone) && base == live - {gone};
    assert victim in live && victim == gone;
    forall k | k in before && Since(call.now, before[k].lastSeen) < c.ttl && Refilled(before[k], c.policy, call.now)
      ensures before[victim].lastSeen <= before[k].lastSeen
    {
      assert k in live && IsFull(live[k], c.policy, call.now);
    }
  }

  /** The map never exceeds its capacity, whatever readings the calls bring. */
  lemma {:induction false} NeverAboveCapacity<K(!new)>(c: Settings, log: seq<Call<K>>, states: seq<map<K, Bucket>>)
    requires MapRun(c, log, states)
    ensures |Last(states)| <= c.capacity
  {
    if log != [] {
      RunFront(c, log, states);
      NeverAboveCapacity(c, log[..|log| - 1], states[..|log|]);
      StepSize(c, Last(states[..|log|]), log[|log| - 1], Last(states));
    }
  }

  // ---- In order, the map stands for the limiter that forgets nothing ----

  lemma AgreesLater<K>(m: map<K, Bucket>, ideal: map<K, Bucket>, p: Policy, clock: real, later: real)
    requires Agrees(m, ideal, p, clock) && clock <= later
    ensures Agrees(m, ideal, p, later)
  {
    forall k | k in ideal && k !in m
      ensures IsFull(ideal[k], p, later)
    {
      StaysFull(ideal[k], p, clock, later);
    }
  }

  lemma BaseAgrees<K(!new)>(live: map<K, Bucket>, base: map<K, Bucket>, ideal: map<K, Bucket>, p: Policy, capacity: nat, key: K, now: real)
    requires Agrees(live, ideal, p, now) && RoomMade(live, base, p, capacity, key, now)
    ensures Agrees(base, ideal, p, now)
  {
    if !(key in live || |live| < capacity) {
      var victim :| IsOldestFull(live, p, now, victim) && base == live - {victim};
      EvictionAgrees(live, ideal, p, now, victim);
    }
  }

  lemma LeavesAgrees<K(!new)>(live: map<K, Bucket>, after: map<K, Bucket>, ideal: map<K, Bucket>, p: Policy, capacity: nat,
                              call: Call<K>, b: Bucket)
    requires Agrees(live, ideal, p, call.now) && !call.answer.NoRoom?
    requires Leaves(live, p, capacity, call.key, call.now, call.answer, after)
    requires b == Checked(BucketFor(ideal, p, call.key, call.now), p, call.now).0
    ensures Agrees(after, ideal[call.key := b], p, call.now)
  {
    SameCheck(live, ideal, p, call.now, call.key);
    var base :| RoomMade(live, base, p, capacity, call.key, call.now) && after == base[call.key := b];
    BaseAgrees(live, base, ideal, p, capacity, call.key, call.now);
    CheckAgrees(base, ideal, p, call.now, call.key);
  }

  /** One call, answered by both. */
  lemma StepAgrees<K(!new)>(c: Settings, before: map<K, Bucket>, call: Call<K>, after: map<K, Bucket>, ideal: map<K, Bucket>)
    requires KeepsLongEnough(c) && MapStep(c, before, call, after) && Agrees(before, ideal, c.policy, call.now)
    ensures var (b, answer) := Checked(BucketFor(ideal, c.policy, call.key, call.now), c.policy, call.now);
            if call.answer.NoRoom? then Agrees(after, ideal, c.policy, call.now)
            else call.answer == answer && Agrees(after, ideal[call.key := b], c.policy, call.now)
  {
    var live := Retained(before, c.ttl, call.now);
    ExpiryAgrees(before, ideal, c.policy, c.ttl, call.now, call.now);
    if !call.answer.NoRoom? {
      SameCheck(live, ideal, c.policy, call.now, call.key);
      LeavesAgrees(live, after, ideal, c.policy, c.capacity, call,
                   Checked(BucketFor(ideal, c.policy, call.key, call.now), c.policy, call.now).0);
    }
  }

  /**
   With readings that never go back and entries kept long enough, every answer except a refusal for lack of room is
   the unbounded limiter's, and what the map has dropped is full there.
   */
  lemma {:induction false} BoundedIsIdeal<K(!new)>(c: Settings, log: seq<Call<K>>, states: seq<map<K, Bucket>>, clock: real)
    requires MapRun(c, log, states) && Chronological(log) && LastTime(log, clock) <= clock && KeepsLongEnough(c)
    ensures Faithful(c.policy, log)
    ensures Agrees(Last(states), Ideal(c.policy, log), c.policy, clock)
  {
    if log != [] {
      var n := |log| - 1;
      var call, front := log[n], log[..n];
      RunFront(c, log, states);
      BoundedIsIdeal(c, front, states[..n + 1], call.now);
      StepAgrees(c, Last(states[..n + 1]), call, Last(states), Ideal(c.policy, front));
      FaithfulSnoc(c.policy, front, call);
      assert front + [call] == log;
      AgreesLater(Last(states), Ideal(c.policy, log), c.policy, call.now, clock);
    }
  }

  // ---- The map, updated in place ----

  class BoundedBuckets<K(==, !new)> {
    var entries: map<K, Bucket>
    const settings: Settings
    ghost var log: seq<Call<K>>
    ghost var states: seq<map<K, Bucket>>

    /** The entries are those a run of calls leaves, and they fit. */
    ghost predicate Valid()
      reads this
    {
      MapRun(settings, log, states) && entries == Last(states) && |entries| <= settings.capacity
    }

    constructor (settings: Settings)
      ensures Valid() && this.settings == settings && entries == map[] && log == []
    {
      this.settings := settings;
      entries, log, states := map[], [], [map[]];
      RunStart<K>(settings);
    }

    /** Admission of one call, with whatever reading of the clock it brings. */
    method CheckAt(key: K, now: real) returns (answer: Answer)
      requires Valid()
      modifies this
      ensures Valid()
      ensures log == old(log) + [Call(key, now, answer)]
      ensures MapStep(settings, old(entries), Call(key, now, answer), entries)
    {
      ghost var before := entries;
      RetainedSmaller(entries, settings.ttl, now);
      entries := Retained(entries, settings.ttl, now);
      answer := CheckLive(key, now);
      StepSize(settings, before, Call(key, now, answer), entries);
      RunSnoc(settings, log, states, Call(key, now, answer), entries);
      log, states := log + [Call(key, now, answer)], states + [entries];
    }

    /** The call once expired entries are gone. */
    method CheckLive(key: K, now: real) returns (answer: Answer)
      requires |entries| <= settings.capacity
      modifies this`entries
      ensures Answers(old(entries), settings.policy, settings.capacity, key, now, answer)
      ensures Leaves(old(entries), settings.policy, settings.capacity, key, now, answer, entries)
    {
      ghost var live := entries;
      if key !in entries {
        var refusal := MakeRoom(key, now);
        if refusal.Some? {
          return NoRoom(if refusal.value < NANOSECOND then NANOSECOND else refusal.value);
        }
        entries := entries[key := FullBucket(settings.policy, now)];
        ghost var base := entries - {key};
        assert RoomMade(live, base, settings.policy, settings.capacity, key, now);
      } else {
        assert RoomMade(live, live, settings.policy, settings.capacity, key, now);
      }
      var bucket, reply := Checked(entries[key], settings.policy, now).0, Checked(entries[key], settings.policy, now).1;
      entries := entries[key := bucket];
      return reply;
    }

    /** None if a new key fits now, evicting an idle full entry if need be; otherwise the shortest wait for one. */
    method MakeRoom(key: K, now: real) returns (wait: Option<real>)
      requires |entries| <= settings.capacity && key !in entries
      modifies this`entries
      ensures wait.Some? <==> Crowded(old(entries), settings.policy, settings.capacity, now)
      ensures wait.Some? ==> entries == old(entries) && IsShortest(entries, settings.policy, now, wait.value)
      ensures wait.None? ==> |entries| < settings.capacity && key !in entries
      ensures wait.None? ==> RoomMade(old(entries), entries, settings.policy, settings.capacity, key, now)
    {
      if |entries| < settings.capacity {
        return None;
      }
      var evictable := OldestFull(now);
      if evictable.Some? {
        RemovedSmaller(entries, evictable.value);
        entries := entries - {evictable.value};
        return None;
      }
      var d := ShortestWait(now);
      return Some(d);
    }

    method OldestFull(now: real) returns (oldest: Option<K>)
      ensures oldest.None? <==> forall k <- entries :: !IsFull(entries[k], settings.policy, now)
      ensures oldest.Some? ==> IsOldestFull(entries, settings.policy, now, oldest.value)
    {
      oldest := None;
      var todo := entries.Keys;
      while todo != {}
        invariant todo <= entries.Keys
        invariant oldest.None? ==> forall k <- entries :: k in todo || !IsFull(entries[k], settings.policy, now)
        invariant oldest.Some? ==>
                    && oldest.value in entries && IsFull(entries[oldest.value], settings.policy, now)
                    && forall k <- entries :: k in todo || !IsFull(entries[k], settings.policy, now) || entries[oldest.value].lastSeen <= entries[k].lastSeen
        decreases |todo|
      {
        var k :| k in todo;
        if IsFull(entries[k], settings.policy, now) && (oldest.None? || entries[k].lastSeen < entries[oldest.value].lastSeen) {
          oldest := Some(k);
        }
        todo := todo - {k};
      }
    }

    method ShortestWait(now: real) returns (d: real)
      requires entries.Keys != {}
      ensures IsShortest(entries, settings.policy, now, d)
    {
      var first :| first in entries;
      d := Missing(entries[first], settings.policy, now);
      ghost var holder := first;
      var todo := entries.Keys - {first};
      while todo != {}
        invariant todo <= entries.Keys
        invariant holder in entries && Missing(entries[holder], settings.policy, now) == d
        invariant forall k <- entries :: k in todo || d <= Missing(entries[k], settings.policy, now)
        decreases |todo|
      {
        var k :| k in todo;
        if Missing(entries[k], settings.policy, now) < d {
          d := Missing(entries[k], settings.policy, now);
          holder := k;
        }
        todo := todo - {k};
      }
    }
  }

  lemma RetainedSmaller<K>(m: map<K, Bucket>, ttl: real, now: real)
    ensures |Retained(m, ttl, now)| <= |m|
  {
    SubsetCardinality(Retained(m, ttl, now).Keys, m.Keys);
  }

  lemma RemovedSmaller<K>(m: map<K, Bucket>, k: K)
    requires k in m
    ensures |m - {k}| < |m|
  {
    assert (m - {k}).Keys == m.Keys - {k};
  }

  lemma PutSmaller<K>(m: map<K, Bucket>, k: K, b: Bucket, capacity: nat)
    requires |m| <= capacity && (k !in m ==> |m| < capacity)
    ensures |m[k := b]| <= capacity
  {
    assert m[k := b].Keys == m.Keys + {k};
  }
}
