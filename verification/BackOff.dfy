/** The delay a refused caller is told (RFC 9110, section 10.2.3), for one limiter and for two asked in turn. */
module BackOff {
  import opened Basics
  import opened Limiter
  import opened Bounded
  import opened RateLimit

  // ---- One limiter ----

  /** Whole seconds: as_secs, plus one if there is a fraction, but at least one. */
  function RetryAfter(d: real): (seconds: int)
    ensures seconds >= 1 && seconds as real >= d
    ensures seconds == 1 || seconds as real - 1.0 < d
  {
    var whole := d.Floor;
    var rounded := if d != whole as real then whole + 1 else whole;
    if rounded < 1 then 1 else rounded
  }

  predicate WouldAdmit<K>(m: map<K, Bucket>, p: Policy, capacity: nat, ttl: real, key: K, later: real) {
    var live := Retained(m, ttl, later);
    if key in live then Checked(live[key], p, later).1 == Admitted else !Crowded(live, p, capacity, later)
  }

  lemma FullAdmits(p: Policy, now: real)
    ensures Checked(FullBucket(p, now), p, now).1 == Admitted
  {
    assert 0.0 / p.refill == 0.0;
  }

  lemma AdmitsExactly<K>(m: map<K, Bucket>, p: Policy, capacity: nat, ttl: real, key: K, later: real)
    ensures WouldAdmit(m, p, capacity, ttl, key, later) <==> Answers(Retained(m, ttl, later), p, capacity, key, later, Admitted)
  {
    FullAdmits(p, later);
  }

  lemma MissingPositive(b: Bucket, p: Policy, now: real)
    requires !IsFull(b, p, now)
    ensures Missing(b, p, now) > 0.0
  {
    PositiveProduct(p.burst as real - TokensAt(b, p, now), p.refill);
  }

  /** An entry that is not full becomes full after exactly what it misses. */
  lemma FullWait(b: Bucket, p: Policy, now: real, later: real)
    requires Sound(b, p, now) && now <= later && !IsFull(b, p, now)
    ensures IsFull(b, p, later) <==> later >= now + Missing(b, p, now)
  {
    ReachesLevel(b, p, now, later, p.burst as real);
  }

  /** An entry that expires is full. */
  lemma ExpiredIsFull(b: Bucket, p: Policy, ttl: real, now: real, later: real)
    requires Sound(b, p, now) && now <= later && ttl >= FillTime(p)
    requires Since(later, b.lastSeen) >= ttl
    ensures IsFull(b, p, later)
  {
    FullAfter(b, p, later);
  }

  /** The delay of an empty bucket is exact: the repeated call is admitted from that moment on, and not before. */
  lemma ThrottledDelayExact<K>(live: map<K, Bucket>, p: Policy, capacity: nat, ttl: real, key: K, now: real, later: real)
    requires AllSound(live, p, now) && |live| <= capacity && ttl >= FillTime(p) && now <= later
    requires key in live && Checked(live[key], p, now).1.Throttled?
    ensures var (b, answer) := Checked(live[key], p, now);
            && 0.0 < answer.delay <= p.refill
            && (WouldAdmit(live[key := b], p, capacity, ttl, key, later) <==> later >= now + answer.delay)
  {
    var (b, answer) := Checked(live[key], p, now);
    DelayBounds(live[key], p, now);
    TokenWait(live[key], p, now, later);
    var after := live[key := b];
    assert after.Keys == live.Keys;
    if key !in Retained(after, ttl, later) {
      ExpiredMeansRoom(after, ttl, key, later);
      TtlCovers(p, ttl, answer.delay);
    }
  }

  lemma ExpiredMeansRoom<K>(m: map<K, Bucket>, ttl: real, k: K, later: real)
    requires k in m && k !in Retained(m, ttl, later)
    ensures |Retained(m, ttl, later)| < |m.Keys|
  {
    SubsetCardinality(Retained(m, ttl, later).Keys, m.Keys - {k});
  }

  /** The shortest wait of a crowded map is exact too: until then nothing can be evicted and nothing expires. */
  lemma NoRoomDelayExact<K>(live: map<K, Bucket>, p: Policy, capacity: nat, ttl: real, key: K, now: real, later: real, d: real)
    requires AllSound(live, p, now) && |live| <= capacity && ttl >= FillTime(p) && now <= later
    requires key !in live && Crowded(live, p, capacity, now) && IsShortest(live, p, now, d)
    ensures d > 0.0 && (WouldAdmit(live, p, capacity, ttl, key, later) <==> later >= now + d)
  {
    forall k | k in live
      ensures Missing(live[k], p, now) > 0.0
      ensures IsFull(live[k], p, later) <==> later >= now + Missing(live[k], p, now)
      ensures Since(later, live[k].lastSeen) >= ttl ==> IsFull(live[k], p, later)
    {
      MissingPositive(live[k], p, now);
      FullWait(live[k], p, now, later);
      if Since(later, live[k].lastSeen) >= ttl {
        ExpiredIsFull(live[k], p, ttl, now, later);
      }
    }
    if later >= now + d {
      var k :| k in live && Missing(live[k], p, now) == d;
      if k !in Retained(live, ttl, later) {
        ExpiredMeansRoom(live, ttl, k, later);
      }
    } else {
      assert Retained(live, ttl, later) == live;
    }
  }

  /** After a refusal by one limiter, waiting the whole seconds and calling it again with nothing in between is admitted. */
  lemma BackOffSuffices<K(!new)>(live: map<K, Bucket>, p: Policy, capacity: nat, ttl: real, key: K, now: real, later: real,
                                 answer: Answer, after: map<K, Bucket>)
    requires AllSound(live, p, now) && |live| <= capacity && ttl >= FillTime(p)
    requires Answers(live, p, capacity, key, now, answer) && Leaves(live, p, capacity, key, now, answer, after)
    requires !answer.Admitted?
    ensures answer.delay > 0.0
    ensures later >= now + RetryAfter(answer.delay) as real ==> Answers(Retained(after, ttl, later), p, capacity, key, later, Admitted)
  {
    FullAdmits(p, now);
    if answer.NoRoom? {
      var d :| IsShortest(live, p, now, d) && answer.delay == if d < NANOSECOND then NANOSECOND else d;
      if later >= now + RetryAfter(answer.delay) as real {
        NoRoomDelayExact(live, p, capacity, ttl, key, now, later, d);
        AdmitsExactly(after, p, capacity, ttl, key, later);
      }
    } else {
      ThrottledDelayExact(live, p, capacity, ttl, key, now, now);
      if later >= now + RetryAfter(answer.delay) as real {
        ThrottledDelayExact(live, p, capacity, ttl, key, now, later);
        AdmitsExactly(after, p, capacity, ttl, key, later);
      }
    }
  }

  /** Whether a call is admitted is decided by the entries it finds. */
  lemma AdmittedExactly<K(!new)>(c: Settings, before: map<K, Bucket>, call: Call<K>, after: map<K, Bucket>)
    requires MapStep(c, before, call, after)
    ensures call.answer == Admitted <==> WouldAdmit(before, c.policy, c.capacity, c.ttl, call.key, call.now)
  {
    FullAdmits(c.policy, call.now);
  }

  // ---- Two limiters in turn ----

  /** The source limiter is asked first, the other only if it admits. */
  ghost predicate PairStep<A(!new), B(!new)>(cs: Settings, ct: Settings, ms: map<A, Bucket>, mt: map<B, Bucket>, s: A, t: B, now: real,
                                             first: Answer, second: Option<Answer>, ms': map<A, Bucket>, mt': map<B, Bucket>)
  {
    && MapStep(cs, ms, Call(s, now, first), ms')
    && if first.Admitted? then second.Some? && MapStep(ct, mt, Call(t, now, second.value), mt')
       else second.None? && mt' == mt
  }

  predicate BothAdmit(first: Answer, second: Option<Answer>) {
    first.Admitted? && second == Some(Admitted)
  }

  /** The whole seconds `limited` puts into the answer. */
  function Advertised(first: Answer, second: Option<Answer>): int
    requires !BothAdmit(first, second) && (first.Admitted? ==> second.Some?)
  {
    RetryAfter(if first.Admitted? then second.value.delay else first.delay)
  }

  /** Entries a run in order leaves, up to the last reading of the clock. */
  ghost predicate Reached<K(!new)>(c: Settings, m: map<K, Bucket>, clock: real) {
    exists log: seq<Call<K>>, states: seq<map<K, Bucket>> ::
      MapRun(c, log, states) && Chronological(log) && LastTime(log, clock) <= clock && Last(states) == m
  }

  lemma ReachedSound<K(!new)>(c: Settings, m: map<K, Bucket>, clock: real)
    requires Reached(c, m, clock) && KeepsLongEnough(c)
    ensures AllSound(m, c.policy, clock) && |m| <= c.capacity
  {
    var log: seq<Call<K>>, states: seq<map<K, Bucket>> :|
      MapRun(c, log, states) && Chronological(log) && LastTime(log, clock) <= clock && Last(states) == m;
    BoundedIsIdeal(c, log, states, clock);
    NeverAboveCapacity(c, log, states);
  }

  /** How long a source that has just been charged needs until it has a token again. */
  function SourceWait(b: Bucket, p: Policy): real {
    if b.tokens >= 1.0 then 0.0 else (1.0 - b.tokens) * p.refill
  }

  lemma SpentState<K(!new)>(c: Settings, before: map<K, Bucket>, key: K, now: real, after: map<K, Bucket>)
    requires AllSound(before, c.policy, now) && |before| <= c.capacity && MapStep(c, before, Call(key, now, Admitted), after)
    ensures key in after && Sound(after[key], c.policy, now) && after[key].lastSeen == now
    ensures |after| <= c.capacity
  {
    StepSize(c, before, Call(key, now, Admitted), after);
    CheckedSound(BucketFor(Retained(before, c.ttl, now), c.policy, key, now), c.policy, now);
  }

  /** A key that has an entry is admitted again when the entry has a token or has expired. */
  lemma EntryAdmits<K>(m: map<K, Bucket>, p: Policy, capacity: nat, ttl: real, key: K, later: real)
    requires key in m && |m| <= capacity
    ensures WouldAdmit(m, p, capacity, ttl, key, later) <==> Since(later, m[key].lastSeen) >= ttl || TokensAt(m[key], p, later) >= 1.0
  {
    if key !in Retained(m, ttl, later) {
      ExpiredMeansRoom(m, ttl, key, later);
    }
  }

  lemma WaitFits(b: Bucket, c: Settings)
    requires KeepsLongEnough(c) && b.tokens >= 0.0
    ensures SourceWait(b, c.policy) <= c.ttl
  {
    SpentWithin(b, c.policy);
    TtlCovers(c.policy, c.ttl, SourceWait(b, c.policy));
  }

  lemma SpentCore<K>(m: map<K, Bucket>, c: Settings, key: K, now: real, later: real, wait: real)
    requires key in m && Sound(m[key], c.policy, now) && m[key].lastSeen == now <= later && |m| <= c.capacity
    requires wait == SourceWait(m[key], c.policy) <= c.ttl
    ensures WouldAdmit(m, c.policy, c.capacity, c.ttl, key, later) <==> later >= now + wait
  {
    EntryAdmits(m, c.policy, c.capacity, c.ttl, key, later);
    SpentWait(m[key], c.policy, now, later);
  }

  /** After a call it admitted, a source is admitted again exactly from its own wait on. */
  lemma SpentExact<K(!new)>(c: Settings, before: map<K, Bucket>, key: K, now: real, after: map<K, Bucket>, later: real)
    requires Reached(c, before, now) && KeepsLongEnough(c) && MapStep(c, before, Call(key, now, Admitted), after) && now <= later
    ensures key in after && after[key].tokens >= 0.0
    ensures WouldAdmit(after, c.policy, c.capacity, c.ttl, key, later) <==> later >= now + SourceWait(after[key], c.policy)
  {
    ReachedSound(c, before, now);
    SpentState(c, before, key, now, after);
    WaitFits(after[key], c);
    SpentCore(after, c, key, now, later, SourceWait(after[key], c.policy));
  }

  lemma SpentWait(b: Bucket, p: Policy, now: real, later: real)
    requires Sound(b, p, now) && b.lastRefill == now <= later
    ensures TokensAt(b, p, later) >= 1.0 <==> later >= now + SourceWait(b, p)
  {
    JustChecked(b, p, now);
    if b.tokens >= 1.0 {
      TokensGrow(b, p, now, later);
    } else {
      ReachesLevel(b, p, now, later, 1.0);
    }
  }

  /** A refused limiter admits again from its delay on and not before, unless the delay is the least there is. */
  lemma RefusedExact<K(!new)>(c: Settings, before: map<K, Bucket>, call: Call<K>, after: map<K, Bucket>, later: real)
    requires Reached(c, before, call.now) && KeepsLongEnough(c) && MapStep(c, before, call, after)
    requires !call.answer.Admitted? && call.now <= later
    ensures call.answer.delay > 0.0
    ensures later >= call.now + call.answer.delay ==> WouldAdmit(after, c.policy, c.capacity, c.ttl, call.key, later)
    ensures call.answer.Throttled? || call.answer.delay > NANOSECOND ==>
              (later < call.now + call.answer.delay ==> !WouldAdmit(after, c.policy, c.capacity, c.ttl, call.key, later))
    ensures call.answer.NoRoom? ==> call.answer.delay >= NANOSECOND
  {
    ReachedSound(c, before, call.now);
    RetainedSmaller(before, c.ttl, call.now);
    if call.answer.NoRoom? {
      CrowdedExact(Retained(before, c.ttl, call.now), c, call, later);
    } else {
      EmptyExact(Retained(before, c.ttl, call.now), c, call, after, later);
    }
  }

  lemma CrowdedExact<K(!new)>(live: map<K, Bucket>, c: Settings, call: Call<K>, later: real)
    requires AllSound(live, c.policy, call.now) && |live| <= c.capacity && KeepsLongEnough(c) && call.now <= later
    requires Answers(live, c.policy, c.capacity, call.key, call.now, call.answer) && call.answer.NoRoom?
    ensures call.answer.delay > 0.0
    ensures later >= call.now + call.answer.delay ==> WouldAdmit(live, c.policy, c.capacity, c.ttl, call.key, later)
    ensures call.answer.delay > NANOSECOND && later < call.now + call.answer.delay ==> !WouldAdmit(live, c.policy, c.capacity, c.ttl, call.key, later)
    ensures call.answer.delay >= NANOSECOND
  {
    assert !Checked(BucketFor(live, c.policy, call.key, call.now), c.policy, call.now).1.NoRoom?;
    var d :| IsShortest(live, c.policy, call.now, d) && call.answer.delay == if d < NANOSECOND then NANOSECOND else d;
    NoRoomDelayExact(live, c.policy, c.capacity, c.ttl, call.key, call.now, later, d);
  }

  lemma EmptyExact<K(!new)>(live: map<K, Bucket>, c: Settings, call: Call<K>, after: map<K, Bucket>, later: real)
    requires AllSound(live, c.policy, call.now) && |live| <= c.capacity && KeepsLongEnough(c) && call.now <= later
    requires Answers(live, c.policy, c.capacity, call.key, call.now, call.answer) && call.answer.Throttled?
    requires Leaves(live, c.policy, c.capacity, call.key, call.now, call.answer, after)
    ensures call.answer.delay > 0.0
    ensures WouldAdmit(after, c.policy, c.capacity, c.ttl, call.key, later) <==> later >= call.now + call.answer.delay
  {
    FullAdmits(c.policy, call.now);
    ThrottledDelayExact(live, c.policy, c.capacity, c.ttl, call.key, call.now, later);
  }

  /**
   A call the second limiter refused has spent its source token. Repeated once the second limiter's delay has
   passed, it is admitted exactly if the source's own wait has passed as well.
   */
  lemma SecondRefusalRetry<A(!new), B(!new)>(cs: Settings, ct: Settings, ms: map<A, Bucket>, mt: map<B, Bucket>, s: A, t: B, now: real,
                                             second: Answer, ms': map<A, Bucket>, mt': map<B, Bucket>, later: real,
                                             first': Answer, second': Option<Answer>, ms'': map<A, Bucket>, mt'': map<B, Bucket>)
    requires KeepsLongEnough(cs) && KeepsLongEnough(ct) && Reached(cs, ms, now) && Reached(ct, mt, now)
    requires PairStep(cs, ct, ms, mt, s, t, now, Admitted, Some(second), ms', mt') && !second.Admitted?
    requires later >= now + second.delay && later >= now
    requires PairStep(cs, ct, ms', mt', s, t, later, first', second', ms'', mt'')
    ensures s in ms'
    ensures BothAdmit(first', second') <==> later >= now + SourceWait(ms'[s], cs.policy)
  {
    SpentExact(cs, ms, s, now, ms', later);
    RefusedExact(ct, mt, Call(t, now, second), mt', later);
    AdmittedExactly(cs, ms', Call(s, later, first'), ms'');
    if first'.Admitted? {
      AdmittedExactly(ct, mt', Call(t, later, second'.value), mt'');
    }
  }

  /** A call the source limiter refused left the other untouched: once the delay has passed it is up to that one. */
  lemma FirstRefusalRetry<A(!new), B(!new)>(cs: Settings, ct: Settings, ms: map<A, Bucket>, mt: map<B, Bucket>, s: A, t: B, now: real,
                                            first: Answer, ms': map<A, Bucket>, mt': map<B, Bucket>, later: real,
                                            first': Answer, second': Option<Answer>, ms'': map<A, Bucket>, mt'': map<B, Bucket>)
    requires KeepsLongEnough(cs) && Reached(cs, ms, now)
    requires PairStep(cs, ct, ms, mt, s, t, now, first, None, ms', mt')
    requires !first.Admitted? && later >= now + first.delay && later >= now
    requires PairStep(cs, ct, ms', mt', s, t, later, first', second', ms'', mt'')
    ensures mt' == mt && first'.Admitted?
    ensures BothAdmit(first', second') <==> WouldAdmit(mt, ct.policy, ct.capacity, ct.ttl, t, later)
  {
    RefusedExact(cs, ms, Call(s, now, first), ms', later);
    AdmittedExactly(cs, ms', Call(s, later, first'), ms'');
    AdmittedExactly(ct, mt', Call(t, later, second'.value), mt'');
  }

  lemma SpentWithin(b: Bucket, p: Policy)
    requires b.tokens >= 0.0
    ensures SourceWait(b, p) <= p.refill
  {
    if b.tokens < 1.0 {
      Proportion(1.0 - b.tokens, p.refill);
    }
  }

  // ---- The limiters in service ----

  const HOUR_TTL: real := 3600.0
  const CREATE_SOURCE: Policy := Limits(24, 5.0)
  const CREATE_DEVICE: Policy := Limits(6, 30.0)
  const POLL_SOURCE: Policy := Limits(240, 0.25)
  const POLL_REQUEST: Policy := Limits(30, 1.0)
  const ACTIVATE_SOURCE: Policy := Limits(16, 5.0)
  const ACTIVATE_REQUEST: Policy := Limits(6, 30.0)
  const INVITE_ACCOUNT: Policy := Limits(32, 10.0)

  /** Client reports: 64 at once, 16 a second, entries kept for a quarter of an hour (http.rs). */
  const REPORTS: Policy := Limits(64, 1.0 / 16.0)
  const REPORT_TTL: real := 900.0

  /** The report limiter writes the same bucket with a rate instead of an interval. */
  lemma ReportBucketsAreTheSame(b: Bucket, now: real)
    ensures TokensAt(b, REPORTS, now) == MinReal(b.tokens + Since(now, b.lastRefill) * 16.0, 64.0)
    ensures Checked(b, REPORTS, now).1.Throttled? ==>
              Checked(b, REPORTS, now).1.delay == (1.0 - TokensAt(b, REPORTS, now)) / 16.0
    ensures Missing(b, REPORTS, now) == (64.0 - TokensAt(b, REPORTS, now)) / 16.0
  {
    Sixteenths(Since(now, b.lastRefill));
  }

  lemma Sixteenths(x: real)
    ensures x / (1.0 / 16.0) == x * 16.0
  {
    var q := x / (1.0 / 16.0);
    assert q * (1.0 / 16.0) == x;
  }

  /** Every limiter in service keeps an entry for at least the time its bucket takes to fill. */
  lemma ProductionKeepsLongEnough()
    ensures forall p | p in {CREATE_SOURCE, CREATE_DEVICE, POLL_SOURCE, POLL_REQUEST, ACTIVATE_SOURCE, ACTIVATE_REQUEST, INVITE_ACCOUNT} ::
              HOUR_TTL >= FillTime(p)
    ensures REPORT_TTL >= FillTime(REPORTS)
  {
  }

  const SOURCES: nat := 4096
  const IDENTIFIERS: nat := 8192

  function Serving(p: Policy, capacity: nat): Settings
    requires capacity > 0
  {
    Limited(p, capacity, HOUR_TTL)
  }

  /**
   `check_create`, `check_poll` and `check_activation`: the source first, then the device or the request. A call
   the second limiter refuses has already spent its source token.
   */
  method CheckBoth<A(==, !new), B(==, !new)>(sources: BoundedBuckets<A>, targets: BoundedBuckets<B>, source: A, target: B, now: real)
    returns (ghost first: Answer, ghost second: Option<Answer>, retryAfter: Option<int>)
    requires sources as object != targets as object
    requires sources.Valid() && targets.Valid()
    modifies sources, targets
    ensures sources.Valid() && targets.Valid()
    ensures PairStep(sources.settings, targets.settings, old(sources.entries), old(targets.entries), source, target, now,
                     first, second, sources.entries, targets.entries)
    ensures retryAfter == if BothAdmit(first, second) then None else Some(Advertised(first, second))
  {
    var answer := sources.CheckAt(source, now);
    first, second, retryAfter := answer, None, None;
    if !answer.Admitted? {
      retryAfter := Some(RetryAfter(answer.delay));
    } else {
      answer := targets.CheckAt(target, now);
      second := Some(answer);
      if !answer.Admitted? {
        retryAfter := Some(RetryAfter(answer.delay));
      }
    }
  }
}
