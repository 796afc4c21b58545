/** Runs of calls that ask two limiters in turn, and whether the seconds they advertise are enough. */
module PairedCalls {
  import opened Basics
  import opened Limiter
  import opened Bounded
  import opened RateLimit
  import opened BackOff

  // ---- One run of paired calls ----

  datatype PairCall<A, B> = PairCall(s: A, t: B, now: real, first: Answer, second: Option<Answer>)

  /** The calls since both maps were empty, and both maps after each. */
  datatype Trace<A, B> = Fresh | After(before: Trace<A, B>, call: PairCall<A, B>, sources: map<A, Bucket>, targets: map<B, Bucket>)

  function SourcesOf<A, B>(r: Trace<A, B>): map<A, Bucket> {
    if r.Fresh? then map[] else r.sources
  }

  function TargetsOf<A, B>(r: Trace<A, B>): map<B, Bucket> {
    if r.Fresh? then map[] else r.targets
  }

  predicate Until<A, B>(r: Trace<A, B>, clock: real) {
    r.After? ==> r.call.now <= clock
  }

  ghost predicate PairCalled<A(!new), B(!new)>(cs: Settings, ct: Settings, c: PairCall<A, B>,
                                               ms: map<A, Bucket>, mt: map<B, Bucket>, ms': map<A, Bucket>, mt': map<B, Bucket>)
  {
    PairStep(cs, ct, ms, mt, c.s, c.t, c.now, c.first, c.second, ms', mt')
  }

  /** The last call was made of the maps before it, no earlier than the call before. */
  ghost predicate Linked<A(!new), B(!new)>(cs: Settings, ct: Settings, r: Trace<A, B>) {
    r.After? ==>
      && Until(r.before, r.call.now)
      && PairCalled(cs, ct, r.call, SourcesOf(r.before), TargetsOf(r.before), r.sources, r.targets)
  }

  /** The run without its last `n` calls. */
  function Back<A, B>(r: Trace<A, B>, n: nat): Trace<A, B> {
    if n == 0 || r.Fresh? then r else Back(r.before, n - 1)
  }

  /** Paired calls in order. */
  ghost predicate PairRun<A(!new), B(!new)>(cs: Settings, ct: Settings, r: Trace<A, B>) {
    forall n: nat {:trigger Back(r, n)} :: Linked(cs, ct, Back(r, n))
  }

  lemma RunBefore<A(!new), B(!new)>(cs: Settings, ct: Settings, r: Trace<A, B>)
    requires PairRun(cs, ct, r) && r.After?
    ensures Linked(cs, ct, r) && PairRun(cs, ct, r.before)
  {
    assert Back(r, 0) == r;
    forall n: nat
      ensures Linked(cs, ct, Back(r.before, n))
    {
      assert Back(r, n + 1) == Back(r.before, n);
    }
  }

  lemma RunAfter<A(!new), B(!new)>(cs: Settings, ct: Settings, r: Trace<A, B>)
    requires r.After? && Linked(cs, ct, r) && PairRun(cs, ct, r.before)
    ensures PairRun(cs, ct, r)
  {
    forall n: nat
      ensures Linked(cs, ct, Back(r, n))
    {
      if n > 0 {
        assert Back(r, n) == Back(r.before, n - 1);
      }
    }
  }

  lemma NoCalls<A(!new), B(!new)>(cs: Settings, ct: Settings, r: Trace<A, B>)
    requires r.Fresh?
    ensures PairRun(cs, ct, r)
  {
  }

  /** A run of paired calls that has come to these maps. */
  ghost predicate Leads<A(!new), B(!new)>(cs: Settings, ct: Settings, r: Trace<A, B>, ms: map<A, Bucket>, mt: map<B, Bucket>, clock: real) {
    PairRun(cs, ct, r) && SourcesOf(r) == ms && TargetsOf(r) == mt && Until(r, clock)
  }

  lemma PairNext<A(!new), B(!new)>(cs: Settings, ct: Settings, r: Trace<A, B>, ms: map<A, Bucket>, mt: map<B, Bucket>, clock: real,
                                   c: PairCall<A, B>, ms': map<A, Bucket>, mt': map<B, Bucket>)
    requires Leads(cs, ct, r, ms, mt, clock) && clock <= c.now && PairCalled(cs, ct, c, ms, mt, ms', mt')
    ensures Leads(cs, ct, After(r, c, ms', mt'), ms', mt', c.now)
  {
    RunAfter(cs, ct, After(r, c, ms', mt'));
  }

  function Only<K(==)>(key: K, tokens: real, now: real): map<K, Bucket> {
    map[key := Bucket(tokens, now, now)]
  }

  // ---- Whether the advertised seconds are enough, over all runs ----

  lemma InOrderSnoc<K>(log: seq<Call<K>>, call: Call<K>)
    requires Chronological(log) && LastTime(log, call.now) <= call.now
    ensures Chronological(log + [call]) && LastTime(log + [call], call.now) == call.now
  {
  }

  lemma ReachedNext<K(!new)>(c: Settings, m: map<K, Bucket>, call: Call<K>, m': map<K, Bucket>, clock: real)
    requires Reached(c, m, call.now) && MapStep(c, m, call, m') && call.now <= clock
    ensures Reached(c, m', clock)
  {
    var log: seq<Call<K>>, states: seq<map<K, Bucket>> :|
      MapRun(c, log, states) && Chronological(log) && LastTime(log, call.now) <= call.now && Last(states) == m;
    RunSnoc(c, log, states, call, m');
    InOrderSnoc(log, call);
    RunReaches(c, log + [call], states + [m'], m', clock);
  }

  lemma RunReaches<K(!new)>(c: Settings, log: seq<Call<K>>, states: seq<map<K, Bucket>>, m: map<K, Bucket>, clock: real)
    requires MapRun(c, log, states) && Chronological(log) && LastTime(log, clock) <= clock && Last(states) == m
    ensures Reached(c, m, clock)
  {
  }

  /** Each of the two maps has gone through a run in order of its own. */
  lemma {:induction false} BothReached<A(!new), B(!new)>(cs: Settings, ct: Settings, r: Trace<A, B>, clock: real)
    requires PairRun(cs, ct, r) && Until(r, clock)
    ensures Reached(cs, SourcesOf(r), clock) && Reached(ct, TargetsOf(r), clock)
  {
    if r.Fresh? {
      var none: map<A, Bucket>, nothing: map<B, Bucket> := map[], map[];
      RunReaches(cs, [], [none], none, clock);
      RunReaches(ct, [], [nothing], nothing, clock);
    } else {
      var c := r.call;
      RunBefore(cs, ct, r);
      BothReached(cs, ct, r.before, c.now);
      BothReached(cs, ct, r.before, clock);
      ReachedNext(cs, SourcesOf(r.before), Call(c.s, c.now, c.first), r.sources, clock);
      if c.first.Admitted? {
        ReachedNext(ct, TargetsOf(r.before), Call(c.t, c.now, c.second.value), r.targets, clock);
      }
    }
  }

  predicate SecondRefuses<A, B>(c: PairCall<A, B>) {
    c.first.Admitted? && c.second.Some? && !c.second.value.Admitted?
  }

  /** A run of paired calls whose last was admitted by the first limiter and refused by the second. */
  ghost predicate EndsRefused<A(!new), B(!new)>(cs: Settings, ct: Settings, r: Trace<A, B>) {
    PairRun(cs, ct, r) && r.After? && SecondRefuses(r.call)
  }

  /** Both limiters would admit the last call if it were repeated at `later`. */
  ghost predicate RetryAdmitted<A(!new), B(!new)>(cs: Settings, ct: Settings, r: Trace<A, B>, later: real)
    requires EndsRefused(cs, ct, r)
  {
    && WouldAdmit(r.sources, cs.policy, cs.capacity, cs.ttl, r.call.s, later)
    && WouldAdmit(r.targets, ct.policy, ct.capacity, ct.ttl, r.call.t, later)
  }

  function Told<A, B>(c: PairCall<A, B>): real
    requires SecondRefuses(c)
  {
    Advertised(c.first, c.second) as real
  }

  /** Whatever calls came before a refusal by the second limiter, the advertised seconds are enough for both to admit. */
  ghost predicate SecondsSuffice<A(!new), B(!new)>(cs: Settings, ct: Settings) {
    forall r: Trace<A, B>, later: real ::
      EndsRefused(cs, ct, r) && later >= r.call.now + Told(r.call) ==> RetryAdmitted(cs, ct, r, later)
  }

  /**
   For every pair of policies: the seconds are enough if a source gains a token within one second. If the first map has
   room for two sources and a source may ask as often at once as the target admits, they are enough only then.
   */
  lemma SecondsSufficeExactly<A(!new), B(!new)>(cs: Settings, ct: Settings, one: A, other: A, t: B)
    requires KeepsLongEnough(cs) && KeepsLongEnough(ct)
    ensures cs.policy.refill <= 1.0 ==> SecondsSuffice<A, B>(cs, ct)
    ensures one != other && cs.capacity >= 2 && cs.policy.burst >= ct.policy.burst ==>
              (SecondsSuffice<A, B>(cs, ct) <==> cs.policy.refill <= 1.0)
  {
    if cs.policy.refill <= 1.0 {
      QuickSources<A, B>(cs, ct);
    } else if one != other && cs.capacity >= 2 && cs.policy.burst >= ct.policy.burst {
      var r, now := SlowSource(cs, ct, one, other, t);
      NotEnough(cs, ct, r, now + 1.0);
    }
  }

  lemma QuickSources<A(!new), B(!new)>(cs: Settings, ct: Settings)
    requires KeepsLongEnough(cs) && KeepsLongEnough(ct) && cs.policy.refill <= 1.0
    ensures SecondsSuffice<A, B>(cs, ct)
  {
    forall r: Trace<A, B>, later: real | EndsRefused(cs, ct, r) && later >= r.call.now + Told(r.call)
      ensures RetryAdmitted(cs, ct, r, later)
    {
      QuickRetry(cs, ct, r, later);
    }
  }

  lemma NotEnough<A(!new), B(!new)>(cs: Settings, ct: Settings, r: Trace<A, B>, later: real)
    requires EndsRefused(cs, ct, r) && later >= r.call.now + Told(r.call)
    requires !RetryAdmitted(cs, ct, r, later)
    ensures !SecondsSuffice<A, B>(cs, ct)
  {
  }

  lemma QuickRetry<A(!new), B(!new)>(cs: Settings, ct: Settings, r: Trace<A, B>, later: real)
    requires KeepsLongEnough(cs) && KeepsLongEnough(ct) && cs.policy.refill <= 1.0
    requires EndsRefused(cs, ct, r) && later >= r.call.now + Told(r.call)
    ensures RetryAdmitted(cs, ct, r, later)
  {
    var c, before := r.call, r.before;
    RunBefore(cs, ct, r);
    BothReached(cs, ct, before, c.now);
    QuickSource(cs, SourcesOf(before), c.s, c.now, r.sources, later);
    RefusedExact(ct, TargetsOf(before), Call(c.t, c.now, c.second.value), r.targets, later);
  }

  lemma QuickSource<K(!new)>(c: Settings, before: map<K, Bucket>, key: K, now: real, after: map<K, Bucket>, later: real)
    requires Reached(c, before, now) && KeepsLongEnough(c) && MapStep(c, before, Call(key, now, Admitted), after)
    requires c.policy.refill <= 1.0 && later >= now + 1.0
    ensures WouldAdmit(after, c.policy, c.capacity, c.ttl, key, later)
  {
    SpentExact(c, before, key, now, after, later);
    SpentWithin(after[key], c.policy);
  }

  // ---- A source that gains a token in more than a second ----

  /** A call with these keys alone in both maps: levels `a` and `b`. */
  lemma LonePair<A(!new), B(!new)>(cs: Settings, ct: Settings, r: Trace<A, B>, ms: map<A, Bucket>, mt: map<B, Bucket>, clock: real,
                                   s: A, t: B, now: real, a: real, b: real) returns (r': Trace<A, B>)
    requires Leads(cs, ct, r, ms, mt, clock) && clock <= now && ms.Keys <= {s} && mt.Keys <= {t}
    requires a == TokensAt(BucketFor(Retained(ms, cs.ttl, now), cs.policy, s, now), cs.policy, now) >= 1.0
    requires b == TokensAt(BucketFor(Retained(mt, ct.ttl, now), ct.policy, t, now), ct.policy, now)
    ensures Leads(cs, ct, r', Only(s, a - 1.0, now), map[t := Spend(b, ct.policy, now).0], now)
  {
    var answer := Spend(b, ct.policy, now).1;
    LoneStep(cs, ms, s, now);
    LoneStep(ct, mt, t, now);
    PairNext(cs, ct, r, ms, mt, clock, PairCall(s, t, now, Admitted, Some(answer)), Only(s, a - 1.0, now), map[t := Spend(b, ct.policy, now).0]);
    r' := After(r, PairCall(s, t, now, Admitted, Some(answer)), Only(s, a - 1.0, now), map[t := Spend(b, ct.policy, now).0]);
  }

  lemma AtOnce<A(!new), B(!new)>(cs: Settings, ct: Settings, r: Trace<A, B>, s: A, t: B, now: real, a: real, b: real, b': real)
    returns (r': Trace<A, B>)
    requires Leads(cs, ct, r, Only(s, a, now), Only(t, b, now), now)
    requires 1.0 <= a <= cs.policy.burst as real && b <= ct.policy.burst as real && b' == if b < 1.0 then b else b - 1.0
    ensures Leads(cs, ct, r', Only(s, a - 1.0, now), Only(t, b', now), now)
  {
    JustChecked(Bucket(a, now, now), cs.policy, now);
    JustChecked(Bucket(b, now, now), ct.policy, now);
    r' := LonePair(cs, ct, r, Only(s, a, now), Only(t, b, now), now, s, t, now, a, b);
  }

  /** Calls at one moment that both admit. */
  lemma {:induction false} BothTimes<A(!new), B(!new)>(cs: Settings, ct: Settings, r: Trace<A, B>, s: A, t: B, now: real, a: real, b: real,
                                                       n: nat, a': real, b': real) returns (r': Trace<A, B>)
    requires Leads(cs, ct, r, Only(s, a, now), Only(t, b, now), now)
    requires n as real <= a <= cs.policy.burst as real && n as real <= b <= ct.policy.burst as real && a' == a - n as real && b' == b - n as real
    ensures Leads(cs, ct, r', Only(s, a', now), Only(t, b', now), now)
    decreases n
  {
    r' := r;
    if n > 0 {
      r' := AtOnce(cs, ct, r, s, t, now, a, b, b - 1.0);
      r' := BothTimes(cs, ct, r', s, t, now, a - 1.0, b - 1.0, n - 1, a', b');
    }
  }

  /** Calls at one moment that the target refuses: each has spent a token of the source. */
  lemma {:induction false} SourceTimes<A(!new), B(!new)>(cs: Settings, ct: Settings, r: Trace<A, B>, s: A, t: B, now: real, a: real, b: real,
                                                         n: nat, a': real) returns (r': Trace<A, B>)
    requires Leads(cs, ct, r, Only(s, a, now), Only(t, b, now), now)
    requires n as real <= a <= cs.policy.burst as real && b < 1.0 && a' == a - n as real
    ensures Leads(cs, ct, r', Only(s, a', now), Only(t, b, now), now)
    decreases n
  {
    r' := r;
    if n > 0 {
      r' := AtOnce(cs, ct, r, s, t, now, a, b, b);
      r' := SourceTimes(cs, ct, r', s, t, now, a - 1.0, b, n - 1, a');
    }
  }

  /** A call the source can pay for and the target refuses. */
  lemma RefusedCall<A(!new), B(!new)>(cs: Settings, ct: Settings, r: Trace<A, B>, ms: map<A, Bucket>, mt: map<B, Bucket>, clock: real,
                                      s: A, t: B, now: real, level: real, delay: real, mt': map<B, Bucket>)
    returns (r': Trace<A, B>, ms': map<A, Bucket>)
    requires Leads(cs, ct, r, ms, mt, clock) && clock <= now && delay > 0.0
    requires s in Retained(ms, cs.ttl, now) || |Retained(ms, cs.ttl, now)| < cs.capacity
    requires level == TokensAt(BucketFor(Retained(ms, cs.ttl, now), cs.policy, s, now), cs.policy, now) >= 1.0
    requires MapStep(ct, mt, Call(t, now, Throttled(delay)), mt')
    ensures Leads(cs, ct, r', ms', mt', now) && r'.After? && r'.call == PairCall(s, t, now, Admitted, Some(Throttled(delay)))
    ensures s in ms' && ms'[s] == Bucket(level - 1.0, now, now)
  {
    OpenStep(cs, ms, s, now);
    ms' := Retained(ms, cs.ttl, now)[s := Bucket(level - 1.0, now, now)];
    PairNext(cs, ct, r, ms, mt, clock, PairCall(s, t, now, Admitted, Some(Throttled(delay))), ms', mt');
    r' := After(r, PairCall(s, t, now, Admitted, Some(Throttled(delay))), ms', mt');
  }

  /** The source spends the rest of its tokens at once on calls the target refuses. */
  lemma {:induction false} Exhaust<A(!new), B(!new)>(cs: Settings, ct: Settings, r: Trace<A, B>, ms: map<A, Bucket>, s: A, t: B, now: real,
                                                     x: real, delay: real, n: nat)
    returns (r': Trace<A, B>, ms': map<A, Bucket>)
    requires Leads(cs, ct, r, ms, Only(t, x, now), now) && r.After?
    requires r.call == PairCall(s, t, now, Admitted, Some(Throttled(delay)))
    requires s in ms && ms[s] == Bucket(n as real, now, now) && n <= cs.policy.burst
    requires delay > 0.0 && MapStep(ct, Only(t, x, now), Call(t, now, Throttled(delay)), Only(t, x, now))
    ensures Leads(cs, ct, r', ms', Only(t, x, now), now) && r'.After?
    ensures r'.call == PairCall(s, t, now, Admitted, Some(Throttled(delay)))
    ensures s in ms' && ms'[s] == Bucket(0.0, now, now)
    decreases n
  {
    r', ms' := r, ms;
    if n > 0 {
      JustChecked(ms[s], cs.policy, now);
      r', ms' := RefusedCall(cs, ct, r, ms, Only(t, x, now), now, s, t, now, n as real, delay, Only(t, x, now));
      assert n as real - 1.0 == (n - 1) as real;
      r', ms' := Exhaust(cs, ct, r', ms', s, t, now, x, delay, n - 1);
    }
  }

  lemma SameRefusal<K(!new)>(c: Settings, key: K, x: real, now: real)
    requires x < 1.0
    ensures MapStep(c, Only(key, x, now), Call(key, now, Throttled((1.0 - x) * c.policy.refill)), Only(key, x, now))
  {
    JustChecked(Bucket(x, now, now), c.policy, now);
    LoneStep(c, Only(key, x, now), key, now);
  }

  lemma ThrottledStep<K(!new)>(c: Settings, m: map<K, Bucket>, key: K, now: real, gone: real, x: real)
    requires m == map[key := Bucket(0.0, now - gone, now - gone)] && 0.0 < gone < c.ttl
    requires gone / c.policy.refill == x < 1.0
    ensures MapStep(c, m, Call(key, now, Throttled((1.0 - x) * c.policy.refill)), map[key := Bucket(x, now, now)])
  {
    assert Retained(m, c.ttl, now) == m;
    LoneStep(c, m, key, now);
  }

  lemma PartOf(x: real, r: real)
    requires 0.0 < x < 1.0 && r > 0.0
    ensures 0.0 < x * r < r && x * r / r == x
  {
    Proportion(x, r);
    PositiveProduct(1.0 - x, r);
    assert (1.0 - x) * r == r - x * r;
  }

  /** A share of the interval that leaves at most a second of it. */
  lemma ShortDelay(r: real) returns (x: real, gone: real, delay: real)
    requires r > 0.0
    ensures 0.0 < gone < r && gone / r == x < 1.0
    ensures delay == (1.0 - x) * r && 0.0 < delay <= 1.0 && RetryAfter(delay) == 1
  {
    if r <= 1.0 {
      x := 0.5;
    } else {
      x := 1.0 - 0.5 / r;
      assert 0.5 / r * r == 0.5;
      Share(0.5, r, 1.0);
      Share(0.5, r, 0.0);
    }
    PartOf(x, r);
    gone, delay := x * r, (1.0 - x) * r;
    assert delay == r - gone;
  }

  lemma FirstPair<A(!new), B(!new)>(cs: Settings, ct: Settings, s: A, t: B, a: real, b: real) returns (r: Trace<A, B>)
    requires a == cs.policy.burst as real && b == ct.policy.burst as real
    ensures Leads(cs, ct, r, Only(s, a - 1.0, 0.0), Only(t, b - 1.0, 0.0), 0.0)
  {
    var none: map<A, Bucket>, nothing: map<B, Bucket> := map[], map[];
    JustChecked(FullBucket(cs.policy, 0.0), cs.policy, 0.0);
    JustChecked(FullBucket(ct.policy, 0.0), ct.policy, 0.0);
    NoCalls<A, B>(cs, ct, Fresh);
    r := LonePair(cs, ct, Fresh, none, nothing, 0.0, s, t, 0.0, a, b);
  }

  /** All the target's tokens are taken at once, each by a call both admit. */
  lemma EmptyTarget<A(!new), B(!new)>(cs: Settings, ct: Settings, s: A, t: B, left: real) returns (r: Trace<A, B>)
    requires cs.policy.burst >= ct.policy.burst && left == (cs.policy.burst - ct.policy.burst) as real
    ensures Leads(cs, ct, r, Only(s, left, 0.0), Only(t, 0.0, 0.0), 0.0)
  {
    var a, b := cs.policy.burst as real, ct.policy.burst as real;
    r := FirstPair(cs, ct, s, t, a, b);
    r := BothTimes(cs, ct, r, s, t, 0.0, a - 1.0, b - 1.0, ct.policy.burst - 1, left, 0.0);
  }

  /** Another source has emptied the target; this one's first call is refused within the last second of the target's wait. */
  lemma FirstRefused<A(!new), B(!new)>(cs: Settings, ct: Settings, s: A, other: A, t: B, x: real, now: real, delay: real)
    returns (r: Trace<A, B>, ms: map<A, Bucket>)
    requires s != other && cs.capacity >= 2 && cs.policy.burst >= ct.policy.burst
    requires now > 0.0 && delay > 0.0 && MapStep(ct, Only(t, 0.0, 0.0), Call(t, now, Throttled(delay)), Only(t, x, now))
    ensures Leads(cs, ct, r, ms, Only(t, x, now), now) && r.After?
    ensures r.call == PairCall(s, t, now, Admitted, Some(Throttled(delay)))
    ensures s in ms && ms[s] == Bucket((cs.policy.burst - 1) as real, now, now)
  {
    var left := (cs.policy.burst - ct.policy.burst) as real;
    r := EmptyTarget(cs, ct, other, t, left);
    FirstOfBurst(cs, Only(other, left, 0.0), s, other, now);
    r, ms := RefusedCall(cs, ct, r, Only(other, left, 0.0), Only(t, 0.0, 0.0), 0.0, s, t, now, cs.policy.burst as real, delay, Only(t, x, now));
  }

  /** The source spends its whole burst within the last second of the target's wait. */
  lemma SlowSource<A(!new), B(!new)>(cs: Settings, ct: Settings, s: A, other: A, t: B) returns (r: Trace<A, B>, now: real)
    requires KeepsLongEnough(cs) && KeepsLongEnough(ct) && cs.policy.refill > 1.0
    requires s != other && cs.capacity >= 2 && cs.policy.burst >= ct.policy.burst
    ensures EndsRefused(cs, ct, r) && r.call.now == now && Told(r.call) == 1.0
    ensures !RetryAdmitted(cs, ct, r, now + 1.0)
  {
    var ms, x, delay;
    x, now, delay := ShortDelay(ct.policy.refill);
    TtlCovers(ct.policy, ct.ttl, ct.policy.refill);
    ThrottledStep(ct, Only(t, 0.0, 0.0), t, now, now, x);
    r, ms := FirstRefused(cs, ct, s, other, t, x, now, delay);
    SameRefusal(ct, t, x, now);
    r, ms := Exhaust(cs, ct, r, ms, s, t, now, x, delay, cs.policy.burst - 1);
    BothReached(cs, ct, r, now);
    SpentSource(cs, ms, s, now);
  }

  lemma FirstOfBurst<K(!new)>(c: Settings, m: map<K, Bucket>, key: K, other: K, now: real)
    requires m.Keys == {other} && key != other && c.capacity >= 2
    ensures key !in Retained(m, c.ttl, now) && |Retained(m, c.ttl, now)| < c.capacity
    ensures TokensAt(BucketFor(Retained(m, c.ttl, now), c.policy, key, now), c.policy, now) == c.policy.burst as real
  {
    SubsetCardinality(Retained(m, c.ttl, now).Keys, {other});
    JustChecked(FullBucket(c.policy, now), c.policy, now);
  }

  lemma SpentSource<K(!new)>(c: Settings, m: map<K, Bucket>, key: K, now: real)
    requires Reached(c, m, now) && KeepsLongEnough(c) && c.policy.refill > 1.0
    requires key in m && m[key] == Bucket(0.0, now, now)
    ensures !WouldAdmit(m, c.policy, c.capacity, c.ttl, key, now + 1.0)
  {
    ReachedSound(c, m, now);
    EmptyWait(m[key], c.policy);
    WaitFits(m[key], c);
    SpentLater(m, c, key, now, c.policy.refill);
  }

  lemma EmptyWait(b: Bucket, p: Policy)
    requires b.tokens == 0.0
    ensures SourceWait(b, p) == p.refill
  {
  }

  lemma SpentLater<K>(m: map<K, Bucket>, c: Settings, key: K, now: real, wait: real)
    requires key in m && Sound(m[key], c.policy, now) && m[key].lastSeen == now && |m| <= c.capacity
    requires 1.0 < wait == SourceWait(m[key], c.policy) <= c.ttl
    ensures !WouldAdmit(m, c.policy, c.capacity, c.ttl, key, now + 1.0)
  {
    SpentCore(m, c, key, now, now + 1.0, wait);
  }

  // ---- A first limiter so small that the second never refuses ----

  /** The first map has a single slot that holds a single token, and fills it no faster than the second fills a bucket. */
  predicate OneSlot(cs: Settings, ct: Settings) {
    cs.capacity == 1 && cs.policy.burst == 1 && cs.policy.refill >= FillTime(ct.policy)
  }

  /** The only entry has no token before one interval after `paid`. */
  ghost predicate Waits<K(!new)>(c: Settings, m: map<K, Bucket>, paid: real, clock: real) {
    exists key :: m.Keys == {key} && EmptyUntil(m[key], c.policy, paid, clock)
  }

  ghost predicate EmptyUntil(b: Bucket, p: Policy, paid: real, clock: real) {
    && Sound(b, p, clock) && paid <= b.lastSeen
    && forall later: real :: later >= clock && TokensAt(b, p, later) >= 1.0 ==> later >= paid + p.refill
  }

  lemma JustPaid(p: Policy, now: real)
    ensures EmptyUntil(Bucket(0.0, now, now), p, now, now)
  {
    forall later: real | later >= now && TokensAt(Bucket(0.0, now, now), p, later) >= 1.0
      ensures later >= now + p.refill
    {
      JustChecked(Bucket(0.0, now, now), p, now);
      ReachesLevel(Bucket(0.0, now, now), p, now, later, 1.0);
    }
  }

  lemma StillWaits(b: Bucket, p: Policy, paid: real, clock: real, now: real)
    requires EmptyUntil(b, p, paid, clock) && clock <= now && TokensAt(b, p, now) < 1.0
    ensures EmptyUntil(Checked(b, p, now).0, p, paid, now)
  {
    var b' := Checked(b, p, now).0;
    TokensGrow(b, p, now, now);
    JustChecked(b', p, now);
    forall later: real | later >= now && TokensAt(b', p, later) >= 1.0
      ensures later >= paid + p.refill
    {
      ReachesLevel(b', p, now, later, 1.0);
      ReachesLevel(b, p, now, later, 1.0);
    }
  }

  /** Whatever key asks, the slot is granted only one interval after it was last paid for. */
  lemma SlotGranted<K(!new)>(c: Settings, m: map<K, Bucket>, paid: real, clock: real, key: K, now: real, after: map<K, Bucket>)
    requires c.capacity == 1 && c.policy.burst == 1 && KeepsLongEnough(c)
    requires Waits(c, m, paid, clock) && clock <= now && MapStep(c, m, Call(key, now, Admitted), after)
    ensures now >= paid + c.policy.refill
  {
    var k :| m.Keys == {k} && EmptyUntil(m[k], c.policy, paid, clock);
    var live := Retained(m, c.ttl, now);
    if k !in live {
      assert Since(now, m[k].lastSeen) >= c.ttl;
    } else {
      assert live == m;
    }
  }

  lemma SlotTaken<K(!new)>(c: Settings, m: map<K, Bucket>, key: K, now: real, after: map<K, Bucket>)
    requires c.capacity == 1 && c.policy.burst == 1 && |m| <= 1 && MapStep(c, m, Call(key, now, Admitted), after)
    ensures Waits(c, after, now, now)
  {
    var live := Retained(m, c.ttl, now);
    RetainedSmaller(m, c.ttl, now);
    var b := Checked(BucketFor(live, c.policy, key, now), c.policy, now).0;
    var base :| RoomMade(live, base, c.policy, c.capacity, key, now) && after == base[key := b];
    SlotBase(c, live, base, key, now);
    assert after.Keys == {key} && after[key] == Bucket(0.0, now, now);
    JustPaid(c.policy, now);
  }

  lemma SlotBase<K(!new)>(c: Settings, live: map<K, Bucket>, base: map<K, Bucket>, key: K, now: real)
    requires c.capacity == 1 && |live| <= 1 && RoomMade(live, base, c.policy, c.capacity, key, now)
    ensures base.Keys <= {key}
  {
    forall k | k in base
      ensures k == key
    {
      if k != key {
        SubsetCardinality({k}, live.Keys);
        if key in live {
          SubsetCardinality({k, key}, live.Keys);
        } else {
          var victim :| IsOldestFull(live, c.policy, now, victim) && base == live - {victim};
          SubsetCardinality({k, victim}, live.Keys);
        }
      }
    }
  }

  lemma SlotRefused<K(!new)>(c: Settings, m: map<K, Bucket>, paid: real, clock: real, call: Call<K>, after: map<K, Bucket>)
    requires c.capacity == 1 && Waits(c, m, paid, clock) && clock <= call.now
    requires MapStep(c, m, call, after) && !call.answer.Admitted?
    ensures Waits(c, after, paid, call.now)
  {
    var k :| m.Keys == {k} && EmptyUntil(m[k], c.policy, paid, clock);
    var live := Retained(m, c.ttl, call.now);
    FullAdmits(c.policy, call.now);
    if call.answer.NoRoom? {
      assert live == m;
      assert EmptyUntil(m[k], c.policy, paid, call.now);
    } else {
      assert call.key == k && live == m;
      StillWaits(m[k], c.policy, paid, clock, call.now);
      assert after.Keys == {k};
    }
  }

  /** All entries have filled up since. */
  lemma TargetAdmits<K(!new)>(c: Settings, m: map<K, Bucket>, paid: real, call: Call<K>, after: map<K, Bucket>)
    requires AllSound(m, c.policy, paid) && |m| <= c.capacity && call.now >= paid + FillTime(c.policy) && MapStep(c, m, call, after)
    ensures call.answer == Admitted
  {
    var live := Retained(m, c.ttl, call.now);
    RetainedSmaller(m, c.ttl, call.now);
    FullAdmits(c.policy, call.now);
    AllFull(live, c.policy, paid, call.now);
  }

  lemma AllFull<K>(m: map<K, Bucket>, p: Policy, since: real, now: real)
    requires AllSound(m, p, since) && now >= since + FillTime(p)
    ensures forall k <- m :: IsFull(m[k], p, now)
  {
    forall k | k in m
      ensures IsFull(m[k], p, now)
    {
      FullLater(m[k], p, since, now);
    }
  }

  lemma FullLater(b: Bucket, p: Policy, since: real, now: real)
    requires Sound(b, p, since) && now >= since + FillTime(p)
    ensures IsFull(b, p, now)
  {
    FullAfter(b, p, now);
  }

  lemma FirstCall<A(!new), B(!new)>(cs: Settings, ct: Settings, c: PairCall<A, B>, ms: map<A, Bucket>, mt: map<B, Bucket>)
    requires OneSlot(cs, ct) && PairCalled(cs, ct, c, map[], map[], ms, mt)
    ensures !SecondRefuses(c) && Waits(cs, ms, c.now, c.now)
  {
    var none: map<B, Bucket> := map[];
    FullAdmits(cs.policy, c.now);
    SlotTaken(cs, map[], c.s, c.now, ms);
    TargetAdmits(ct, none, c.now - FillTime(ct.policy), Call(c.t, c.now, c.second.value), mt);
  }

  lemma NextCall<A(!new), B(!new)>(cs: Settings, ct: Settings, ms: map<A, Bucket>, mt: map<B, Bucket>, paid: real, clock: real,
                                   c: PairCall<A, B>, ms': map<A, Bucket>, mt': map<B, Bucket>)
    requires OneSlot(cs, ct) && KeepsLongEnough(cs) && clock <= c.now && PairCalled(cs, ct, c, ms, mt, ms', mt')
    requires Waits(cs, ms, paid, clock) && AllSound(mt, ct.policy, paid) && |mt| <= ct.capacity && |ms| <= 1
    ensures !SecondRefuses(c) && Waits(cs, ms', if c.first.Admitted? then c.now else paid, c.now)
    ensures !c.first.Admitted? ==> mt' == mt
  {
    if c.first.Admitted? {
      SlotGranted(cs, ms, paid, clock, c.s, c.now, ms');
      SlotTaken(cs, ms, c.s, c.now, ms');
      TargetAdmits(ct, mt, paid, Call(c.t, c.now, c.second.value), mt');
    } else {
      SlotRefused(cs, ms, paid, clock, Call(c.s, c.now, c.first), ms');
    }
  }

  /** In no run of paired calls does the second limiter ever refuse. */
  lemma {:induction false} SecondNeverRefuses<A(!new), B(!new)>(cs: Settings, ct: Settings, r: Trace<A, B>) returns (paid: real)
    requires OneSlot(cs, ct) && KeepsLongEnough(cs) && KeepsLongEnough(ct) && PairRun(cs, ct, r) && r.After?
    ensures Waits(cs, r.sources, paid, r.call.now) && AllSound(r.targets, ct.policy, paid)
    ensures !SecondRefuses(r.call)
  {
    EntriesFit(cs, ct, r, r.call.now);
    RunBefore(cs, ct, r);
    if r.before.Fresh? {
      FirstCall(cs, ct, r.call, r.sources, r.targets);
      paid := r.call.now;
    } else {
      paid := SecondNeverRefuses(cs, ct, r.before);
      EntriesFit(cs, ct, r.before, r.call.now);
      NextCall(cs, ct, r.before.sources, r.before.targets, paid, r.before.call.now, r.call, r.sources, r.targets);
      paid := if r.call.first.Admitted? then r.call.now else paid;
    }
  }

  lemma EntriesFit<A(!new), B(!new)>(cs: Settings, ct: Settings, r: Trace<A, B>, clock: real)
    requires KeepsLongEnough(cs) && KeepsLongEnough(ct) && PairRun(cs, ct, r) && Until(r, clock)
    ensures AllSound(TargetsOf(r), ct.policy, clock) && |TargetsOf(r)| <= ct.capacity && |SourcesOf(r)| <= cs.capacity
  {
    BothReached(cs, ct, r, clock);
    ReachedSound(cs, SourcesOf(r), clock);
    ReachedSound(ct, TargetsOf(r), clock);
  }

  /** There the seconds are enough however slowly sources gain tokens: without room for two sources the rule has exceptions. */
  lemma OneSlotSuffices<A(!new), B(!new)>(cs: Settings, ct: Settings)
    requires OneSlot(cs, ct) && KeepsLongEnough(cs) && KeepsLongEnough(ct)
    ensures SecondsSuffice<A, B>(cs, ct)
  {
    forall r: Trace<A, B> | PairRun(cs, ct, r) && r.After?
      ensures !SecondRefuses(r.call)
    {
      var _ := SecondNeverRefuses(cs, ct, r);
    }
  }

  // ---- The operations in service ----

  /** Of the three operations that ask two limiters, only polling advertises enough after its second refuses. */
  lemma OnlyPollingAdvertisesEnough<A(!new), B(!new)>(s: A, other: A, t: B)
    requires s != other
    ensures SecondsSuffice<A, B>(Serving(POLL_SOURCE, SOURCES), Serving(POLL_REQUEST, IDENTIFIERS))
    ensures !SecondsSuffice<A, B>(Serving(CREATE_SOURCE, SOURCES), Serving(CREATE_DEVICE, IDENTIFIERS))
    ensures !SecondsSuffice<A, B>(Serving(ACTIVATE_SOURCE, SOURCES), Serving(ACTIVATE_REQUEST, IDENTIFIERS))
  {
    SecondsSufficeExactly(Serving(POLL_SOURCE, SOURCES), Serving(POLL_REQUEST, IDENTIFIERS), s, other, t);
    SecondsSufficeExactly(Serving(CREATE_SOURCE, SOURCES), Serving(CREATE_DEVICE, IDENTIFIERS), s, other, t);
    SecondsSufficeExactly(Serving(ACTIVATE_SOURCE, SOURCES), Serving(ACTIVATE_REQUEST, IDENTIFIERS), s, other, t);
  }

  // ---- One source suffices for that ----

  /** Creating (a burst of 24) and activating (16) differ in nothing else. */
  function Patient(burst: int): Settings
    requires burst > 0
  {
    Serving(Limits(burst, 5.0), SOURCES)
  }

  ghost predicate AloneLeads<A(!new), B(!new)>(burst: int, r: Trace<A, B>, s: A, a: real, t: B, b: real, now: real)
    requires burst > 0
  {
    Leads(Patient(burst), Serving(CREATE_DEVICE, IDENTIFIERS), r, Only(s, a, now), Only(t, b, now), now)
  }

  lemma AloneLevel<K>(c: Settings, key: K, level: real, clock: real, now: real, gain: real)
    requires clock <= now < clock + c.ttl && gain == (now - clock) / c.policy.refill
    ensures TokensAt(BucketFor(Retained(Only(key, level, clock), c.ttl, now), c.policy, key, now), c.policy, now)
            == MinReal(level + gain, c.policy.burst as real)
  {
    assert Retained(Only(key, level, clock), c.ttl, now) == Only(key, level, clock);
  }

  /** A later call, by when the source has gained `x` tokens and the device `y`. */
  lemma AloneNext<A(!new), B(!new)>(burst: int, r: Trace<A, B>, s: A, a: real, t: B, b: real, clock: real, now: real, x: real, y: real,
                                    a': real, b': real)
    returns (r': Trace<A, B>)
    requires burst > 0 && AloneLeads(burst, r, s, a, t, b, clock) && clock <= now < clock + HOUR_TTL
    requires x == (now - clock) / 5.0 && a' + 1.0 == MinReal(a + x, burst as real) >= 1.0
    requires y == (now - clock) / 30.0 && b' == if b + y < 1.0 then b + y else MinReal(b + y, 6.0) - 1.0
    ensures AloneLeads(burst, r', s, a', t, b', now)
  {
    var cs, ct := Patient(burst), Serving(CREATE_DEVICE, IDENTIFIERS);
    AloneLevel(cs, s, a, clock, now, x);
    AloneLevel(ct, t, b, clock, now, y);
    r' := LonePair(cs, ct, r, Only(s, a, clock), Only(t, b, clock), clock, s, t, now, a' + 1.0, MinReal(b + y, 6.0));
  }

  /** One source has asked many times for one device. */
  lemma AloneRun<A(!new), B(!new)>(burst: int, s: A, t: B) returns (r: Trace<A, B>)
    requires burst >= 6
    ensures AloneLeads(burst, r, s, 1.7, t, 29.5 / 30.0, 59.5)
  {
    var cs, ct, most := Patient(burst), Serving(CREATE_DEVICE, IDENTIFIERS), burst as real;
    r := EmptyTarget(cs, ct, s, t, most - 6.0);
    r := AloneNext(burst, r, s, most - 6.0, t, 0.0, 0.0, 30.0, 6.0, 1.0, most - 1.0, 0.0);
    r := AloneNext(burst, r, s, most - 1.0, t, 0.0, 30.0, 36.0, 1.2, 0.2, most - 1.0, 0.2);
    r := SourceTimes(cs, ct, r, s, t, 36.0, most - 1.0, 0.2, burst - 2, 1.0);
    r := AloneNext(burst, r, s, 1.0, t, 0.2, 36.0, 59.5, 4.7, 23.5 / 30.0, 4.7, 29.5 / 30.0);
    r := SourceTimes(cs, ct, r, s, t, 59.5, 4.7, 29.5 / 30.0, 3, 1.7);
  }

  /** The last two calls: refused by the device for half a second, and one second later by the source. */
  ghost predicate RefusedTwice<A(!new), B(!new)>(cs: Settings, ct: Settings, s: A, t: B) {
    && PairStep(cs, ct, Only(s, 1.7, 59.5), Only(t, 29.5 / 30.0, 59.5), s, t, 59.5, Admitted, Some(Throttled(0.5)),
                Only(s, 0.7, 59.5), Only(t, 29.5 / 30.0, 59.5))
    && Advertised(Admitted, Some(Throttled(0.5))) == 1
    && PairStep(cs, ct, Only(s, 0.7, 59.5), Only(t, 29.5 / 30.0, 59.5), s, t, 60.5, Throttled(0.5), None,
                Only(s, 0.9, 60.5), Only(t, 29.5 / 30.0, 59.5))
  }

  /**
   Creating and activating, each in one run of calls by one source for one device or request: at 59.5 the source admits
   and the other limiter refuses for half a second; one second is advertised; at 60.5 the source refuses.
   */
  lemma AloneRetryIsRefused<A(!new), B(!new)>(s: A, t: B) returns (creating: Trace<A, B>, activating: Trace<A, B>)
    ensures var cs, ct := Serving(CREATE_SOURCE, SOURCES), Serving(CREATE_DEVICE, IDENTIFIERS);
            Leads(cs, ct, creating, Only(s, 1.7, 59.5), Only(t, 29.5 / 30.0, 59.5), 59.5) && RefusedTwice(cs, ct, s, t)
    ensures var cs, ct := Serving(ACTIVATE_SOURCE, SOURCES), Serving(ACTIVATE_REQUEST, IDENTIFIERS);
            Leads(cs, ct, activating, Only(s, 1.7, 59.5), Only(t, 29.5 / 30.0, 59.5), 59.5) && RefusedTwice(cs, ct, s, t)
  {
    creating := AloneRun(24, s, t);
    activating := AloneRun(16, s, t);
    LastTwoCalls(24, s, t);
    LastTwoCalls(16, s, t);
  }

  lemma LastTwoCalls<A(!new), B(!new)>(burst: int, s: A, t: B)
    requires burst >= 2
    ensures RefusedTwice(Patient(burst), Serving(CREATE_DEVICE, IDENTIFIERS), s, t)
  {
    var cs, ct := Patient(burst), Serving(CREATE_DEVICE, IDENTIFIERS);
    LoneStep(cs, Only(s, 1.7, 59.5), s, 59.5);
    LoneStep(ct, Only(t, 29.5 / 30.0, 59.5), t, 59.5);
    LoneStep(cs, Only(s, 0.7, 59.5), s, 60.5);
  }
}
